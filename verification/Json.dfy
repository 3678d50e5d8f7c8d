/** JSON strings as the capture writer escapes them and the manifest parser reads
    them back, with the whole recursive parser around them. */
module Json {
  import opened Wrappers

  type Byte = x: int | 0 <= x < 256

  type Text = seq<Byte>

  const QUOTE: Byte := 34
  const BACKSLASH: Byte := 92

  // ----- Escaping -----

  function HexDigit(d: nat): Byte
    requires d < 16
  {
    if d < 10 then 48 + d else 97 + d - 10
  }

  function EscapedByte(b: Byte): (r: Text)
    ensures r != []
  {
    if b == QUOTE || b == BACKSLASH then [BACKSLASH, b]
    else if b == 8 then [BACKSLASH, 98]
    else if b == 12 then [BACKSLASH, 102]
    else if b == 10 then [BACKSLASH, 110]
    else if b == 13 then [BACKSLASH, 114]
    else if b == 9 then [BACKSLASH, 116]
    else if b < 32 then [BACKSLASH, 117, 48, 48, HexDigit(b / 16), HexDigit(b % 16)]
    else [b]
  }

  function Escaped(value: Text): Text {
    if value == [] then [] else EscapedByte(value[0]) + Escaped(value[1..])
  }

  method JsonEscaped(value: Text) returns (escaped: Text)
    ensures escaped == Escaped(value)
  {
    hide EscapedByte;
    escaped := [];
    var i := 0;
    while i < |value|
      invariant 0 <= i <= |value| && Escaped(value) == escaped + Escaped(value[i..])
    {
      ghost var tail := Escaped(value[i + 1..]);
      assert value[i..][1..] == value[i + 1..];
      assert escaped + (EscapedByte(value[i]) + tail) == escaped + EscapedByte(value[i]) + tail;
      escaped := escaped + EscapedByte(value[i]);
      i := i + 1;
    }
  }

  // ----- Unicode escapes -----

  function HexValue(c: Byte): Option<nat> {
    if 48 <= c <= 57 then Some(c - 48)
    else if 97 <= c <= 102 then Some(c - 97 + 10)
    else if 65 <= c <= 70 then Some(c - 65 + 10)
    else None
  }

  /** The value of `n` hexadecimal digits, first digit highest. */
  function HexNumber(digits: Text): (v: Option<nat>)
    decreases |digits|
  {
    if digits == [] then Some(0)
    else
      match (HexNumber(digits[..|digits| - 1]), HexValue(digits[|digits| - 1]))
      case (Some(high), Some(low)) => Some(16 * high + low)
      case _ => None
  }

  function HexQuad(rest: Text): Option<(nat, Text)> {
    if |rest| < 4 then None
    else
      match HexNumber(rest[..4])
      case None => None
      case Some(v) => Some((v, rest[4..]))
  }

  /** What follows a backslash and a `u`: one code unit, or a surrogate pair. */
  function UnicodeEscape(rest: Text): Option<(nat, Text)> {
    match HexQuad(rest)
    case None => None
    case Some((first, rest1)) =>
      if 0xD800 <= first <= 0xDBFF then
        if |rest1| < 6 || rest1[0] != BACKSLASH || rest1[1] != 117 then None
        else
          match HexQuad(rest1[2..])
          case None => None
          case Some((second, rest2)) =>
            if second < 0xDC00 || second > 0xDFFF then None
            else Some((0x10000 + (first - 0xD800) * 1024 + (second - 0xDC00), rest2))
      else if 0xDC00 <= first <= 0xDFFF then None
      else Some((first, rest1))
  }

  /** The bytes of a code point, from one to four. */
  function Utf8(codePoint: nat): Option<Text> {
    if codePoint <= 0x7F then Some([codePoint])
    else if codePoint <= 0x7FF then Some([0xC0 + codePoint / 64 % 32, 0x80 + codePoint % 64])
    else if codePoint <= 0xFFFF then Some([0xE0 + codePoint / 4096 % 16, 0x80 + codePoint / 64 % 64, 0x80 + codePoint % 64])
    else if codePoint <= 0x10FFFF then
      Some([0xF0 + codePoint / 262144 % 8, 0x80 + codePoint / 4096 % 64, 0x80 + codePoint / 64 % 64, 0x80 + codePoint % 64])
    else None
  }

  // ----- Strings -----

  function SimpleEscape(c: Byte): Option<Byte> {
    if c == QUOTE || c == BACKSLASH || c == 47 then Some(c)
    else if c == 98 then Some(8)
    else if c == 102 then Some(12)
    else if c == 110 then Some(10)
    else if c == 114 then Some(13)
    else if c == 116 then Some(9)
    else None
  }

  /** The bytes one escape stands for, given what follows the backslash. */
  function ReadEscape(rest: Text): (r: Option<(Text, Text)>)
    ensures r.Some? ==> |r.value.1| < |rest|
  {
    if rest == [] then None
    else if rest[0] == 117 then
      match UnicodeEscape(rest[1..])
      case None => None
      case Some((codePoint, after)) =>
        match Utf8(codePoint)
        case None => None
        case Some(bytes) => Some((bytes, after))
    else
      match SimpleEscape(rest[0])
      case None => None
      case Some(b) => Some(([b], rest[1..]))
  }

  /** The rest of a string whose bytes so far are `value`. */
  function StringBody(rest: Text, value: Text): (r: Option<(Text, Text)>)
    ensures r.Some? ==> |r.value.1| < |rest|
    decreases |rest|
  {
    if rest == [] then None
    else if rest[0] == QUOTE then Some((value, rest[1..]))
    else if rest[0] != BACKSLASH then StringBody(rest[1..], value + [rest[0]])
    else
      match ReadEscape(rest[1..])
      case None => None
      case Some((bytes, after)) => StringBody(after, value + bytes)
  }

  predicate IsSpace(c: Byte) {
    c == 32 || 9 <= c <= 13
  }

  predicate IsDigit(c: Byte) {
    48 <= c <= 57
  }

  function Skip(rest: Text): (r: Text)
    ensures |r| <= |rest|
  {
    if rest != [] && IsSpace(rest[0]) then Skip(rest[1..]) else rest
  }

  function Consume(rest: Text, expected: Byte): (r: Option<Text>)
    ensures r.Some? ==> |r.value| < |rest|
  {
    var s := Skip(rest);
    if s != [] && s[0] == expected then Some(s[1..]) else None
  }

  function ReadString(rest: Text): (r: Option<(Text, Text)>)
    ensures r.Some? ==> |r.value.1| < |rest|
  {
    match Consume(rest, QUOTE)
    case None => None
    case Some(after) => StringBody(after, [])
  }

  // ----- Values -----

  /** A number is kept as its literal. */
  datatype Value =
    | Null | Bool(b: bool) | Number(literal: Text) | String(s: Text)
    | Object(members: map<Text, Value>) | Array(items: seq<Value>)

  /** Whether the C library converts the literal. */
  type Converts = Text -> bool

  function Digits(rest: Text): (n: nat)
    ensures n <= |rest|
  {
    if rest != [] && IsDigit(rest[0]) then 1 + Digits(rest[1..]) else 0
  }

  function Sign(rest: Text): (n: nat)
    ensures n <= |rest|
  {
    if rest != [] && rest[0] == 45 then 1 else 0
  }

  function Fraction(rest: Text): (n: nat)
    ensures n <= |rest|
  {
    if rest != [] && rest[0] == 46 then 1 + Digits(rest[1..]) else 0
  }

  /** The length of an optional sign, digits, and an optional point with digits. */
  function NumberLength(rest: Text): (n: nat)
    ensures n <= |rest|
    ensures rest != [] && (rest[0] == 45 || IsDigit(rest[0])) ==> n > 0
  {
    var whole := Sign(rest) + Digits(rest[Sign(rest)..]);
    whole + Fraction(rest[whole..])
  }

  const TRUE: Text := [116, 114, 117, 101]
  const FALSE: Text := [102, 97, 108, 115, 101]
  const NULL: Text := [110, 117, 108, 108]

  function Literal(s: Text): Option<(Value, nat)> {
    if TRUE <= s then Some((Bool(true), 4))
    else if FALSE <= s then Some((Bool(false), 5))
    else if NULL <= s then Some((Null, 4))
    else None
  }

  function ReadValue(rest: Text, converts: Converts): (r: Option<(Value, Text)>)
    ensures r.Some? ==> |r.value.1| < |rest|
    decreases |rest|, 1
  {
    var s := Skip(rest);
    if s == [] then None
    else if s[0] == 123 then ReadObject(s, converts)
    else if s[0] == 91 then ReadArray(s, converts)
    else if s[0] == QUOTE then
      match ReadString(s) case None => None case Some((v, after)) => Some((String(v), after))
    else if s[0] == 45 || IsDigit(s[0]) then
      var n := NumberLength(s);
      if converts(s[..n]) then Some((Number(s[..n]), s[n..])) else None
    else
      match Literal(s) case None => None case Some((v, n)) => Some((v, s[n..]))
  }

  function ReadObject(rest: Text, converts: Converts): (r: Option<(Value, Text)>)
    ensures r.Some? ==> |r.value.1| < |rest|
    decreases |rest|, 0
  {
    match Consume(rest, 123)
    case None => None
    case Some(after) =>
      match Consume(after, 125)
      case Some(end) => Some((Object(map[]), end))
      case None => ReadMembers(Skip(after), map[], converts)
  }

  /** Of two members with one name the first stays. */
  function Emplaced(members: map<Text, Value>, key: Text, value: Value): map<Text, Value> {
    if key in members then members else members[key := value]
  }

  function ReadMembers(rest: Text, members: map<Text, Value>, converts: Converts): (r: Option<(Value, Text)>)
    ensures r.Some? ==> |r.value.1| < |rest|
    decreases |rest|, 2
  {
    match ReadString(rest)
    case None => None
    case Some((key, afterKey)) =>
      match Consume(afterKey, 58)
      case None => None
      case Some(afterColon) =>
        match ReadValue(afterColon, converts)
        case None => None
        case Some((value, afterValue)) =>
          var more := Emplaced(members, key, value);
          match Consume(afterValue, 125)
          case Some(end) => Some((Object(more), end))
          case None =>
            match Consume(afterValue, 44)
            case None => None
            case Some(next) => ReadMembers(Skip(next), more, converts)
  }

  function ReadArray(rest: Text, converts: Converts): (r: Option<(Value, Text)>)
    ensures r.Some? ==> |r.value.1| < |rest|
    decreases |rest|, 0
  {
    match Consume(rest, 91)
    case None => None
    case Some(after) =>
      match Consume(after, 93)
      case Some(end) => Some((Array([]), end))
      case None => ReadItems(Skip(after), [], converts)
  }

  function ReadItems(rest: Text, items: seq<Value>, converts: Converts): (r: Option<(Value, Text)>)
    ensures r.Some? ==> |r.value.1| < |rest|
    decreases |rest|, 2
  {
    match ReadValue(rest, converts)
    case None => None
    case Some((value, afterValue)) =>
      match Consume(afterValue, 93)
      case Some(end) => Some((Array(items + [value]), end))
      case None =>
        match Consume(afterValue, 44)
        case None => None
        case Some(next) => ReadItems(next, items + [value], converts)
  }

  /** A whole document: one value and nothing but white space around it. */
  function Document(text: Text, converts: Converts): Option<Value> {
    match ReadValue(text, converts)
    case None => None
    case Some((value, after)) => if Skip(after) == [] then Some(value) else None
  }

  // ----- The parser object -----

  lemma {:induction false} SkipTwice(rest: Text)
    ensures Skip(Skip(rest)) == Skip(rest)
    ensures forall c: Byte :: Consume(Skip(rest), c) == Consume(rest, c)
    decreases |rest|
  {
    if rest != [] && IsSpace(rest[0]) { SkipTwice(rest[1..]); }
  }

  /** The state a parse leaves behind: on success `after` is what is left to read. */
  predicate Advanced(text: Text, before: nat, position: nat, after: Text) {
    before < position <= |text| && text[position..] == after
  }

  lemma TailOf(text: Text, start: nat, n: nat)
    requires start + n <= |text|
    ensures text[start..][n..] == text[start + n..] && text[start..][..n] == text[start..start + n]
  {
  }

  class Parser {
    const text: Text
    const converts: Converts
    var position: nat

    constructor (text: Text, converts: Converts)
      ensures this.text == text && this.converts == converts && position == 0
    {
      this.text, this.converts, position := text, converts, 0;
    }

    method SkipWhitespace()
      requires position <= |text|
      modifies this
      ensures old(position) <= position <= |text| && text[position..] == Skip(old(text[position..]))
    {
      while position < |text| && IsSpace(text[position])
        invariant old(position) <= position <= |text| && Skip(text[position..]) == Skip(old(text[position..]))
      {
        assert text[position..][1..] == text[position + 1..];
        position := position + 1;
      }
    }

    method TryConsume(expected: Byte) returns (ok: bool)
      requires position <= |text|
      modifies this
      ensures old(position) <= position <= |text|
      ensures ok <==> Consume(old(text[position..]), expected).Some?
      ensures ok ==> Advanced(text, old(position), position, Consume(old(text[position..]), expected).value)
      ensures !ok ==> text[position..] == Skip(old(text[position..]))
    {
      SkipWhitespace();
      if position < |text| && text[position] == expected {
        position := position + 1;
        return true;
      }
      ok := false;
    }

    method ParseHexQuad() returns (unit: Option<nat>)
      requires position <= |text|
      modifies this
      ensures old(position) <= position <= |text|
      ensures unit.Some? <==> HexQuad(old(text[position..])).Some?
      ensures unit.Some? ==> HexQuad(old(text[position..])) == Some((unit.value, text[position..])) && position == old(position) + 4
    {
      if position + 4 > |text| { return None; }
      ghost var quad := text[position..][..4];
      var codeUnit, i := 0, 0;
      while i < 4
        invariant 0 <= i <= 4 && position == old(position) && HexNumber(quad[..i]) == Some(codeUnit)
      {
        var digit := HexValue(text[position + i]);
        assert quad[..i + 1][..i] == quad[..i];
        if digit.None? {
          HexFails(quad, i);
          return None;
        }
        codeUnit := 16 * codeUnit + digit.value;
        i := i + 1;
      }
      assert quad[..4] == quad;
      position := position + 4;
      unit := Some(codeUnit);
    }

    method ParseUnicodeEscape() returns (codePoint: Option<nat>)
      requires position <= |text|
      modifies this
      ensures old(position) <= position <= |text|
      ensures codePoint.Some? <==> UnicodeEscape(old(text[position..])).Some?
      ensures codePoint.Some? ==> UnicodeEscape(old(text[position..])) == Some((codePoint.value, text[position..]))
    {
      hide HexQuad;
      var first := ParseHexQuad();
      if first.None? { return None; }
      if 0xD800 <= first.value <= 0xDBFF {
        if position + 6 > |text| || text[position] != BACKSLASH || text[position + 1] != 117 { return None; }
        assert text[position..][2..] == text[position + 2..];
        position := position + 2;
        var second := ParseHexQuad();
        if second.None? || second.value < 0xDC00 || second.value > 0xDFFF { return None; }
        return Some(0x10000 + (first.value - 0xD800) * 1024 + (second.value - 0xDC00));
      }
      if 0xDC00 <= first.value <= 0xDFFF { return None; }
      codePoint := first;
    }

    /** One escape, the backslash already behind. */
    method ParseEscape() returns (bytes: Option<Text>)
      requires position < |text|
      modifies this
      ensures old(position) < position <= |text|
      ensures bytes.Some? <==> ReadEscape(old(text[position..])).Some?
      ensures bytes.Some? ==> ReadEscape(old(text[position..])) == Some((bytes.value, text[position..]))
    {
      hide UnicodeEscape, Utf8;
      var escaped := text[position];
      assert text[position..][1..] == text[position + 1..];
      position := position + 1;
      if escaped == 117 {
        var codePoint := ParseUnicodeEscape();
        if codePoint.None? { return None; }
        return Utf8(codePoint.value);
      }
      var b := SimpleEscape(escaped);
      bytes := if b.Some? then Some([b.value]) else None;
    }

    method ParseString() returns (value: Option<Text>)
      requires position <= |text|
      modifies this
      ensures old(position) <= position <= |text|
      ensures value.Some? <==> ReadString(old(text[position..])).Some?
      ensures value.Some? ==> value.value == ReadString(old(text[position..])).value.0
      ensures value.Some? ==> Advanced(text, old(position), position, ReadString(old(text[position..])).value.1)
    {
      hide ReadEscape, Consume;
      var quoted := TryConsume(QUOTE);
      if !quoted { return None; }
      ghost var start := text[position..];
      var bytes: Text := [];
      while position < |text|
        invariant old(position) < position <= |text| && StringBody(text[position..], bytes) == StringBody(start, [])
        decreases |text| - position
      {
        var c := text[position];
        assert text[position..][1..] == text[position + 1..];
        position := position + 1;
        if c == QUOTE { return Some(bytes); }
        if c != BACKSLASH {
          bytes := bytes + [c];
        } else {
          if position >= |text| {
            NoEscape();
            return None;
          }
          var more := ParseEscape();
          if more.None? { return None; }
          bytes := bytes + more.value;
        }
      }
      value := None;
    }

    method ParseNumber() returns (value: Option<Value>)
      requires position < |text| && (text[position] == 45 || IsDigit(text[position]))
      modifies this
      ensures old(position) < position <= |text|
      ensures var rest := old(text[position..]);
              var n := NumberLength(rest);
              && position == old(position) + n
              && value == if converts(rest[..n]) then Some(Number(rest[..n])) else None
    {
      hide NumberLength;
      var start := position;
      ScanNumber();
      assert text[start..][..position - start] == text[start..position];
      value := if converts(text[start..position]) then Some(Number(text[start..position])) else None;
    }

    method ScanNumber()
      requires position < |text|
      modifies this
      ensures position == old(position) + NumberLength(old(text[position..])) <= |text|
    {
      hide Digits;
      ghost var start := position;
      if text[position] == 45 { position := position + 1; }
      TailOf(text, start, position - start);
      ParseDigits();
      TailOf(text, start, position - start);
      if position < |text| && text[position] == 46 {
        TailOf(text, position, 1);
        position := position + 1;
        ParseDigits();
      }
    }

    method ParseDigits()
      requires position <= |text|
      modifies this
      ensures position <= |text| && position == old(position) + Digits(old(text[position..]))
    {
      while position < |text| && IsDigit(text[position])
        invariant old(position) <= position <= |text|
        invariant position + Digits(text[position..]) == old(position) + Digits(old(text[position..]))
      {
        assert text[position..][1..] == text[position + 1..];
        position := position + 1;
      }
    }

    method ParseValue() returns (value: Option<Value>)
      requires position <= |text|
      modifies this
      ensures old(position) <= position <= |text|
      ensures value.Some? <==> ReadValue(old(text[position..]), converts).Some?
      ensures value.Some? ==> value.value == ReadValue(old(text[position..]), converts).value.0
      ensures value.Some? ==> Advanced(text, old(position), position, ReadValue(old(text[position..]), converts).value.1)
      decreases |text| - position, 1
    {
      hide ReadObject, ReadArray, ReadString, NumberLength, Skip;
      SkipWhitespace();
      if position >= |text| { return None; }
      var c := text[position];
      if c == 123 {
        value := ParseObject();
      } else if c == 91 {
        value := ParseArray();
      } else if c == QUOTE {
        var s := ParseString();
        value := if s.Some? then Some(String(s.value)) else None;
      } else if c == 45 || IsDigit(c) {
        value := ParseNumber();
      } else {
        var literal := Literal(text[position..]);
        if literal.None? { return None; }
        position := position + literal.value.1;
        value := Some(literal.value.0);
      }
    }

    method ParseObject() returns (value: Option<Value>)
      requires position <= |text|
      modifies this
      ensures old(position) <= position <= |text|
      ensures value.Some? <==> ReadObject(old(text[position..]), converts).Some?
      ensures value.Some? ==> value.value == ReadObject(old(text[position..]), converts).value.0
      ensures value.Some? ==> Advanced(text, old(position), position, ReadObject(old(text[position..]), converts).value.1)
      decreases |text| - position, 0
    {
      hide ReadString, ReadValue, Consume, Skip;
      var open := TryConsume(123);
      if !open { return None; }
      ghost var after := text[position..];
      SkipWhitespace();
      SkipTwice(after);
      var closed := TryConsume(125);
      if closed { return Some(Object(map[])); }
      var members: map<Text, Value> := map[];
      while true
        invariant old(position) < position <= |text|
        invariant ReadMembers(text[position..], members, converts) == ReadMembers(Skip(after), map[], converts)
        decreases |text| - position
      {
        var key := ParseString();
        if key.None? { return None; }
        SkipTwice(text[position..]);
        SkipWhitespace();
        var colon := TryConsume(58);
        if !colon { return None; }
        var member := ParseValue();
        if member.None? { return None; }
        members := Emplaced(members, key.value, member.value);
        SkipTwice(text[position..]);
        SkipWhitespace();
        var end := TryConsume(125);
        if end { return Some(Object(members)); }
        var comma := TryConsume(44);
        if !comma { return None; }
        SkipWhitespace();
      }
    }

    method ParseArray() returns (value: Option<Value>)
      requires position <= |text|
      modifies this
      ensures old(position) <= position <= |text|
      ensures value.Some? <==> ReadArray(old(text[position..]), converts).Some?
      ensures value.Some? ==> value.value == ReadArray(old(text[position..]), converts).value.0
      ensures value.Some? ==> Advanced(text, old(position), position, ReadArray(old(text[position..]), converts).value.1)
      decreases |text| - position, 0
    {
      hide ReadValue, Consume, Skip;
      var open := TryConsume(91);
      if !open { return None; }
      ghost var after := text[position..];
      SkipWhitespace();
      SkipTwice(after);
      var closed := TryConsume(93);
      if closed { return Some(Array([])); }
      var items: seq<Value> := [];
      while true
        invariant old(position) < position <= |text|
        invariant ReadItems(text[position..], items, converts) == ReadItems(Skip(after), [], converts)
        decreases |text| - position
      {
        var item := ParseValue();
        if item.None? { return None; }
        items := items + [item.value];
        SkipTwice(text[position..]);
        SkipWhitespace();
        var end := TryConsume(93);
        if end { return Some(Array(items)); }
        var comma := TryConsume(44);
        if !comma { return None; }
      }
    }

    method Parse() returns (value: Option<Value>)
      requires position == 0
      modifies this
      ensures value == Document(text, converts)
    {
      hide ReadValue, Skip;
      assert text[0..] == text;
      SkipWhitespace();
      SkippedValue(text, converts);
      value := ParseValue();
      SkipWhitespace();
      if value.None? || position != |text| { return None; }
    }
  }

  lemma NoEscape()
    ensures ReadEscape([]).None?
  {
  }

  lemma {:induction false} HexFails(digits: Text, i: nat)
    requires i < |digits| && HexValue(digits[i]).None?
    ensures HexNumber(digits).None?
    decreases |digits|
  {
    if i < |digits| - 1 { HexFails(digits[..|digits| - 1], i); }
  }

  lemma SkippedValue(text: Text, converts: Converts)
    ensures ReadValue(Skip(text), converts) == ReadValue(text, converts)
  {
    hide ReadObject, ReadArray, ReadString, NumberLength, Literal;
    SkipTwice(text);
  }

  // ----- The small tables -----

  /** White space is space, tab, line feed, vertical tab, form feed and carriage return;
      all that is at the front is skipped, and nothing else. */
  lemma {:induction false} SkipsWhiteSpace(rest: Text)
    ensures exists n: nat :: n <= |rest| && Skip(rest) == rest[n..]
              && (forall i :: 0 <= i < n ==> rest[i] in {9, 10, 11, 12, 13, 32})
              && (n < |rest| ==> rest[n] !in {9, 10, 11, 12, 13, 32})
  {
    if rest != [] && IsSpace(rest[0]) {
      SkipsWhiteSpace(rest[1..]);
      var n: nat :| n <= |rest[1..]| && Skip(rest[1..]) == rest[1..][n..]
                    && (forall i :: 0 <= i < n ==> rest[1..][i] in {9, 10, 11, 12, 13, 32})
                    && (n < |rest[1..]| ==> rest[1..][n] !in {9, 10, 11, 12, 13, 32});
      assert rest[1..][n..] == rest[n + 1..];
      forall i | 0 <= i < n + 1 ensures rest[i] in {9, 10, 11, 12, 13, 32} {
        if i > 0 { assert rest[i] == rest[1..][i - 1]; }
      }
    } else {
      assert rest[0..] == rest;
    }
  }

  predicate Spells(text: Text, word: string) {
    |text| == |word| && forall i :: 0 <= i < |text| ==> text[i] as int == word[i] as int
  }

  lemma LiteralsSpelledOut(c: Byte)
    ensures IsDigit(c) <==> c in {48, 49, 50, 51, 52, 53, 54, 55, 56, 57}
    ensures Spells(TRUE, "true") && Spells(FALSE, "false") && Spells(NULL, "null")
    ensures Spells([QUOTE], "\"") && Spells([BACKSLASH], "\\")
  {
  }

  /** Hexadecimal digits are read in both cases, and nothing else is one. */
  lemma HexDigitsBothCases(c: Byte, d: nat)
    ensures HexValue(c) == Some(d) <==>
              || (d < 10 && c == 48 + d)
              || (10 <= d < 16 && (c == 65 + (d - 10) || c == 97 + (d - 10)))
  {
  }

  /** The escapes of section 7 of RFC 8259, apart from `u`: the quote, the backslash and the
      slash stand for themselves, b, f, n, r and t for control bytes, and nothing else escapes. */
  lemma EscapesOfTheStandard(rest: Text)
    requires rest != [] && rest[0] != 117
    ensures ReadEscape(rest) ==
              if rest[0] in {34, 92, 47} then Some(([rest[0]], rest[1..]))
              else if rest[0] == 98 then Some(([8], rest[1..]))
              else if rest[0] == 102 then Some(([12], rest[1..]))
              else if rest[0] == 110 then Some(([10], rest[1..]))
              else if rest[0] == 114 then Some(([13], rest[1..]))
              else if rest[0] == 116 then Some(([9], rest[1..]))
              else None
  {
  }

  // ----- Strings come back -----

  lemma HexDigitBack(d: nat)
    requires d < 16
    ensures HexValue(HexDigit(d)) == Some(d)
  {
  }

  lemma HexQuadOf(a: Byte, b: Byte, c: Byte, d: Byte, rest: Text)
    requires HexValue(a).Some? && HexValue(b).Some? && HexValue(c).Some? && HexValue(d).Some?
    ensures HexQuad([a, b, c, d] + rest)
              == Some((4096 * HexValue(a).value + 256 * HexValue(b).value + 16 * HexValue(c).value + HexValue(d).value, rest))
  {
    hide HexValue;
    var text, quad := [a, b, c, d] + rest, [a, b, c, d];
    assert text[..4] == quad && text[4..] == rest;
    assert quad[..3] == [a, b, c] && [a, b, c][..2] == [a, b] && [a, b][..1] == [a] && [a][..0] == [];
    assert HexNumber([a]) == Some(HexValue(a).value);
    assert HexNumber([a, b]) == Some(16 * HexValue(a).value + HexValue(b).value);
    assert HexNumber([a, b, c]) == Some(256 * HexValue(a).value + 16 * HexValue(b).value + HexValue(c).value);
  }

  lemma ControlBack(b: Byte, rest: Text)
    requires b < 32
    ensures ReadEscape([117, 48, 48, HexDigit(b / 16), HexDigit(b % 16)] + rest) == Some(([b], rest))
  {
    var x, y := HexDigit(b / 16), HexDigit(b % 16);
    HexDigitBack(b / 16);
    HexDigitBack(b % 16);
    HexQuadOf(48, 48, x, y, rest);
    var text := [117, 48, 48, x, y] + rest;
    assert text[1..] == [48, 48, x, y] + rest;
  }

  lemma EscapedByteBack(b: Byte, rest: Text, value: Text)
    ensures StringBody(EscapedByte(b) + rest, value) == StringBody(rest, value + [b])
  {
    var text := EscapedByte(b) + rest;
    if EscapedByte(b) == [b] {
      assert text[1..] == rest;
    } else {
      hide UnicodeEscape;
      var tail := EscapedByte(b)[1..];
      assert text[1..] == tail + rest;
      if |tail| > 1 {
        hide ReadEscape;
        ControlBack(b, rest);
      } else {
        assert (tail + rest)[1..] == rest;
      }
    }
  }

  lemma EscapedHead(v: Text, after: Text)
    requires v != []
    ensures Escaped(v) + [QUOTE] + after == EscapedByte(v[0]) + (Escaped(v[1..]) + [QUOTE] + after)
  {
    hide EscapedByte;
    var (head, rest) := (EscapedByte(v[0]), Escaped(v[1..]));
    assert Escaped(v) == head + rest;
    assert head + rest + [QUOTE] + after == head + (rest + [QUOTE] + after);
  }

  lemma HeadMoved(value: Text, v: Text)
    requires v != []
    ensures value + [v[0]] + v[1..] == value + v
  {
  }

  /** Reading an escaped string gives the original bytes and stops at its quote. */
  lemma {:induction false} EscapedBack(v: Text, after: Text, value: Text)
    ensures StringBody(Escaped(v) + [QUOTE] + after, value) == Some((value + v, after))
    decreases |v|
  {
    if v == [] {
      var text := Escaped(v) + [QUOTE] + after;
      assert text == [QUOTE] + after && text[1..] == after && value + v == value;
    } else {
      hide StringBody, EscapedByte, Escaped;
      EscapedHead(v, after);
      EscapedByteBack(v[0], Escaped(v[1..]) + [QUOTE] + after, value);
      EscapedBack(v[1..], after, value + [v[0]]);
      HeadMoved(value, v);
    }
  }

  /** Every byte string survives escaping, quoting and parsing. */
  lemma StringRoundTrip(v: Text, converts: Converts)
    ensures Document([QUOTE] + Escaped(v) + [QUOTE], converts) == Some(String(v))
  {
    hide StringBody, Escaped, NumberLength, Literal, ReadObject, ReadArray;
    var text := [QUOTE] + Escaped(v) + [QUOTE];
    var body := Escaped(v) + [QUOTE] + [];
    assert text[1..] == body;
    EscapedBack(v, [], []);
    assert [] + v == v;
  }

  /** The escaped form holds no control byte. */
  lemma {:induction false} EscapedIsPrintable(v: Text)
    ensures forall i :: 0 <= i < |Escaped(v)| ==> Escaped(v)[i] >= 32
    decreases |v|
  {
    if v != [] {
      EscapedIsPrintable(v[1..]);
      forall i: nat | i < |EscapedByte(v[0])| ensures EscapedByte(v[0])[i] >= 32 {}
    }
  }

  // ----- Code points -----

  /** The Unicode scalar values. */
  predicate Scalar(codePoint: nat) {
    codePoint <= 0x10FFFF && !(0xD800 <= codePoint <= 0xDFFF)
  }

  predicate Continuation(b: Byte) {
    0x80 <= b < 0xC0
  }

  /** One character of section 3 of RFC 3629: shortest form only, no surrogates. */
  function DecodeUtf8(bytes: Text): Option<nat> {
    if |bytes| == 1 && bytes[0] < 0x80 then Some(bytes[0])
    else if |bytes| == 2 && 0xC0 <= bytes[0] < 0xE0 && Continuation(bytes[1]) then
      var v := 64 * (bytes[0] as int - 0xC0) + (bytes[1] as int - 0x80);
      if v >= 0x80 then Some(v) else None
    else if |bytes| == 3 && 0xE0 <= bytes[0] < 0xF0 && Continuation(bytes[1]) && Continuation(bytes[2]) then
      var v := 4096 * (bytes[0] as int - 0xE0) + 64 * (bytes[1] as int - 0x80) + (bytes[2] as int - 0x80);
      if v >= 0x800 && Scalar(v) then Some(v) else None
    else if |bytes| == 4 && 0xF0 <= bytes[0] < 0xF8 && Continuation(bytes[1]) && Continuation(bytes[2]) && Continuation(bytes[3]) then
      var v := 262144 * (bytes[0] as int - 0xF0) + 4096 * (bytes[1] as int - 0x80) + 64 * (bytes[2] as int - 0x80) + (bytes[3] as int - 0x80);
      if v >= 0x10000 && Scalar(v) then Some(v) else None
    else None
  }

  lemma Split2(v: nat)
    requires v <= 0x7FF
    ensures v == 64 * (v / 64 % 32) + v % 64
  {
  }

  lemma Split3(v: nat)
    requires v <= 0xFFFF
    ensures v == 4096 * (v / 4096 % 16) + 64 * (v / 64 % 64) + v % 64
  {
    assert v / 64 == 64 * (v / 4096) + v / 64 % 64;
  }

  lemma Split4(v: nat)
    requires v <= 0x10FFFF
    ensures v == 262144 * (v / 262144 % 8) + 4096 * (v / 4096 % 64) + 64 * (v / 64 % 64) + v % 64
  {
    assert v / 64 == 64 * (v / 4096) + v / 64 % 64;
    assert v / 4096 == 64 * (v / 262144) + v / 4096 % 64;
  }

  /** The bytes appended for a scalar value decode back to it. */
  lemma Utf8Back(codePoint: nat)
    requires Scalar(codePoint)
    ensures Utf8(codePoint).Some? && DecodeUtf8(Utf8(codePoint).value) == Some(codePoint)
  {
    if codePoint <= 0x7FF {
      Split2(codePoint);
    } else if codePoint <= 0xFFFF {
      Split3(codePoint);
    } else {
      Split4(codePoint);
    }
  }

  lemma {:induction false} HexBound(digits: Text, n: nat)
    requires HexNumber(digits).Some? && |digits| <= n <= 4
    ensures HexNumber(digits).value < (if n == 0 then 1 else if n == 1 then 16 else if n == 2 then 256 else if n == 3 then 4096 else 65536)
    decreases n
  {
    if digits != [] { HexBound(digits[..|digits| - 1], n - 1); }
  }

  /** Every accepted escape is a scalar value: no lone or swapped surrogate. */
  lemma EscapesAreScalars(rest: Text)
    requires UnicodeEscape(rest).Some?
    ensures Scalar(UnicodeEscape(rest).value.0)
    ensures Utf8(UnicodeEscape(rest).value.0).Some?
    ensures DecodeUtf8(Utf8(UnicodeEscape(rest).value.0).value) == Some(UnicodeEscape(rest).value.0)
  {
    hide HexNumber, Utf8, DecodeUtf8;
    HexBound(rest[..4], 4);
    Utf8Back(UnicodeEscape(rest).value.0);
  }

  function Quad(v: nat): Text
    requires v < 65536
  {
    [HexDigit(v / 4096), HexDigit(v / 256 % 16), HexDigit(v / 16 % 16), HexDigit(v % 16)]
  }

  lemma QuadBack(v: nat, rest: Text)
    requires v < 65536
    ensures HexQuad(Quad(v) + rest) == Some((v, rest))
  {
    hide HexValue, HexDigit, HexQuad;
    HexDigitBack(v / 4096);
    HexDigitBack(v / 256 % 16);
    HexDigitBack(v / 16 % 16);
    HexDigitBack(v % 16);
    HexQuadOf(HexDigit(v / 4096), HexDigit(v / 256 % 16), HexDigit(v / 16 % 16), HexDigit(v % 16), rest);
    Nibbles(v);
  }

  lemma Nibbles(v: nat)
    ensures v == 4096 * (v / 4096) + 256 * (v / 256 % 16) + 16 * (v / 16 % 16) + v % 16
  {
    assert v / 16 == 16 * (v / 256) + v / 16 % 16;
    assert v / 256 == 16 * (v / 4096) + v / 256 % 16;
  }

  /** The escape of section 7 of RFC 8259 for a code point. */
  function EscapeOf(codePoint: nat): Text
    requires Scalar(codePoint)
  {
    if codePoint < 0x10000 then Quad(codePoint)
    else
      var v := codePoint - 0x10000;
      Quad(0xD800 + v / 1024) + [BACKSLASH, 117] + Quad(0xDC00 + v % 1024)
  }

  /** Every scalar value has an escape, and it is accepted. */
  lemma ScalarsHaveEscapes(codePoint: nat, rest: Text)
    requires Scalar(codePoint)
    ensures UnicodeEscape(EscapeOf(codePoint) + rest) == Some((codePoint, rest))
  {
    hide Quad, HexQuad;
    if codePoint < 0x10000 {
      QuadBack(codePoint, rest);
    } else {
      var v := codePoint - 0x10000;
      var first, second := 0xD800 + v / 1024, 0xDC00 + v % 1024;
      var tail := [BACKSLASH, 117] + (Quad(second) + rest);
      assert EscapeOf(codePoint) + rest == Quad(first) + tail;
      QuadBack(first, tail);
      assert tail[2..] == Quad(second) + rest;
      QuadBack(second, rest);
      QuadSize(second);
    }
  }

  lemma QuadSize(v: nat)
    requires v < 65536
    ensures |Quad(v)| == 4
  {
  }

  // ----- Well-formed text stays well-formed -----

  /** The number of bytes a leading byte announces. */
  function Width(lead: Byte): nat {
    if lead < 0x80 then 1 else if lead < 0xE0 then 2 else if lead < 0xF0 then 3 else 4
  }

  /** A sequence of UTF-8 characters. */
  predicate WellFormed(s: Text)
    decreases |s|
  {
    s == [] || (Width(s[0]) <= |s| && DecodeUtf8(s[..Width(s[0])]).Some? && WellFormed(s[Width(s[0])..]))
  }

  lemma {:induction false} WellFormedAppend(a: Text, b: Text)
    requires WellFormed(a) && WellFormed(b)
    ensures WellFormed(a + b)
    decreases |a|
  {
    hide DecodeUtf8;
    if a == [] {
      assert a + b == b;
    } else {
      var n := Width(a[0]);
      WellFormedAppend(a[n..], b);
      assert (a + b)[..n] == a[..n] && (a + b)[n..] == a[n..] + b;
    }
  }

  lemma OneCharacter(c: Text)
    requires DecodeUtf8(c).Some?
    ensures |c| > 0 && |c| == Width(c[0]) && WellFormed(c)
  {
    assert c[..|c|] == c;
  }

  lemma CharacterBytes(c: Text)
    requires DecodeUtf8(c).Some? && |c| > 1
    ensures forall i :: 0 <= i < |c| ==> c[i] >= 0x80
  {
  }

  /** Leading ASCII can be cut off. */
  lemma {:induction false} CutAscii(s: Text, n: nat)
    requires WellFormed(s) && n <= |s| && forall i :: 0 <= i < n ==> s[i] < 0x80
    ensures WellFormed(s[n..])
    decreases n
  {
    if n == 0 {
      assert s[0..] == s;
    } else {
      CutAscii(s[1..], n - 1);
      assert s[1..][n - 1..] == s[n..];
    }
  }

  lemma {:induction false} HexIsAscii(digits: Text)
    requires HexNumber(digits).Some?
    ensures forall i :: 0 <= i < |digits| ==> digits[i] < 0x80
    decreases |digits|
  {
    if digits != [] { HexIsAscii(digits[..|digits| - 1]); }
  }

  lemma EscapeKeepsForm(rest: Text)
    requires WellFormed(rest) && ReadEscape(rest).Some?
    ensures WellFormed(ReadEscape(rest).value.0) && WellFormed(ReadEscape(rest).value.1)
  {
    hide WellFormed, DecodeUtf8, Utf8, HexNumber;
    if rest[0] == 117 {
      UnicodeCut(rest);
      EscapesAreScalars(rest[1..]);
      OneCharacter(ReadEscape(rest).value.0);
    } else {
      CutAscii(rest, 1);
      AsciiByte(ReadEscape(rest).value.0[0]);
    }
  }

  lemma AsciiByte(b: Byte)
    requires b < 0x80
    ensures WellFormed([b])
  {
    assert [b][..1] == [b] && [b][1..] == [];
  }

  lemma UnicodeCut(rest: Text)
    requires WellFormed(rest) && rest != [] && rest[0] == 117 && UnicodeEscape(rest[1..]).Some?
    ensures WellFormed(UnicodeEscape(rest[1..]).value.1)
  {
    hide WellFormed, HexNumber;
    CutAscii(rest, 1);
    var after := rest[1..];
    QuadCut(after);
    var rest1 := HexQuad(after).value.1;
    if 0xD800 <= HexQuad(after).value.0 <= 0xDBFF {
      CutAscii(rest1, 2);
      QuadCut(rest1[2..]);
    }
  }

  lemma QuadCut(rest: Text)
    requires WellFormed(rest) && HexQuad(rest).Some?
    ensures WellFormed(HexQuad(rest).value.1)
  {
    hide WellFormed, HexNumber;
    HexIsAscii(rest[..4]);
    forall i: nat | i < 4 ensures rest[i] < 0x80 {
      assert rest[i] == rest[..4][i];
    }
    CutAscii(rest, 4);
  }

  /** Bytes that are neither quote nor backslash are copied. */
  lemma {:induction false} CopiedBytes(rest: Text, value: Text, n: nat)
    requires n <= |rest| && forall i :: 0 <= i < n ==> rest[i] != QUOTE && rest[i] != BACKSLASH
    ensures StringBody(rest, value) == StringBody(rest[n..], value + rest[..n])
    decreases n
  {
    hide ReadEscape;
    if n == 0 {
      assert rest[0..] == rest && value + rest[..0] == value;
    } else {
      CopiedBytes(rest[1..], value + [rest[0]], n - 1);
      assert rest[1..][n - 1..] == rest[n..];
      assert value + [rest[0]] + rest[1..][..n - 1] == value + rest[..n];
    }
  }

  /** From well-formed UTF-8 the parser only makes well-formed UTF-8 strings,
      whatever is copied and whatever is escaped. */
  lemma {:induction false} StringsStayWellFormed(rest: Text, value: Text)
    requires WellFormed(rest) && WellFormed(value) && StringBody(rest, value).Some?
    ensures WellFormed(StringBody(rest, value).value.0) && WellFormed(StringBody(rest, value).value.1)
    decreases |rest|
  {
    hide DecodeUtf8, ReadEscape, WellFormed;
    if rest[0] == QUOTE {
      CutAscii(rest, 1);
    } else if rest[0] == BACKSLASH {
      CutAscii(rest, 1);
      EscapeKeepsForm(rest[1..]);
      var (bytes, after) := ReadEscape(rest[1..]).value;
      WellFormedAppend(value, bytes);
      StringsStayWellFormed(after, value + bytes);
    } else {
      var n := FirstCharacter(rest);
      CopiedBytes(rest, value, n);
      WellFormedAppend(value, rest[..n]);
      StringsStayWellFormed(rest[n..], value + rest[..n]);
    }
  }

  lemma FirstCharacter(rest: Text) returns (n: nat)
    requires WellFormed(rest) && rest != [] && rest[0] != QUOTE && rest[0] != BACKSLASH
    ensures 0 < n <= |rest| && WellFormed(rest[..n]) && WellFormed(rest[n..])
    ensures forall i :: 0 <= i < n ==> rest[i] != QUOTE && rest[i] != BACKSLASH
  {
    n := Width(rest[0]);
    var c := rest[..n];
    OneCharacter(c);
    if n > 1 { CharacterBytes(c); }
    forall i: nat | i < n ensures rest[i] != QUOTE && rest[i] != BACKSLASH {
      assert rest[i] == c[i];
    }
  }
}
