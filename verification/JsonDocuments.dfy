/** Nested documents: whatever is written down as JSON is read back as what it means. */
module JsonDocuments {
  import opened Wrappers
  import opened Json

  /** A document as it is written: members in order, equal names included. */
  datatype Tree =
    | NullTree | BoolTree(b: bool) | NumberTree(literal: Text) | StringTree(s: Text)
    | ObjectTree(members: seq<Member>) | ArrayTree(items: seq<Tree>)

  datatype Member = Member(name: Text, value: Tree)

  // ----- What a document means -----

  function Meaning(t: Tree): Value
    decreases t, 1, 0
  {
    match t
    case NullTree => Null
    case BoolTree(b) => Bool(b)
    case NumberTree(literal) => Number(literal)
    case StringTree(s) => String(s)
    case ObjectTree(members) => Object(FirstMembers(t, |members|))
    case ArrayTree(items) => Array(FirstItems(t, |items|))
  }

  /** Of the first `n` members, those whose name did not come before. */
  function FirstMembers(t: Tree, n: nat): map<Text, Value>
    requires t.ObjectTree? && n <= |t.members|
    decreases t, 0, n
  {
    if n == 0 then map[]
    else Emplaced(FirstMembers(t, n - 1), t.members[n - 1].name, Meaning(t.members[n - 1].value))
  }

  function FirstItems(t: Tree, n: nat): seq<Value>
    requires t.ArrayTree? && n <= |t.items|
    decreases t, 0, n
  {
    if n == 0 then [] else FirstItems(t, n - 1) + [Meaning(t.items[n - 1])]
  }

  // ----- How it is written -----

  /** A number the scanner takes whole and the conversion accepts. */
  predicate IsNumber(literal: Text, converts: Converts) {
    && literal != [] && (literal[0] == 45 || IsDigit(literal[0]))
    && NumberLength(literal) == |literal| && converts(literal)
  }

  predicate Writable(t: Tree, converts: Converts) {
    match t
    case NumberTree(literal) => IsNumber(literal, converts)
    case ObjectTree(members) => forall i :: 0 <= i < |members| ==> Writable(members[i].value, converts)
    case ArrayTree(items) => forall i :: 0 <= i < |items| ==> Writable(items[i], converts)
    case _ => true
  }

  predicate Blank(gap: Text) {
    forall i :: 0 <= i < |gap| ==> IsSpace(gap[i])
  }

  function Quoted(s: Text): Text {
    [QUOTE] + Escaped(s) + [QUOTE]
  }

  /** A value with white space before each of its tokens. */
  function Written(t: Tree, gap: Text): Text
    decreases t, 2, 0
  {
    gap + Bare(t, gap)
  }

  function Bare(t: Tree, gap: Text): Text
    decreases t, 1, 0
  {
    match t
    case NullTree => NULL
    case BoolTree(b) => if b then TRUE else FALSE
    case NumberTree(literal) => literal
    case StringTree(s) => Quoted(s)
    case ObjectTree(members) => [123] + (if members == [] then gap + [125] else WrittenMembers(t, 0, gap))
    case ArrayTree(items) => [91] + (if items == [] then gap + [93] else WrittenItems(t, 0, gap))
  }

  function WrittenMembers(t: Tree, i: nat, gap: Text): Text
    requires t.ObjectTree? && i < |t.members|
    decreases t, 0, |t.members| - i, 1
  {
    gap + Quoted(t.members[i].name) + (gap + [58] + (Written(t.members[i].value, gap) + AfterMember(t, i, gap)))
  }

  function AfterMember(t: Tree, i: nat, gap: Text): Text
    requires t.ObjectTree? && i < |t.members|
    decreases t, 0, |t.members| - i, 0
  {
    gap + (if i + 1 == |t.members| then [125] else [44] + WrittenMembers(t, i + 1, gap))
  }

  function WrittenItems(t: Tree, i: nat, gap: Text): Text
    requires t.ArrayTree? && i < |t.items|
    decreases t, 0, |t.items| - i, 1
  {
    Written(t.items[i], gap) + AfterItem(t, i, gap)
  }

  function AfterItem(t: Tree, i: nat, gap: Text): Text
    requires t.ArrayTree? && i < |t.items|
    decreases t, 0, |t.items| - i, 0
  {
    gap + (if i + 1 == |t.items| then [93] else [44] + WrittenItems(t, i + 1, gap))
  }

  // ----- Tokens are read back -----

  lemma {:induction false} SkipBlank(gap: Text, rest: Text)
    requires Blank(gap)
    ensures Skip(gap + rest) == Skip(rest)
  {
    if gap == [] {
      assert gap + rest == rest;
    } else {
      assert (gap + rest)[1..] == gap[1..] + rest;
      SkipBlank(gap[1..], rest);
    }
  }

  lemma ConsumeToken(gap: Text, c: Byte, rest: Text, expected: Byte)
    requires Blank(gap) && !IsSpace(c)
    ensures Consume(gap + [c] + rest, expected) == if c == expected then Some(rest) else None
  {
    SkipBlank(gap, [c] + rest);
    assert gap + [c] + rest == gap + ([c] + rest);
    assert ([c] + rest)[1..] == rest;
  }

  lemma StringBack(gap: Text, s: Text, rest: Text)
    requires Blank(gap)
    ensures ReadString(gap + Quoted(s) + rest) == Some((s, rest))
  {
    hide Escaped, StringBody;
    var body := Escaped(s) + [QUOTE] + rest;
    assert gap + Quoted(s) + rest == gap + [QUOTE] + body;
    ConsumeToken(gap, QUOTE, body, QUOTE);
    EscapedBack(s, rest, []);
    assert [] + s == s;
  }

  /** What may stand behind a number. */
  predicate Stops(rest: Text) {
    rest == [] || (!IsDigit(rest[0]) && rest[0] != 46)
  }

  lemma {:induction false} DigitsStop(a: Text, rest: Text)
    requires Stops(rest)
    ensures Digits(a + rest) == Digits(a)
  {
    if a == [] {
      assert a + rest == rest;
    } else {
      assert (a + rest)[1..] == a[1..] + rest;
      DigitsStop(a[1..], rest);
    }
  }

  lemma NumberStops(literal: Text, rest: Text)
    requires literal != [] && NumberLength(literal) == |literal| && Stops(rest)
    ensures NumberLength(literal + rest) == |literal|
  {
    hide Digits;
    var sign, all := Sign(literal), literal + rest;
    DigitsStop(literal[sign..], rest);
    assert all[sign..] == literal[sign..] + rest;
    var whole := sign + Digits(literal[sign..]);
    assert all[whole..] == literal[whole..] + rest;
    if whole < |literal| {
      DigitsStop(literal[whole..][1..], rest);
      assert all[whole..][1..] == literal[whole..][1..] + rest;
    }
  }

  // ----- Values are read back -----

  /** How a value begins: never with white space, nor with what ends a list. */
  lemma BareStarts(t: Tree, gap: Text, converts: Converts)
    requires Writable(t, converts)
    ensures Bare(t, gap) != [] && !IsSpace(Bare(t, gap)[0]) && Bare(t, gap)[0] !in {44, 93, 125}
  {
  }

  lemma SkipToBare(t: Tree, gap: Text, rest: Text, converts: Converts)
    requires Writable(t, converts) && Blank(gap)
    ensures Skip(Written(t, gap) + rest) == Bare(t, gap) + rest
    ensures Consume(Written(t, gap) + rest, 93) == None
  {
    hide Bare;
    BareStarts(t, gap, converts);
    assert Written(t, gap) + rest == gap + (Bare(t, gap) + rest);
    SkipBlank(gap, Bare(t, gap) + rest);
  }

  /** Reading a value whose first token is at hand, or behind white space, is the same. */
  lemma ReadBare(t: Tree, gap: Text, rest: Text, converts: Converts)
    requires Writable(t, converts) && Blank(gap)
    ensures ReadValue(Written(t, gap) + rest, converts) == ReadValue(Bare(t, gap) + rest, converts)
  {
    hide Bare, Written;
    SkipToBare(t, gap, rest, converts);
    SkippedValue(Written(t, gap) + rest, converts);
  }

  lemma {:induction false} ValueBack(t: Tree, gap: Text, rest: Text, converts: Converts)
    requires Writable(t, converts) && Blank(gap) && Stops(rest)
    ensures ReadValue(Written(t, gap) + rest, converts) == Some((Meaning(t), rest))
    decreases t, 2, 0
  {
    ReadBare(t, gap, rest, converts);
    match t {
      case NumberTree(literal) => NumberBack(literal, rest, converts);
      case StringTree(s) => StringValueBack(s, rest, converts);
      case ObjectTree(_) => ObjectBack(t, gap, rest, converts);
      case ArrayTree(_) => ArrayBack(t, gap, rest, converts);
      case _ => LiteralBack(t, gap, rest, converts);
    }
  }

  lemma NumberBack(literal: Text, rest: Text, converts: Converts)
    requires IsNumber(literal, converts) && Stops(rest)
    ensures ReadValue(literal + rest, converts) == Some((Number(literal), rest))
  {
    hide NumberLength, ReadObject, ReadArray, ReadString, Literal;
    NumberStops(literal, rest);
    var s := literal + rest;
    assert Skip(s) == s;
    assert s[..|literal|] == literal && s[|literal|..] == rest;
  }

  lemma StringValueBack(s: Text, rest: Text, converts: Converts)
    ensures ReadValue(Quoted(s) + rest, converts) == Some((String(s), rest))
  {
    StringBack([], s, rest);
    hide ReadObject, ReadArray, NumberLength, Literal, ReadString, Escaped;
    assert [] + Quoted(s) + rest == Quoted(s) + rest;
    assert (Quoted(s) + rest)[0] == QUOTE;
    assert Skip(Quoted(s) + rest) == Quoted(s) + rest;
  }

  lemma LiteralBack(t: Tree, gap: Text, rest: Text, converts: Converts)
    requires t.NullTree? || t.BoolTree?
    ensures ReadValue(Bare(t, gap) + rest, converts) == Some((Meaning(t), rest))
  {
    hide ReadObject, ReadArray, NumberLength, ReadString;
    var text, s := Bare(t, gap), Bare(t, gap) + rest;
    assert s[0] == text[0] && Skip(s) == s;
    assert text <= s && s[|text|..] == rest;
    assert TRUE <= s ==> s[0] == 116;
    assert FALSE <= s ==> s[0] == 102;
  }

  // ----- Lists are read back -----

  /** What follows a list's element stops a number, and goes on or ends. */
  lemma AfterElement(gap: Text, last: bool, close: Byte, more: Text, rest: Text)
    requires Blank(gap) && close in {93, 125}
    ensures var after := gap + (if last then [close] else [44] + more) + rest;
            && Stops(after)
            && Consume(after, close) == (if last then Some(rest) else None)
            && (!last ==> Consume(after, 44) == Some(more + rest))
  {
    var after := gap + (if last then [close] else [44] + more) + rest;
    if last {
      assert after == gap + [close] + rest;
      ConsumeToken(gap, close, rest, close);
    } else {
      assert after == gap + [44] + (more + rest);
      ConsumeToken(gap, 44, more + rest, close);
      ConsumeToken(gap, 44, more + rest, 44);
    }
  }

  lemma {:induction false} ItemsBack(t: Tree, i: nat, gap: Text, rest: Text, converts: Converts)
    requires t.ArrayTree? && i < |t.items| && Writable(t, converts) && Blank(gap)
    ensures ReadItems(WrittenItems(t, i, gap) + rest, FirstItems(t, i), converts) == Some((Meaning(t), rest))
    decreases t, 0, |t.items| - i
  {
    hide ReadValue, Consume, Stops, Written, Blank;
    var item, last := t.items[i], i + 1 == |t.items|;
    var after := AfterItem(t, i, gap) + rest;
    var more := if last then [] else WrittenItems(t, i + 1, gap);
    AfterElement(gap, last, 93, more, rest);
    assert WrittenItems(t, i, gap) + rest == Written(item, gap) + after;
    ValueBack(item, gap, after, converts);
    if !last { ItemsBack(t, i + 1, gap, rest, converts); }
  }

  /** Nothing changes when the white space before the first element is already gone. */
  lemma ItemsStart(t: Tree, gap: Text, rest: Text, converts: Converts)
    requires t.ArrayTree? && t.items != [] && Writable(t, converts) && Blank(gap)
    ensures Consume(WrittenItems(t, 0, gap) + rest, 93) == None
    ensures ReadItems(Skip(WrittenItems(t, 0, gap) + rest), [], converts) == ReadItems(WrittenItems(t, 0, gap) + rest, [], converts)
  {
    var after := AfterItem(t, 0, gap) + rest;
    assert WrittenItems(t, 0, gap) + rest == Written(t.items[0], gap) + after;
    hide ReadValue, Written, Consume, Skip, Bare, Writable, Blank;
    assert Writable(t.items[0], converts) by { WritableItem(t, 0, converts); }
    SkipToBare(t.items[0], gap, after, converts);
    SkippedValue(Written(t.items[0], gap) + after, converts);
  }

  lemma WritableItem(t: Tree, i: nat, converts: Converts)
    requires t.ArrayTree? && i < |t.items| && Writable(t, converts)
    ensures Writable(t.items[i], converts)
  {
  }

  lemma {:induction false} ArrayBack(t: Tree, gap: Text, rest: Text, converts: Converts)
    requires t.ArrayTree? && Writable(t, converts) && Blank(gap)
    ensures ReadValue(Bare(t, gap) + rest, converts) == Some((Meaning(t), rest))
    decreases t, 1, 0
  {
    hide ReadItems, ReadObject, NumberLength, ReadString, Literal, Written, WrittenItems, Writable;
    var s := Bare(t, gap) + rest;
    assert s[0] == 91 && Skip(s) == s;
    if t.items == [] {
      assert s[1..] == gap + [93] + rest;
      ConsumeToken(gap, 93, rest, 93);
    } else {
      assert s[1..] == WrittenItems(t, 0, gap) + rest;
      ItemsStart(t, gap, rest, converts);
      ItemsBack(t, 0, gap, rest, converts);
    }
  }

  lemma {:induction false} MembersBack(t: Tree, i: nat, gap: Text, rest: Text, converts: Converts)
    requires t.ObjectTree? && i < |t.members| && Writable(t, converts) && Blank(gap)
    ensures ReadMembers(WrittenMembers(t, i, gap) + rest, FirstMembers(t, i), converts) == Some((Meaning(t), rest))
    decreases t, 0, |t.members| - i
  {
    hide ReadValue, ReadString, Consume, Stops, Written, Quoted, Emplaced;
    var member, last := t.members[i], i + 1 == |t.members|;
    var after := AfterMember(t, i, gap) + rest;
    var value := Written(member.value, gap) + after;
    var more := if last then [] else WrittenMembers(t, i + 1, gap);
    assert WrittenMembers(t, i, gap) + rest == gap + Quoted(member.name) + (gap + [58] + value);
    StringBack(gap, member.name, gap + [58] + value);
    ConsumeToken(gap, 58, value, 58);
    AfterElement(gap, last, 125, more, rest);
    ValueBack(member.value, gap, after, converts);
    if !last {
      MembersBack(t, i + 1, gap, rest, converts);
      SkippedMembers(more + rest, FirstMembers(t, i + 1), converts);
    }
  }

  lemma SkippedMembers(rest: Text, members: map<Text, Value>, converts: Converts)
    ensures ReadMembers(Skip(rest), members, converts) == ReadMembers(rest, members, converts)
  {
    hide StringBody, ReadValue;
    SkipTwice(rest);
  }

  lemma {:induction false} ObjectBack(t: Tree, gap: Text, rest: Text, converts: Converts)
    requires t.ObjectTree? && Writable(t, converts) && Blank(gap)
    ensures ReadValue(Bare(t, gap) + rest, converts) == Some((Meaning(t), rest))
    decreases t, 1, 0
  {
    hide ReadMembers, ReadArray, NumberLength, ReadString, Literal, Written, WrittenMembers, Writable;
    var s := Bare(t, gap) + rest;
    assert s[0] == 123 && Skip(s) == s;
    if t.members == [] {
      assert s[1..] == gap + [125] + rest;
      ConsumeToken(gap, 125, rest, 125);
    } else {
      assert s[1..] == WrittenMembers(t, 0, gap) + rest;
      MembersStart(t, gap, rest);
      MembersBack(t, 0, gap, rest, converts);
      SkippedMembers(WrittenMembers(t, 0, gap) + rest, map[], converts);
    }
  }

  lemma MembersStart(t: Tree, gap: Text, rest: Text)
    requires t.ObjectTree? && t.members != [] && Blank(gap)
    ensures Consume(WrittenMembers(t, 0, gap) + rest, 125) == None
  {
    hide Consume, Escaped, Written, Blank;
    var name := t.members[0].name;
    var value := gap + [58] + (Written(t.members[0].value, gap) + AfterMember(t, 0, gap)) + rest;
    var body := Escaped(name) + [QUOTE] + value;
    assert WrittenMembers(t, 0, gap) + rest == gap + [QUOTE] + body;
    ConsumeToken(gap, QUOTE, body, 125);
  }

  // ----- Whole documents -----

  /** Every document, however deep and with whatever white space, is read as what it means. */
  lemma DocumentRoundTrip(t: Tree, gap: Text, converts: Converts)
    requires Writable(t, converts) && Blank(gap)
    ensures Document(Written(t, gap) + gap, converts) == Some(Meaning(t))
  {
    hide ReadValue, Written;
    ValueBack(t, gap, gap, converts);
    SkipBlank(gap, []);
    assert gap + [] == gap;
  }

  // ----- Every value can be written -----

  predicate Expressible(v: Value, converts: Converts) {
    match v
    case Number(literal) => IsNumber(literal, converts)
    case Object(members) => forall k :: k in members ==> Expressible(members[k], converts)
    case Array(items) => forall i :: 0 <= i < |items| ==> Expressible(items[i], converts)
    case _ => true
  }

  /** A way to write a value down, its members in some order. */
  lemma TreeOf(v: Value, converts: Converts) returns (t: Tree)
    requires Expressible(v, converts)
    ensures Writable(t, converts) && Meaning(t) == v
    decreases v, 1, 0
  {
    match v {
      case Null => t := NullTree;
      case Bool(b) => t := BoolTree(b);
      case Number(literal) => t := NumberTree(literal);
      case String(s) => t := StringTree(s);
      case Object(members) =>
        t := MembersOf(v, members.Keys, converts);
        assert (map k | k in members.Keys :: members[k]) == members;
      case Array(items) =>
        t := ItemsOf(v, |items|, converts);
        assert items[..|items|] == items;
    }
  }

  lemma ItemsOf(v: Value, n: nat, converts: Converts) returns (t: Tree)
    requires v.Array? && n <= |v.items| && Expressible(v, converts)
    ensures Writable(t, converts) && Meaning(t) == Array(v.items[..n])
    decreases v, 0, n
  {
    if n == 0 {
      t := ArrayTree([]);
    } else {
      var front := ItemsOf(v, n - 1, converts);
      var last := TreeOf(v.items[n - 1], converts);
      assert front.ArrayTree?;
      t := ArrayTree(front.items + [last]);
      SameItems(front, t, |front.items|);
    }
  }

  lemma {:induction false} SameItems(a: Tree, b: Tree, n: nat)
    requires a.ArrayTree? && b.ArrayTree? && n <= |a.items| && n <= |b.items| && a.items[..n] == b.items[..n]
    ensures FirstItems(a, n) == FirstItems(b, n)
    decreases n
  {
    if n > 0 {
      assert a.items[n - 1] == a.items[..n][n - 1] == b.items[..n][n - 1] == b.items[n - 1];
      assert a.items[..n - 1] == a.items[..n][..n - 1] == b.items[..n][..n - 1] == b.items[..n - 1];
      SameItems(a, b, n - 1);
    }
  }

  lemma MembersOf(v: Value, keys: set<Text>, converts: Converts) returns (t: Tree)
    requires v.Object? && keys <= v.members.Keys && Expressible(v, converts)
    ensures Writable(t, converts) && Meaning(t) == Object(map k | k in keys :: v.members[k])
    decreases v, 0, |keys|
  {
    if keys == {} {
      t := ObjectTree([]);
    } else {
      var k :| k in keys;
      var front := MembersOf(v, keys - {k}, converts);
      var value := TreeOf(v.members[k], converts);
      t := ObjectTree(front.members + [Member(k, value)]);
      SameMembers(front, t, |front.members|);
      hide Expressible;
      var before := map j | j in keys - {k} :: v.members[j];
      assert FirstMembers(t, |front.members|) == before;
      assert Meaning(t) == Object(before[k := v.members[k]]);
      assert before[k := v.members[k]] == map j | j in keys :: v.members[j];
    }
  }

  lemma {:induction false} SameMembers(a: Tree, b: Tree, n: nat)
    requires a.ObjectTree? && b.ObjectTree? && n <= |a.members| && n <= |b.members| && a.members[..n] == b.members[..n]
    ensures FirstMembers(a, n) == FirstMembers(b, n)
    decreases n
  {
    if n > 0 {
      assert a.members[n - 1] == a.members[..n][n - 1] == b.members[..n][n - 1] == b.members[n - 1];
      assert a.members[..n - 1] == a.members[..n][..n - 1] == b.members[..n][..n - 1] == b.members[..n - 1];
      SameMembers(a, b, n - 1);
    }
  }

  lemma {:induction false} DigitsTaken(rest: Text, n: nat)
    requires Digits(rest) <= n <= |rest|
    ensures Digits(rest[..n]) == Digits(rest)
  {
    if rest != [] && IsDigit(rest[0]) {
      assert rest[..n][1..] == rest[1..][..n - 1];
      DigitsTaken(rest[1..], n - 1);
    }
  }

  /** What the scanner takes of a text it also takes when nothing follows. */
  lemma NumberTaken(rest: Text)
    ensures NumberLength(rest[..NumberLength(rest)]) == NumberLength(rest)
  {
    hide Digits;
    var n, sign := NumberLength(rest), Sign(rest);
    var taken := rest[..n];
    var whole := sign + Digits(rest[sign..]);
    assert sign > 0 ==> taken[0] == rest[0];
    assert Sign(taken) == sign;
    assert taken[sign..] == rest[sign..][..n - sign];
    DigitsTaken(rest[sign..], n - sign);
    assert taken[whole..] == rest[whole..][..n - whole];
    if whole < n {
      assert taken[whole..][1..] == rest[whole..][1..][..n - whole - 1];
      DigitsTaken(rest[whole..][1..], n - whole - 1);
    }
  }

  lemma {:induction false} ReadIsExpressible(rest: Text, converts: Converts)
    ensures ReadValue(rest, converts).Some? ==> Expressible(ReadValue(rest, converts).value.0, converts)
    decreases |rest|, 1
  {
    hide ReadString, NumberLength, ReadMembers, ReadItems;
    var s := Skip(rest);
    if s != [] {
      if s[0] == 123 {
        ObjectIsExpressible(s, converts);
      } else if s[0] == 91 {
        ArrayIsExpressible(s, converts);
      } else {
        NumberTaken(s);
      }
    }
  }

  lemma {:induction false} ObjectIsExpressible(rest: Text, converts: Converts)
    ensures ReadObject(rest, converts).Some? ==> Expressible(ReadObject(rest, converts).value.0, converts)
    decreases |rest|, 0
  {
    hide ReadMembers;
    var after := Consume(rest, 123);
    if after.Some? { MembersAreExpressible(Skip(after.value), map[], converts); }
  }

  lemma {:induction false} ArrayIsExpressible(rest: Text, converts: Converts)
    ensures ReadArray(rest, converts).Some? ==> Expressible(ReadArray(rest, converts).value.0, converts)
    decreases |rest|, 0
  {
    hide ReadItems;
    var after := Consume(rest, 91);
    if after.Some? { ItemsAreExpressible(Skip(after.value), [], converts); }
  }

  lemma {:induction false} MembersAreExpressible(rest: Text, members: map<Text, Value>, converts: Converts)
    requires Expressible(Object(members), converts)
    ensures ReadMembers(rest, members, converts).Some? ==> Expressible(ReadMembers(rest, members, converts).value.0, converts)
    decreases |rest|, 2
  {
    hide ReadValue, ReadString, Consume;
    var key := ReadString(rest);
    if key.Some? {
      var colon := Consume(key.value.1, 58);
      if colon.Some? {
        ReadIsExpressible(colon.value, converts);
        var value := ReadValue(colon.value, converts);
        if value.Some? {
          var next := Consume(value.value.1, 44);
          if next.Some? {
            MembersAreExpressible(Skip(next.value), Emplaced(members, key.value.0, value.value.0), converts);
          }
        }
      }
    }
  }

  lemma {:induction false} ItemsAreExpressible(rest: Text, items: seq<Value>, converts: Converts)
    requires Expressible(Array(items), converts)
    ensures ReadItems(rest, items, converts).Some? ==> Expressible(ReadItems(rest, items, converts).value.0, converts)
    decreases |rest|, 2
  {
    hide ReadValue, Consume;
    ReadIsExpressible(rest, converts);
    var value := ReadValue(rest, converts);
    if value.Some? {
      var next := Consume(value.value.1, 44);
      if next.Some? { ItemsAreExpressible(next.value, items + [value.value.0], converts); }
    }
  }

  /** What documents can say: the values whose every number is one the scanner takes
      whole and the conversion accepts, and no others. */
  lemma ReadableExactly(v: Value, converts: Converts)
    ensures (exists text :: Document(text, converts) == Some(v)) <==> Expressible(v, converts)
  {
    if Expressible(v, converts) {
      var t := TreeOf(v, converts);
      DocumentRoundTrip(t, [], converts);
    }
    if text :| Document(text, converts) == Some(v) {
      ReadIsExpressible(text, converts);
    }
  }
}
