/** Resource descriptors and the text key they are memoised under. */
module VisualKeys {

  type Hash = x: int | 0 <= x < 0x1_0000_0000_0000_0000

  datatype Kind = UnknownKind | Tile | Sprite | BackgroundTile

  datatype Format = UnknownFormat | Indexed2 | Indexed4 | Rgba8888

  datatype Descriptor = Descriptor(
    machineId: string, kind: Kind, width: nat, height: nat, format: Format,
    sourceLabel: string, bank: nat, address: nat, index: nat, paletteRegister: string, paletteValue: nat,
    sourceHash: Hash, contentHash: Hash, paletteHash: Hash, paletteAwareHash: Hash)

  // ----- The key -----

  function Digit(d: nat): char
    requires d < 16
  {
    "0123456789abcdef"[d]
  }

  function Decimal(n: nat): string {
    if n < 10 then [Digit(n)] else Decimal(n / 10) + [Digit(n % 10)]
  }

  /** Exactly `width` hexadecimal digits. */
  function Hex(n: nat, width: nat): (s: string)
    ensures |s| == width
    decreases width
  {
    if width == 0 then "" else Hex(n / 16, width - 1) + [Digit(n % 16)]
  }

  function HashText(h: Hash): string {
    "0x" + Hex(h, 16)
  }

  function KindName(kind: Kind): string {
    match kind
    case UnknownKind => "Unknown"
    case Tile => "Tile"
    case Sprite => "Sprite"
    case BackgroundTile => "BackgroundTile"
  }

  function FormatName(format: Format): string {
    match format
    case UnknownFormat => "Unknown"
    case Indexed2 => "Indexed2"
    case Indexed4 => "Indexed4"
    case Rgba8888 => "Rgba8888"
  }

  function Size(width: nat, height: nat): string {
    Decimal(width) + "x" + Decimal(height)
  }

  function Fields(d: Descriptor): seq<string> {
    [d.machineId, KindName(d.kind), Size(d.width, d.height), FormatName(d.format), d.sourceLabel,
     Decimal(d.bank), Decimal(d.address), Decimal(d.index), d.paletteRegister, Decimal(d.paletteValue),
     HashText(d.sourceHash), HashText(d.contentHash), HashText(d.paletteHash), HashText(d.paletteAwareHash)]
  }

  function Joined(fields: seq<string>): string {
    if fields == [] then ""
    else if |fields| == 1 then fields[0]
    else fields[0] + "|" + Joined(fields[1..])
  }

  function Key(d: Descriptor): string {
    Joined(Fields(d))
  }

  function Count(c: char, s: string): nat {
    if s == "" then 0 else Count(c, s[1..]) + (if s[0] == c then 1 else 0)
  }

  /** The three free texts hold equally many separators on both sides. */
  predicate SameBars(a: Descriptor, b: Descriptor) {
    && Count('|', a.machineId) == Count('|', b.machineId)
    && Count('|', a.sourceLabel) == Count('|', b.sourceLabel)
    && Count('|', a.paletteRegister) == Count('|', b.paletteRegister)
  }

  /** The three free texts hold no separator. */
  predicate Barless(d: Descriptor) {
    '|' !in d.machineId && '|' !in d.sourceLabel && '|' !in d.paletteRegister
  }

  // ----- Keys tell descriptors apart -----

  lemma {:induction false} NoneCounted(c: char, s: string)
    ensures c !in s <==> Count(c, s) == 0
  {
    if s != "" {
      NoneCounted(c, s[1..]);
      assert s == [s[0]] + s[1..];
    }
  }

  /** Where the first parts hold equally many separators, the separator behind them
      is the same one. */
  lemma {:induction false} SplitOnce(sep: char, a: string, b: string, c: string, d: string)
    requires Count(sep, a) == Count(sep, c) && a + [sep] + b == c + [sep] + d
    ensures a == c && b == d
    decreases |a|
  {
    var left, right := a + [sep] + b, c + [sep] + d;
    assert left[0] == right[0];
    assert (a != [] ==> left[0] == a[0]) && (c != [] ==> right[0] == c[0]);
    if a == [] || c == [] {
      assert b == left[1..] && d == right[1..];
    } else {
      assert a[0] == left[0] == right[0] == c[0];
      assert left[1..] == a[1..] + [sep] + b && right[1..] == c[1..] + [sep] + d;
      SplitOnce(sep, a[1..], b, c[1..], d);
      assert a == [a[0]] + a[1..] && c == [c[0]] + c[1..];
    }
  }

  lemma {:induction false} JoinedOnce(a: seq<string>, b: seq<string>)
    requires |a| == |b| && Joined(a) == Joined(b)
    requires forall i :: 0 <= i < |a| ==> Count('|', a[i]) == Count('|', b[i])
    ensures a == b
    decreases |a|
  {
    if |a| > 1 {
      SplitOnce('|', a[0], Joined(a[1..]), b[0], Joined(b[1..]));
      JoinedOnce(a[1..], b[1..]);
      assert a == [a[0]] + a[1..] && b == [b[0]] + b[1..];
    }
  }

  lemma DigitOnce(a: nat, b: nat)
    requires a < 16 && b < 16 && Digit(a) == Digit(b)
    ensures a == b
  {
  }

  lemma DigitIsPlain(d: nat)
    requires d < 16
    ensures Digit(d) != '|' && Digit(d) != 'x'
  {
  }

  lemma {:induction false} DecimalIsPlain(n: nat)
    ensures '|' !in Decimal(n) && 'x' !in Decimal(n) && Decimal(n) != ""
    decreases n
  {
    hide Digit;
    DigitIsPlain(n % 10);
    if n >= 10 { DecimalIsPlain(n / 10); }
  }

  lemma LastChar(a: string, x: char, b: string, y: char)
    requires a + [x] == b + [y]
    ensures a == b && x == y
  {
    var s := a + [x];
    assert s[..|s| - 1] == a && (b + [y])[..|s| - 1] == b && s[|s| - 1] == x;
  }

  lemma {:induction false} DecimalOnce(a: nat, b: nat)
    requires Decimal(a) == Decimal(b)
    ensures a == b
    decreases a
  {
    hide Digit;
    DecimalIsPlain(a / 10);
    DecimalIsPlain(b / 10);
    assert (a < 10 <==> |Decimal(a)| == 1) && (b < 10 <==> |Decimal(b)| == 1);
    if a < 10 {
      DigitOnce(a, b);
    } else {
      LastChar(Decimal(a / 10), Digit(a % 10), Decimal(b / 10), Digit(b % 10));
      DigitOnce(a % 10, b % 10);
      DecimalOnce(a / 10, b / 10);
    }
  }

  function Power16(n: nat): nat {
    if n == 0 then 1 else 16 * Power16(n - 1)
  }

  lemma {:induction false} HexOnce(a: nat, b: nat, width: nat)
    requires a < Power16(width) && b < Power16(width) && Hex(a, width) == Hex(b, width)
    ensures a == b
    decreases width
  {
    hide Digit;
    if width > 0 {
      LastChar(Hex(a / 16, width - 1), Digit(a % 16), Hex(b / 16, width - 1), Digit(b % 16));
      DigitOnce(a % 16, b % 16);
      HexOnce(a / 16, b / 16, width - 1);
    }
  }

  lemma {:induction false} HexIsPlain(n: nat, width: nat)
    ensures '|' !in Hex(n, width)
    decreases width
  {
    hide Digit;
    if width > 0 {
      DigitIsPlain(n % 16);
      HexIsPlain(n / 16, width - 1);
    }
  }

  lemma HashOnce(a: Hash, b: Hash)
    requires HashText(a) == HashText(b)
    ensures a == b
  {
    hide Hex;
    assert HashText(a)[2..] == Hex(a, 16) && HashText(b)[2..] == Hex(b, 16);
    assert Power16(4) == 65536 && Power16(8) == 65536 * 65536 && Power16(12) == 65536 * 65536 * 65536;
    assert Power16(16) == 65536 * Power16(12);
    HexOnce(a, b, 16);
  }

  lemma SizeOnce(w: nat, h: nat, w': nat, h': nat)
    requires Size(w, h) == Size(w', h')
    ensures w == w' && h == h'
  {
    hide Decimal;
    DecimalIsPlain(w);
    DecimalIsPlain(w');
    NoneCounted('x', Decimal(w));
    NoneCounted('x', Decimal(w'));
    SplitOnce('x', Decimal(w), Decimal(h), Decimal(w'), Decimal(h'));
    DecimalOnce(w, w');
    DecimalOnce(h, h');
  }

  lemma DecimalIsBarless(n: nat)
    ensures Count('|', Decimal(n)) == 0
  {
    DecimalIsPlain(n);
    NoneCounted('|', Decimal(n));
  }

  lemma HashIsBarless(h: Hash)
    ensures Count('|', HashText(h)) == 0
  {
    hide Hex;
    HexIsPlain(h, 16);
    NoneCounted('|', HashText(h));
  }

  lemma SizeIsBarless(width: nat, height: nat)
    ensures Count('|', Size(width, height)) == 0
  {
    hide Decimal;
    DecimalIsPlain(width);
    DecimalIsPlain(height);
    NoneCounted('|', Size(width, height));
  }

  lemma NamesAreBarless(kind: Kind, format: Format)
    ensures Count('|', KindName(kind)) == 0 && Count('|', FormatName(format)) == 0
  {
    NoneCounted('|', KindName(kind));
    NoneCounted('|', FormatName(format));
  }

  /** Outside the three free texts no field holds a separator. */
  lemma FieldsArePlain(d: Descriptor)
    ensures forall i :: 0 <= i < |Fields(d)| && i !in {0, 4, 8} ==> Count('|', Fields(d)[i]) == 0
  {
    hide Count, Decimal, HashText, Size, KindName, FormatName;
    NamesAreBarless(d.kind, d.format);
    SizeIsBarless(d.width, d.height);
    DecimalIsBarless(d.bank);
    DecimalIsBarless(d.address);
    DecimalIsBarless(d.index);
    DecimalIsBarless(d.paletteValue);
    HashIsBarless(d.sourceHash);
    HashIsBarless(d.contentHash);
    HashIsBarless(d.paletteHash);
    HashIsBarless(d.paletteAwareHash);
  }

  lemma NamesOnce(a: Descriptor, b: Descriptor)
    ensures KindName(a.kind) == KindName(b.kind) ==> a.kind == b.kind
    ensures FormatName(a.format) == FormatName(b.format) ==> a.format == b.format
  {
    assert |KindName(Tile)| == 4 && |KindName(Sprite)| == 6 && |KindName(UnknownKind)| == 7 && |KindName(BackgroundTile)| == 14;
    assert FormatName(Indexed2)[7] == '2' && FormatName(Indexed4)[7] == '4' && FormatName(Rgba8888)[0] == 'R' && |FormatName(UnknownFormat)| == 7;
  }

  /** Descriptors that share a key are equal if and only if their free texts hold
      equally many separators, text by text. */
  lemma KeysTellApart(a: Descriptor, b: Descriptor)
    requires Key(a) == Key(b)
    ensures a == b <==> SameBars(a, b)
  {
    hide Count, Decimal, HashText, Joined, Size, KindName, FormatName;
    if SameBars(a, b) {
      var f, g := Fields(a), Fields(b);
      FieldsArePlain(a);
      FieldsArePlain(b);
      assert Count('|', f[0]) == Count('|', g[0]) && Count('|', f[4]) == Count('|', g[4]) && Count('|', f[8]) == Count('|', g[8]);
      JoinedOnce(f, g);
      SameFields(a, b);
    }
  }

  lemma SameFields(a: Descriptor, b: Descriptor)
    requires Fields(a) == Fields(b)
    ensures a == b
  {
    hide Decimal, HashText, Size, KindName, FormatName;
    var f, g := Fields(a), Fields(b);
    assert f[0] == g[0] && f[1] == g[1] && f[2] == g[2] && f[3] == g[3] && f[4] == g[4] && f[5] == g[5] && f[6] == g[6];
    assert f[7] == g[7] && f[8] == g[8] && f[9] == g[9] && f[10] == g[10] && f[11] == g[11] && f[12] == g[12] && f[13] == g[13];
    NamesOnce(a, b);
    SizeOnce(a.width, a.height, b.width, b.height);
    DecimalOnce(a.bank, b.bank);
    DecimalOnce(a.address, b.address);
    DecimalOnce(a.index, b.index);
    DecimalOnce(a.paletteValue, b.paletteValue);
    HashOnce(a.sourceHash, b.sourceHash);
    HashOnce(a.contentHash, b.contentHash);
    HashOnce(a.paletteHash, b.paletteHash);
    HashOnce(a.paletteAwareHash, b.paletteAwareHash);
  }

  lemma BarlessHaveSameBars(a: Descriptor, b: Descriptor)
    requires Barless(a) && Barless(b)
    ensures SameBars(a, b)
  {
    NoneCounted('|', a.machineId);
    NoneCounted('|', b.machineId);
    NoneCounted('|', a.sourceLabel);
    NoneCounted('|', b.sourceLabel);
    NoneCounted('|', a.paletteRegister);
    NoneCounted('|', b.paletteRegister);
  }

  /** Without a separator in the free texts, equal keys mean equal descriptors. */
  lemma KeysAreUnique(a: Descriptor, b: Descriptor)
    requires Barless(a) && Barless(b)
    ensures Key(a) == Key(b) <==> a == b
  {
    hide Key;
    if Key(a) == Key(b) {
      BarlessHaveSameBars(a, b);
      KeysTellApart(a, b);
    }
  }
}
