/** The capture writer and the replacement-image decoder: two separately written
    ends of one PNG file. Compression is a pair of functions. */
module Png {
  import opened PngFilter
  import Crc
  import opened Wrappers

  datatype Error =
    | BadSignature | ChunkBeyondFile | BadHeaderLength | ZeroDimensions | TooLarge | UnsupportedFormat
    | MissingHeader | MissingData | InflatedTooLarge | InflateFailed | UnsupportedFilter
    | InvalidResource

  datatype Result<+T> = Ok(value: T) | Err(error: Error)

  type Word = x: int | 0 <= x < 0x1_0000_0000

  const SIGNATURE: seq<Byte> := [0x89, 0x50, 0x4E, 0x47, 0x0D, 0x0A, 0x1A, 0x0A]

  const IHDR: seq<Byte> := [0x49, 0x48, 0x44, 0x52]

  const IDAT: seq<Byte> := [0x49, 0x44, 0x41, 0x54]

  const IEND: seq<Byte> := [0x49, 0x45, 0x4E, 0x44]

  const MAX_DIMENSION := 2048

  const MAX_INFLATED := 16 * 1024 * 1024

  /** zlib: what a compressed stream inflates to in a buffer of the given size. */
  type Inflate = (seq<Byte>, nat) -> Option<seq<Byte>>

  type Deflate = seq<Byte> -> seq<Byte>

  // ----- Words -----

  function BigEndian(v: Word): (bytes: seq<Byte>)
    ensures |bytes| == 4
  {
    [v / 16777216, v / 65536 % 256, v / 256 % 256, v % 256]
  }

  function ReadBigEndian(bytes: seq<Byte>): Word
    requires |bytes| >= 4
  {
    16777216 * (bytes[0] as int) + 65536 * (bytes[1] as int) + 256 * (bytes[2] as int) + bytes[3] as int
  }

  lemma WordReadBack(v: Word, rest: seq<Byte>)
    ensures ReadBigEndian(BigEndian(v) + rest) == v
  {
    assert v == v % 256 + 256 * (v / 256) && v / 256 == v / 256 % 256 + 256 * (v / 65536) && v / 65536 == v / 65536 % 256 + 256 * (v / 16777216);
  }

  // ----- Pixels -----

  /** One colour, with eight bits for each of alpha, red, green and blue. */
  function Argb(a: Byte, r: Byte, g: Byte, b: Byte): Word {
    16777216 * (a as int) + 65536 * (r as int) + 256 * (g as int) + b as int
  }

  const REDS: seq<Byte> := [0xE0, 0x88, 0x34, 0x08]

  const GREENS: seq<Byte> := [0xF8, 0xC0, 0x68, 0x18]

  const BLUES: seq<Byte> := [0xD0, 0x70, 0x56, 0x20]

  datatype Resource = Resource(width: Word, height: Word, stride: Word, pixels: seq<Byte>)

  /** The two-bit colour of a pixel; what lies beyond the pixel data is zero. */
  function Colour(r: Resource, y: nat, x: nat): (c: nat)
    ensures c < 4
  {
    var at := Offset(y, r.stride) + x;
    if at < |r.pixels| then r.pixels[at] % 4 else 0
  }

  function Rgba(colour: nat): (bytes: seq<Byte>)
    requires colour < 4
    ensures |bytes| == 4
  {
    [REDS[colour], GREENS[colour], BLUES[colour], 0xFF]
  }

  // ----- The writer -----

  /** The RGBA bytes of the first `width` pixels of row `y`. */
  function RowBytes(r: Resource, y: nat, width: nat): (row: seq<Byte>)
    ensures |row| == 4 * width
    decreases width
  {
    if width == 0 then [] else RowBytes(r, y, width - 1) + Rgba(Colour(r, y, width - 1))
  }

  function Rows(r: Resource, height: nat): (rows: seq<seq<Byte>>)
    ensures |rows| == height && Wide(rows, 4 * r.width)
    ensures forall y :: 0 <= y < height ==> rows[y] == RowBytes(r, y, r.width)
  {
    seq(height, y requires 0 <= y => RowBytes(r, y, r.width))
  }

  /** Every row unfiltered, behind its filter type zero. */
  function Raw(r: Resource, height: nat): seq<Byte> {
    if height == 0 then [] else Raw(r, height - 1) + [0] + RowBytes(r, height - 1, r.width)
  }

  function Chunk(kind: seq<Byte>, data: seq<Byte>): seq<Byte>
    requires |kind| == 4
  {
    Crc.Crc32Fits(kind + data);
    BigEndian(|data| % 0x1_0000_0000) + kind + data + BigEndian(Crc.Crc32(kind + data))
  }

  function HeaderData(width: Word, height: Word): (data: seq<Byte>)
    ensures |data| == 13
  {
    BigEndian(width) + BigEndian(height) + [8, 6, 0, 0, 0]
  }

  function Written(r: Resource, deflate: Deflate): seq<Byte> {
    SIGNATURE + Chunk(IHDR, HeaderData(r.width, r.height)) + Chunk(IDAT, deflate(Raw(r, r.height))) + Chunk(IEND, [])
  }

  method AppendChunk(png: seq<Byte>, kind: seq<Byte>, data: seq<Byte>) returns (longer: seq<Byte>)
    requires |kind| == 4
    ensures longer == png + Chunk(kind, data)
  {
    var crc := Crc.Compute(kind + data);
    Crc.Crc32Fits(kind + data);
    longer := png + BigEndian(|data| % 0x1_0000_0000) + kind + data + BigEndian(crc);
  }

  method WriteRow(r: Resource, y: nat) returns (row: seq<Byte>)
    ensures row == RowBytes(r, y, r.width)
  {
    row := [];
    var x := 0;
    while x < r.width
      invariant 0 <= x <= r.width && row == RowBytes(r, y, x)
    {
      var at := y * r.stride + x;
      var colour := if at < |r.pixels| then r.pixels[at] % 4 else 0;
      row := row + [REDS[colour], GREENS[colour], BLUES[colour], 0xFF];
      x := x + 1;
    }
  }

  method Write(r: Resource, deflate: Deflate) returns (png: Result<seq<Byte>>)
    ensures png == if r.width == 0 || r.height == 0 || r.stride == 0 then Err(InvalidResource) else Ok(Written(r, deflate))
  {
    hide RowBytes, Chunk, BigEndian;
    if r.width == 0 || r.height == 0 || r.stride == 0 { return Err(InvalidResource); }
    var raw: seq<Byte> := [];
    var y := 0;
    while y < r.height
      invariant 0 <= y <= r.height && raw == Raw(r, y)
    {
      var row := WriteRow(r, y);
      raw := raw + [0] + row;
      y := y + 1;
    }
    var bytes := AppendChunk(SIGNATURE, IHDR, BigEndian(r.width) + BigEndian(r.height) + [8, 6, 0, 0, 0]);
    bytes := AppendChunk(bytes, IDAT, deflate(raw));
    bytes := AppendChunk(bytes, IEND, []);
    png := Ok(bytes);
  }

  // ----- The file spelled out -----

  /** Four bytes from `at` on, highest first, hold `v`. */
  predicate Holds(png: seq<Byte>, at: nat, v: int) {
    && at + 4 <= |png|
    && v == 0x100_0000 * (png[at] as int) + 0x1_0000 * (png[at + 1] as int) + 0x100 * (png[at + 2] as int) + png[at + 3] as int
  }

  lemma WordHolds(v: Word, png: seq<Byte>, at: nat)
    requires at + 4 <= |png| && png[at..at + 4] == BigEndian(v)
    ensures Holds(png, at, v)
  {
    assert v == v % 256 + 256 * (v / 256) && v / 256 == v / 256 % 256 + 256 * (v / 65536) && v / 65536 == v / 65536 % 256 + 256 * (v / 16777216);
    var four := png[at..at + 4];
    assert png[at] == four[0] && png[at + 1] == four[1] && png[at + 2] == four[2] && png[at + 3] == four[3];
  }

  /** A chunk of section 3.2 of RFC 2083 stands at `at`: length, type, data, and the CRC-32
      of type and data. */
  ghost predicate ChunkStands(png: seq<Byte>, at: nat, kind: seq<Byte>, data: seq<Byte>) {
    && at + 12 + |data| <= |png| && |kind| == 4
    && Holds(png, at, |data| % 0x1_0000_0000)
    && png[at + 4..at + 8] == kind && png[at + 8..at + 8 + |data|] == data
    && Holds(png, at + 8 + |data|, Crc.Crc32(kind + data))
  }

  lemma Inside(s: seq<Byte>, at: nat, n: nat, from: nat, to: nat)
    requires at + n <= |s| && from <= to <= n
    ensures s[at..at + n][from..to] == s[at + from..at + to]
  {
    var inner, direct := s[at..at + n][from..to], s[at + from..at + to];
    assert |inner| == |direct|;
    forall i: nat | i < to - from ensures inner[i] == direct[i] {
      assert s[at..at + n][from + i] == s[at + (from + i)];
    }
  }

  /** The four parts of a chunk, at their places in the file. */
  lemma Parts(png: seq<Byte>, at: nat, a: seq<Byte>, b: seq<Byte>, c: seq<Byte>, d: seq<Byte>)
    requires |a| == |b| == |d| == 4 && at + 12 + |c| <= |png| && png[at..at + 12 + |c|] == a + b + c + d
    ensures png[at..at + 4] == a && png[at + 4..at + 8] == b
    ensures png[at + 8..at + 8 + |c|] == c && png[at + 8 + |c|..at + 12 + |c|] == d
  {
    var code, n := a + b + c + d, 12 + |c|;
    Inside(png, at, n, 0, 4);
    Inside(png, at, n, 4, 8);
    Inside(png, at, n, 8, 8 + |c|);
    Inside(png, at, n, 8 + |c|, n);
    assert code[0..4] == a && code[4..8] == b && code[8..8 + |c|] == c && code[8 + |c|..n] == d;
  }

  lemma ChunkIsThere(png: seq<Byte>, at: nat, kind: seq<Byte>, data: seq<Byte>)
    requires |kind| == 4 && at + 12 + |data| <= |png| && png[at..at + 12 + |data|] == Chunk(kind, data)
    ensures ChunkStands(png, at, kind, data)
  {
    hide BigEndian, Holds;
    Crc.Crc32Fits(kind + data);
    var length, crc := |data| % 0x1_0000_0000, Crc.Crc32(kind + data);
    Parts(png, at, BigEndian(length), kind, data, BigEndian(crc));
    WordHolds(length, png, at);
    WordHolds(crc, png, at + 8 + |data|);
  }

  /** The parts of a file, at their places. */
  lemma InFile(a: seq<Byte>, b: seq<Byte>, c: seq<Byte>, d: seq<Byte>)
    ensures var all, i, j := a + b + c + d, |a| + |b|, |a| + |b| + |c|;
            all[..|a|] == a && all[|a|..i] == b && all[i..j] == c && all[j..] == d
  {
  }

  /** Where the writer's chunks stand. */
  lemma WrittenPlaces(r: Resource, deflate: Deflate)
    ensures var png, z, data := Written(r, deflate), deflate(Raw(r, r.height)), HeaderData(r.width, r.height);
            && |png| == 57 + |z| && png[..8] == SIGNATURE
            && png[8..33] == Chunk(IHDR, data) && png[33..45 + |z|] == Chunk(IDAT, z) && png[45 + |z|..] == Chunk(IEND, [])
  {
    hide Raw, HeaderData, Chunk;
    var z, data := deflate(Raw(r, r.height)), HeaderData(r.width, r.height);
    ChunkSize(IHDR, data);
    ChunkSize(IDAT, z);
    ChunkSize(IEND, []);
    InFile(SIGNATURE, Chunk(IHDR, data), Chunk(IDAT, z), Chunk(IEND, []));
  }

  lemma WrittenChunks(r: Resource, deflate: Deflate)
    ensures var png, z := Written(r, deflate), deflate(Raw(r, r.height));
            && |png| == 57 + |z|
            && ChunkStands(png, 8, IHDR, HeaderData(r.width, r.height))
            && ChunkStands(png, 33, IDAT, z) && ChunkStands(png, 45 + |z|, IEND, [])
  {
    hide Written, Chunk, HeaderData, ChunkStands, Raw;
    WrittenPlaces(r, deflate);
    var png, z := Written(r, deflate), deflate(Raw(r, r.height));
    ChunkIsThere(png, 8, IHDR, HeaderData(r.width, r.height));
    ChunkIsThere(png, 33, IDAT, z);
    assert png[45 + |z|..45 + |z| + 12] == png[45 + |z|..];
    ChunkIsThere(png, 45 + |z|, IEND, []);
  }

  /** A capture is the signature, the chunk IHDR with width, height, eight bits a channel
      and colour type six, the chunk IDAT with the compressed rows, and the chunk IEND. */
  lemma WrittenLayout(r: Resource, deflate: Deflate)
    ensures var png, z := Written(r, deflate), deflate(Raw(r, r.height));
            && |png| == 57 + |z|
            && png[..8] == [0x89, 0x50, 0x4E, 0x47, 0x0D, 0x0A, 0x1A, 0x0A]
            && ChunkStands(png, 8, [0x49, 0x48, 0x44, 0x52], HeaderData(r.width, r.height))
            && Holds(png, 16, r.width) && Holds(png, 20, r.height) && png[24..29] == [8, 6, 0, 0, 0]
            && ChunkStands(png, 33, [0x49, 0x44, 0x41, 0x54], z)
            && ChunkStands(png, 45 + |z|, [0x49, 0x45, 0x4E, 0x44], [])
  {
    hide Written, HeaderData, ChunkStands, Raw, Holds, Chunk;
    WrittenPlaces(r, deflate);
    WrittenChunks(r, deflate);
    DataOf(Written(r, deflate), 8, IHDR, HeaderData(r.width, r.height));
    HeaderIsThere(Written(r, deflate), 16, r.width, r.height);
  }

  lemma DataOf(png: seq<Byte>, at: nat, kind: seq<Byte>, data: seq<Byte>)
    requires ChunkStands(png, at, kind, data)
    ensures at + 12 + |data| <= |png| && png[at + 8..at + 8 + |data|] == data
  {
  }

  lemma ChunkSize(kind: seq<Byte>, data: seq<Byte>)
    requires |kind| == 4
    ensures |Chunk(kind, data)| == 12 + |data| && Chunk(kind, data)[8..8 + |data|] == data
  {
    hide BigEndian;
    Crc.Crc32Fits(kind + data);
  }

  lemma HeaderIsThere(png: seq<Byte>, at: nat, width: Word, height: Word)
    requires at + 13 <= |png| && png[at..at + 13] == HeaderData(width, height)
    ensures Holds(png, at, width) && Holds(png, at + 4, height) && png[at + 8..at + 13] == [8, 6, 0, 0, 0]
  {
    hide BigEndian, Holds;
    var data := HeaderData(width, height);
    Inside(png, at, 13, 0, 4);
    Inside(png, at, 13, 4, 8);
    Inside(png, at, 13, 8, 13);
    assert data[0..4] == BigEndian(width) && data[4..8] == BigEndian(height) && data[8..13] == [8, 6, 0, 0, 0];
    WordHolds(width, png, at);
    WordHolds(height, png, at + 4);
  }

  /** The four shades of green, lightest first. */
  lemma PaletteSpelledOut()
    ensures Rgba(0) == [0xE0, 0xF8, 0xD0, 0xFF] && Rgba(1) == [0x88, 0xC0, 0x70, 0xFF]
    ensures Rgba(2) == [0x34, 0x68, 0x56, 0xFF] && Rgba(3) == [0x08, 0x18, 0x20, 0xFF]
  {
  }

  // ----- The decoder -----

  datatype Scan = Scan(width: Word, height: Word, depth: Byte, colourType: Byte, data: seq<Byte>)

  datatype Image = Image(width: Word, height: Word, hasAlpha: bool, pixels: seq<Word>)

  function ReadHeader(data: seq<Byte>, scan: Scan): Result<Scan> {
    if |data| != 13 then Err(BadHeaderLength)
    else
      var width, height := ReadBigEndian(data), ReadBigEndian(data[4..]);
      if width == 0 || height == 0 then Err(ZeroDimensions)
      else if width > MAX_DIMENSION || height > MAX_DIMENSION then Err(TooLarge)
      else if data[8] != 8 || (data[9] != 2 && data[9] != 6) || data[10] != 0 || data[11] != 0 || data[12] != 0 then Err(UnsupportedFormat)
      else Ok(scan.(width := width, height := height, depth := data[8], colourType := data[9]))
  }

  /** The chunks from here on: headers are checked, data is gathered, other
      chunks are skipped, and no checksum is looked at. */
  function Walk(rest: seq<Byte>, scan: Scan): Result<Scan>
    decreases |rest|
  {
    if |rest| < 12 then Ok(scan)
    else
      var length := ReadBigEndian(rest);
      if 12 + length > |rest| then Err(ChunkBeyondFile)
      else
        var kind, data, next := rest[4..8], rest[8..8 + length], rest[12 + length..];
        if kind == IHDR then
          match ReadHeader(data, scan)
          case Err(e) => Err(e)
          case Ok(scan') => Walk(next, scan')
        else if kind == IDAT then Walk(next, scan.(data := scan.data + data))
        else if kind == IEND then Ok(scan)
        else Walk(next, scan)
  }

  function Channels(scan: Scan): nat {
    if scan.colourType == 6 then 4 else 3
  }

  lemma OffsetStep(i: nat, count: nat, size: nat)
    requires i < count
    ensures Offset(i, size) + size == Offset(i + 1, size) <= Offset(count, size)
  {
    Times(i + 1, count, size);
  }

  function PixelAt(decoded: seq<Byte>, channels: nat, base: nat): Word
    requires 3 <= channels <= 4 && base + channels <= |decoded|
  {
    Argb(if channels == 4 then decoded[base + 3] else 0xFF, decoded[base], decoded[base + 1], decoded[base + 2])
  }

  /** The pixels of a decoded buffer. */
  function Assemble(decoded: seq<Byte>, channels: nat, count: nat): (pixels: seq<Word>)
    requires 3 <= channels <= 4 && Offset(count, channels) <= |decoded|
    ensures |pixels| == count
    decreases count
  {
    if count == 0 then []
    else
      OffsetStep(count - 1, count, channels);
      Assemble(decoded, channels, count - 1) + [PixelAt(decoded, channels, Offset(count - 1, channels))]
  }

  /** Everything behind the chunk walk. */
  function Render(scan: Scan, inflate: Inflate): Result<Image> {
    var channels := Channels(scan);
    var stride := scan.width * channels;
    var size := Offset(scan.height, stride + 1);
    if scan.width == 0 || scan.height == 0 then Err(MissingHeader)
    else if scan.data == [] then Err(MissingData)
    else if size > MAX_INFLATED then Err(InflatedTooLarge)
    else
      match inflate(scan.data, size)
      case None => Err(InflateFailed)
      case Some(inflated) =>
        if |inflated| != size then Err(InflateFailed)
        else
          var lines := Cut(inflated, stride, scan.height);
          if !Supported(lines) then Err(UnsupportedFilter)
          else
            DecodedSize(lines, stride, channels);
            PixelsFit(scan.width, scan.height, channels);
            Ok(Image(scan.width, scan.height, channels == 4,
                     Assemble(Decoded(lines, stride, channels), channels, Offset(scan.height, scan.width))))
  }

  function Decode(png: seq<Byte>, inflate: Inflate): Result<Image> {
    if |png| < 8 || png[..8] != SIGNATURE then Err(BadSignature)
    else
      match Walk(png[8..], Scan(0, 0, 0, 0, []))
      case Err(e) => Err(e)
      case Ok(scan) => Render(scan, inflate)
  }

  lemma PixelsFit(width: nat, height: nat, channels: nat)
    ensures Offset(Offset(height, width), channels) == Offset(height, width * channels)
  {
    assert (height * width) * channels == height * (width * channels);
  }

  method AssemblePixels(decoded: seq<Byte>, channels: nat, count: nat) returns (pixels: seq<Word>)
    requires 3 <= channels <= 4 && Offset(count, channels) <= |decoded|
    ensures pixels == Assemble(decoded, channels, count)
  {
    pixels := [];
    var i, base := 0, 0;
    assert Offset(0, channels) == 0;
    hide Offset, Argb;
    while i < count
      invariant 0 <= i <= count && base == Offset(i, channels) <= |decoded| && pixels == Assemble(decoded, channels, i)
    {
      OffsetStep(i, count, channels);
      var a := if channels == 4 then decoded[base + 3] else 0xFF;
      pixels := pixels + [Argb(a, decoded[base], decoded[base + 1], decoded[base + 2])];
      i, base := i + 1, base + channels;
    }
  }

  method RenderImage(scan: Scan, inflate: Inflate) returns (r: Result<Image>)
    ensures r == Render(scan, inflate)
  {
    if scan.width == 0 || scan.height == 0 { return Err(MissingHeader); }
    if scan.data == [] { return Err(MissingData); }
    hide Cut, Decoded, Supported, Assemble, Offset;
    var channels := Channels(scan);
    var stride := scan.width * channels;
    var size := Offset(scan.height, stride + 1);
    if size > MAX_INFLATED { return Err(InflatedTooLarge); }
    var result := inflate(scan.data, size);
    if result.None? || |result.value| != size { return Err(InflateFailed); }
    var ok, decoded := Reconstruct(result.value, stride, scan.height, channels);
    if !ok { return Err(UnsupportedFilter); }
    DecodedSize(Cut(result.value, stride, scan.height), stride, channels);
    PixelsFit(scan.width, scan.height, channels);
    var pixels := AssemblePixels(decoded, channels, Offset(scan.height, scan.width));
    r := Ok(Image(scan.width, scan.height, channels == 4, pixels));
  }

  lemma FromHere(png: seq<Byte>, offset: nat, length: nat)
    requires offset + 12 + length <= |png|
    ensures var rest := png[offset..];
            && rest[4..8] == png[offset + 4..offset + 8] && rest[8..8 + length] == png[offset + 8..offset + 8 + length]
            && rest[12 + length..] == png[offset + 12 + length..]
  {
  }

  /** The decoder: one pass over the chunks, then the image. */
  method DecodePng(png: seq<Byte>, inflate: Inflate) returns (r: Result<Image>)
    ensures r == Decode(png, inflate)
  {
    if |png| < 8 || png[..8] != SIGNATURE { return Err(BadSignature); }
    hide Render, ReadHeader, ReadBigEndian;
    var scan := Scan(0, 0, 0, 0, []);
    var offset := 8;
    while offset + 12 <= |png|
      invariant 8 <= offset <= |png|
      invariant Walk(png[offset..], scan) == Walk(png[8..], Scan(0, 0, 0, 0, []))
      decreases |png| - offset
    {
      var length := ReadBigEndian(png[offset..]);
      if offset + 12 + length > |png| { return Err(ChunkBeyondFile); }
      var kind, data := png[offset + 4..offset + 8], png[offset + 8..offset + 8 + length];
      FromHere(png, offset, length);
      offset := offset + 12 + length;
      if kind == IHDR {
        var header := ReadHeader(data, scan);
        if header.Err? { return Err(header.error); }
        scan := header.value;
      } else if kind == IDAT {
        scan := scan.(data := scan.data + data);
      } else if kind == IEND {
        break;
      }
    }
    r := RenderImage(scan, inflate);
  }

  // ----- Walking over what was written -----

  lemma Fields(size: seq<Byte>, kind: seq<Byte>, data: seq<Byte>, crc: seq<Byte>, rest: seq<Byte>)
    requires |size| == |kind| == |crc| == 4
    ensures var all := size + kind + data + crc + rest;
            && all == size + (kind + data + crc + rest)
            && all[4..8] == kind && all[8..8 + |data|] == data && all[12 + |data|..] == rest
  {
  }

  lemma ChunkShape(kind: seq<Byte>, data: seq<Byte>, rest: seq<Byte>)
    requires |kind| == 4 && |data| < 0x1_0000_0000
    ensures var all := Chunk(kind, data) + rest;
            && |all| == 12 + |data| + |rest| && ReadBigEndian(all) == |data|
            && all[4..8] == kind && all[8..8 + |data|] == data && all[12 + |data|..] == rest
  {
    hide BigEndian, ReadBigEndian, Crc.Crc32;
    Crc.Crc32Fits(kind + data);
    var size, crc := BigEndian(|data|), BigEndian(Crc.Crc32(kind + data));
    Fields(size, kind, data, crc, rest);
    WordReadBack(|data|, kind + data + crc + rest);
  }

  lemma WalkHeader(data: seq<Byte>, rest: seq<Byte>, scan: Scan)
    requires |data| < 0x1_0000_0000
    ensures Walk(Chunk(IHDR, data) + rest, scan) ==
              if ReadHeader(data, scan).Err? then Err(ReadHeader(data, scan).error) else Walk(rest, ReadHeader(data, scan).value)
  {
    hide Chunk, ReadHeader, ReadBigEndian;
    ChunkShape(IHDR, data, rest);
  }

  lemma WalkData(data: seq<Byte>, rest: seq<Byte>, scan: Scan)
    requires |data| < 0x1_0000_0000
    ensures Walk(Chunk(IDAT, data) + rest, scan) == Walk(rest, scan.(data := scan.data + data))
  {
    hide Chunk, ReadHeader, ReadBigEndian;
    ChunkShape(IDAT, data, rest);
    assert IDAT != IHDR by { assert IDAT[1] != IHDR[1]; }
  }

  lemma WalkEnd(scan: Scan)
    ensures Walk(Chunk(IEND, []), scan) == Ok(scan)
  {
    hide Chunk, ReadHeader, ReadBigEndian;
    ChunkShape(IEND, [], []);
    assert Chunk(IEND, []) + [] == Chunk(IEND, []);
    assert IEND != IHDR && IEND != IDAT by { assert IEND[1] != IHDR[1] && IEND[1] != IDAT[1]; }
  }

  lemma HeaderReadBack(width: Word, height: Word, scan: Scan)
    requires width > 0 && height > 0
    ensures ReadHeader(HeaderData(width, height), scan) ==
              if width > MAX_DIMENSION || height > MAX_DIMENSION then Err(TooLarge)
              else Ok(scan.(width := width, height := height, depth := 8, colourType := 6))
  {
    hide BigEndian, ReadBigEndian;
    var data := HeaderData(width, height);
    assert data == BigEndian(width) + (BigEndian(height) + [8, 6, 0, 0, 0]);
    assert data[4..] == BigEndian(height) + [8, 6, 0, 0, 0];
    WordReadBack(width, BigEndian(height) + [8, 6, 0, 0, 0]);
    WordReadBack(height, [8, 6, 0, 0, 0]);
  }

  /** The decoder finds in a written file the header and the compressed rows. */
  lemma WrittenIsWalked(r: Resource, deflate: Deflate, inflate: Inflate)
    requires r.width > 0 && r.height > 0 && |deflate(Raw(r, r.height))| < 0x1_0000_0000
    ensures Decode(Written(r, deflate), inflate) ==
              if r.width > MAX_DIMENSION || r.height > MAX_DIMENSION then Err(TooLarge)
              else Render(Scan(r.width, r.height, 8, 6, deflate(Raw(r, r.height))), inflate)
  {
    hide Chunk, ReadHeader, HeaderData, Walk, Render, Raw;
    var head, body, tail := Chunk(IHDR, HeaderData(r.width, r.height)), Chunk(IDAT, deflate(Raw(r, r.height))), Chunk(IEND, []);
    var png := Written(r, deflate);
    assert png == SIGNATURE + (head + (body + tail));
    assert png[..8] == SIGNATURE && png[8..] == head + (body + tail);
    var start := Scan(0, 0, 0, 0, []);
    HeaderReadBack(r.width, r.height, start);
    WalkHeader(HeaderData(r.width, r.height), body + tail, start);
    var scan := Scan(r.width, r.height, 8, 6, []);
    WalkData(deflate(Raw(r, r.height)), tail, scan);
    assert [] + deflate(Raw(r, r.height)) == deflate(Raw(r, r.height));
    WalkEnd(scan.(data := deflate(Raw(r, r.height))));
  }

  // ----- Rows and pixels -----

  function NoFilters(height: nat): (filters: seq<Byte>)
    ensures |filters| == height && forall y :: 0 <= y < height ==> filters[y] == 0
  {
    seq(height, y => 0)
  }

  lemma UnfilteredRow(row: seq<Byte>, previous: seq<Byte>, channels: nat)
    requires |previous| == |row|
    ensures FilterRow(0, row, previous, channels) == row
  {
    forall x: nat | x < |row| ensures Coded(0, row, previous, channels, x) == row[x] {
      assert 0 <= row[x] < 256;
    }
  }

  lemma RawSnoc(r: Resource, y: nat)
    ensures Raw(r, y + 1) == Raw(r, y) + [0] + RowBytes(r, y, r.width)
  {
    hide RowBytes;
  }

  lemma RowsSnoc(r: Resource, y: nat)
    ensures Rows(r, y + 1) == Rows(r, y) + [RowBytes(r, y, r.width)]
    ensures NoFilters(y + 1) == NoFilters(y) + [0]
  {
    hide RowBytes;
  }

  lemma NoRows(r: Resource)
    ensures Raw(r, 0) == Stream(Filter(Rows(r, 0), NoFilters(0), 4 * r.width, 4))
  {
  }

  /** The rows are written as the standard's unfiltered lines. */
  lemma {:induction false} RawIsStream(r: Resource, height: nat)
    ensures Raw(r, height) == Stream(Filter(Rows(r, height), NoFilters(height), 4 * r.width, 4))
    decreases height
  {
    hide RowBytes, FilterRow, Filter, Stream, Raw, Rows, NoFilters;
    if height == 0 {
      NoRows(r);
    } else {
      var y, stride := height - 1, 4 * r.width;
      var row := RowBytes(r, y, r.width);
      RawIsStream(r, y);
      RawSnoc(r, y);
      RowsSnoc(r, y);
      FilterSnoc(Rows(r, y), NoFilters(y), row, 0, stride, 4);
      UnfilteredRow(row, Above(Rows(r, y), stride), 4);
      StreamSnoc(Filter(Rows(r, y), NoFilters(y), stride, 4), Line(0, row));
    }
  }

  lemma StreamSnoc(lines: seq<Line>, line: Line)
    ensures Stream(lines + [line]) == Stream(lines) + [line.filter] + line.bytes
  {
    assert (lines + [line])[..|lines|] == lines;
  }

  lemma {:induction false} RowBytesAt(r: Resource, y: nat, width: nat, x: nat)
    requires x < width
    ensures RowBytes(r, y, width)[4 * x..4 * x + 4] == Rgba(Colour(r, y, x))
    decreases width
  {
    hide Colour, Rgba;
    if x < width - 1 {
      RowBytesAt(r, y, width - 1, x);
      assert RowBytes(r, y, width)[4 * x..4 * x + 4] == RowBytes(r, y, width - 1)[4 * x..4 * x + 4];
    }
  }

  lemma {:induction false} ConcatAt(rows: seq<seq<Byte>>, stride: nat, y: nat)
    requires Wide(rows, stride) && y < |rows|
    ensures Offset(y, stride) + stride <= |Concat(rows)|
    ensures Concat(rows)[Offset(y, stride)..Offset(y, stride) + stride] == rows[y]
    decreases |rows|
  {
    var n := |rows| - 1;
    ConcatSize(rows[..n], stride);
    if y < n {
      ConcatAt(rows[..n], stride, y);
      assert Concat(rows)[Offset(y, stride)..Offset(y, stride) + stride] == Concat(rows[..n])[Offset(y, stride)..Offset(y, stride) + stride];
    }
  }

  lemma {:induction false} AssembledAt(decoded: seq<Byte>, channels: nat, count: nat, i: nat)
    requires 3 <= channels <= 4 && Offset(count, channels) <= |decoded| && i < count
    ensures Offset(i, channels) + channels <= |decoded|
    ensures Assemble(decoded, channels, count)[i] == PixelAt(decoded, channels, Offset(i, channels))
    decreases count
  {
    hide PixelAt, Offset;
    OffsetStep(i, count, channels);
    OffsetStep(count - 1, count, channels);
    if i < count - 1 { AssembledAt(decoded, channels, count - 1, i); }
  }

  /** The palette colour of a pixel. */
  function Painted(r: Resource, y: nat, x: nat): Word {
    var colour := Colour(r, y, x);
    Argb(0xFF, REDS[colour], GREENS[colour], BLUES[colour])
  }

  lemma PixelIndex(y: nat, height: nat, x: nat, width: nat)
    requires y < height && x < width
    ensures Offset(y, width) + x < Offset(height, width)
    ensures Offset(y, 4 * width) + 4 * x == Offset(Offset(y, width) + x, 4)
    ensures Offset(Offset(height, width), 4) == Offset(height, 4 * width)
  {
    Times(y + 1, height, width);
    assert (y + 1) * width == y * width + width;
  }

  lemma PaintedBytes(r: Resource, y: nat, x: nat, decoded: seq<Byte>, base: nat)
    requires base + 4 <= |decoded| && decoded[base..base + 4] == Rgba(Colour(r, y, x))
    ensures PixelAt(decoded, 4, base) == Painted(r, y, x)
  {
    hide Colour;
    var four := decoded[base..base + 4];
    assert four[0] == decoded[base] && four[1] == decoded[base + 1] && four[2] == decoded[base + 2] && four[3] == decoded[base + 3];
  }

  /** Row `y`, column `x` of the image has the resource's colour. */
  predicate Shows(pixels: seq<Word>, r: Resource, y: nat, x: nat) {
    var i := Offset(y, r.width) + x;
    i < |pixels| && pixels[i] == Painted(r, y, x)
  }

  lemma PixelIsPainted(r: Resource, height: nat, y: nat, x: nat)
    requires y < height && x < r.width
    ensures var decoded, count := Concat(Rows(r, height)), Offset(height, r.width);
            Offset(count, 4) <= |decoded| && Shows(Assemble(decoded, 4, count), r, y, x)
  {
    hide Assemble, Concat, RowBytes, Offset, PixelAt, Colour, Rgba, Painted;
    var rows, stride := Rows(r, height), 4 * r.width;
    var decoded, i := Concat(rows), Offset(y, r.width) + x;
    RowsSize(rows, stride);
    ConcatAt(rows, stride, y);
    PixelIndex(y, height, x, r.width);
    RowBytesAt(r, y, r.width, x);
    AssembledAt(decoded, 4, Offset(height, r.width), i);
    Inside(decoded, Offset(y, stride), stride, 4 * x, 4 * x + 4);
    PaintedBytes(r, y, x, decoded, Offset(i, 4));
  }

  lemma RowsSize(rows: seq<seq<Byte>>, stride: nat)
    requires Wide(rows, stride)
    ensures |Concat(rows)| == Offset(|rows|, stride)
  {
    ConcatSize(rows, stride);
  }

  // ----- Round trip -----

  /** zlib undoes itself on `raw`, and its output fits a chunk. */
  ghost predicate Inflates(deflate: Deflate, inflate: Inflate, raw: seq<Byte>) {
    0 < |deflate(raw)| < 0x1_0000_0000 && inflate(deflate(raw), |raw|) == Some(raw)
  }

  predicate WithinLimits(width: nat, height: nat) {
    width <= 2048 && height <= 2048 && height * (4 * width + 1) <= 16_777_216
  }

  lemma LinesTakeUp(height: nat, size: nat)
    ensures Offset(height, size) == height * size
  {
  }

  lemma WrittenIsRendered(r: Resource, deflate: Deflate, inflate: Inflate)
    requires r.width > 0 && r.height > 0 && Inflates(deflate, inflate, Raw(r, r.height))
    ensures Offset(Offset(r.height, r.width), 4) <= |Concat(Rows(r, r.height))|
    ensures Render(Scan(r.width, r.height, 8, 6, deflate(Raw(r, r.height))), inflate) ==
              if Offset(r.height, 4 * r.width + 1) > MAX_INFLATED then Err(InflatedTooLarge)
              else Ok(Image(r.width, r.height, true, Assemble(Concat(Rows(r, r.height)), 4, Offset(r.height, r.width))))
  {
    hide Raw, Rows, Cut, Decoded, Concat, Assemble, Filter, Stream, Supported, Offset;
    var rows, stride := Rows(r, r.height), 4 * r.width;
    RawIsStream(r, r.height);
    FilteringIsUndone(rows, NoFilters(r.height), stride, 4);
    RowsSize(rows, stride);
    PixelsFit(r.width, r.height, 4);
  }

  /** The file written for a resource decodes to its palette colours, pixel by
      pixel, exactly when both sides and the filtered size are within limits. */
  lemma CaptureRoundTrip(r: Resource, deflate: Deflate, inflate: Inflate)
    requires r.width > 0 && r.height > 0 && Inflates(deflate, inflate, Raw(r, r.height))
    ensures Decode(Written(r, deflate), inflate).Ok? <==> WithinLimits(r.width, r.height)
    ensures WithinLimits(r.width, r.height) ==>
              var image := Decode(Written(r, deflate), inflate).value;
              && image.width == r.width && image.height == r.height && image.hasAlpha
              && |image.pixels| == Offset(r.height, r.width)
              && forall y: nat, x: nat :: y < r.height && x < r.width ==> Shows(image.pixels, r, y, x)
  {
    hide Decode, Written, Raw, Rows, Concat, Assemble, Painted, Offset, Render, Shows;
    LinesTakeUp(r.height, 4 * r.width + 1);
    WrittenIsWalked(r, deflate, inflate);
    WrittenIsRendered(r, deflate, inflate);
    forall y: nat, x: nat | y < r.height && x < r.width
      ensures Shows(Assemble(Concat(Rows(r, r.height)), 4, Offset(r.height, r.width)), r, y, x)
    {
      PixelIsPainted(r, r.height, y, x);
    }
  }

  /** The largest square capture is written but cannot be read back: its filter
      bytes push it over the inflated limit. */
  lemma LargestSquareIsRejected(r: Resource, deflate: Deflate, inflate: Inflate)
    requires r.width == r.height == 2048 && Inflates(deflate, inflate, Raw(r, r.height))
    ensures Decode(Written(r, deflate), inflate) == Err(InflatedTooLarge)
  {
    hide Decode, Written, Raw, Render, Assemble, Concat, Rows;
    WrittenIsWalked(r, deflate, inflate);
    WrittenIsRendered(r, deflate, inflate);
  }
}
