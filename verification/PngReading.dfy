/** What the decoder makes of any PNG file, given by the list of its chunks: a reference
    that knows nothing of offsets and loops. */
module PngReading {
  import opened Png
  import opened PngFilter
  import opened Wrappers

  /** A chunk as it stands in a file, with whatever checksum. */
  datatype Piece = Piece(kind: seq<Byte>, data: seq<Byte>, crc: seq<Byte>)

  predicate Framable(p: Piece) {
    |p.kind| == 4 && |p.crc| == 4 && |p.data| < 0x1_0000_0000
  }

  predicate AllFramable(ps: seq<Piece>) {
    forall i :: 0 <= i < |ps| ==> Framable(ps[i])
  }

  function Code(p: Piece): seq<Byte>
    requires Framable(p)
  {
    BigEndian(|p.data|) + p.kind + p.data + p.crc
  }

  function Codes(ps: seq<Piece>): seq<Byte>
    requires AllFramable(ps)
  {
    if ps == [] then [] else Code(ps[0]) + Codes(ps[1..])
  }

  predicate Named(kind: seq<Byte>, word: string) {
    |kind| == |word| && forall i :: 0 <= i < |kind| ==> kind[i] as int == word[i] as int
  }

  /** Four bytes as a number, highest first. */
  function Number(bytes: seq<Byte>, at: nat): int
    requires at + 4 <= |bytes|
  {
    ((bytes[at] as int * 256 + bytes[at + 1] as int) * 256 + bytes[at + 2] as int) * 256 + bytes[at + 3] as int
  }

  /** The headers the decoder takes: eight bits, RGB or RGBA, not interlaced, at most
      2048 pixels a side. */
  predicate HeaderOk(data: seq<Byte>) {
    && |data| == 13
    && 0 < Number(data, 0) <= 2048 && 0 < Number(data, 4) <= 2048
    && data[8] == 8 && (data[9] == 2 || data[9] == 6) && data[10] == data[11] == data[12] == 0
  }

  /** Chunks the decoder walks over. */
  predicate Walkable(ps: seq<Piece>) {
    && AllFramable(ps)
    && forall i :: 0 <= i < |ps| ==> !Named(ps[i].kind, "IEND") && (Named(ps[i].kind, "IHDR") ==> HeaderOk(ps[i].data))
  }

  function LastHeader(ps: seq<Piece>): (header: Option<seq<Byte>>)
    requires Walkable(ps)
    ensures header.Some? ==> HeaderOk(header.value)
  {
    if ps == [] then None
    else if LastHeader(ps[1..]).Some? then LastHeader(ps[1..])
    else if Named(ps[0].kind, "IHDR") then Some(ps[0].data)
    else None
  }

  function AllData(ps: seq<Piece>): seq<Byte> {
    if ps == [] then [] else (if Named(ps[0].kind, "IDAT") then ps[0].data else []) + AllData(ps[1..])
  }

  /** Where the walk ends well: too little left for a chunk, or an end chunk with anything
      behind it. */
  predicate Ends(rest: seq<Byte>) {
    |rest| < 12 || (Named(rest[4..8], "IEND") && 12 + Number(rest, 0) <= |rest|)
  }

  // ----- The walk -----

  lemma Names(kind: seq<Byte>)
    ensures Named(kind, "IHDR") <==> kind == IHDR
    ensures Named(kind, "IDAT") <==> kind == IDAT
    ensures Named(kind, "IEND") <==> kind == IEND
    ensures IHDR != IDAT && IHDR != IEND && IDAT != IEND
  {
    assert IHDR[1] != IDAT[1] && IHDR[1] != IEND[1] && IDAT[1] != IEND[1];
  }

  lemma NumberRead(bytes: seq<Byte>, at: nat)
    requires at + 4 <= |bytes|
    ensures ReadBigEndian(bytes[at..]) == Number(bytes, at)
  {
  }

  /** The header behind `scan` once `data` is read. */
  function Headed(scan: Scan, data: seq<Byte>): Scan
    requires HeaderOk(data)
  {
    scan.(width := Number(data, 0), height := Number(data, 4), depth := 8, colourType := data[9])
  }

  lemma HeaderIsRead(data: seq<Byte>, scan: Scan)
    ensures HeaderOk(data) ==> ReadHeader(data, scan) == Ok(Headed(scan, data))
    ensures !HeaderOk(data) ==> ReadHeader(data, scan) == Err(HeaderFault(data))
  {
    hide ReadBigEndian;
    if |data| == 13 {
      NumberRead(data, 0);
      NumberRead(data, 4);
      assert data[0..] == data;
    }
  }

  function HeaderFault(data: seq<Byte>): Error {
    if |data| != 13 then BadHeaderLength
    else if Number(data, 0) == 0 || Number(data, 4) == 0 then ZeroDimensions
    else if Number(data, 0) > 2048 || Number(data, 4) > 2048 then TooLarge
    else UnsupportedFormat
  }

  lemma PieceShape(p: Piece, rest: seq<Byte>)
    requires Framable(p)
    ensures var all := Code(p) + rest;
            && |all| == 12 + |p.data| + |rest| && ReadBigEndian(all) == |p.data|
            && all[4..8] == p.kind && all[8..8 + |p.data|] == p.data && all[12 + |p.data|..] == rest
  {
    hide BigEndian, ReadBigEndian;
    Fields(BigEndian(|p.data|), p.kind, p.data, p.crc, rest);
    WordReadBack(|p.data|, p.kind + p.data + p.crc + rest);
  }

  lemma WalkPiece(p: Piece, rest: seq<Byte>, scan: Scan)
    requires Framable(p)
    ensures p.kind == IHDR && ReadHeader(p.data, scan).Err? ==> Walk(Code(p) + rest, scan) == Err(ReadHeader(p.data, scan).error)
    ensures p.kind == IHDR && ReadHeader(p.data, scan).Ok? ==> Walk(Code(p) + rest, scan) == Walk(rest, ReadHeader(p.data, scan).value)
    ensures p.kind == IDAT ==> Walk(Code(p) + rest, scan) == Walk(rest, scan.(data := scan.data + p.data))
    ensures p.kind != IHDR && p.kind != IDAT && p.kind != IEND ==> Walk(Code(p) + rest, scan) == Walk(rest, scan)
  {
    hide Code, ReadHeader, ReadBigEndian;
    PieceShape(p, rest);
    Names(p.kind);
  }

  /** What the walk holds after the pieces. */
  function Walked(ps: seq<Piece>, scan: Scan): Scan
    requires Walkable(ps)
  {
    var read := scan.(data := scan.data + AllData(ps));
    match LastHeader(ps)
    case None => read
    case Some(header) => Headed(read, header)
  }

  lemma {:induction false} WalkPieces(ps: seq<Piece>, rest: seq<Byte>, scan: Scan)
    requires Walkable(ps)
    ensures Walk(Codes(ps) + rest, scan) == Walk(rest, Walked(ps, scan))
    decreases |ps|
  {
    if ps == [] {
      assert Codes(ps) + rest == rest && scan.data + [] == scan.data;
    } else {
      hide Walk, Walked, Code, HeaderOk, Named;
      var p, later := ps[0], ps[1..];
      assert Code(p) + Codes(later) + rest == Code(p) + (Codes(later) + rest);
      assert ps == [p] + later && Framable(p);
      WalkOne(p, Codes(later) + rest, scan);
      WalkPieces(later, rest, Walked([p], scan));
      WalkedFrom(p, later, scan);
    }
  }

  lemma WalkOne(p: Piece, rest: seq<Byte>, scan: Scan)
    requires Framable(p) && Walkable([p])
    ensures Walk(Code(p) + rest, scan) == Walk(rest, Walked([p], scan))
  {
    hide Walk, Walked, Code, ReadHeader, HeaderOk, Named;
    assert Walkable([p]) && [p][0] == p;
    WalkPiece(p, rest, scan);
    Names(p.kind);
    HeaderIsRead(p.data, scan);
    OnePiece(p, scan);
  }

  lemma OnePiece(p: Piece, scan: Scan)
    requires Walkable([p])
    ensures Walked([p], scan) ==
              if Named(p.kind, "IHDR") then Headed(scan, p.data)
              else if Named(p.kind, "IDAT") then scan.(data := scan.data + p.data)
              else scan
  {
    hide HeaderOk, Named;
    Names(p.kind);
    assert [p][1..] == [] && p.data + [] == p.data && scan.data + [] == scan.data;
    assert LastHeader([p]) == (if Named(p.kind, "IHDR") then Some(p.data) else None);
    assert AllData([p]) == (if Named(p.kind, "IDAT") then p.data else []);
  }

  lemma WalkedFrom(p: Piece, later: seq<Piece>, scan: Scan)
    requires Walkable([p]) && Walkable(later) && Walkable([p] + later)
    ensures Walked(later, Walked([p], scan)) == Walked([p] + later, scan)
  {
    hide HeaderOk, Named;
    Names(p.kind);
    OnePiece(p, scan);
    assert ([p] + later)[1..] == later;
    var own := if Named(p.kind, "IDAT") then p.data else [];
    assert scan.data + own + AllData(later) == scan.data + (own + AllData(later));
  }

  lemma WalkEnds(rest: seq<Byte>, scan: Scan)
    ensures Ends(rest) ==> Walk(rest, scan) == Ok(scan)
    ensures |rest| >= 12 && 12 + Number(rest, 0) > |rest| ==> Walk(rest, scan) == Err(ChunkBeyondFile)
  {
    if |rest| >= 12 {
      hide ReadBigEndian, ReadHeader;
      NumberRead(rest, 0);
      assert rest[0..] == rest;
      Names(rest[4..8]);
    }
  }

  // ----- The picture -----

  /** What becomes of a header and the data of all data chunks. */
  ghost predicate Pictured(header: seq<Byte>, data: seq<Byte>, inflate: Inflate, r: Result<Image>)
    requires HeaderOk(header)
  {
    var width, height := Number(header, 0), Number(header, 4);
    var channels := if header[9] == 6 then 4 else 3;
    var size := height * (width * channels + 1);
    if data == [] then r == Err(MissingData)
    else if size > 16_777_216 then r == Err(InflatedTooLarge)
    else
      var inflated := inflate(data, size);
      if inflated.None? || |inflated.value| != size then r == Err(InflateFailed)
      else if BadFilter(inflated.value, width * channels + 1, height) then r == Err(UnsupportedFilter)
      else
        && r.Ok? && r.value.width == width && r.value.height == height && (r.value.hasAlpha <==> channels == 4)
        && exists bytes: seq<Byte> ::
             && Standard(inflated.value, bytes, width * channels, height, channels)
             && Coloured(r.value.pixels, bytes, channels, height * width)
  }

  /** Some line begins with a filter type that is none of the five. */
  ghost predicate BadFilter(inflated: seq<Byte>, size: nat, height: nat) {
    exists y: nat :: y < height && FilterAt(inflated, size, y) > 4
  }

  function FilterAt(inflated: seq<Byte>, size: nat, y: nat): int {
    if y * size < |inflated| then inflated[y * size] as int else 0
  }

  /** Red, green and blue in their bytes, alpha in its own or full. */
  ghost predicate Coloured(pixels: seq<Word>, bytes: seq<Byte>, channels: nat, count: nat) {
    |pixels| == count && forall i :: 0 <= i < |pixels| ==> ColouredAt(pixels[i], bytes, channels, i * channels)
  }

  predicate ColouredAt(pixel: Word, bytes: seq<Byte>, channels: nat, at: nat) {
    && at + channels <= |bytes| && 3 <= channels
    && pixel == (if channels == 4 then bytes[at + 3] as int else 255) * 0x100_0000
                + bytes[at] as int * 0x1_0000 + bytes[at + 1] as int * 0x100 + bytes[at + 2] as int
  }

  lemma {:induction false} PixelsColoured(bytes: seq<Byte>, channels: nat, count: nat)
    requires 3 <= channels <= 4 && Offset(count, channels) <= |bytes|
    ensures Coloured(Assemble(bytes, channels, count), bytes, channels, count)
    decreases count
  {
    if count > 0 {
      OffsetStep(count - 1, count, channels);
      PixelsColoured(bytes, channels, count - 1);
    }
  }

  lemma SupportedSnoc(lines: seq<Line>, line: Line)
    ensures Supported(lines + [line]) <==> Supported(lines) && line.filter <= 4
  {
    assert (lines + [line])[|lines|] == line;
    assert forall i :: 0 <= i < |lines| ==> (lines + [line])[i] == lines[i];
  }

  lemma FilterBefore(inflated: seq<Byte>, size: nat, height: nat, at: nat, y: nat)
    requires size > 0 && at == height * size < |inflated| && y < height
    ensures FilterAt(inflated[..at], size, y) == FilterAt(inflated, size, y)
  {
    OffsetStep(y, height, size);
  }

  lemma BadFilterStep(inflated: seq<Byte>, size: nat, height: nat, at: nat)
    requires size > 0 && at == height * size < |inflated|
    ensures BadFilter(inflated, size, height + 1) <==> BadFilter(inflated[..at], size, height) || inflated[at] > 4
  {
    hide FilterAt;
    forall y: nat | y < height
      ensures FilterAt(inflated[..at], size, y) == FilterAt(inflated, size, y)
    {
      FilterBefore(inflated, size, height, at, y);
    }
    assert FilterAt(inflated, size, height) == inflated[at] as int by { LastFilter(inflated, size, height, at); }
  }

  lemma LastFilter(inflated: seq<Byte>, size: nat, height: nat, at: nat)
    requires at == height * size < |inflated|
    ensures FilterAt(inflated, size, height) == inflated[at] as int
  {
  }

  lemma {:induction false} FiltersSupported(inflated: seq<Byte>, stride: nat, height: nat)
    requires |inflated| == Offset(height, stride + 1)
    ensures Supported(Cut(inflated, stride, height)) <==> !BadFilter(inflated, stride + 1, height)
    decreases height
  {
    if height > 0 {
      hide Supported, BadFilter;
      var size := stride + 1;
      StepBack(height, size);
      var at := |inflated| - size;
      FiltersSupported(inflated[..at], stride, height - 1);
      SupportedSnoc(Cut(inflated[..at], stride, height - 1), Line(inflated[at], inflated[at + 1..]));
      BadFilterStep(inflated, size, height - 1, at);
    }
  }

  lemma RenderPictures(header: seq<Byte>, data: seq<Byte>, inflate: Inflate)
    requires HeaderOk(header)
    ensures Pictured(header, data, inflate, Render(Headed(Scan(0, 0, 0, 0, data), header), inflate))
  {
    hide Cut, Decoded, Standard, Assemble, Coloured, BadFilter, Supported;
    var width, height := Number(header, 0), Number(header, 4);
    var channels: nat := if header[9] == 6 then 4 else 3;
    var stride := width * channels;
    LinesTakeUp(height, stride + 1);
    var size := height * (stride + 1);
    var found := inflate(data, size);
    if found.Some? && |found.value| == size {
      LinesPictured(found.value, width, height, channels);
    }
  }

  lemma LinesPictured(inflated: seq<Byte>, width: nat, height: nat, channels: nat)
    requires width > 0 && 3 <= channels <= 4 && |inflated| == Offset(height, width * channels + 1)
    ensures var lines := Cut(inflated, width * channels, height);
            var bytes := Decoded(lines, width * channels, channels);
            && (Supported(lines) <==> !BadFilter(inflated, width * channels + 1, height))
            && (Supported(lines) ==>
                  && Standard(inflated, bytes, width * channels, height, channels)
                  && Offset(Offset(height, width), channels) <= |bytes|
                  && Coloured(Assemble(bytes, channels, Offset(height, width)), bytes, channels, height * width))
  {
    hide Cut, Decoded, Standard, Assemble, Coloured, BadFilter, Supported;
    var stride := width * channels;
    FiltersSupported(inflated, stride, height);
    var lines := Cut(inflated, stride, height);
    if Supported(lines) {
      DecodedIsStandard(inflated, stride, height, channels);
      DecodedSize(lines, stride, channels);
      PixelsFit(width, height, channels);
      PixelsColoured(Decoded(lines, stride, channels), channels, Offset(height, width));
      LinesTakeUp(height, width);
    }
  }

  // ----- Whole files -----

  /** Any file whose chunks can be walked over gives the picture of its last header and of
      all its data chunks together. Other chunks, checksums and whatever stands behind the
      end chunk do not matter. */
  lemma ReadsAnyFile(ps: seq<Piece>, rest: seq<Byte>, inflate: Inflate)
    requires Walkable(ps) && Ends(rest)
    ensures var r := Decode(SIGNATURE + Codes(ps) + rest, inflate);
            && (LastHeader(ps).None? ==> r == Err(MissingHeader))
            && (LastHeader(ps).Some? ==> Pictured(LastHeader(ps).value, AllData(ps), inflate, r))
  {
    hide Walk, Codes, Walkable, Ends, HeaderOk, Pictured;
    FileWalked(ps, rest, inflate);
    var start := Scan(0, 0, 0, 0, []);
    WalkEnds(rest, Walked(ps, start));
    assert [] + AllData(ps) == AllData(ps);
    if LastHeader(ps).Some? {
      RenderPictures(LastHeader(ps).value, AllData(ps), inflate);
    }
  }

  lemma FileWalked(ps: seq<Piece>, rest: seq<Byte>, inflate: Inflate)
    requires Walkable(ps)
    ensures Decode(SIGNATURE + Codes(ps) + rest, inflate) ==
              match Walk(rest, Walked(ps, Scan(0, 0, 0, 0, [])))
              case Err(e) => Err(e)
              case Ok(scan) => Render(scan, inflate)
  {
    hide Walk, Codes, Render, Walked;
    var png := SIGNATURE + Codes(ps) + rest;
    assert png[..8] == SIGNATURE && png[8..] == Codes(ps) + rest;
    WalkPieces(ps, rest, Scan(0, 0, 0, 0, []));
  }

  /** The first header that is refused, or a chunk that reaches beyond the file, decides
      the error, whatever follows. */
  lemma RefusesAnyFile(ps: seq<Piece>, p: Piece, rest: seq<Byte>, inflate: Inflate)
    requires Walkable(ps) && Framable(p) && Named(p.kind, "IHDR") && !HeaderOk(p.data)
    ensures Decode(SIGNATURE + Codes(ps) + (Code(p) + rest), inflate) == Err(HeaderFault(p.data))
  {
    hide Walk, Codes, Code, Walkable, HeaderOk, Walked, Render;
    var scan := Walked(ps, Scan(0, 0, 0, 0, []));
    FileWalked(ps, Code(p) + rest, inflate);
    Names(p.kind);
    WalkPiece(p, rest, scan);
    HeaderIsRead(p.data, scan);
  }

  lemma RefusesCutChunk(ps: seq<Piece>, rest: seq<Byte>, inflate: Inflate)
    requires Walkable(ps) && |rest| >= 12 && 12 + Number(rest, 0) > |rest|
    ensures Decode(SIGNATURE + Codes(ps) + rest, inflate) == Err(ChunkBeyondFile)
  {
    hide Walk, Codes, Walkable, Walked, Render;
    FileWalked(ps, rest, inflate);
    WalkEnds(rest, Walked(ps, Scan(0, 0, 0, 0, [])));
  }
}
