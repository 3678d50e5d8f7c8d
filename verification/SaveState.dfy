/** The save-state file: writer, reader, and what its checksum catches. */
module SaveState {
  import opened Crc

  datatype Error =
    | ReadFailed | BadMagic | UnsupportedVersion | UnsupportedChecksumMode | TooManyChunks
    | FileTooShort | CountExceedsFile | ChunkTooLarge | ChecksumMismatch | TrailingData
    | SizeMismatch | NameTooLong
    | CoreNotSet | WrongCore | WrongRom

  datatype Result<+T> = Ok(value: T) | Err(error: Error)

  type Word = x: int | 0 <= x < 0x1_0000_0000

  const MAGIC: seq<Byte> := [80, 84, 73, 77, 69]

  const VERSION: Word := 1

  const NO_CHECKSUM: Word := 0

  const CRC32_MODE: Word := 1

  const NAME_SIZE := 32

  const MAX_CHUNK_SIZE := 64 * 1024 * 1024

  const HEADER_SIZE := 25

  const CHUNK_HEADER_SIZE := 36

  const MAX_CHUNKS := 4096

  datatype Header = Header(version: Word, coreId: Word, romHash: Word, checksum: Word, chunkCount: Word)

  datatype Chunk = Chunk(name: seq<Byte>, size: Word, data: seq<Byte>)

  datatype State = State(header: Header, chunks: seq<Chunk>)

  // ----- Encoding -----

  function U32(v: Word): (bytes: seq<Byte>)
    ensures |bytes| == 4
  {
    [v % 256, v / 256 % 256, v / 65536 % 256, v / 16777216]
  }

  function Zeros(n: nat): (z: seq<Byte>)
    ensures |z| == n && forall i :: 0 <= i < n ==> z[i] == 0
  {
    seq(n, i => 0)
  }

  function EncodeHeader(h: Header): (bytes: seq<Byte>)
    ensures |bytes| == HEADER_SIZE
  {
    MAGIC + U32(h.version) + U32(h.coreId) + U32(h.romHash) + U32(h.checksum) + U32(h.chunkCount)
  }

  function EncodeName(name: seq<Byte>): (bytes: seq<Byte>)
    requires |name| <= NAME_SIZE
    ensures |bytes| == NAME_SIZE
  {
    name + Zeros(NAME_SIZE - |name|)
  }

  /** What the writer demands of a chunk. */
  predicate Writable(c: Chunk) {
    c.size == |c.data| && |c.name| <= NAME_SIZE
  }

  function EncodeChunk(c: Chunk): (bytes: seq<Byte>)
    requires Writable(c)
    ensures |bytes| == CHUNK_HEADER_SIZE + |c.data|
  {
    U32(c.size) + EncodeName(c.name) + c.data
  }

  predicate AllWritable(chunks: seq<Chunk>) {
    forall i :: 0 <= i < |chunks| ==> Writable(chunks[i])
  }

  function EncodeChunks(chunks: seq<Chunk>): seq<Byte>
    requires AllWritable(chunks)
  {
    if chunks == [] then [] else EncodeChunks(chunks[..|chunks| - 1]) + EncodeChunk(chunks[|chunks| - 1])
  }

  function Payload(s: State): seq<Byte>
    requires AllWritable(s.chunks)
  {
    EncodeHeader(s.header) + EncodeChunks(s.chunks)
  }

  function Trailer(mode: Word, payload: seq<Byte>): seq<Byte> {
    if mode == CRC32_MODE then
      Crc32Fits(payload);
      U32(Crc32(payload))
    else []
  }

  function Encode(s: State): seq<Byte>
    requires AllWritable(s.chunks)
  {
    Payload(s) + Trailer(s.header.checksum, Payload(s))
  }

  /** The state as it is written: this version, and as many chunks as there are. */
  function Stamped(s: State): State
    requires |s.chunks| < 0x1_0000_0000
  {
    s.(header := s.header.(version := VERSION, chunkCount := |s.chunks|))
  }

  /** The writer. It fails on the first chunk it cannot frame. */
  method Write(s: State) returns (file: Result<seq<Byte>>)
    ensures |s.chunks| >= 0x1_0000_0000 ==> file == Err(TooManyChunks)
    ensures |s.chunks| < 0x1_0000_0000 && AllWritable(s.chunks) ==> file == Ok(Encode(Stamped(s)))
    ensures |s.chunks| < 0x1_0000_0000 && !AllWritable(s.chunks) ==>
              exists i: nat :: i < |s.chunks| && !Writable(s.chunks[i]) && AllWritable(s.chunks[..i])
                               && file == Err(if s.chunks[i].size != |s.chunks[i].data| then SizeMismatch else NameTooLong)
  {
    hide EncodeHeader, EncodeChunk, Trailer;
    if |s.chunks| >= 0x1_0000_0000 { return Err(TooManyChunks); }
    var header := s.header.(version := VERSION, chunkCount := |s.chunks|);
    var payload := EncodeHeader(header);
    var i := 0;
    while i < |s.chunks|
      invariant 0 <= i <= |s.chunks|
      invariant AllWritable(s.chunks[..i])
      invariant payload == EncodeHeader(header) + EncodeChunks(s.chunks[..i])
    {
      var c := s.chunks[i];
      if c.size != |c.data| || |c.name| > NAME_SIZE {
        return Err(if c.size != |c.data| then SizeMismatch else NameTooLong);
      }
      payload := payload + EncodeChunk(c);
      assert s.chunks[..i + 1][..i] == s.chunks[..i];
      i := i + 1;
    }
    assert s.chunks[..i] == s.chunks;
    file := Ok(payload + Trailer(header.checksum, payload));
  }

  // ----- Decoding -----

  function WordAt(bytes: seq<Byte>, i: nat): Word
    requires i + 4 <= |bytes|
  {
    bytes[i] as int + 256 * (bytes[i + 1] as int) + 65536 * (bytes[i + 2] as int) + 16777216 * (bytes[i + 3] as int)
  }

  function ReadWord(stream: seq<Byte>): Result<(Word, seq<Byte>)> {
    if |stream| < 4 then Err(ReadFailed) else Ok((WordAt(stream, 0), stream[4..]))
  }

  /** The bytes up to the first NUL. */
  function UpToNul(name: seq<Byte>): (r: seq<Byte>)
    ensures |r| <= |name| && r == name[..|r|] && 0 !in r && (|r| < |name| ==> name[|r|] == 0)
  {
    if name == [] || name[0] == 0 then [] else [name[0]] + UpToNul(name[1..])
  }

  /** The chunks that survive being stored. */
  predicate Storable(c: Chunk) {
    Writable(c) && c.size <= MAX_CHUNK_SIZE && 0 !in c.name
  }

  predicate AllStorable(chunks: seq<Chunk>) {
    forall i :: 0 <= i < |chunks| ==> Storable(chunks[i])
  }

  function ReadChunk(stream: seq<Byte>): (r: Result<(Chunk, seq<Byte>)>)
    ensures r.Ok? ==> Storable(r.value.0)
  {
    match ReadWord(stream)
    case Err(e) => Err(e)
    case Ok((size, rest)) =>
      if size > MAX_CHUNK_SIZE then Err(ChunkTooLarge)
      else if |rest| < NAME_SIZE then Err(ReadFailed)
      else if |rest| - NAME_SIZE < size then Err(ReadFailed)
      else
        var data := rest[NAME_SIZE..][..size];
        Ok((Chunk(UpToNul(rest[..NAME_SIZE]), size, data), rest[NAME_SIZE + size..]))
  }

  function ReadChunks(stream: seq<Byte>, count: nat): (r: Result<(seq<Chunk>, seq<Byte>)>)
    ensures r.Ok? ==> |r.value.0| == count && AllStorable(r.value.0)
    decreases count
  {
    if count == 0 then Ok(([], stream))
    else
      match ReadChunks(stream, count - 1)
      case Err(e) => Err(e)
      case Ok((chunks, rest)) =>
        match ReadChunk(rest)
        case Err(e) => Err(e)
        case Ok((c, rest')) => Ok((chunks + [c], rest'))
  }

  function ReadHeader(stream: seq<Byte>): Result<(Header, seq<Byte>)> {
    if |stream| < |MAGIC| then Err(ReadFailed)
    else if stream[..|MAGIC|] != MAGIC then Err(BadMagic)
    else if |stream| < HEADER_SIZE then Err(ReadFailed)
    else
      Ok((Header(WordAt(stream, 5), WordAt(stream, 9), WordAt(stream, 13), WordAt(stream, 17), WordAt(stream, 21)),
          stream[HEADER_SIZE..]))
  }

  function TrailerSize(mode: Word): nat {
    if mode == CRC32_MODE then 4 else 0
  }

  /** The checks made before any chunk is read. */
  function HeaderError(h: Header, fileSize: nat): Result<()>
    requires fileSize >= HEADER_SIZE
  {
    if h.version != VERSION then Err(UnsupportedVersion)
    else if h.checksum != NO_CHECKSUM && h.checksum != CRC32_MODE then Err(UnsupportedChecksumMode)
    else if h.chunkCount > MAX_CHUNKS then Err(TooManyChunks)
    else if fileSize < HEADER_SIZE + TrailerSize(h.checksum) then Err(FileTooShort)
    else if h.chunkCount > (fileSize - HEADER_SIZE - TrailerSize(h.checksum)) / CHUNK_HEADER_SIZE then Err(CountExceedsFile)
    else Ok(())
  }

  /** The checks made after the last chunk: the checksum is that of the header
      and chunks as they were understood, not of the bytes read. */
  function Finish(s: State, stream: seq<Byte>): Result<State>
    requires AllWritable(s.chunks)
  {
    if s.header.checksum != CRC32_MODE then if stream == [] then Ok(s) else Err(TrailingData)
    else
      match ReadWord(stream)
      case Err(e) => Err(e)
      case Ok((stored, rest)) =>
        if Crc32(Payload(s)) != stored then Err(ChecksumMismatch)
        else if rest == [] then Ok(s) else Err(TrailingData)
  }

  function Decode(file: seq<Byte>): Result<State> {
    match ReadHeader(file)
    case Err(e) => Err(e)
    case Ok((h, rest)) =>
      match HeaderError(h, |file|)
      case Err(e) => Err(e)
      case Ok(_) =>
        match ReadChunks(rest, h.chunkCount)
        case Err(e) => Err(e)
        case Ok((chunks, rest')) => Finish(State(h, chunks), rest')
  }

  lemma FailureIsFinal(stream: seq<Byte>, i: nat, count: nat)
    requires i <= count && ReadChunks(stream, i).Err?
    ensures ReadChunks(stream, count) == Err(ReadChunks(stream, i).error)
    decreases count
  {
    if i < count { FailureIsFinal(stream, i, count - 1); }
  }

  /** The reader. */
  method Read(file: seq<Byte>) returns (r: Result<State>)
    ensures r == Decode(file)
  {
    if |file| < |MAGIC| { return Err(ReadFailed); }
    if file[..|MAGIC|] != MAGIC { return Err(BadMagic); }
    if |file| < HEADER_SIZE { return Err(ReadFailed); }
    var header := Header(WordAt(file, 5), WordAt(file, 9), WordAt(file, 13), WordAt(file, 17), WordAt(file, 21));
    if header.version != VERSION { return Err(UnsupportedVersion); }
    if header.checksum != NO_CHECKSUM && header.checksum != CRC32_MODE { return Err(UnsupportedChecksumMode); }
    if header.chunkCount > MAX_CHUNKS { return Err(TooManyChunks); }
    var trailerSize := if header.checksum == CRC32_MODE then 4 else 0;
    if |file| < HEADER_SIZE + trailerSize { return Err(FileTooShort); }
    if header.chunkCount > (|file| - HEADER_SIZE - trailerSize) / CHUNK_HEADER_SIZE { return Err(CountExceedsFile); }
    r := ReadBody(header, file[HEADER_SIZE..]);
  }

  lemma StorableIsWritable(c: Chunk)
    requires Storable(c)
    ensures Writable(c)
  {
  }

  lemma EncodeSnoc(chunks: seq<Chunk>, c: Chunk)
    requires AllWritable(chunks) && Writable(c)
    ensures AllWritable(chunks + [c]) && EncodeChunks(chunks + [c]) == EncodeChunks(chunks) + EncodeChunk(c)
  {
    hide EncodeChunk, Writable;
    assert (chunks + [c])[..|chunks|] == chunks;
  }

  lemma ReadSnoc(stream: seq<Byte>, count: nat, chunks: seq<Chunk>, rest: seq<Byte>)
    requires ReadChunks(stream, count) == Ok((chunks, rest))
    ensures ReadChunks(stream, count + 1) == match ReadChunk(rest)
                                             case Err(e) => Err(e)
                                             case Ok((c, after)) => Ok((chunks + [c], after))
  {
    hide ReadChunk;
  }

  lemma NothingRead(stream: seq<Byte>)
    ensures ReadChunks(stream, 0) == Ok(([], stream)) && AllWritable([]) && EncodeChunks([]) == []
  {
  }

  method ReadBody(header: Header, stream: seq<Byte>) returns (r: Result<State>)
    ensures r == match ReadChunks(stream, header.chunkCount)
                 case Err(e) => Err(e)
                 case Ok((chunks, rest)) => Finish(State(header, chunks), rest)
  {
    hide ReadChunk, ReadChunks, ReadWord, EncodeHeader, EncodeChunk, EncodeChunks, Storable, Crc32;
    var payload, chunks: seq<Chunk>, rest := EncodeHeader(header), [], stream;
    NothingRead(stream);
    assert payload == payload + [];
    var i := 0;
    while i < header.chunkCount
      invariant 0 <= i <= header.chunkCount
      invariant ReadChunks(stream, i) == Ok((chunks, rest)) && AllWritable(chunks)
      invariant payload == EncodeHeader(header) + EncodeChunks(chunks)
    {
      ReadSnoc(stream, i, chunks, rest);
      match ReadChunk(rest) {
        case Err(e) =>
          FailureIsFinal(stream, i + 1, header.chunkCount);
          return Err(e);
        case Ok((c, after)) =>
          StorableIsWritable(c);
          EncodeSnoc(chunks, c);
          payload := payload + EncodeChunk(c);
          chunks, rest := chunks + [c], after;
      }
      i := i + 1;
    }
    if header.checksum == CRC32_MODE {
      match ReadWord(rest) {
        case Err(e) => return Err(e);
        case Ok((stored, after)) =>
          var computed := Compute(payload);
          if computed != stored { return Err(ChecksumMismatch); }
          rest := after;
      }
    }
    r := if rest == [] then Ok(State(header, chunks)) else Err(TrailingData);
  }

  // ----- What the reader accepts -----

  /** A chunk as stored, its name field filled up with `pad`. */
  function Framed(c: Chunk, pad: seq<Byte>): seq<Byte> {
    U32(c.size) + (c.name + pad) + c.data
  }

  /** A filler that starts with the NUL that ends the name. */
  predicate LegalPad(c: Chunk, pad: seq<Byte>) {
    |c.name| + |pad| == NAME_SIZE && (pad != [] ==> pad[0] == 0)
  }

  ghost predicate LegalPads(chunks: seq<Chunk>, pads: seq<seq<Byte>>) {
    |pads| == |chunks| && forall i: nat :: i < |chunks| ==> LegalPad(chunks[i], pads[i])
  }

  function FramedChunks(chunks: seq<Chunk>, pads: seq<seq<Byte>>): seq<Byte>
    requires |chunks| == |pads|
  {
    if chunks == [] then []
    else FramedChunks(chunks[..|chunks| - 1], pads[..|chunks| - 1]) + Framed(chunks[|chunks| - 1], pads[|chunks| - 1])
  }

  /** A file for `s` with the given fillers; its checksum is of the canonical form. */
  function Padded(s: State, pads: seq<seq<Byte>>): seq<Byte>
    requires |s.chunks| == |pads| && AllStorable(s.chunks)
  {
    EncodeHeader(s.header) + FramedChunks(s.chunks, pads) + Trailer(s.header.checksum, Payload(s))
  }

  predicate KnownMode(mode: Word) {
    mode == NO_CHECKSUM || mode == CRC32_MODE
  }

  predicate Acceptable(s: State) {
    && s.header.version == VERSION && KnownMode(s.header.checksum)
    && s.header.chunkCount == |s.chunks| <= MAX_CHUNKS
    && AllStorable(s.chunks)
  }

  ghost predicate FileOf(file: seq<Byte>, s: State, pads: seq<seq<Byte>>)
    requires Acceptable(s)
  {
    LegalPads(s.chunks, pads) && file == Padded(s, pads)
  }

  // ----- Single fields -----

  lemma WordOf(before: seq<Byte>, v: Word, after: seq<Byte>)
    ensures WordAt(before + U32(v) + after, |before|) == v
  {
    var bytes, k := before + U32(v) + after, |before|;
    assert bytes[k] == v % 256 && bytes[k + 1] == v / 256 % 256 && bytes[k + 2] == v / 65536 % 256 && bytes[k + 3] == v / 16777216;
    assert v == v % 256 + 256 * (v / 256) && v / 256 == v / 256 % 256 + 256 * (v / 65536) && v / 65536 == v / 65536 % 256 + 256 * (v / 16777216);
  }

  lemma Digits(a: nat, b: nat, c: nat, d: nat)
    requires a < 256 && b < 256 && c < 256 && d < 256
    ensures var v := a + 256 * b + 65536 * c + 16777216 * d;
            v % 256 == a && v / 256 % 256 == b && v / 65536 % 256 == c && v / 16777216 == d
  {
    var v := a + 256 * b + 65536 * c + 16777216 * d;
    assert v / 256 == b + 256 * c + 65536 * d;
    assert v / 65536 == c + 256 * d;
  }

  lemma OfWord(bytes: seq<Byte>, i: nat)
    requires i + 4 <= |bytes|
    ensures U32(WordAt(bytes, i)) == bytes[i..i + 4]
  {
    Digits(bytes[i], bytes[i + 1], bytes[i + 2], bytes[i + 3]);
  }

  lemma WordRoundTrip(v: Word, rest: seq<Byte>)
    ensures ReadWord(U32(v) + rest) == Ok((v, rest))
  {
    WordOf([], v, rest);
    assert [] + U32(v) + rest == U32(v) + rest;
  }

  lemma {:induction false} NameEnds(name: seq<Byte>, pad: seq<Byte>)
    requires 0 !in name && (pad != [] ==> pad[0] == 0)
    ensures UpToNul(name + pad) == name
    decreases |name|
  {
    if name == [] {
      assert name + pad == pad;
    } else {
      assert (name + pad)[1..] == name[1..] + pad;
      NameEnds(name[1..], pad);
    }
  }

  lemma ChunkReadBack(c: Chunk, pad: seq<Byte>, rest: seq<Byte>)
    requires Storable(c) && LegalPad(c, pad)
    ensures ReadChunk(Framed(c, pad) + rest) == Ok((c, rest))
  {
    var stream, field := Framed(c, pad) + rest, c.name + pad;
    assert stream == U32(c.size) + (field + c.data + rest);
    WordRoundTrip(c.size, field + c.data + rest);
    var after := field + c.data + rest;
    assert after[..NAME_SIZE] == field && after[NAME_SIZE..] == c.data + rest;
    NameEnds(c.name, pad);
    assert after[NAME_SIZE..][..c.size] == c.data && after[NAME_SIZE + c.size..] == rest;
  }

  lemma ChunkWasFramed(stream: seq<Byte>) returns (pad: seq<Byte>)
    requires ReadChunk(stream).Ok?
    ensures LegalPad(ReadChunk(stream).value.0, pad)
    ensures stream == Framed(ReadChunk(stream).value.0, pad) + ReadChunk(stream).value.1
  {
    var after := stream[4..];
    var field := after[..NAME_SIZE];
    var (c, rest) := ReadChunk(stream).value;
    pad := field[|c.name|..];
    OfWord(stream, 0);
    assert field == c.name + pad;
    assert stream == stream[0..4] + after && after == field + after[NAME_SIZE..];
    assert after[NAME_SIZE..] == c.data + rest;
  }

  lemma ReadOneMore(head: seq<Byte>, last: seq<Byte>, rest: seq<Byte>, front: seq<Chunk>, c: Chunk)
    requires ReadChunks(head + (last + rest), |front|) == Ok((front, last + rest)) && ReadChunk(last + rest) == Ok((c, rest))
    ensures ReadChunks(head + last + rest, |front| + 1) == Ok((front + [c], rest))
  {
    hide ReadChunk, ReadChunks;
    assert head + last + rest == head + (last + rest);
    ReadSnoc(head + (last + rest), |front|, front, last + rest);
  }

  lemma {:induction false} ChunksReadBack(chunks: seq<Chunk>, pads: seq<seq<Byte>>, rest: seq<Byte>)
    requires LegalPads(chunks, pads) && AllStorable(chunks)
    ensures ReadChunks(FramedChunks(chunks, pads) + rest, |chunks|) == Ok((chunks, rest))
    decreases |chunks|
  {
    if chunks == [] {
      assert FramedChunks(chunks, pads) + rest == rest;
    } else {
      hide Framed, FramedChunks, ReadChunk, ReadChunks, LegalPad, Storable;
      var n := |chunks| - 1;
      var (front, frontPads) := (chunks[..n], pads[..n]);
      assert chunks == front + [chunks[n]] && pads == frontPads + [pads[n]];
      var last := Framed(chunks[n], pads[n]);
      ChunksReadBack(front, frontPads, last + rest);
      ChunkReadBack(chunks[n], pads[n], rest);
      ReadOneMore(FramedChunks(front, frontPads), last, rest, front, chunks[n]);
      FramedSnoc(front, chunks[n], frontPads, pads[n]);
    }
  }

  lemma FramedSnoc(chunks: seq<Chunk>, c: Chunk, pads: seq<seq<Byte>>, pad: seq<Byte>)
    requires LegalPads(chunks, pads) && LegalPad(c, pad)
    ensures LegalPads(chunks + [c], pads + [pad])
    ensures FramedChunks(chunks + [c], pads + [pad]) == FramedChunks(chunks, pads) + Framed(c, pad)
  {
    hide Framed, LegalPad;
    assert (chunks + [c])[..|chunks|] == chunks && (pads + [pad])[..|chunks|] == pads;
  }

  lemma LastRead(stream: seq<Byte>, count: nat, chunks: seq<Chunk>, rest: seq<Byte>) returns (front: seq<Chunk>, c: Chunk, mid: seq<Byte>)
    requires count > 0 && ReadChunks(stream, count) == Ok((chunks, rest))
    ensures chunks == front + [c] && ReadChunks(stream, count - 1) == Ok((front, mid)) && ReadChunk(mid) == Ok((c, rest))
  {
    hide ReadChunk;
    front, mid := ReadChunks(stream, count - 1).value.0, ReadChunks(stream, count - 1).value.1;
    c := ReadChunk(mid).value.0;
  }

  lemma NothingFramed(stream: seq<Byte>)
    ensures LegalPads([], []) && stream == FramedChunks([], []) + stream
  {
  }

  lemma {:induction false} ChunksWereFramed(stream: seq<Byte>, count: nat, chunks: seq<Chunk>, rest: seq<Byte>) returns (pads: seq<seq<Byte>>)
    requires ReadChunks(stream, count) == Ok((chunks, rest))
    ensures LegalPads(chunks, pads) && stream == FramedChunks(chunks, pads) + rest
    decreases count
  {
    hide Framed, ReadChunk, ReadChunks, LegalPad, Storable, FramedChunks;
    if count == 0 {
      NothingRead(stream);
      pads := [];
      NothingFramed(stream);
    } else {
      var front, c, mid := LastRead(stream, count, chunks, rest);
      var pads0 := ChunksWereFramed(stream, count - 1, front, mid);
      var pad := ChunkWasFramed(mid);
      pads := pads0 + [pad];
      FramedSnoc(front, c, pads0, pad);
      assert stream == FramedChunks(front, pads0) + (Framed(c, pad) + rest);
    }
  }

  lemma HeaderReadBack(h: Header, rest: seq<Byte>)
    ensures ReadHeader(EncodeHeader(h) + rest) == Ok((h, rest))
  {
    hide WordAt, U32;
    var file := EncodeHeader(h) + rest;
    var v, c, r, k, n := U32(h.version), U32(h.coreId), U32(h.romHash), U32(h.checksum), U32(h.chunkCount);
    assert file[..5] == MAGIC;
    WordOf(MAGIC, h.version, c + r + k + n + rest);
    assert MAGIC + v + (c + r + k + n + rest) == file;
    WordOf(MAGIC + v, h.coreId, r + k + n + rest);
    assert MAGIC + v + c + (r + k + n + rest) == file;
    WordOf(MAGIC + v + c, h.romHash, k + n + rest);
    assert MAGIC + v + c + r + (k + n + rest) == file;
    WordOf(MAGIC + v + c + r, h.checksum, n + rest);
    assert MAGIC + v + c + r + k + (n + rest) == file;
    WordOf(MAGIC + v + c + r + k, h.chunkCount, rest);
  }

  lemma HeaderWasEncoded(file: seq<Byte>)
    requires ReadHeader(file).Ok?
    ensures file == EncodeHeader(ReadHeader(file).value.0) + ReadHeader(file).value.1
  {
    hide WordAt, U32;
    OfWord(file, 5);
    OfWord(file, 9);
    OfWord(file, 13);
    OfWord(file, 17);
    OfWord(file, 21);
    assert file == file[..5] + file[5..9] + file[9..13] + file[13..17] + file[17..21] + file[21..25] + file[25..];
  }

  // ----- Whole files -----

  lemma {:induction false} FramedSize(chunks: seq<Chunk>, pads: seq<seq<Byte>>)
    requires LegalPads(chunks, pads)
    ensures |FramedChunks(chunks, pads)| >= CHUNK_HEADER_SIZE * |chunks|
    decreases |chunks|
  {
    if chunks != [] { FramedSize(chunks[..|chunks| - 1], pads[..|chunks| - 1]); }
  }

  lemma CountFits(count: nat, room: nat)
    requires room >= CHUNK_HEADER_SIZE * count
    ensures count <= room / CHUNK_HEADER_SIZE
  {
  }

  lemma HeaderAccepted(h: Header, count: nat, fileSize: nat)
    requires h.version == VERSION && KnownMode(h.checksum) && h.chunkCount == count <= MAX_CHUNKS
    requires fileSize >= HEADER_SIZE + CHUNK_HEADER_SIZE * count + TrailerSize(h.checksum)
    ensures HeaderError(h, fileSize).Ok?
  {
    CountFits(count, fileSize - HEADER_SIZE - TrailerSize(h.checksum));
  }

  /** Reading back chunks behind a header, whatever follows them. */
  lemma DecodeBody(s: State, pads: seq<seq<Byte>>, after: seq<Byte>)
    requires Acceptable(s) && LegalPads(s.chunks, pads) && |after| >= TrailerSize(s.header.checksum)
    ensures Decode(EncodeHeader(s.header) + FramedChunks(s.chunks, pads) + after) == Finish(s, after)
  {
    hide EncodeHeader, FramedChunks, ReadHeader, ReadChunks, Finish, LegalPad, Storable, HeaderError;
    var body := FramedChunks(s.chunks, pads) + after;
    assert EncodeHeader(s.header) + FramedChunks(s.chunks, pads) + after == EncodeHeader(s.header) + body;
    HeaderReadBack(s.header, body);
    ChunksReadBack(s.chunks, pads, after);
    FramedSize(s.chunks, pads);
    HeaderAccepted(s.header, |s.chunks|, HEADER_SIZE + |body|);
  }

  lemma FinishOwnTrailer(s: State)
    requires Acceptable(s)
    ensures Finish(s, Trailer(s.header.checksum, Payload(s))) == Ok(s)
    ensures |Trailer(s.header.checksum, Payload(s))| == TrailerSize(s.header.checksum)
  {
    hide WordAt, U32, Payload, Crc32;
    if s.header.checksum == CRC32_MODE {
      Crc32Fits(Payload(s));
      WordRoundTrip(Crc32(Payload(s)), []);
      assert U32(Crc32(Payload(s))) + [] == U32(Crc32(Payload(s)));
    }
  }

  lemma FinishedWithTrailer(s: State, rest: seq<Byte>)
    requires AllStorable(s.chunks) && Finish(s, rest).Ok?
    ensures Finish(s, rest).value == s && rest == Trailer(s.header.checksum, Payload(s))
  {
    if s.header.checksum == CRC32_MODE {
      OfWord(rest, 0);
      assert rest == rest[0..4] + rest[4..];
    }
  }

  /** The accepted files are exactly the framed ones: known header, limits kept,
      checksum right, nothing trailing, and any filler behind a name's NUL. */
  lemma AcceptedExactly(file: seq<Byte>, s: State)
    ensures Decode(file) == Ok(s) <==> Acceptable(s) && exists pads :: FileOf(file, s, pads)
  {
    if Decode(file) == Ok(s) {
      hide WordAt, Finish, Payload, Storable, LegalPad;
      var (h, rest) := ReadHeader(file).value;
      var (chunks, rest') := ReadChunks(rest, h.chunkCount).value;
      HeaderWasEncoded(file);
      var pads := ChunksWereFramed(rest, h.chunkCount, chunks, rest');
      FinishedWithTrailer(State(h, chunks), rest');
      assert file == EncodeHeader(h) + FramedChunks(chunks, pads) + rest';
      assert FileOf(file, s, pads);
    }
    if Acceptable(s) && exists pads :: FileOf(file, s, pads) {
      hide Finish, Decode, Payload, FramedChunks;
      var pads :| FileOf(file, s, pads);
      FinishOwnTrailer(s);
      DecodeBody(s, pads, Trailer(s.header.checksum, Payload(s)));
    }
  }

  // ----- Round trip -----

  function ZeroPads(chunks: seq<Chunk>): (pads: seq<seq<Byte>>)
    requires AllWritable(chunks)
    ensures |pads| == |chunks|
  {
    seq(|chunks|, i requires 0 <= i < |chunks| && Writable(chunks[i]) => Zeros(NAME_SIZE - |chunks[i].name|))
  }

  lemma ZeroFramed(c: Chunk)
    requires Writable(c)
    ensures EncodeChunk(c) == Framed(c, Zeros(NAME_SIZE - |c.name|))
  {
  }

  lemma {:induction false} ZeroPadded(chunks: seq<Chunk>)
    requires AllWritable(chunks)
    ensures EncodeChunks(chunks) == FramedChunks(chunks, ZeroPads(chunks))
    ensures LegalPads(chunks, ZeroPads(chunks))
    decreases |chunks|
  {
    if chunks != [] {
      hide EncodeChunks, FramedChunks, EncodeChunk, Framed, LegalPads;
      var n := |chunks| - 1;
      var front, c, pad := chunks[..n], chunks[n], Zeros(NAME_SIZE - |chunks[n].name|);
      ZeroPadded(front);
      assert chunks == front + [c];
      assert ZeroPads(chunks) == ZeroPads(front) + [pad];
      EncodeSnoc(front, c);
      FramedSnoc(front, c, ZeroPads(front), pad);
      ZeroFramed(c);
    }
  }

  /** Writing and reading back is the identity on exactly these states. */
  lemma RoundTrip(s: State)
    requires |s.chunks| < 0x1_0000_0000 && AllWritable(s.chunks)
    ensures Decode(Encode(Stamped(s))) == Ok(Stamped(s)) <==>
              KnownMode(s.header.checksum) && |s.chunks| <= MAX_CHUNKS && AllStorable(s.chunks)
  {
    hide Decode, EncodeHeader, Trailer, FramedChunks, EncodeChunks;
    var t := Stamped(s);
    AcceptedExactly(Encode(t), t);
    if Acceptable(t) {
      ZeroPadded(t.chunks);
      assert FileOf(Encode(t), t, ZeroPads(t.chunks));
    }
  }

  /** What stands behind the NUL of a name is outside the checksum: changing it
      changes nothing that is read. */
  lemma PaddingIsUnprotected(s: State, pads: seq<seq<Byte>>, pads': seq<seq<Byte>>)
    requires Acceptable(s) && LegalPads(s.chunks, pads) && LegalPads(s.chunks, pads')
    ensures Decode(Padded(s, pads)) == Decode(Padded(s, pads')) == Ok(s)
  {
    hide Decode, Padded;
    AcceptedExactly(Padded(s, pads), s);
    AcceptedExactly(Padded(s, pads'), s);
    assert FileOf(Padded(s, pads), s, pads) && FileOf(Padded(s, pads'), s, pads');
  }

  // ----- Corruption -----

  lemma {:induction false} EncodeConcat(a: seq<Chunk>, b: seq<Chunk>)
    requires AllWritable(a + b)
    requires AllWritable(a)
    requires AllWritable(b)
    ensures EncodeChunks(a + b) == EncodeChunks(a) + EncodeChunks(b)
    decreases |b|
  {
    if b == [] {
      assert a + b == a;
    } else {
      hide EncodeChunk, Writable;
      var n := |b| - 1;
      assert (a + b)[..|a + b| - 1] == a + b[..n];
      EncodeConcat(a, b[..n]);
    }
  }

  /** Where the data of chunk `k` starts. */
  function DataStart(chunks: seq<Chunk>, k: nat): nat
    requires k < |chunks| && AllWritable(chunks)
  {
    HEADER_SIZE + |EncodeChunks(chunks[..k])| + CHUNK_HEADER_SIZE
  }

  function WithData(s: State, k: nat, data: seq<Byte>): State
    requires k < |s.chunks|
  {
    s.(chunks := s.chunks[k := s.chunks[k].(data := data)])
  }

  /** The payload around the data of chunk `k`. */
  function Front(h: Header, chunks: seq<Chunk>, c: Chunk): seq<Byte>
    requires AllWritable(chunks) && Writable(c)
  {
    EncodeHeader(h) + EncodeChunks(chunks) + (U32(c.size) + EncodeName(c.name))
  }

  lemma PayloadAround(s: State, k: nat)
    requires k < |s.chunks| && AllWritable(s.chunks)
    ensures AllWritable(s.chunks[..k]) && AllWritable(s.chunks[k + 1..])
    ensures Payload(s) == Front(s.header, s.chunks[..k], s.chunks[k]) + s.chunks[k].data + EncodeChunks(s.chunks[k + 1..])
    ensures |Front(s.header, s.chunks[..k], s.chunks[k])| == DataStart(s.chunks, k)
  {
    hide EncodeHeader, EncodeChunks, U32, EncodeName;
    SplitChunks(s.chunks, k);
  }

  lemma SplitChunks(chunks: seq<Chunk>, k: nat)
    requires k < |chunks| && AllWritable(chunks)
    ensures EncodeChunks(chunks) == EncodeChunks(chunks[..k]) + EncodeChunk(chunks[k]) + EncodeChunks(chunks[k + 1..])
  {
    hide EncodeChunk, EncodeChunks, Writable;
    assert chunks == chunks[..k + 1] + chunks[k + 1..];
    EncodeConcat(chunks[..k + 1], chunks[k + 1..]);
    assert chunks[..k + 1] == chunks[..k] + [chunks[k]];
    EncodeSnoc(chunks[..k], chunks[k]);
  }

  lemma StaysWritable(s: State, k: nat, data: seq<Byte>)
    requires k < |s.chunks| && AllWritable(s.chunks) && |data| == |s.chunks[k].data|
    ensures AllWritable(WithData(s, k, data).chunks)
  {
  }

  lemma Reassemble(front: seq<Byte>, x: seq<Byte>, y: seq<Byte>, tail: seq<Byte>)
    requires |x| == |y|
    ensures var whole, d := front + x + tail, |front|;
            front + y + tail == whole[..d] + y + whole[d + |y|..]
  {
  }

  lemma SameAround(s: State, k: nat, data: seq<Byte>)
    requires k < |s.chunks| && AllWritable(s.chunks) && |data| == |s.chunks[k].data|
    ensures AllWritable(WithData(s, k, data).chunks)
    ensures var d := DataStart(s.chunks, k);
            && d + |data| <= |Payload(s)|
            && Payload(WithData(s, k, data)) == Payload(s)[..d] + data + Payload(s)[d + |data|..]
  {
    var t := WithData(s, k, data);
    StaysWritable(s, k, data);
    hide Payload, Front, EncodeChunks, Writable, AllWritable, DataStart;
    PayloadAround(s, k);
    PayloadAround(t, k);
    assert t.chunks[..k] == s.chunks[..k] && t.chunks[k + 1..] == s.chunks[k + 1..];
    SameFront(s.header, s.chunks[..k], s.chunks[k], t.chunks[k]);
    Reassemble(Front(s.header, s.chunks[..k], s.chunks[k]), s.chunks[k].data, data, EncodeChunks(s.chunks[k + 1..]));
  }

  lemma SameFront(h: Header, chunks: seq<Chunk>, c: Chunk, c': Chunk)
    requires AllWritable(chunks) && Writable(c) && Writable(c') && c.size == c'.size && c.name == c'.name
    ensures Front(h, chunks, c) == Front(h, chunks, c')
  {
  }

  /** Changed data under the old checksum is accepted, as changed, exactly when
      the file carries no checksum or the two checksums collide. */
  lemma ChangedData(s: State, k: nat, data: seq<Byte>)
    requires Acceptable(s) && k < |s.chunks| && |data| == |s.chunks[k].data|
    ensures var t := WithData(s, k, data);
            && AllWritable(t.chunks)
            && Decode(Payload(t) + Trailer(s.header.checksum, Payload(s))) ==
                 if s.header.checksum == CRC32_MODE && Crc32(Payload(t)) != Crc32(Payload(s))
                 then Err(ChecksumMismatch) else Ok(t)
  {
    hide Decode, EncodeHeader, EncodeChunks, Crc32, FramedChunks, WordAt, U32;
    var t := WithData(s, k, data);
    SameAround(s, k, data);
    StaysAcceptable(s, k, data);
    ZeroPadded(t.chunks);
    Crc32Fits(Payload(s));
    var trailer := Trailer(s.header.checksum, Payload(s));
    DecodeBody(t, ZeroPads(t.chunks), trailer);
    if s.header.checksum == CRC32_MODE {
      WordRoundTrip(Crc32(Payload(s)), []);
      assert trailer + [] == trailer;
    }
  }

  lemma StaysAcceptable(s: State, k: nat, data: seq<Byte>)
    requires Acceptable(s) && k < |s.chunks| && |data| == |s.chunks[k].data|
    ensures Acceptable(WithData(s, k, data))
  {
  }

  /** A file with a checksum, changed inside four consecutive bytes of one
      chunk's data, is never read. */
  lemma DataCorruptionIsDetected(s: State, k: nat, file: seq<Byte>, p: nat, q: nat)
    requires Acceptable(s) && s.header.checksum == CRC32_MODE && k < |s.chunks|
    requires |file| == |Encode(s)| && file != Encode(s)
    requires DataStart(s.chunks, k) <= p <= q <= DataStart(s.chunks, k) + |s.chunks[k].data| && q <= p + 4
    requires q <= |file| && file[..p] == Encode(s)[..p] && file[q..] == Encode(s)[q..]
    ensures Decode(file) == Err(ChecksumMismatch)
  {
    hide Decode, EncodeHeader, EncodeChunks, Crc32, WordAt, U32, Acceptable;
    Unpack(s);
    var d, n := DataStart(s.chunks, k), |s.chunks[k].data|;
    var old', trailer := Payload(s), Trailer(s.header.checksum, Payload(s));
    SameAround(s, k, s.chunks[k].data);
    var data := file[d..d + n];
    SameAround(s, k, data);
    ChangedData(s, k, data);
    var new' := Payload(WithData(s, k, data));
    Patched(old', trailer, file, d, n, p, q);
    FourByteCorruptionIsDetected(old', new', p, q);
  }

  lemma Unpack(s: State)
    requires Acceptable(s)
    ensures AllStorable(s.chunks)
  {
  }

  lemma Patched(payload: seq<Byte>, trailer: seq<Byte>, file: seq<Byte>, d: nat, n: nat, p: nat, q: nat)
    requires d <= p <= q <= d + n <= |payload| && |file| == |payload + trailer| && file != payload + trailer
    requires file[..p] == (payload + trailer)[..p] && file[q..] == (payload + trailer)[q..]
    ensures var changed := payload[..d] + file[d..d + n] + payload[d + n..];
            && file == changed + trailer && changed != payload
            && changed[..p] == payload[..p] && changed[q..] == payload[q..]
  {
    var whole, changed := payload + trailer, payload[..d] + file[d..d + n] + payload[d + n..];
    forall i: nat | i < |whole| && !(p <= i < q) ensures file[i] == whole[i] {
      if i < p {
        assert file[i] == file[..p][i] && whole[i] == whole[..p][i];
      } else {
        assert file[i] == file[q..][i - q] && whole[i] == whole[q..][i - q];
      }
    }
    assert |changed| == |payload|;
    forall i: nat | i < |payload| ensures changed[i] == file[i] {
      assert payload[i] == whole[i];
    }
    assert file == changed + trailer;
  }

  // ----- Loading for a core and a cartridge -----

  function DecodeForCore(file: seq<Byte>, core: Word, rom: seq<Byte>): Result<State> {
    if core == 0 then Err(CoreNotSet)
    else
      match Decode(file)
      case Err(e) => Err(e)
      case Ok(s) =>
        if s.header.coreId != core then Err(WrongCore)
        else if s.header.romHash != 0 && Crc32(rom) != s.header.romHash then Err(WrongRom)
        else Ok(s)
  }

  method ReadForCore(file: seq<Byte>, core: Word, rom: seq<Byte>) returns (r: Result<State>)
    ensures r == DecodeForCore(file, core, rom)
  {
    if core == 0 { return Err(CoreNotSet); }
    r := Read(file);
    if r.Err? { return; }
    if r.value.header.coreId != core { return Err(WrongCore); }
    var hash := Compute(rom);
    if r.value.header.romHash != 0 && hash != r.value.header.romHash { return Err(WrongRom); }
  }

  /** Which of a saved state's four answers a core and a cartridge get. */
  lemma LoadsExactly(s: State, core: Word, rom: seq<Byte>)
    requires Acceptable(s)
    ensures var r := DecodeForCore(Encode(s), core, rom);
            var fits := s.header.romHash == 0 || s.header.romHash == Crc32(rom);
            && (r == Err(CoreNotSet) <==> core == 0)
            && (r == Err(WrongCore) <==> core != 0 && s.header.coreId != core)
            && (r == Err(WrongRom) <==> core != 0 && s.header.coreId == core && !fits)
            && (r == Ok(s) <==> core != 0 && s.header.coreId == core && fits)
  {
    hide Decode, Encode, Crc32;
    RoundTrip(s);
  }

  /** A state saved for one cartridge is not loaded for a cartridge that differs
      from it inside four bytes only, and is loaded for its own. */
  lemma BoundToCartridge(s: State, rom: seq<Byte>, other: seq<Byte>, p: nat, q: nat)
    requires Acceptable(s) && s.header.coreId != 0 && s.header.romHash == Crc32(rom) != 0
    requires |other| == |rom| && p <= q <= |rom| && q <= p + 4 && rom != other && rom[..p] == other[..p] && rom[q..] == other[q..]
    ensures DecodeForCore(Encode(s), s.header.coreId, rom) == Ok(s)
    ensures DecodeForCore(Encode(s), s.header.coreId, other) == Err(WrongRom)
  {
    hide Decode, Encode, Crc32;
    RoundTrip(s);
    FourByteCorruptionIsDetected(rom, other, p, q);
  }
}
