/** The save-state file byte by byte: where its header, its chunks and its checksum stand. */
module SaveStateLayout {
  import opened Crc
  import opened SaveState

  /** Four bytes from `at` on, lowest first, hold `v`. */
  predicate Holds(file: seq<Byte>, at: nat, v: int) {
    && at + 4 <= |file|
    && v == file[at] as int + 0x100 * (file[at + 1] as int) + 0x1_0000 * (file[at + 2] as int) + 0x100_0000 * (file[at + 3] as int)
  }

  lemma WordHolds(v: Word, file: seq<Byte>, at: nat)
    requires at + 4 <= |file| && file[at..at + 4] == U32(v)
    ensures Holds(file, at, v)
  {
    assert v == v % 256 + 256 * (v / 256) && v / 256 == v / 256 % 256 + 256 * (v / 65536) && v / 65536 == v / 65536 % 256 + 256 * (v / 16777216);
    var four := file[at..at + 4];
    assert file[at] == four[0] && file[at + 1] == four[1] && file[at + 2] == four[2] && file[at + 3] == four[3];
  }

  /** The file begins with the letters PTIME and five words: version, core, cartridge
      hash, checksum mode and number of chunks. */
  lemma HeaderLayout(s: State)
    requires AllWritable(s.chunks)
    ensures var file := Encode(s);
            && 25 <= |file| && file[..5] == [0x50, 0x54, 0x49, 0x4D, 0x45]
            && Holds(file, 5, s.header.version) && Holds(file, 9, s.header.coreId) && Holds(file, 13, s.header.romHash)
            && Holds(file, 17, s.header.checksum) && Holds(file, 21, s.header.chunkCount)
  {
    hide U32, EncodeChunks, Trailer, Holds;
    var file, h := Encode(s), s.header;
    assert file[..25] == EncodeHeader(h);
    assert file[5..9] == EncodeHeader(h)[5..9] == U32(h.version);
    assert file[9..13] == EncodeHeader(h)[9..13] == U32(h.coreId);
    assert file[13..17] == EncodeHeader(h)[13..17] == U32(h.romHash);
    assert file[17..21] == EncodeHeader(h)[17..21] == U32(h.checksum);
    assert file[21..25] == EncodeHeader(h)[21..25] == U32(h.chunkCount);
    assert file[..5] == EncodeHeader(h)[..5] == MAGIC;
    WordHolds(h.version, file, 5);
    WordHolds(h.coreId, file, 9);
    WordHolds(h.romHash, file, 13);
    WordHolds(h.checksum, file, 17);
    WordHolds(h.chunkCount, file, 21);
  }

  /** What the chunks before the `k`-th take up: 36 bytes each, and their data. */
  function Sizes(chunks: seq<Chunk>, k: nat): nat
    requires k <= |chunks|
  {
    if k == 0 then 0 else Sizes(chunks, k - 1) + 36 + |chunks[k - 1].data|
  }

  lemma {:induction false} ChunksTakeUp(chunks: seq<Chunk>, k: nat)
    requires AllWritable(chunks) && k <= |chunks|
    ensures |EncodeChunks(chunks[..k])| == Sizes(chunks, k)
    ensures EncodeChunks(chunks[..k]) <= EncodeChunks(chunks)
    ensures k < |chunks| ==> EncodeChunks(chunks[..k + 1]) == EncodeChunks(chunks[..k]) + EncodeChunk(chunks[k])
    decreases |chunks| + k
  {
    hide EncodeChunk;
    if k > 0 {
      assert chunks[..k][..k - 1] == chunks[..k - 1];
      ChunksTakeUp(chunks, k - 1);
    }
    if k < |chunks| {
      assert chunks[..k + 1][..k] == chunks[..k];
      var front := chunks[..|chunks| - 1];
      assert front[..k] == chunks[..k];
      ChunksTakeUp(front, k);
    } else {
      assert chunks[..k] == chunks;
    }
  }

  /** Behind the header and the earlier chunks stand a chunk's size, its name filled up
      with zeros to 32 bytes, and its data. */
  lemma ChunkLayout(s: State, k: nat)
    requires AllWritable(s.chunks) && k < |s.chunks|
    ensures var file, at, c := Encode(s), 25 + Sizes(s.chunks, k), s.chunks[k];
            && at + 36 + |c.data| <= |file|
            && Holds(file, at, |c.data|)
            && file[at + 4..at + 4 + |c.name|] == c.name
            && (forall i :: at + 4 + |c.name| <= i < at + 36 ==> file[i] == 0)
            && file[at + 36..at + 36 + |c.data|] == c.data
  {
    hide Encode, EncodeChunks, EncodeChunk, EncodeName, Sizes, Holds, U32;
    ChunkPlace(s, k);
    ChunkStands(Encode(s), 25 + Sizes(s.chunks, k), s.chunks[k]);
  }

  lemma ChunkStands(file: seq<Byte>, at: nat, c: Chunk)
    requires Writable(c) && at + 36 + |c.data| <= |file| && file[at..at + 36 + |c.data|] == EncodeChunk(c)
    ensures Holds(file, at, |c.data|)
    ensures file[at + 4..at + 4 + |c.name|] == c.name
    ensures forall i :: at + 4 + |c.name| <= i < at + 36 ==> file[i] == 0
    ensures file[at + 36..at + 36 + |c.data|] == c.data
  {
    hide U32, Holds, EncodeChunk, EncodeName;
    var code := EncodeChunk(c);
    ChunkParts(c);
    Inside(file, at, |code|, 0, 4);
    Inside(file, at, |code|, 4, 36);
    Inside(file, at, |code|, 36, |code|);
    WordHolds(c.size, file, at);
    NamePadded(c.name, file, at + 4);
  }

  lemma Inside(s: seq<Byte>, at: nat, n: nat, from: nat, to: nat)
    requires at + n <= |s| && from <= to <= n
    ensures s[at..at + n][from..to] == s[at + from..at + to]
  {
    var inner, direct := s[at..at + n][from..to], s[at + from..at + to];
    assert |inner| == |direct|;
    forall i: nat | i < to - from ensures inner[i] == direct[i] {
      assert s[at..at + n][from + i] == s[at + (from + i)];
    }
  }

  lemma ChunkParts(c: Chunk)
    requires Writable(c)
    ensures var code := EncodeChunk(c);
            code[..4] == U32(c.size) && code[4..36] == EncodeName(c.name) && code[36..] == c.data
  {
    hide U32, EncodeName;
  }

  lemma NamePadded(name: seq<Byte>, file: seq<Byte>, at: nat)
    requires |name| <= 32 && at + 32 <= |file| && file[at..at + 32] == EncodeName(name)
    ensures file[at..at + |name|] == name && forall i :: at + |name| <= i < at + 32 ==> file[i] == 0
  {
    Inside(file, at, 32, 0, |name|);
    assert EncodeName(name)[0..|name|] == name;
    forall i | at + |name| <= i < at + 32
      ensures file[i] == 0
    {
      assert file[i] == file[at..at + 32][i - at];
    }
  }

  /** One part of a file, at its place. */
  lemma Placed(head: seq<Byte>, all: seq<Byte>, trailer: seq<Byte>, before: seq<Byte>, code: seq<Byte>)
    requires before + code <= all
    ensures var file, at := head + all + trailer, |head| + |before|;
            at + |code| <= |file| && file[at..at + |code|] == code
  {
    var file, at := head + all + trailer, |head| + |before|;
    forall i: nat | i < |code|
      ensures file[at..at + |code|][i] == code[i]
    {
      assert file[at + i] == all[|before| + i] == (before + code)[|before| + i];
    }
  }

  lemma ChunkAmongChunks(chunks: seq<Chunk>, k: nat)
    requires AllWritable(chunks) && k < |chunks|
    ensures |EncodeChunks(chunks[..k])| == Sizes(chunks, k)
    ensures EncodeChunks(chunks[..k]) + EncodeChunk(chunks[k]) <= EncodeChunks(chunks)
  {
    hide EncodeChunks, EncodeChunk, Sizes;
    ChunksTakeUp(chunks, k);
    ChunksTakeUp(chunks, k + 1);
  }

  lemma FileParts(s: State)
    requires AllWritable(s.chunks)
    ensures Encode(s) == EncodeHeader(s.header) + EncodeChunks(s.chunks) + Trailer(s.header.checksum, Payload(s))
  {
    hide EncodeHeader, EncodeChunks, Trailer;
  }

  /** A chunk's code stands where the earlier ones end. */
  lemma ChunkPlace(s: State, k: nat)
    requires AllWritable(s.chunks) && k < |s.chunks|
    ensures var file, at, code := Encode(s), 25 + Sizes(s.chunks, k), EncodeChunk(s.chunks[k]);
            at + |code| <= |file| && file[at..at + |code|] == code
  {
    hide Encode, Payload, EncodeHeader, Trailer, EncodeChunks, EncodeChunk, Sizes;
    FileParts(s);
    ChunkAmongChunks(s.chunks, k);
    Placed(EncodeHeader(s.header), EncodeChunks(s.chunks), Trailer(s.header.checksum, Payload(s)),
           EncodeChunks(s.chunks[..k]), EncodeChunk(s.chunks[k]));
  }

  /** With checksum mode one, the file ends with the CRC-32 of all before it; otherwise
      with the last chunk. */
  lemma TrailerLayout(s: State)
    requires AllWritable(s.chunks)
    ensures var file, end := Encode(s), 25 + Sizes(s.chunks, |s.chunks|);
            && |file| == (if s.header.checksum == 1 then end + 4 else end)
            && (s.header.checksum == 1 ==> Holds(file, end, Crc32(file[..end])))
  {
    hide U32, EncodeHeader, Holds, EncodeChunks, Crc32;
    var file, end := Encode(s), 25 + Sizes(s.chunks, |s.chunks|);
    ChunksTakeUp(s.chunks, |s.chunks|);
    assert s.chunks[..|s.chunks|] == s.chunks;
    assert file[..end] == Payload(s);
    if s.header.checksum == 1 {
      Crc32Fits(Payload(s));
      assert file[end..end + 4] == U32(Crc32(Payload(s)));
      WordHolds(Crc32(Payload(s)), file, end);
    }
  }

  /** Which states can be stored, in numbers. */
  lemma AcceptableSpelledOut(s: State)
    ensures Acceptable(s) <==>
              && s.header.version == 1 && (s.header.checksum == 0 || s.header.checksum == 1)
              && s.header.chunkCount == |s.chunks| <= 4096
              && forall i :: 0 <= i < |s.chunks| ==>
                   var c := s.chunks[i];
                   |c.name| <= 32 && 0 !in c.name && c.size == |c.data| <= 0x400_0000
  {
    if Acceptable(s) {
      forall i | 0 <= i < |s.chunks|
        ensures |s.chunks[i].name| <= 32 && 0 !in s.chunks[i].name && s.chunks[i].size == |s.chunks[i].data| <= 0x400_0000
      {
        assert Storable(s.chunks[i]);
      }
    }
  }

  lemma HeldWord(file: seq<Byte>, at: nat, v: int)
    requires Holds(file, at, v)
    ensures 0 <= v < 0x1_0000_0000 && WordAt(file, at) == v
  {
  }

  /** Which error a file is refused with before its first chunk is read. */
  lemma RefusedBeforeChunks(file: seq<Byte>, version: int, checksum: int, count: int)
    requires |file| >= 25 && file[..5] == [0x50, 0x54, 0x49, 0x4D, 0x45]
    requires Holds(file, 5, version) && Holds(file, 17, checksum) && Holds(file, 21, count)
    ensures version != 1 ==> Decode(file) == Err(UnsupportedVersion)
    ensures version == 1 && checksum > 1 ==> Decode(file) == Err(UnsupportedChecksumMode)
    ensures version == 1 && checksum <= 1 && count > 4096 ==> Decode(file) == Err(TooManyChunks)
    ensures version == 1 && checksum == 1 && count <= 4096 && |file| < 29 ==> Decode(file) == Err(FileTooShort)
    ensures version == 1 && checksum == 0 && count <= 4096 && 25 + 36 * count > |file| ==> Decode(file) == Err(CountExceedsFile)
    ensures version == 1 && checksum == 1 && count <= 4096 && |file| >= 29 && 29 + 36 * count > |file| ==>
              Decode(file) == Err(CountExceedsFile)
  {
    hide WordAt, ReadChunks, Finish, Holds;
    HeldWord(file, 5, version);
    HeldWord(file, 17, checksum);
    HeldWord(file, 21, count);
    assert ReadHeader(file).Ok?;
  }

  /** A file too short for its header, or without the five letters. */
  lemma RefusedUnread(file: seq<Byte>)
    ensures |file| < 5 ==> Decode(file) == Err(ReadFailed)
    ensures |file| >= 5 && file[..5] != [0x50, 0x54, 0x49, 0x4D, 0x45] ==> Decode(file) == Err(BadMagic)
    ensures 5 <= |file| < 25 && file[..5] == [0x50, 0x54, 0x49, 0x4D, 0x45] ==> Decode(file) == Err(ReadFailed)
  {
    hide ReadChunks, Finish;
  }
}
