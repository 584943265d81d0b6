/**
  The bytes of an Android sparse image. Every list of chunks has an image, and
  writing that image to a partition leaves the flat expansion of the chunks.
 */
module SparseImage {
  import opened Word32
  import opened Sparse

  // ----- encoding -----

  function Bytes16(v: nat): (b: seq<byte>)
    requires v < 0x1_0000
    ensures |b| == 2
  {
    [v % 256, v / 256]
  }

  function Tag(c: Chunk): nat {
    match c
    case Raw(_, _) => RAW
    case Fill(_, _) => FILL
    case DontCare(_) => DONT_CARE
  }

  function Payload(c: Chunk): seq<byte> {
    match c
    case Raw(_, data) => data
    case Fill(_, word) => word
    case DontCare(_) => []
  }

  /** A chunk that the format can express. */
  predicate Expressible(c: Chunk, blkSz: nat) {
    ValidChunk(c, blkSz) && c.n < WORD && CHUNK_HEADER + Size(c.n, blkSz) < WORD
  }

  function ChunkHeaderBytes(c: Chunk, blkSz: nat): (b: seq<byte>)
    requires Expressible(c, blkSz)
    ensures |b| == CHUNK_HEADER
  {
    Bytes16(Tag(c)) + Bytes16(0) + Bytes(c.n) + Bytes(CHUNK_HEADER + PayloadSize(c, blkSz))
  }

  function ChunksBytes(chunks: seq<Chunk>, blkSz: nat): seq<byte>
    requires forall i :: 0 <= i < |chunks| ==> Expressible(chunks[i], blkSz)
  {
    if chunks == [] then []
    else ChunkHeaderBytes(chunks[0], blkSz) + Payload(chunks[0]) + ChunksBytes(chunks[1..], blkSz)
  }

  /** The file header: magic number and version, which the writer does not look at, the sizes and the counts. */
  function HeaderBytes(magic: seq<byte>, blkSz: nat, totalBlks: nat, totalChunks: nat): (b: seq<byte>)
    requires |magic| == 8 && blkSz < WORD && totalBlks < WORD && totalChunks < WORD
    ensures |b| == FILE_HEADER
  {
    magic + Bytes16(FILE_HEADER) + Bytes16(CHUNK_HEADER) + Bytes(blkSz) + Bytes(totalBlks) + Bytes(totalChunks)
    + Bytes(0)
  }

  function ImageBytes(magic: seq<byte>, blkSz: nat, chunks: seq<Chunk>): seq<byte>
    requires |magic| == 8 && blkSz < WORD && ImageBlocks(chunks) < WORD && |chunks| < WORD
    requires forall i :: 0 <= i < |chunks| ==> Expressible(chunks[i], blkSz)
  {
    HeaderBytes(magic, blkSz, ImageBlocks(chunks), |chunks|) + ChunksBytes(chunks, blkSz)
  }

  /** v in four bytes, the lowest first. */
  function Low4(v: nat): seq<int> { [v % 256, v / 256 % 256, v / 65536 % 256, v / 16777216 % 256] }

  /** The 28 bytes of the file header behind the magic number and the version. */
  lemma HeaderSpelled(magic: seq<byte>, blkSz: nat, totalBlks: nat, totalChunks: nat)
    requires |magic| == 8 && blkSz < WORD && totalBlks < WORD && totalChunks < WORD
    ensures HeaderBytes(magic, blkSz, totalBlks, totalChunks)
         == magic + [28, 0, 12, 0] + Low4(blkSz) + Low4(totalBlks) + Low4(totalChunks) + [0, 0, 0, 0]
  {
  }

  /** The 12 bytes of a chunk header: 0xCAC1 raw, 0xCAC2 fill, 0xCAC3 don't care; blocks; bytes with this header. */
  lemma ChunkSpelled(c: Chunk, blkSz: nat)
    requires Expressible(c, blkSz)
    ensures var tag := if c.Raw? then 0xC1 else if c.Fill? then 0xC2 else 0xC3;
      var bytes := 12 + if c.Raw? then |c.data| else if c.Fill? then 4 else 0;
      ChunkHeaderBytes(c, blkSz) == [tag, 0xCA, 0, 0] + Low4(c.n) + Low4(bytes)
  {
    hide Size;
    assert Bytes16(Tag(c)) == [Tag(c) % 256, 0xCA] && Bytes16(0) == [0, 0];
    hide Bytes16;
    assert Bytes(c.n) == Low4(c.n) && Bytes(12 + PayloadSize(c, blkSz)) == Low4(12 + PayloadSize(c, blkSz));
    hide Bytes, Low4;
  }

  // ----- decoding -----

  /** Memory holds b from position p on. */
  ghost predicate Holds(mem: Memory, p: nat, b: seq<byte>) {
    forall i :: 0 <= i < |b| ==> mem(p + i) == b[i]
  }

  lemma HoldsCat(mem: Memory, p: nat, a: seq<byte>, b: seq<byte>)
    requires Holds(mem, p, a + b)
    ensures Holds(mem, p, a) && Holds(mem, p + |a|, b)
  {
    var all := a + b;
    forall i | 0 <= i < |a|
      ensures mem(p + i) == a[i]
    {
      assert all[i] == a[i];
    }
    forall i | 0 <= i < |b|
      ensures mem(p + |a| + i) == b[i]
    {
      assert all[|a| + i] == b[i];
      assert p + |a| + i == p + (|a| + i);
    }
  }

  lemma Read16(mem: Memory, p: nat, v: nat)
    requires v < 0x1_0000 && Holds(mem, p, Bytes16(v))
    ensures U16At(mem, p) == v
  {
    var b := Bytes16(v);
    assert mem(p + 0) == b[0] && mem(p + 1) == b[1];
  }

  lemma Read32(mem: Memory, p: nat, v: nat)
    requires v < WORD && Holds(mem, p, Bytes(v))
    ensures U32At(mem, p) == v
  {
    var b := Bytes(v);
    assert mem(p + 0) == b[0] && mem(p + 1) == b[1] && mem(p + 2) == b[2] && mem(p + 3) == b[3];
    Digits(v);
  }

  lemma ReadBytes(mem: Memory, p: nat, b: seq<byte>)
    requires Holds(mem, p, b)
    ensures BytesAt(mem, p, |b|) == b
  {
  }

  lemma HeaderRead(mem: Memory, magic: seq<byte>, blkSz: nat, totalBlks: nat, totalChunks: nat)
    requires |magic| == 8 && blkSz < WORD && totalBlks < WORD && totalChunks < WORD
    requires Holds(mem, 0, HeaderBytes(magic, blkSz, totalBlks, totalChunks))
    ensures HeaderAt(mem) == Header(FILE_HEADER, CHUNK_HEADER, blkSz, totalBlks, totalChunks)
  {
    hide Holds, Bytes16, Bytes, U16At, U32At;
    var f, c, s, t, n := Bytes16(FILE_HEADER), Bytes16(CHUNK_HEADER), Bytes(blkSz), Bytes(totalBlks),
        Bytes(totalChunks);
    HoldsCat(mem, 0, magic + f + c + s + t + n, Bytes(0));
    HoldsCat(mem, 0, magic + f + c + s + t, n);
    HoldsCat(mem, 0, magic + f + c + s, t);
    HoldsCat(mem, 0, magic + f + c, s);
    HoldsCat(mem, 0, magic + f, c);
    HoldsCat(mem, 0, magic, f);
    Read16(mem, 8, FILE_HEADER);
    Read16(mem, 10, CHUNK_HEADER);
    Read32(mem, 12, blkSz);
    Read32(mem, 16, totalBlks);
    Read32(mem, 20, totalChunks);
  }

  lemma ChunkRead(mem: Memory, p: nat, c: Chunk, h: Header)
    requires Expressible(c, h.blkSz) && h.chunkHdr == CHUNK_HEADER
    requires Holds(mem, p, ChunkHeaderBytes(c, h.blkSz)) && Holds(mem, p + CHUNK_HEADER, Payload(c))
    ensures ChunkAt(mem, p, c, h)
  {
    hide Holds, Bytes16, Bytes, U16At, U32At, BytesAt, Size;
    var t, z, n, s := Bytes16(Tag(c)), Bytes16(0), Bytes(c.n), Bytes(CHUNK_HEADER + PayloadSize(c, h.blkSz));
    HoldsCat(mem, p, t + z + n, s);
    HoldsCat(mem, p, t + z, n);
    HoldsCat(mem, p, t, z);
    Read16(mem, p, Tag(c));
    Read32(mem, p + 4, c.n);
    Read32(mem, p + 8, CHUNK_HEADER + PayloadSize(c, h.blkSz));
    ReadBytes(mem, p + CHUNK_HEADER, Payload(c));
  }

  lemma {:induction false} ChunksRead(mem: Memory, p: nat, chunks: seq<Chunk>, h: Header)
    requires h.chunkHdr == CHUNK_HEADER && forall i :: 0 <= i < |chunks| ==> Expressible(chunks[i], h.blkSz)
    requires Holds(mem, p, ChunksBytes(chunks, h.blkSz))
    ensures ChunksAt(mem, p, chunks, h)
    decreases |chunks|
  {
    hide Holds, ChunkAt, ChunkHeaderBytes;
    if chunks != [] {
      var c := chunks[0];
      var a, b, rest := ChunkHeaderBytes(c, h.blkSz), Payload(c), ChunksBytes(chunks[1..], h.blkSz);
      HoldsCat(mem, p, a + b, rest);
      HoldsCat(mem, p, a, b);
      ChunkRead(mem, p, c, h);
      assert |b| == PayloadSize(c, h.blkSz);
      ChunksRead(mem, p + CHUNK_HEADER + PayloadSize(c, h.blkSz), chunks[1..], h);
    }
  }

  // ----- writing an encoded image -----

  function MemoryOf(b: seq<byte>): Memory { (p: nat) => if p < |b| then b[p] else 0 }

  /**
    The image of any chunk list that the partition has room for, written with
    healthy writes, leaves the flat expansion on the device and every other
    block as it was.
   */
  lemma EncodedImage(magic: seq<byte>, p: Partition, ratio: nat, chunks: seq<Chunk>, healthy: nat -> bool,
      disk: nat -> Block, b: nat)
    requires |magic| == 8 && ValidPartition(p) && ratio >= 1 && Size(ratio, p.blksz) < WORD
    requires ImageBlocks(chunks) < WORD && |chunks| < WORD && Scaled(ImageBlocks(chunks), ratio) <= p.size
    requires forall i :: 0 <= i < |chunks| ==> Expressible(chunks[i], Size(ratio, p.blksz))
    requires Healthy(healthy)
    ensures var mem, e := MemoryOf(ImageBytes(magic, Size(ratio, p.blksz), chunks)), Flat(chunks, ratio, p.blksz);
      var h := HeaderAt(mem);
      && h.blkSz == Size(ratio, p.blksz) > 0
      && var s := Run(mem, h, p, healthy, Begin(h, p, []), h.totalChunks);
         && Replies(h, s) == [Okay]
         && After(disk, s.st.log, b)
            == if p.start <= b < p.start + |e| && e[b - p.start].Some? then e[b - p.start].value else disk(b)
  {
    ImageLaidOut(magic, Size(ratio, p.blksz), chunks);
    hide HeaderAt, Run, Flat, Scaled, ChunksAt, After, Healthy, ImageBlocks, ImageBytes, MemoryOf;
    WholeImage(MemoryOf(ImageBytes(magic, Size(ratio, p.blksz), chunks)), p, healthy, chunks, ratio, disk, b);
  }

  /** The device after the image of the chunks was written. */
  ghost function Written(magic: seq<byte>, p: Partition, blkSz: nat, chunks: seq<Chunk>, healthy: nat -> bool,
      disk: nat -> Block, b: nat): Block
    requires |magic| == 8 && ValidPartition(p) && 0 < blkSz < WORD && ImageBlocks(chunks) < WORD && |chunks| < WORD
    requires forall i :: 0 <= i < |chunks| ==> Expressible(chunks[i], blkSz)
  {
    var mem := MemoryOf(ImageBytes(magic, blkSz, chunks));
    var h := HeaderAt(mem);
    if h.blkSz == 0 then [] else After(disk, Run(mem, h, p, healthy, Begin(h, p, []), h.totalChunks).st.log, b)
  }

  lemma WrittenBlock(magic: seq<byte>, p: Partition, ratio: nat, chunks: seq<Chunk>, healthy: nat -> bool,
      disk: nat -> Block, k: nat)
    requires |magic| == 8 && ValidPartition(p) && ratio >= 1 && 0 < Size(ratio, p.blksz) < WORD
    requires ImageBlocks(chunks) < WORD && |chunks| < WORD && Scaled(ImageBlocks(chunks), ratio) <= p.size
    requires forall i :: 0 <= i < |chunks| ==> Expressible(chunks[i], Size(ratio, p.blksz))
    requires forall i :: 0 <= i < |chunks| && chunks[i].Fill? ==> |chunks[i].word| == 4
    requires Healthy(healthy)
    ensures var e := Flat(chunks, ratio, p.blksz);
      Written(magic, p, Size(ratio, p.blksz), chunks, healthy, disk, p.start + k)
      == if k < |e| && e[k].Some? then e[k].value else disk(p.start + k)
  {
    hide HeaderAt, Run, Flat, After, Healthy, ImageBlocks, ImageBytes, MemoryOf, Expressible, Scaled, Size, Replies;
    hide Begin;
    EncodedImage(magic, p, ratio, chunks, healthy, disk, p.start + k);
  }

  /** Byte j of block k of the partition is that byte of the stream; where it has none, the block is as it was. */
  lemma EncodedStream(magic: seq<byte>, p: Partition, ratio: nat, chunks: seq<Chunk>, healthy: nat -> bool,
      disk: nat -> Block, k: nat, j: nat)
    requires |magic| == 8 && ValidPartition(p) && ratio >= 1 && 0 < Size(ratio, p.blksz) < WORD
    requires ImageBlocks(chunks) < WORD && |chunks| < WORD && Scaled(ImageBlocks(chunks), ratio) <= p.size
    requires forall i :: 0 <= i < |chunks| ==> Expressible(chunks[i], Size(ratio, p.blksz))
    requires forall i :: 0 <= i < |chunks| && chunks[i].Fill? ==> |chunks[i].word| == 4
    requires Healthy(healthy) && k < Scaled(ImageBlocks(chunks), ratio) && j < p.blksz
    ensures var blkSz := Size(ratio, p.blksz);
      var s, block := Stream(chunks, blkSz), Written(magic, p, blkSz, chunks, healthy, disk, p.start + k);
      && 0 <= k * p.blksz && k * p.blksz + j < |s|
      && if s[k * p.blksz + j].Some? then |block| == p.blksz && block[j] == s[k * p.blksz + j].value
         else block == disk(p.start + k)
  {
    var e := Flat(chunks, ratio, p.blksz);
    assert IsStream(e, p.blksz, Stream(chunks, Size(ratio, p.blksz))) by {
      FlatIsStream(chunks, ratio, p.blksz);
    }
    hide Flat, Stream, IsStream, Size, Healthy, ImageBlocks, Expressible, Scaled, Written;
    FlatSize(chunks, ratio, p.blksz);
    WrittenBlock(magic, p, ratio, chunks, healthy, disk, k);
    StreamByte(e, p.blksz, Stream(chunks, Size(ratio, p.blksz)), k, j);
  }

  /** The writer finds in an image what was put into it. */
  lemma ImageLaidOut(magic: seq<byte>, blkSz: nat, chunks: seq<Chunk>)
    requires |magic| == 8 && blkSz < WORD && ImageBlocks(chunks) < WORD && |chunks| < WORD
    requires forall i :: 0 <= i < |chunks| ==> Expressible(chunks[i], blkSz)
    ensures var mem := MemoryOf(ImageBytes(magic, blkSz, chunks));
      var h := HeaderAt(mem);
      h == Header(FILE_HEADER, CHUNK_HEADER, blkSz, ImageBlocks(chunks), |chunks|) &&
          ChunksAt(mem, FILE_HEADER, chunks, h)
  {
    hide HeaderAt, ImageBlocks, ChunksBytes, HeaderBytes, Expressible, ChunksAt;
    var mem := MemoryOf(ImageBytes(magic, blkSz, chunks));
    var front, back := HeaderBytes(magic, blkSz, ImageBlocks(chunks), |chunks|), ChunksBytes(chunks, blkSz);
    assert Holds(mem, 0, front + back);
    HoldsCat(mem, 0, front, back);
    HeaderRead(mem, magic, blkSz, ImageBlocks(chunks), |chunks|);
    ChunksRead(mem, FILE_HEADER, chunks, HeaderAt(mem));
  }

  // ----- an image that wraps -----

  const HIGH := Partition(0xFFFF_FFF0, 8, 512)
  const WRAPPING := [DontCare(16), Fill(1, [1, 2, 3, 4])]

  /** 16 blocks that are not cared about take the block number from HIGH's start to 0. */
  lemma SkipWraps(mem: Memory, h: Header, healthy: nat -> bool, st: State)
    requires h == Header(FILE_HEADER, CHUNK_HEADER, 512, 17, 2) && ChunkAt(mem, st.pos, DontCare(16), h)
    requires st.blk == HIGH.start && st.total == 0
    ensures ChunkStep(mem, h, HIGH, healthy, st) == Go(State(st.pos + CHUNK_HEADER, 0, 16, st.log))
  {
    hide U16At, U32At;
  }

  lemma FillAtZero(mem: Memory, h: Header, healthy: nat -> bool, st: State)
    requires h == Header(FILE_HEADER, CHUNK_HEADER, 512, 17, 2) && ChunkAt(mem, st.pos, Fill(1, [1, 2, 3, 4]), h)
    requires st.blk == 0 && st.total == 16 && Healthy(healthy)
    ensures var s := ChunkStep(mem, h, HIGH, healthy, st);
      s.Go? && s.st.log == st.log + [Write(0, Pattern([1, 2, 3, 4], 512))] && s.st.total == 17
  {
    hide U16At, U32At, BytesAt, Pattern;
    AllGood(healthy, |st.log|, 1);
    assert Wrap(0) == 0;
    assert Repeated(0, 1, Pattern([1, 2, 3, 4], 512)) == [Write(0, Pattern([1, 2, 3, 4], 512))];
  }

  lemma WrappingRun(mem: Memory, h: Header, healthy: nat -> bool, st: State)
    requires h == Header(FILE_HEADER, CHUNK_HEADER, 512, 17, 2) && Healthy(healthy)
    requires ChunkAt(mem, st.pos, DontCare(16), h) && ChunkAt(mem, st.pos + CHUNK_HEADER, Fill(1, [1, 2, 3, 4]), h)
    requires st.blk == HIGH.start && st.total == 0 && st.log == []
    ensures var s := Run(mem, h, HIGH, healthy, st, 2);
      Replies(h, s) == [Okay] && s.st.log == [Write(0, Pattern([1, 2, 3, 4], 512))] && !Inside(HIGH, s.st.log)
  {
    hide Run, ChunkStep, ChunkAt, Pattern, Healthy;
    SkipWraps(mem, h, healthy, st);
    var st1 := ChunkStep(mem, h, HIGH, healthy, st).st;
    FillAtZero(mem, h, healthy, st1);
    RunUnfolds(mem, h, HIGH, healthy, st, 2);
    RunUnfolds(mem, h, HIGH, healthy, st1, 1);
    RunUnfolds(mem, h, HIGH, healthy, ChunkStep(mem, h, HIGH, healthy, st1).st, 0);
    var log := [Write(0, Pattern([1, 2, 3, 4], 512))];
    assert [] + log == log && log[0].block < HIGH.start;
  }

  lemma WrappingExpressible()
    ensures forall i :: 0 <= i < |WRAPPING| ==> Expressible(WRAPPING[i], 512)
    ensures ImageBlocks(WRAPPING) == 17 && |WRAPPING| == 2
  {
    assert WRAPPING[1..] == [Fill(1, [1, 2, 3, 4])] && WRAPPING[1..][1..] == [];
    assert ImageBlocks(WRAPPING[1..]) == 1;
  }

  lemma WrappingChunks(mem: Memory, h: Header)
    requires h == Header(FILE_HEADER, CHUNK_HEADER, 512, 17, 2) && ChunksAt(mem, FILE_HEADER, WRAPPING, h)
    ensures ChunkAt(mem, FILE_HEADER, DontCare(16), h)
    ensures ChunkAt(mem, FILE_HEADER + CHUNK_HEADER, Fill(1, [1, 2, 3, 4]), h)
  {
    hide ChunkAt;
    var rest := WRAPPING[1..];
    assert ChunksAt(mem, FILE_HEADER + CHUNK_HEADER, rest, h);
    assert rest[0] == Fill(1, [1, 2, 3, 4]);
  }

  /** Its image is written without complaint, to block 0, which is not in the partition. */
  lemma WrappingImage(magic: seq<byte>, healthy: nat -> bool)
    requires |magic| == 8 && Healthy(healthy)
    ensures forall i :: 0 <= i < |WRAPPING| ==> Expressible(WRAPPING[i], 512)
    ensures var mem := MemoryOf(ImageBytes(magic, 512, WRAPPING));
      var h := HeaderAt(mem);
      && h.blkSz > 0
      && var s := Run(mem, h, HIGH, healthy, Begin(h, HIGH, []), h.totalChunks);
         Replies(h, s) == [Okay] && s.st.log == [Write(0, Pattern([1, 2, 3, 4], 512))] && !Inside(HIGH, s.st.log)
  {
    WrappingExpressible();
    hide HeaderAt, MemoryOf, ImageBytes, ChunkAt, ChunksAt, Pattern, Run, ImageBlocks, Expressible, Inside, Healthy;
    ImageLaidOut(magic, 512, WRAPPING);
    var mem := MemoryOf(ImageBytes(magic, 512, WRAPPING));
    WrappingChunks(mem, HeaderAt(mem));
    WrappingRun(mem, HeaderAt(mem), healthy, Begin(HeaderAt(mem), HIGH, []));
  }
}
