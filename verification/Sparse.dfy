/**
  write_sparse_image of aboot.c: an Android sparse image in memory is written to
  a partition block by block.
 */
module Sparse {
  import opened Options
  import opened Arith
  import opened Word32
  import opened Bits

  type Memory = nat -> byte
  type Block = seq<byte>

  const FILE_HEADER: nat := 28
  const CHUNK_HEADER: nat := 12
  const RAW: nat := 0xCAC1
  const FILL: nat := 0xCAC2
  const DONT_CARE: nat := 0xCAC3
  const CRC32: nat := 0xCAC4

  // ----- little-endian memory -----

  function U16At(mem: Memory, p: nat): (r: nat)
    ensures r < 0x1_0000
  {
    mem(p) + 0x100 * mem(p + 1)
  }

  function U32At(mem: Memory, p: nat): (r: nat)
    ensures r < WORD
  {
    mem(p) + 0x100 * mem(p + 1) + 0x1_0000 * mem(p + 2) + 0x100_0000 * mem(p + 3)
  }

  function BytesAt(mem: Memory, p: nat, n: nat): (r: seq<byte>)
    ensures |r| == n
  {
    seq(n, i requires 0 <= i < n => mem(p + i))
  }

  // ----- the run as a function -----

  /** disk_partition_t */
  datatype Partition = Partition(start: nat, size: nat, blksz: nat)

  predicate ValidPartition(p: Partition) {
    p.blksz >= 4 && p.blksz % 4 == 0 && p.start + p.size < WORD
  }

  /** The fields of the sparse header that the writer uses. */
  datatype Header = Header(fileHdr: nat, chunkHdr: nat, blkSz: nat, totalBlks: nat, totalChunks: nat)

  function HeaderAt(mem: Memory): Header {
    Header(U16At(mem, 8), U16At(mem, 10), U32At(mem, 12), U32At(mem, 16), U32At(mem, 20))
  }

  datatype Write = Write(block: nat, data: Block)

  datatype Reply = Okay | Fail(why: string)

  /** Data pointer, next block, image blocks so far, blocks written. */
  datatype State = State(pos: nat, blk: nat, total: nat, log: seq<Write>)

  datatype Step = Go(st: State) | Stop(st: State, why: string)

  /** n blocks from memory at pos, as block_write puts them on the device. */
  function Blocks(mem: Memory, pos: nat, blk: nat, n: nat, blksz: nat): seq<Write> {
    seq(n, i requires 0 <= i < n => Write(blk + i, BytesAt(mem, pos + Offset(i, blksz), blksz)))
  }

  function Offset(i: nat, blksz: nat): nat { i * blksz }

  /** A block filled with one 32-bit word. */
  function Pattern(word: seq<byte>, blksz: nat): Block
    requires |word| == 4
  {
    seq(blksz, i requires 0 <= i < blksz => word[i % 4])
  }

  /** n single-block writes of the same data; the block number is counted up in 32 bits. */
  function Repeated(blk: nat, n: nat, data: Block): seq<Write> {
    seq(n, i requires 0 <= i < n => Write(Wrap(blk + i), data))
  }

  /** How many of n blocks are written before the first failure. */
  function Good(healthy: nat -> bool, done: nat, n: nat): (r: nat)
    ensures r <= n
    decreases n
  {
    if n == 0 || !healthy(done) then 0 else 1 + Good(healthy, done + 1, n - 1)
  }

  /** chunk_data_sz and blkcnt, in 32-bit arithmetic. */
  function DataSize(h: Header, sz: nat): (r: nat)
    ensures r < WORD
  {
    (h.blkSz * sz) % WORD
  }

  function BlockCount(dataSz: nat, blksz: nat): nat
    requires blksz > 0
  {
    dataSz / blksz
  }

  function Wrap(x: nat): (r: nat)
    ensures r < WORD && (x < WORD ==> r == x)
  {
    x % WORD
  }

  /** A raw chunk whose data of dataSz bytes (cnt blocks) starts at st.pos; a write may break off after any block. */
  function RawStep(mem: Memory, p: Partition, healthy: nat -> bool, st: State, dataSz: nat, cnt: nat, sz: nat): Step {
    if Wrap(st.blk + cnt) > p.start + p.size then Stop(st, "Request would exceed partition size!")
    else
      var n := Good(healthy, |st.log|, cnt);
      var st := st.(log := st.log + Blocks(mem, st.pos, st.blk, n, p.blksz));
      if n < cnt then Stop(st, "flash write failure")
      else Go(State(st.pos + dataSz, Wrap(st.blk + cnt), Wrap(st.total + sz), st.log))
  }

  /** A fill chunk: cnt writes of one block; a failing write ends the run. */
  function FillStep(mem: Memory, p: Partition, healthy: nat -> bool, st: State, cnt: nat, scaled: nat): Step {
    var word, st := BytesAt(mem, st.pos, 4), st.(pos := st.pos + 4);
    if Wrap(st.blk + cnt) > p.start + p.size then Stop(st, "Request would exceed partition size!")
    else
      var n := Good(healthy, |st.log|, cnt);
      var st := st.(log := st.log + Repeated(st.blk, n, Pattern(word, p.blksz)));
      if n < cnt then Stop(st, "flash write failure")
      else Go(st.(blk := Wrap(st.blk + cnt), total := Wrap(st.total + scaled)))
  }

  /** The data pointer behind a chunk header. */
  function Behind(h: Header, pos: nat): nat {
    pos + if h.chunkHdr > CHUNK_HEADER then h.chunkHdr else CHUNK_HEADER
  }

  /** One chunk; healthy(k) says whether the write behind k written blocks succeeds. */
  function ChunkStep(mem: Memory, h: Header, p: Partition, healthy: nat -> bool, st: State): Step
    requires p.blksz > 0 && h.blkSz > 0
  {
    var kind, sz, total := U16At(mem, st.pos), U32At(mem, st.pos + 4), U32At(mem, st.pos + 8);
    var dataSz := DataSize(h, sz);
    var cnt := BlockCount(dataSz, p.blksz);
    var st := st.(pos := Behind(h, st.pos));
    if kind == RAW then
      if total != Wrap(h.chunkHdr + dataSz) then Stop(st, "Bogus chunk size for chunk type Raw")
      else RawStep(mem, p, healthy, st, dataSz, cnt, sz)
    else if kind == FILL then
      if total != Wrap(h.chunkHdr + 4) then Stop(st, "Bogus chunk size for chunk type FILL")
      else FillStep(mem, p, healthy, st, cnt, BlockCount(dataSz, h.blkSz))
    else if kind == DONT_CARE then Go(st.(blk := Wrap(st.blk + cnt), total := Wrap(st.total + sz)))
    else if kind == CRC32 then
      if total != h.chunkHdr then Stop(st, "Bogus chunk size for chunk type Dont Care")
      else Go(st.(pos := st.pos + dataSz, total := Wrap(st.total + sz)))
    else Stop(st, "Unknown chunk type")
  }

  function Run(mem: Memory, h: Header, p: Partition, healthy: nat -> bool, st: State, n: nat): Step
    requires p.blksz > 0 && h.blkSz > 0
    decreases n
  {
    if n == 0 then Go(st)
    else
      var s := ChunkStep(mem, h, p, healthy, st);
      if s.Stop? then s else Run(mem, h, p, healthy, s.st, n - 1)
  }

  /** A checksum chunk is passed over: nothing is written and the next block stays. */
  lemma CrcPassed(mem: Memory, h: Header, p: Partition, healthy: nat -> bool, st: State)
    requires p.blksz > 0 && h.blkSz > 0 && U16At(mem, st.pos) == 0xCAC4
    ensures var sz, s := U32At(mem, st.pos + 4), ChunkStep(mem, h, p, healthy, st);
      if U32At(mem, st.pos + 8) == h.chunkHdr then
        var pos := st.pos + (if h.chunkHdr > 12 then h.chunkHdr else 12) + h.blkSz * sz % WORD;
        s == Go(State(pos, st.blk, (st.total + sz) % WORD, st.log))
      else s.Stop? && s.st.log == st.log
  {
    hide U16At, U32At;
  }

  /** The chunk at st.pos is raw (0xCAC1) or fill (0xCAC2), and its size is the right one. */
  predicate Proper(mem: Memory, h: Header, st: State) {
    var kind, data := U16At(mem, st.pos), h.blkSz * U32At(mem, st.pos + 4) % WORD;
    U32At(mem, st.pos + 8) == (h.chunkHdr + if kind == 0xCAC1 then data else 4) % WORD
  }

  /** A raw or fill chunk of the wrong size is refused. */
  lemma SizeRefused(mem: Memory, h: Header, p: Partition, healthy: nat -> bool, st: State)
    requires p.blksz > 0 && h.blkSz > 0 && U16At(mem, st.pos) in {0xCAC1, 0xCAC2} && !Proper(mem, h, st)
    ensures var s := ChunkStep(mem, h, p, healthy, st);
      && s.Stop? && s.st.log == st.log
      && s.why == if U16At(mem, st.pos) == 0xCAC1 then "Bogus chunk size for chunk type Raw"
                  else "Bogus chunk size for chunk type FILL"
  {
    hide U16At, U32At, RawStep, FillStep;
  }

  /** One that would go beyond the partition is refused. */
  lemma RangeRefused(mem: Memory, h: Header, p: Partition, healthy: nat -> bool, st: State)
    requires p.blksz > 0 && h.blkSz > 0 && U16At(mem, st.pos) in {0xCAC1, 0xCAC2} && Proper(mem, h, st)
    requires (st.blk + h.blkSz * U32At(mem, st.pos + 4) % WORD / p.blksz) % WORD > p.start + p.size
    ensures var s := ChunkStep(mem, h, p, healthy, st);
      s.Stop? && s.st.log == st.log && s.why == "Request would exceed partition size!"
  {
    hide U16At, U32At, BytesAt, Good, Blocks, Repeated, Pattern;
  }

  /** A first write that fails ends the run. */
  lemma WriteRefused(mem: Memory, h: Header, p: Partition, healthy: nat -> bool, st: State)
    requires p.blksz > 0 && h.blkSz > 0 && U16At(mem, st.pos) in {0xCAC1, 0xCAC2} && Proper(mem, h, st)
    requires (st.blk + h.blkSz * U32At(mem, st.pos + 4) % WORD / p.blksz) % WORD <= p.start + p.size
    requires h.blkSz * U32At(mem, st.pos + 4) % WORD / p.blksz > 0 && !healthy(|st.log|)
    ensures var s := ChunkStep(mem, h, p, healthy, st);
      s.Stop? && s.st.log == st.log && s.why == "flash write failure"
  {
    hide U16At, U32At, BytesAt, Pattern;
    assert Good(healthy, |st.log|, BlockCount(DataSize(h, U32At(mem, st.pos + 4)), p.blksz)) == 0;
    NothingWritten(mem, Behind(h, st.pos), st, p.blksz);
    hide Good, Blocks, Repeated;
  }

  lemma NothingWritten(mem: Memory, pos: nat, st: State, blksz: nat)
    ensures st.log + Blocks(mem, pos, st.blk, 0, blksz) == st.log
    ensures forall data: Block :: st.log + Repeated(st.blk, 0, data) == st.log
  {
  }

  /** Any other type ends the run. */
  lemma UnknownStops(mem: Memory, h: Header, p: Partition, healthy: nat -> bool, st: State)
    requires p.blksz > 0 && h.blkSz > 0 && U16At(mem, st.pos) !in {0xCAC1, 0xCAC2, 0xCAC3, 0xCAC4}
    ensures var s := ChunkStep(mem, h, p, healthy, st); s.Stop? && s.st.log == st.log && s.why == "Unknown chunk type"
  {
    hide U16At, U32At;
  }

  lemma RunUnfolds(mem: Memory, h: Header, p: Partition, healthy: nat -> bool, st: State, n: nat)
    requires p.blksz > 0 && h.blkSz > 0
    ensures n == 0 ==> Run(mem, h, p, healthy, st, n) == Go(st)
    ensures n > 0 ==> var s := ChunkStep(mem, h, p, healthy, st);
      Run(mem, h, p, healthy, st, n) == if s.Stop? then s else Run(mem, h, p, healthy, s.st, n - 1)
  {
    hide ChunkStep;
  }

  // ----- safety, for any bytes -----

  ghost predicate Inside(p: Partition, log: seq<Write>) {
    forall i :: 0 <= i < |log| ==> p.start <= log[i].block < p.start + p.size
  }

  /** Where the chunk behind the one at pos starts, by its header. */
  function NextChunk(mem: Memory, h: Header, pos: nat): nat {
    var kind, dataSz := U16At(mem, pos), DataSize(h, U32At(mem, pos + 4));
    Behind(h, pos) + if kind == RAW || kind == CRC32 then dataSz else if kind == FILL then 4 else 0
  }

  /** The device blocks that the headers of n chunks from pos on announce. */
  function Announced(mem: Memory, h: Header, p: Partition, pos: nat, n: nat): nat
    requires p.blksz > 0
    decreases n
  {
    if n == 0 then 0
    else BlockCount(DataSize(h, U32At(mem, pos + 4)), p.blksz) + Announced(mem, h, p, NextChunk(mem, h, pos), n - 1)
  }

  /** cnt blocks from blk on, with a sum that passes the partition check, lie in the partition. */
  predicate Lands(p: Partition, blk: nat, cnt: nat) {
    cnt == 0 || (p.start <= blk && blk + cnt < WORD)
  }

  /**
    The chunk headers from pos on, with blk the next block: every chunk that is
    written lands in the partition. The walk ends where the run is refused.
   */
  predicate WritesLand(mem: Memory, h: Header, p: Partition, pos: nat, blk: nat, n: nat)
    requires p.blksz > 0
    decreases n
  {
    if n == 0 then true
    else
      var kind, total, dataSz := U16At(mem, pos), U32At(mem, pos + 8), DataSize(h, U32At(mem, pos + 4));
      var cnt, next := BlockCount(dataSz, p.blksz), NextChunk(mem, h, pos);
      if (kind == RAW && total == Wrap(h.chunkHdr + dataSz)) || (kind == FILL && total == Wrap(h.chunkHdr + 4)) then
        Wrap(blk + cnt) <= p.start + p.size ==>
          Lands(p, blk, cnt) && WritesLand(mem, h, p, next, Wrap(blk + cnt), n - 1)
      else if kind == DONT_CARE then WritesLand(mem, h, p, next, Wrap(blk + cnt), n - 1)
      else if kind == CRC32 && total == h.chunkHdr then WritesLand(mem, h, p, next, blk, n - 1)
      else true
  }

  lemma InsideMore(p: Partition, log: seq<Write>, more: seq<Write>)
    ensures Inside(p, log + more) <==> Inside(p, log) && Inside(p, more)
  {
    if Inside(p, log + more) {
      forall i | 0 <= i < |log|
        ensures p.start <= log[i].block < p.start + p.size
      {
        assert (log + more)[i] == log[i];
      }
      forall i | 0 <= i < |more|
        ensures p.start <= more[i].block < p.start + p.size
      {
        assert (log + more)[|log| + i] == more[i];
      }
    }
  }

  /** Writes of successive blocks, counted up with or without wrapping. */
  ghost predicate OnBlocks(blk: nat, w: seq<Write>) {
    forall i :: 0 <= i < |w| ==> w[i].block == blk + i || w[i].block == Wrap(blk + i)
  }

  /** The first n of cnt blocks that a chunk writes lie inside if the chunk lands; all of them only if it does. */
  lemma BlocksLand(p: Partition, blk: nat, cnt: nat, w: seq<Write>)
    requires ValidPartition(p) && blk < WORD && Wrap(blk + cnt) <= p.start + p.size && |w| <= cnt
    requires OnBlocks(blk, w)
    ensures Lands(p, blk, cnt) ==> Inside(p, w)
    ensures |w| == cnt && Inside(p, w) ==> Lands(p, blk, cnt)
  {
    if |w| == cnt > 0 {
      assert w[0].block == blk;
      if blk + cnt >= WORD {
        var top := w[WORD - 1 - blk];
        assert top.block == WORD - 1;
      }
    }
  }

  /** The step adds the writes w of good of cnt blocks to the log, and goes on if that is all of them. */
  ghost predicate Wrote(st: State, s: Step, w: seq<Write>, cnt: nat, good: nat) {
    && s.st.log == st.log + w && |w| == good && OnBlocks(st.blk, w)
    && (s.Go? <==> good == cnt) && s.st.blk == if s.Go? then Wrap(st.blk + cnt) else st.blk
  }

  lemma RawWrites(mem: Memory, p: Partition, healthy: nat -> bool, st: State, dataSz: nat, cnt: nat, sz: nat)
    returns (w: seq<Write>)
    ensures var s := RawStep(mem, p, healthy, st, dataSz, cnt, sz);
      if Wrap(st.blk + cnt) <= p.start + p.size then
        Wrote(st, s, w, cnt, Good(healthy, |st.log|, cnt)) && (s.Go? ==> s.st.pos == st.pos + dataSz)
      else s.Stop? && s.st.log == st.log && s.st.blk == st.blk
  {
    hide Good, BytesAt, Offset;
    w := Blocks(mem, st.pos, st.blk, Good(healthy, |st.log|, cnt), p.blksz);
  }

  lemma FillWrites(mem: Memory, p: Partition, healthy: nat -> bool, st: State, cnt: nat, scaled: nat)
    returns (w: seq<Write>)
    ensures var s := FillStep(mem, p, healthy, st, cnt, scaled);
      if Wrap(st.blk + cnt) <= p.start + p.size then
        Wrote(st, s, w, cnt, Good(healthy, |st.log|, cnt)) && (s.Go? ==> s.st.pos == st.pos + 4)
      else s.Stop? && s.st.log == st.log && s.st.blk == st.blk
  {
    hide Good, BytesAt, Pattern;
    w := Repeated(st.blk, Good(healthy, |st.log|, cnt), Pattern(BytesAt(mem, st.pos, 4), p.blksz));
  }

  /** The chunk at st.pos is a raw or fill chunk of proper size that passes the partition check. */
  predicate IsWritten(mem: Memory, h: Header, p: Partition, st: State)
    requires p.blksz > 0
  {
    var kind, total, dataSz := U16At(mem, st.pos), U32At(mem, st.pos + 8), DataSize(h, U32At(mem, st.pos + 4));
    && ((kind == RAW && total == Wrap(h.chunkHdr + dataSz)) || (kind == FILL && total == Wrap(h.chunkHdr + 4)))
    && Wrap(st.blk + BlockCount(dataSz, p.blksz)) <= p.start + p.size
  }

  /** The device blocks that the header of the chunk at pos announces. */
  function CountAt(mem: Memory, h: Header, p: Partition, pos: nat): nat
    requires p.blksz > 0
  {
    BlockCount(DataSize(h, U32At(mem, pos + 4)), p.blksz)
  }

  lemma StepWrites(mem: Memory, h: Header, p: Partition, healthy: nat -> bool, st: State) returns (w: seq<Write>)
    requires p.blksz > 0 && h.blkSz > 0 && st.blk < WORD
    ensures var s, cnt := ChunkStep(mem, h, p, healthy, st), CountAt(mem, h, p, st.pos);
      && s.st.blk < WORD && (s.Go? ==> s.st.pos == NextChunk(mem, h, st.pos))
      && (if IsWritten(mem, h, p, st) then
            Wrap(st.blk + cnt) <= p.start + p.size && Wrote(st, s, w, cnt, Good(healthy, |st.log|, cnt))
          else s.st.log == st.log)
  {
    hide U16At, U32At, DataSize, BlockCount, Good, RawStep, FillStep, OnBlocks;
    var sz := U32At(mem, st.pos + 4);
    var dataSz, st' := DataSize(h, sz), st.(pos := Behind(h, st.pos));
    var cnt := BlockCount(dataSz, p.blksz);
    if U16At(mem, st.pos) == RAW {
      w := RawWrites(mem, p, healthy, st', dataSz, cnt, sz);
    } else {
      w := FillWrites(mem, p, healthy, st', cnt, BlockCount(dataSz, h.blkSz));
    }
  }

  lemma LandsUnfolds(mem: Memory, h: Header, p: Partition, healthy: nat -> bool, st: State, n: nat)
    requires p.blksz > 0 && h.blkSz > 0 && n > 0
    ensures var s, cnt := ChunkStep(mem, h, p, healthy, st), CountAt(mem, h, p, st.pos);
      WritesLand(mem, h, p, st.pos, st.blk, n) <==>
      if IsWritten(mem, h, p, st) then
        Lands(p, st.blk, cnt) && WritesLand(mem, h, p, NextChunk(mem, h, st.pos), Wrap(st.blk + cnt), n - 1)
      else s.Stop? || WritesLand(mem, h, p, NextChunk(mem, h, st.pos), s.st.blk, n - 1)
  {
    hide U16At, U32At, DataSize, BlockCount, Good, Offset, BytesAt, Pattern, Blocks, Repeated, NextChunk, Lands;
  }

  lemma NoChunkLands(mem: Memory, h: Header, p: Partition, pos: nat, blk: nat)
    requires p.blksz > 0
    ensures WritesLand(mem, h, p, pos, blk, 0)
  {
  }

  /** Landing chunks stay inside, also when a write breaks off. */
  lemma {:induction false} LandsInside(mem: Memory, h: Header, p: Partition, healthy: nat -> bool, st: State, n: nat)
    requires ValidPartition(p) && h.blkSz > 0 && st.blk < WORD && Inside(p, st.log)
    requires WritesLand(mem, h, p, st.pos, st.blk, n)
    ensures Inside(p, Run(mem, h, p, healthy, st, n).st.log)
    decreases n
  {
    hide Run, ChunkStep, Inside, WritesLand, CountAt, NextChunk, Lands, Good, IsWritten, OnBlocks;
    RunUnfolds(mem, h, p, healthy, st, n);
    if n > 0 {
      var s := ChunkStep(mem, h, p, healthy, st);
      var w := StepWrites(mem, h, p, healthy, st);
      LandsUnfolds(mem, h, p, healthy, st, n);
      if IsWritten(mem, h, p, st) {
        InsideMore(p, st.log, w);
        BlocksLand(p, st.blk, CountAt(mem, h, p, st.pos), w);
      }
      if s.Go? {
        LandsInside(mem, h, p, healthy, s.st, n - 1);
      }
    }
  }

  /** With healthy writes, a run that stays inside has landed every chunk. */
  lemma {:induction false} InsideLands(mem: Memory, h: Header, p: Partition, healthy: nat -> bool, st: State, n: nat)
    requires ValidPartition(p) && h.blkSz > 0 && st.blk < WORD && Healthy(healthy)
    requires Inside(p, Run(mem, h, p, healthy, st, n).st.log)
    ensures Inside(p, st.log) && WritesLand(mem, h, p, st.pos, st.blk, n)
    decreases n
  {
    hide Run, ChunkStep, Inside, WritesLand, CountAt, NextChunk, Lands, Good, IsWritten, OnBlocks, Healthy;
    RunUnfolds(mem, h, p, healthy, st, n);
    if n == 0 {
      NoChunkLands(mem, h, p, st.pos, st.blk);
    } else {
      var s, cnt := ChunkStep(mem, h, p, healthy, st), CountAt(mem, h, p, st.pos);
      var w := StepWrites(mem, h, p, healthy, st);
      LandsUnfolds(mem, h, p, healthy, st, n);
      AllGood(healthy, |st.log|, cnt);
      if s.Go? {
        InsideLands(mem, h, p, healthy, s.st, n - 1);
      }
      if IsWritten(mem, h, p, st) {
        InsideMore(p, st.log, w);
        BlocksLand(p, st.blk, cnt, w);
      }
    }
  }

  /** No block outside the partition is written, whichever writes fail. */
  ghost predicate AlwaysInside(mem: Memory, h: Header, p: Partition, pos: nat, n: nat)
    requires p.blksz > 0 && h.blkSz > 0
  {
    forall healthy: nat -> bool :: Inside(p, Run(mem, h, p, healthy, State(pos, p.start, 0, []), n).st.log)
  }

  /**
    Whatever the bytes say, no block outside the partition is written exactly when
    every chunk that the headers lead to lands.
   */
  lemma {:induction false} InsideIffLands(mem: Memory, h: Header, p: Partition, pos: nat, n: nat)
    requires ValidPartition(p) && h.blkSz > 0
    ensures AlwaysInside(mem, h, p, pos, n) <==> WritesLand(mem, h, p, pos, p.start, n)
  {
    var st, good := State(pos, p.start, 0, []), (k: nat) => true;
    assert Inside(p, st.log) && Healthy(good);
    hide WritesLand, Run, Inside, Healthy;
    if WritesLand(mem, h, p, pos, p.start, n) {
      forall healthy: nat -> bool
        ensures Inside(p, Run(mem, h, p, healthy, st, n).st.log)
      {
        LandsInside(mem, h, p, healthy, st, n);
      }
    } else if Inside(p, Run(mem, h, p, good, st, n).st.log) {
      InsideLands(mem, h, p, good, st, n);
    }
  }

  lemma {:induction false} FewLand(mem: Memory, h: Header, p: Partition, pos: nat, blk: nat, n: nat)
    requires ValidPartition(p) && p.start <= blk && blk + Announced(mem, h, p, pos, n) < WORD
    ensures WritesLand(mem, h, p, pos, blk, n)
    decreases n
  {
    hide U16At, U32At, DataSize, BlockCount, NextChunk;
    if n > 0 {
      var cnt, next := BlockCount(DataSize(h, U32At(mem, pos + 4)), p.blksz), NextChunk(mem, h, pos);
      FewLand(mem, h, p, next, blk + cnt, n - 1);
      FewLand(mem, h, p, next, blk, n - 1);
    }
  }

  /** In particular when the announced blocks, added to the partition's start, stay in 32 bits. */
  lemma InsideByHeaders(mem: Memory, h: Header, p: Partition, healthy: nat -> bool, pos: nat, n: nat)
    requires ValidPartition(p) && h.blkSz > 0 && p.start + Announced(mem, h, p, pos, n) < WORD
    ensures Inside(p, Run(mem, h, p, healthy, State(pos, p.start, 0, []), n).st.log)
  {
    FewLand(mem, h, p, pos, p.start, n);
    LandsInside(mem, h, p, healthy, State(pos, p.start, 0, []), n);
  }

  // ----- images -----

  /** A chunk of n image blocks. */
  datatype Chunk = Raw(n: nat, data: seq<byte>) | Fill(n: nat, word: seq<byte>) | DontCare(n: nat)

  /** The size of n image blocks. */
  function Size(n: nat, blkSz: nat): nat { n * blkSz }

  predicate ValidChunk(c: Chunk, blkSz: nat) {
    && Size(c.n, blkSz) < WORD
    && (c.Raw? ==> |c.data| == Size(c.n, blkSz))
    && (c.Fill? ==> |c.word| == 4)
  }

  function ImageBlocks(chunks: seq<Chunk>): nat {
    if chunks == [] then 0 else chunks[0].n + ImageBlocks(chunks[1..])
  }

  /** The flat image: one entry per device block, None where the image does not care. */
  function Flat(chunks: seq<Chunk>, ratio: nat, blksz: nat): seq<Option<Block>>
    requires forall i :: 0 <= i < |chunks| && chunks[i].Fill? ==> |chunks[i].word| == 4
  {
    if chunks == [] then [] else FlatChunk(chunks[0], ratio, blksz) + Flat(chunks[1..], ratio, blksz)
  }

  function FlatChunk(c: Chunk, ratio: nat, blksz: nat): seq<Option<Block>>
    requires c.Fill? ==> |c.word| == 4
  {
    match c
    case Raw(n, data) => seq(Scaled(n, ratio), i requires 0 <= i < Scaled(n, ratio) => Some(Slice(data, i, blksz)))
    case Fill(n, word) => seq(Scaled(n, ratio), i requires 0 <= i < Scaled(n, ratio) => Some(Pattern(word, blksz)))
    case DontCare(n) => seq(Scaled(n, ratio), i requires 0 <= i < Scaled(n, ratio) => None)
  }

  function Scaled(n: nat, ratio: nat): nat { n * ratio }

  /** The i-th device block of the data. */
  function Slice(data: seq<byte>, i: nat, blksz: nat): Block {
    if Offset(i, blksz) + blksz <= |data| then data[Offset(i, blksz)..Offset(i, blksz) + blksz] else []
  }

  /** Writing a flat image at blk: its blocks in order, the None entries left out. */
  function FlatWrites(e: seq<Option<Block>>, blk: nat): seq<Write> {
    if e == [] then []
    else (if e[0].None? then [] else [Write(blk, e[0].value)]) + FlatWrites(e[1..], blk + 1)
  }

  // ----- an image laid out in memory -----

  function PayloadSize(c: Chunk, blkSz: nat): nat {
    match c
    case Raw(n, _) => Size(n, blkSz)
    case Fill(_, _) => 4
    case DontCare(_) => 0
  }

  ghost predicate ChunkAt(mem: Memory, pos: nat, c: Chunk, h: Header) {
    && U16At(mem, pos) == (match c case Raw(_, _) => RAW case Fill(_, _) => FILL case DontCare(_) => DONT_CARE)
    && U32At(mem, pos + 4) == c.n && U32At(mem, pos + 8) == h.chunkHdr + PayloadSize(c, h.blkSz)
    && (c.Raw? ==> BytesAt(mem, pos + h.chunkHdr, |c.data|) == c.data)
    && (c.Fill? ==> BytesAt(mem, pos + h.chunkHdr, 4) == c.word)
  }

  ghost predicate ChunksAt(mem: Memory, pos: nat, chunks: seq<Chunk>, h: Header)
    decreases |chunks|
  {
    chunks == [] ||
    (ChunkAt(mem, pos, chunks[0], h) &&
        ChunksAt(mem, pos + h.chunkHdr + PayloadSize(chunks[0], h.blkSz), chunks[1..], h))
  }

  // ----- one chunk of an image -----

  lemma CountIs(n: nat, ratio: nat, blksz: nat, h: Header)
    requires blksz > 0 && h.blkSz == ratio * blksz && Size(n, h.blkSz) < WORD && ratio > 0
    ensures DataSize(h, n) == Size(n, h.blkSz)
    ensures BlockCount(Size(n, h.blkSz), blksz) == Scaled(n, ratio)
    ensures h.blkSz > 0 && BlockCount(Size(n, h.blkSz), h.blkSz) == n
  {
    assert h.blkSz * n == n * h.blkSz;
    Divided(n * ratio, blksz);
    assert n * h.blkSz == (n * ratio) * blksz by {
      Associate(n, ratio, blksz);
    }
    assert h.blkSz > 0 by {
      Positive(ratio, blksz);
    }
    Divided(n, h.blkSz);
  }

  lemma SlicesOfMemory(mem: Memory, pos: nat, data: seq<byte>, i: nat, m: nat, blksz: nat)
    requires BytesAt(mem, pos, |data|) == data && |data| == m * blksz && i < m
    ensures BytesAt(mem, pos + Offset(i, blksz), blksz) == Slice(data, i, blksz)
  {
    assert Offset(i, blksz) + blksz <= |data| by {
      Grows(i, m, blksz);
    }
    forall j | 0 <= j < blksz
      ensures BytesAt(mem, pos + Offset(i, blksz), blksz)[j] == Slice(data, i, blksz)[j]
    {
      assert data[Offset(i, blksz) + j] == BytesAt(mem, pos, |data|)[Offset(i, blksz) + j];
    }
  }

  lemma {:induction false} AllWritten(e: seq<Option<Block>>, blk: nat, w: seq<Write>)
    requires |w| == |e| && forall i :: 0 <= i < |e| ==> e[i].Some? && w[i] == Write(blk + i, e[i].value)
    ensures FlatWrites(e, blk) == w
    decreases |e|
  {
    if e != [] {
      AllWritten(e[1..], blk + 1, w[1..]);
      assert w == [w[0]] + w[1..];
    }
  }

  lemma {:induction false} NoneWritten(e: seq<Option<Block>>, blk: nat)
    requires forall i :: 0 <= i < |e| ==> e[i].None?
    ensures FlatWrites(e, blk) == []
    decreases |e|
  {
    if e != [] {
      NoneWritten(e[1..], blk + 1);
    }
  }

  lemma {:induction false} WritesOfSum(a: seq<Option<Block>>, b: seq<Option<Block>>, blk: nat)
    ensures FlatWrites(a + b, blk) == FlatWrites(a, blk) + FlatWrites(b, blk + |a|)
    decreases |a|
  {
    if a == [] {
      assert a + b == b;
    } else {
      assert (a + b)[1..] == a[1..] + b;
      WritesOfSum(a[1..], b, blk + 1);
      var x, y := FlatWrites(a[1..], blk + 1), FlatWrites(b, blk + |a|);
      var w := if a[0].None? then [] else [Write(blk, a[0].value)];
      assert w + (x + y) == (w + x) + y;
    }
  }

  /** All writes succeed. */
  ghost predicate Healthy(healthy: nat -> bool) { forall k: nat :: healthy(k) }

  lemma {:induction false} AllGood(healthy: nat -> bool, done: nat, n: nat)
    requires Healthy(healthy)
    ensures Good(healthy, done, n) == n
    decreases n
  {
    if n > 0 {
      AllGood(healthy, done + 1, n - 1);
    }
  }

  /** The bytes of a raw chunk, cut into device blocks. */
  lemma RawBlocks(mem: Memory, pos: nat, c: Chunk, blk: nat, ratio: nat, blksz: nat)
    requires c.Raw? && |c.data| == c.n * (ratio * blksz) && BytesAt(mem, pos, |c.data|) == c.data
    ensures Blocks(mem, pos, blk, Scaled(c.n, ratio), blksz) == FlatWrites(FlatChunk(c, ratio, blksz), blk)
  {
    var cnt, e := Scaled(c.n, ratio), FlatChunk(c, ratio, blksz);
    Associate(c.n, ratio, blksz);
    var w := Blocks(mem, pos, blk, cnt, blksz);
    forall i | 0 <= i < cnt
      ensures w[i] == Write(blk + i, e[i].value)
    {
      SlicesOfMemory(mem, pos, c.data, i, cnt, blksz);
    }
    AllWritten(e, blk, w);
  }

  /** A chunk of the image that fits, at st.pos. */
  ghost predicate Next(mem: Memory, h: Header, p: Partition, st: State, c: Chunk, ratio: nat) {
    && ValidPartition(p) && ratio >= 1 && h.blkSz == ratio * p.blksz && CHUNK_HEADER <= h.chunkHdr &&
        h.chunkHdr + 4 < WORD
    && ValidChunk(c, h.blkSz) && h.chunkHdr + Size(c.n, h.blkSz) < WORD
    && ChunkAt(mem, st.pos, c, h)
    && st.blk + Scaled(c.n, ratio) <= p.start + p.size && st.total + c.n < WORD
  }

  lemma RawStepIs(mem: Memory, p: Partition, healthy: nat -> bool, st: State, dataSz: nat, cnt: nat, n: nat)
    requires Healthy(healthy) && st.blk + cnt <= p.start + p.size < WORD && st.total + n < WORD
    ensures RawStep(mem, p, healthy, st, dataSz, cnt, n)
            == Go(State(st.pos + dataSz, st.blk + cnt, st.total + n,
                st.log + Blocks(mem, st.pos, st.blk, cnt, p.blksz)))
  {
    AllGood(healthy, |st.log|, cnt);
    hide Blocks, Good;
  }

  lemma RawWritten(mem: Memory, h: Header, p: Partition, healthy: nat -> bool, st: State, c: Chunk, ratio: nat)
    requires Next(mem, h, p, st, c, ratio) && Healthy(healthy) && c.Raw? && h.blkSz > 0
    ensures ChunkStep(mem, h, p, healthy, st) == Go(Advanced(st, c, h, p, ratio))
  {
    hide DataSize, BlockCount, U16At, U32At, BytesAt, Blocks, FlatChunk, FlatWrites, Scaled, Healthy, RawStep, FillStep;
    CountIs(c.n, ratio, p.blksz, h);
    RawBlocks(mem, st.pos + h.chunkHdr, c, st.blk, ratio, p.blksz);
    hide Size;
    RawStepIs(mem, p, healthy, st.(pos := st.pos + h.chunkHdr), |c.data|, Scaled(c.n, ratio), c.n);
  }

  lemma FillEntries(c: Chunk, blk: nat, ratio: nat, blksz: nat)
    requires c.Fill? && |c.word| == 4 && blk + Scaled(c.n, ratio) <= WORD
    ensures Repeated(blk, Scaled(c.n, ratio), Pattern(c.word, blksz)) == FlatWrites(FlatChunk(c, ratio, blksz), blk)
  {
    var w, e := Repeated(blk, Scaled(c.n, ratio), Pattern(c.word, blksz)), FlatChunk(c, ratio, blksz);
    hide Scaled, Pattern;
    forall i | 0 <= i < |w|
      ensures e[i].Some? && w[i] == Write(blk + i, e[i].value)
    {
      assert Wrap(blk + i) == blk + i;
    }
    AllWritten(e, blk, w);
  }

  lemma FillStepIs(mem: Memory, p: Partition, healthy: nat -> bool, st: State, cnt: nat, n: nat)
    requires Healthy(healthy) && st.blk + cnt <= p.start + p.size < WORD && st.total + n < WORD
    ensures FillStep(mem, p, healthy, st, cnt, n)
            == Go(State(st.pos + 4, st.blk + cnt, st.total + n,
                        st.log + Repeated(st.blk, cnt, Pattern(BytesAt(mem, st.pos, 4), p.blksz))))
  {
    AllGood(healthy, |st.log|, cnt);
    hide Repeated, Pattern, BytesAt, Good;
  }

  lemma FillWritten(mem: Memory, h: Header, p: Partition, healthy: nat -> bool, st: State, c: Chunk, ratio: nat)
    requires Next(mem, h, p, st, c, ratio) && Healthy(healthy) && c.Fill? && h.blkSz > 0
    ensures ChunkStep(mem, h, p, healthy, st) == Go(Advanced(st, c, h, p, ratio))
  {
    hide DataSize, BlockCount, U16At, U32At, BytesAt, Repeated, Pattern, FlatChunk, FlatWrites, Scaled, Size,
        Healthy, FillStep;
    CountIs(c.n, ratio, p.blksz, h);
    FillEntries(c, st.blk, ratio, p.blksz);
    FillStepIs(mem, p, healthy, st.(pos := st.pos + h.chunkHdr), Scaled(c.n, ratio), c.n);
  }

  lemma DontCareWritten(mem: Memory, h: Header, p: Partition, healthy: nat -> bool, st: State, c: Chunk, ratio: nat)
    requires Next(mem, h, p, st, c, ratio) && c.DontCare? && h.blkSz > 0
    ensures ChunkStep(mem, h, p, healthy, st) == Go(Advanced(st, c, h, p, ratio))
  {
    CountIs(c.n, ratio, p.blksz, h);
    NoneWritten(FlatChunk(c, ratio, p.blksz), st.blk);
    assert st.log + [] == st.log;
    hide DataSize, BlockCount, U16At, U32At, FlatChunk, FlatWrites, Scaled, Size;
  }

  /** The state behind a chunk: its part of the flat image is written. */
  function Advanced(st: State, c: Chunk, h: Header, p: Partition, ratio: nat): State
    requires c.Fill? ==> |c.word| == 4
  {
    State(st.pos + h.chunkHdr + PayloadSize(c, h.blkSz), st.blk + Scaled(c.n, ratio), st.total + c.n,
          st.log + FlatWrites(FlatChunk(c, ratio, p.blksz), st.blk))
  }

  /** One chunk of an image writes its part of the flat image. */
  lemma ChunkWritten(mem: Memory, h: Header, p: Partition, healthy: nat -> bool, st: State, c: Chunk, ratio: nat)
    requires Next(mem, h, p, st, c, ratio) && Healthy(healthy)
    ensures h.blkSz > 0 && ChunkStep(mem, h, p, healthy, st) == Go(Advanced(st, c, h, p, ratio))
  {
    Positive(ratio, p.blksz);
    hide ChunkStep, Advanced;
    match c
    case Raw(_, _) => RawWritten(mem, h, p, healthy, st, c, ratio);
    case Fill(_, _) => FillWritten(mem, h, p, healthy, st, c, ratio);
    case DontCare(_) => DontCareWritten(mem, h, p, healthy, st, c, ratio);
  }

  lemma ScaledSum(a: nat, b: nat, ratio: nat)
    ensures Scaled(a + b, ratio) == Scaled(a, ratio) + Scaled(b, ratio)
  {
    Distribute(a, b, ratio);
  }

  lemma ScaledZero(ratio: nat)
    ensures Scaled(0, ratio) == 0
  {
  }

  lemma {:induction false} FlatSize(chunks: seq<Chunk>, ratio: nat, blksz: nat)
    requires forall i :: 0 <= i < |chunks| && chunks[i].Fill? ==> |chunks[i].word| == 4
    ensures |Flat(chunks, ratio, blksz)| == Scaled(ImageBlocks(chunks), ratio)
    decreases |chunks|
  {
    if chunks != [] {
      FlatSize(chunks[1..], ratio, blksz);
      ScaledSum(chunks[0].n, ImageBlocks(chunks[1..]), ratio);
    }
  }

  /** The chunks of an image, for which there is room. */
  ghost predicate Fitting(chunks: seq<Chunk>, h: Header, p: Partition, ratio: nat, st: State) {
    && ValidPartition(p) && ratio >= 1 && h.blkSz == ratio * p.blksz && CHUNK_HEADER <= h.chunkHdr &&
        h.chunkHdr + 4 < WORD
    && (forall i :: 0 <= i < |chunks| ==>
        ValidChunk(chunks[i], h.blkSz) && h.chunkHdr + Size(chunks[i].n, h.blkSz) < WORD)
    && st.blk + Scaled(ImageBlocks(chunks), ratio) <= p.start + p.size && st.total + ImageBlocks(chunks) < WORD
  }

  /**
    An image that fits is written as its flat expansion, DontCare blocks
    untouched; the block counter advances by the image blocks scaled by the
    block-size ratio.
   */
  lemma {:induction false} ImageWritten(mem: Memory, h: Header, p: Partition, healthy: nat -> bool, st: State,
      chunks: seq<Chunk>, ratio: nat)
    requires Healthy(healthy) && Fitting(chunks, h, p, ratio, st) && ChunksAt(mem, st.pos, chunks, h)
    ensures h.blkSz > 0
    ensures var s := Run(mem, h, p, healthy, st, |chunks|);
      && s.Go? && s.st.total == st.total + ImageBlocks(chunks)
      && s.st.blk == st.blk + Scaled(ImageBlocks(chunks), ratio)
      && s.st.log == st.log + FlatWrites(Flat(chunks, ratio, p.blksz), st.blk)
    decreases |chunks|
  {
    hide ChunkStep, ChunkAt, FlatWrites, FlatChunk, Scaled, Size;
    Positive(ratio, p.blksz);
    if chunks == [] {
      NoneWritten([], st.blk);
      ScaledZero(ratio);
      assert st.log + [] == st.log;
    } else {
      var c, rest := chunks[0], chunks[1..];
      ScaledSum(c.n, ImageBlocks(rest), ratio);
      ChunkWritten(mem, h, p, healthy, st, c, ratio);
      var s := ChunkStep(mem, h, p, healthy, st);
      ImageWritten(mem, h, p, healthy, s.st, rest, ratio);
      ChunkFlatSize(c, ratio, p.blksz);
      WritesOfSum(FlatChunk(c, ratio, p.blksz), Flat(rest, ratio, p.blksz), st.blk);
      Cat(st.log, FlatWrites(FlatChunk(c, ratio, p.blksz), st.blk), FlatWrites(Flat(rest, ratio, p.blksz), s.st.blk));
    }
  }

  lemma ChunkFlatSize(c: Chunk, ratio: nat, blksz: nat)
    requires c.Fill? ==> |c.word| == 4
    ensures |FlatChunk(c, ratio, blksz)| == Scaled(c.n, ratio)
  {
  }

  lemma Cat(a: seq<Write>, b: seq<Write>, c: seq<Write>)
    ensures (a + b) + c == a + (b + c)
  {
  }

  // ----- the device afterwards -----

  /** The device content after the writes of a log. */
  function After(disk: nat -> Block, log: seq<Write>, b: nat): Block {
    if log == [] then disk(b)
    else if log[|log| - 1].block == b then log[|log| - 1].data
    else After(disk, log[..|log| - 1], b)
  }

  lemma {:induction false} AfterMiss(disk: nat -> Block, log: seq<Write>, b: nat)
    requires forall i :: 0 <= i < |log| ==> log[i].block != b
    ensures After(disk, log, b) == disk(b)
    decreases |log|
  {
    if log != [] {
      AfterMiss(disk, log[..|log| - 1], b);
    }
  }

  lemma {:induction false} AfterHit(disk: nat -> Block, log: seq<Write>, k: nat)
    requires k < |log| && forall i :: k < i < |log| ==> log[i].block != log[k].block
    ensures After(disk, log, log[k].block) == log[k].data
    decreases |log|
  {
    if k < |log| - 1 {
      AfterHit(disk, log[..|log| - 1], k);
    }
  }

  /** A write that puts an entry of e in its place. */
  ghost predicate Places(e: seq<Option<Block>>, blk: nat, w: Write) {
    blk <= w.block < blk + |e| && e[w.block - blk] == Some(w.data)
  }

  lemma {:induction false} FlatWriteBlocks(e: seq<Option<Block>>, blk: nat, k: nat)
    requires k < |FlatWrites(e, blk)|
    ensures Places(e, blk, FlatWrites(e, blk)[k])
    decreases |e|
  {
    if e[0].None? {
      FlatWriteBlocks(e[1..], blk + 1, k);
    } else if k > 0 {
      FlatWriteBlocks(e[1..], blk + 1, k - 1);
    }
  }

  lemma {:induction false} FlatWritesAscend(e: seq<Option<Block>>, blk: nat, j: nat, k: nat)
    requires j < k < |FlatWrites(e, blk)|
    ensures FlatWrites(e, blk)[j].block < FlatWrites(e, blk)[k].block
    decreases |e|
  {
    if e[0].None? {
      FlatWritesAscend(e[1..], blk + 1, j, k);
    } else if j > 0 {
      FlatWritesAscend(e[1..], blk + 1, j - 1, k - 1);
    } else {
      FlatWriteBlocks(e[1..], blk + 1, k - 1);
    }
  }

  lemma {:induction false} FlatWriteAt(e: seq<Option<Block>>, blk: nat, i: nat) returns (k: nat)
    requires i < |e| && e[i].Some?
    ensures k < |FlatWrites(e, blk)| && FlatWrites(e, blk)[k] == Write(blk + i, e[i].value)
    decreases |e|
  {
    if i == 0 {
      k := 0;
    } else {
      var j := FlatWriteAt(e[1..], blk + 1, i - 1);
      k := if e[0].None? then j else j + 1;
    }
  }

  /** The device holds the flat image; blocks the image does not care about, and all others, are as before. */
  lemma DeviceHoldsFlat(disk: nat -> Block, e: seq<Option<Block>>, blk: nat, b: nat)
    ensures After(disk, FlatWrites(e, blk), b)
            == if blk <= b < blk + |e| && e[b - blk].Some? then e[b - blk].value else disk(b)
  {
    var w := FlatWrites(e, blk);
    if blk <= b < blk + |e| && e[b - blk].Some? {
      var k := FlatWriteAt(e, blk, b - blk);
      forall i | k < i < |w|
        ensures w[i].block != w[k].block
      {
        FlatWritesAscend(e, blk, k, i);
      }
      AfterHit(disk, w, k);
    } else {
      forall i | 0 <= i < |w|
        ensures w[i].block != b
      {
        FlatWriteBlocks(e, blk, i);
      }
      AfterMiss(disk, w, b);
    }
  }

  // ----- the image as a stream of bytes -----

  /** What an image says byte by byte, None where it does not care: data, a word over and over, nothing. */
  function Stream(chunks: seq<Chunk>, blkSz: nat): seq<Option<byte>>
    requires forall i :: 0 <= i < |chunks| && chunks[i].Fill? ==> |chunks[i].word| == 4
  {
    if chunks == [] then [] else ChunkStream(chunks[0], blkSz) + Stream(chunks[1..], blkSz)
  }

  function ChunkStream(c: Chunk, blkSz: nat): seq<Option<byte>>
    requires c.Fill? ==> |c.word| == 4
  {
    match c
    case Raw(_, data) => seq(|data|, i requires 0 <= i < |data| => Some(data[i]))
    case Fill(n, word) => seq(n * blkSz, i requires 0 <= i < n * blkSz => Some(word[i % 4]))
    case DontCare(n) => seq(n * blkSz, i requires 0 <= i < n * blkSz => None)
  }

  /** The blocks e, one behind the other, are the stream s. */
  ghost predicate IsStream(e: seq<Option<Block>>, blksz: nat, s: seq<Option<byte>>)
    requires blksz > 0
  {
    && |s| == |e| * blksz && (forall k :: 0 <= k < |e| && e[k].Some? ==> |e[k].value| == blksz)
    && forall k, j :: 0 <= k < |e| && 0 <= j < blksz ==> ByteIs(e, blksz, s, k, j)
  }

  ghost predicate ByteIs(e: seq<Option<Block>>, blksz: nat, s: seq<Option<byte>>, k: nat, j: nat) {
    k < |e| && k * blksz + j < |s| && (e[k].Some? ==> j < |e[k].value|) &&
    s[k * blksz + j] == if e[k].None? then None else Some(e[k].value[j])
  }

  lemma StreamByte(e: seq<Option<Block>>, blksz: nat, s: seq<Option<byte>>, k: nat, j: nat)
    requires blksz > 0 && IsStream(e, blksz, s) && k < |e| && j < blksz
    ensures 0 <= k * blksz && k * blksz + j < |s| && s[k * blksz + j].Some? == e[k].Some?
    ensures e[k].Some? ==> |e[k].value| == blksz && Some(e[k].value[j]) == s[k * blksz + j]
  {
    assert ByteIs(e, blksz, s, k, j);
    NonNegative(k, blksz);
  }

  lemma StreamsJoin(
      a: seq<Option<Block>>, b: seq<Option<Block>>, blksz: nat, s: seq<Option<byte>>, t: seq<Option<byte>>)
    requires blksz > 0 && IsStream(a, blksz, s) && IsStream(b, blksz, t)
    ensures IsStream(a + b, blksz, s + t)
  {
    var e, u := a + b, s + t;
    Distribute(|a|, |b|, blksz);
    forall k, j | 0 <= k < |e| && 0 <= j < blksz
      ensures ByteIs(e, blksz, u, k, j)
    {
      if k < |a| {
        assert ByteIs(a, blksz, s, k, j);
      } else {
        assert ByteIs(b, blksz, t, k - |a|, j);
        Distribute(|a|, k - |a|, blksz);
      }
    }
  }

  /** Byte j of block k lies in the stream, at a place that leaves the same remainder by 4. */
  lemma BytePlace(k: nat, m: nat, j: nat, blksz: nat)
    requires k < m && j < blksz && blksz % 4 == 0
    ensures 0 <= k * blksz && k * blksz + j < m * blksz && (k * blksz + j) % 4 == j % 4
  {
    Grows(k, m, blksz);
    NonNegative(k, blksz);
    var q := blksz / 4;
    assert blksz == q * 4;
    Associate(k, q, 4);
    assert k * blksz + j == (k * q) * 4 + j;
  }

  lemma ChunkIsStream(c: Chunk, ratio: nat, blksz: nat)
    requires blksz > 0 && blksz % 4 == 0 && ValidChunk(c, ratio * blksz)
    ensures IsStream(FlatChunk(c, ratio, blksz), blksz, ChunkStream(c, ratio * blksz))
  {
    var e, s, m := FlatChunk(c, ratio, blksz), ChunkStream(c, ratio * blksz), Scaled(c.n, ratio);
    Associate(c.n, ratio, blksz);
    assert |e| == m && |s| == m * blksz;
    forall k, j | 0 <= k < m && 0 <= j < blksz
      ensures ByteIs(e, blksz, s, k, j) && (e[k].Some? ==> |e[k].value| == blksz)
    {
      BytePlace(k, m, j, blksz);
      Grows(k, m, blksz);
      match c {
        case Raw(_, data) => assert e[k] == Some(Slice(data, k, blksz));
        case Fill(_, word) => assert e[k] == Some(Pattern(word, blksz));
        case DontCare(_) =>
      }
    }
    forall k | 0 <= k < |e| && e[k].Some?
      ensures |e[k].value| == blksz
    {
      assert ByteIs(e, blksz, s, k, 0);
    }
  }

  /** The flat image, block behind block, is the stream. */
  lemma {:induction false} FlatIsStream(chunks: seq<Chunk>, ratio: nat, blksz: nat)
    requires blksz > 0 && blksz % 4 == 0
    requires forall i :: 0 <= i < |chunks| ==> ValidChunk(chunks[i], ratio * blksz)
    requires forall i :: 0 <= i < |chunks| && chunks[i].Fill? ==> |chunks[i].word| == 4
    ensures IsStream(Flat(chunks, ratio, blksz), blksz, Stream(chunks, ratio * blksz))
    decreases |chunks|
  {
    hide FlatChunk, ChunkStream, IsStream;
    if chunks == [] {
      EmptyStream(blksz);
    } else {
      ChunkIsStream(chunks[0], ratio, blksz);
      FlatIsStream(chunks[1..], ratio, blksz);
      StreamsJoin(FlatChunk(chunks[0], ratio, blksz), Flat(chunks[1..], ratio, blksz), blksz,
                  ChunkStream(chunks[0], ratio * blksz), Stream(chunks[1..], ratio * blksz));
    }
  }

  lemma EmptyStream(blksz: nat)
    requires blksz > 0
    ensures IsStream([], blksz, [])
  {
  }

  // ----- whole images -----

  /** Where the chunks start: a header longer than expected is skipped twice. */
  function FirstChunk(h: Header): nat {
    h.fileHdr + if h.fileHdr > FILE_HEADER then h.fileHdr - FILE_HEADER else 0
  }

  function Begin(h: Header, p: Partition, log: seq<Write>): State {
    State(FirstChunk(h), p.start, 0, log)
  }

  /** The answers to the host. */
  function Replies(h: Header, s: Step): seq<Reply> {
    if s.Stop? then [Fail(s.why)]
    else if s.st.total != h.totalBlks then [Fail("sparse image write failure"), Okay]
    else [Okay]
  }

  /** Behind a file header that is longer than 28 bytes, the bytes beyond are skipped once more. */
  lemma FirstChunkAt(h: Header)
    ensures FirstChunk(h) == if h.fileHdr <= 28 then h.fileHdr else 2 * h.fileHdr - 28
  {
  }

  /** A run to the end is answered OKAY, behind a failure message if the total is not the announced one. */
  lemma EndAnswered(h: Header, st: State)
    ensures Replies(h, Go(st))
         == (if st.total == h.totalBlks then [] else [Fail("sparse image write failure")]) + [Okay]
  {
  }

  /** A complete image with standard header: exactly its flat expansion reaches the device, and the host is told so. */
  lemma WholeImage(mem: Memory, p: Partition, healthy: nat -> bool, chunks: seq<Chunk>, ratio: nat,
      disk: nat -> Block, b: nat)
    requires var h := HeaderAt(mem);
      && h.fileHdr == FILE_HEADER && h.totalChunks == |chunks| && h.totalBlks == ImageBlocks(chunks)
      && Healthy(healthy) && Fitting(chunks, h, p, ratio, Begin(h, p, [])) && ChunksAt(mem, FILE_HEADER, chunks, h)
    ensures HeaderAt(mem).blkSz > 0
    ensures var h, e := HeaderAt(mem), Flat(chunks, ratio, p.blksz);
      var s := Run(mem, h, p, healthy, Begin(h, p, []), h.totalChunks);
      && Replies(h, s) == [Okay] && s.st.blk - p.start == Scaled(h.totalBlks, ratio) == |e|
      && After(disk, s.st.log, b)
         == if p.start <= b < p.start + |e| && e[b - p.start].Some? then e[b - p.start].value else disk(b)
  {
    hide HeaderAt, U16At, U32At, Run, Flat, Scaled, Size, ChunksAt, FlatWrites, After, Healthy, ImageBlocks;
    var h := HeaderAt(mem);
    ImageWritten(mem, h, p, healthy, Begin(h, p, []), chunks, ratio);
    FlatSize(chunks, ratio, p.blksz);
    var e := Flat(chunks, ratio, p.blksz);
    hide Fitting;
    assert [] + FlatWrites(e, p.start) == FlatWrites(e, p.start);
    DeviceHoldsFlat(disk, e, p.start, b);
  }

  // ----- the loops -----

  class Device {
    const healthy: nat -> bool
    var log: seq<Write>

    constructor (healthy: nat -> bool)
      ensures this.healthy == healthy && log == []
    {
      this.healthy := healthy;
      log := [];
    }

    /** block_write of blocks that lie in memory; returns the number written. */
    method WriteBlocks(mem: Memory, pos: nat, blk: nat, n: nat, blksz: nat) returns (blks: nat)
      modifies this
      ensures blks == Good(healthy, |old(log)|, n)
      ensures log == old(log) + Blocks(mem, pos, blk, blks, blksz)
    {
      blks := Good(healthy, |log|, n);
      log := log + Blocks(mem, pos, blk, blks, blksz);
    }

    /** block_write of one block. */
    method WriteOne(blk: nat, data: Block) returns (blks: nat)
      modifies this
      ensures blks == 1 <==> healthy(|old(log)|)
      ensures log == old(log) + if blks == 1 then [Write(blk, data)] else []
    {
      if !healthy(|log|) {
        return 0;
      }
      log := log + [Write(blk, data)];
      blks := 1;
    }

    /** The writing loop of a fill chunk. */
    method FillBlocks(blk: nat, n: nat, data: Block) returns (done: nat)
      modifies this
      ensures done == Good(healthy, |old(log)|, n)
      ensures log == old(log) + Repeated(blk, done, data)
    {
      done := 0;
      while done < n
        invariant done <= n && log == old(log) + Repeated(blk, done, data)
        invariant done + Good(healthy, |log|, n - done) == Good(healthy, |old(log)|, n)
      {
        var blks := WriteOne(Wrap(blk + done), data);
        if blks != 1 {
          assert old(log) + Repeated(blk, done, data) + [] == old(log) + Repeated(blk, done, data);
          return;
        }
        done := done + 1;
        assert Repeated(blk, done, data) == Repeated(blk, done - 1, data) + [Write(Wrap(blk + done - 1), data)];
      }
    }

    /** The body of the chunk loop. */
    method WriteChunk(mem: Memory, h: Header, p: Partition, pos: nat, blk: nat, total: nat)
      returns (why: Option<string>, pos': nat, blk': nat, total': nat)
      requires p.blksz > 0 && h.blkSz > 0
      modifies this
      ensures var s := ChunkStep(mem, h, p, healthy, State(pos, blk, total, old(log)));
        why == (if s.Stop? then Some(s.why) else None) && State(pos', blk', total', log) == s.st
    {
      hide U16At, U32At, DataSize, BlockCount, RawStep, FillStep;
      var kind, sz, totalSz := U16At(mem, pos), U32At(mem, pos + 4), U32At(mem, pos + 8);
      pos', blk', total', why := Behind(h, pos), blk, total, None;
      var dataSz := DataSize(h, sz);
      var cnt := BlockCount(dataSz, p.blksz);
      if kind == RAW {
        if totalSz != Wrap(h.chunkHdr + dataSz) {
          why := Some("Bogus chunk size for chunk type Raw");
        } else {
          why, pos', blk', total' := WriteRaw(mem, p, pos', blk, total, dataSz, cnt, sz);
        }
      } else if kind == FILL {
        if totalSz != Wrap(h.chunkHdr + 4) {
          why := Some("Bogus chunk size for chunk type FILL");
        } else {
          why, pos', blk', total' := WriteFill(mem, p, pos', blk, total, cnt, BlockCount(dataSz, h.blkSz));
        }
      } else if kind == DONT_CARE {
        blk', total' := Wrap(blk + cnt), Wrap(total + sz);
      } else if kind == CRC32 {
        if totalSz != h.chunkHdr {
          why := Some("Bogus chunk size for chunk type Dont Care");
        } else {
          pos', total' := pos' + dataSz, Wrap(total + sz);
        }
      } else {
        why := Some("Unknown chunk type");
      }
    }

    method WriteRaw(mem: Memory, p: Partition, pos: nat, blk: nat, total: nat, dataSz: nat, cnt: nat, sz: nat)
      returns (why: Option<string>, pos': nat, blk': nat, total': nat)
      modifies this
      ensures var s := RawStep(mem, p, healthy, State(pos, blk, total, old(log)), dataSz, cnt, sz);
        why == (if s.Stop? then Some(s.why) else None) && State(pos', blk', total', log) == s.st
    {
      hide Blocks, Good;
      pos', blk', total', why := pos, blk, total, None;
      if Wrap(blk + cnt) > p.start + p.size {
        return Some("Request would exceed partition size!"), pos, blk, total;
      }
      var blks := WriteBlocks(mem, pos, blk, cnt, p.blksz);
      if blks != cnt {
        return Some("flash write failure"), pos, blk, total;
      }
      pos', blk', total' := pos + dataSz, Wrap(blk + cnt), Wrap(total + sz);
    }

    method WriteFill(mem: Memory, p: Partition, pos: nat, blk: nat, total: nat, cnt: nat, scaled: nat)
      returns (why: Option<string>, pos': nat, blk': nat, total': nat)
      modifies this
      ensures var s := FillStep(mem, p, healthy, State(pos, blk, total, old(log)), cnt, scaled);
        why == (if s.Stop? then Some(s.why) else None) && State(pos', blk', total', log) == s.st
    {
      hide Repeated, Pattern, BytesAt, Good;
      var word := BytesAt(mem, pos, 4);
      pos', blk', total', why := pos + 4, blk, total, None;
      if Wrap(blk + cnt) > p.start + p.size {
        return Some("Request would exceed partition size!"), pos', blk, total;
      }
      var done := FillBlocks(blk, cnt, Pattern(word, p.blksz));
      if done < cnt {
        return Some("flash write failure"), pos', blk, total;
      }
      blk', total' := Wrap(blk + cnt), Wrap(total + scaled);
    }

    /** The chunk loop and the final check. */
    method WriteChunks(mem: Memory, h: Header, p: Partition) returns (replies: seq<Reply>)
      requires p.blksz > 0 && h.blkSz > 0
      modifies this
      ensures var s := Run(mem, h, p, healthy, Begin(h, p, old(log)), h.totalChunks);
        replies == Replies(h, s) && log == s.st.log
    {
      hide ChunkStep, Run;
      var pos, blk, total: nat := FirstChunk(h), p.start, 0;
      var chunk := 0;
      ghost var goal := Run(mem, h, p, healthy, Begin(h, p, log), h.totalChunks);
      while chunk < h.totalChunks
        invariant 0 <= chunk <= h.totalChunks
        invariant Run(mem, h, p, healthy, State(pos, blk, total, log), h.totalChunks - chunk) == goal
      {
        RunUnfolds(mem, h, p, healthy, State(pos, blk, total, log), h.totalChunks - chunk);
        var why;
        why, pos, blk, total := WriteChunk(mem, h, p, pos, blk, total);
        if why.Some? {
          return [Fail(why.value)];
        }
        chunk := chunk + 1;
      }
      RunUnfolds(mem, h, p, healthy, State(pos, blk, total, log), 0);
      replies := [Okay];
      if total != h.totalBlks {
        replies := [Fail("sparse image write failure"), Okay];
      }
    }

    /** write_sparse_image */
    method WriteSparseImage(mem: Memory, p: Partition) returns (replies: seq<Reply>)
      requires p.blksz > 0 && HeaderAt(mem).blkSz > 0
      modifies this
      ensures forall k :: p.blksz == Power2(k) ==>
        (And(HeaderAt(mem).blkSz, p.blksz - 1) == 0 <==> HeaderAt(mem).blkSz % p.blksz == 0)
      ensures var h := HeaderAt(mem);
        if And(h.blkSz, p.blksz - 1) != 0 then replies == [Fail("sparse image block size issue")] && log == old(log)
        else
          var s := Run(mem, h, p, healthy, Begin(h, p, old(log)), h.totalChunks);
          replies == Replies(h, s) && log == s.st.log
    {
      hide HeaderAt, Run, Begin, Replies;
      var h := HeaderAt(mem);
      forall k | p.blksz == Power2(k)
        ensures And(h.blkSz, p.blksz - 1) == h.blkSz % p.blksz
      {
        MaskIsRemainder(h.blkSz, k);
      }
      if And(h.blkSz, p.blksz - 1) != 0 {
        return [Fail("sparse image block size issue")];
      }
      replies := WriteChunks(mem, h, p);
    }
  }
}
