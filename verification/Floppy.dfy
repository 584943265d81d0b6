/**
  fdc_read_data of cmd_fdc.c: blocks are read track side by track side, with
  retries and recalibrations.
 */
module Floppy {
  import opened Options
  import opened Arith
  import opened Word32

  const RW_RETRIES: nat := 3
  const CAL_RETRIES: nat := 3

  /** The failed transfer on which a read gives up. */
  const LAST_FAILURE: nat := (RW_RETRIES + 2) * (CAL_RETRIES + 2)

  /** The failed transfers behind the two retry counters. */
  function Failures(rw: nat, cal: nat): nat { (RW_RETRIES + 2) * cal + rw }

  /** Sectors per track side, heads, bytes per sector. */
  datatype Geometry = Geometry(sect: nat, heads: nat, size: nat)

  predicate Usable(g: Geometry) { g.sect >= 1 && g.heads >= 1 && g.size >= 1 }

  /** Track, head and 1-based sector. */
  datatype Address = Address(track: nat, head: nat, sector: nat)

  /** fdc_issue_cmd: where block blnr lies. */
  function Locate(g: Geometry, blnr: nat): Address
    requires Usable(g)
  {
    Positive(g.sect, g.heads);
    var rest := blnr % (g.sect * g.heads);
    Address(blnr / (g.sect * g.heads), rest / g.sect, rest % g.sect + 1)
  }

  /** Every block has one address with existing head and sector, and the address gives the block back. */
  lemma LocateIsExact(g: Geometry, blnr: nat)
    requires Usable(g)
    ensures var a := Locate(g, blnr);
      a.head < g.heads && 1 <= a.sector <= g.sect && (a.track * g.heads + a.head) * g.sect + a.sector - 1 == blnr
  {
    var side := g.sect * g.heads;
    Positive(g.sect, g.heads);
    var t, rest := blnr / side, blnr % side;
    var h, s := rest / g.sect, rest % g.sect;
    assert rest == h * g.sect + s;
    if h >= g.heads {
      Monotone(g.heads, h, g.sect);
      assert false;
    }
    Distribute(t * g.heads, h, g.sect);
    Associate(t, g.heads, g.sect);
    assert t * side == t * (g.heads * g.sect);
  }

  /** Blocks behind blnr on the same track side are the following sectors. */
  lemma SameSide(g: Geometry, blnr: nat, i: nat)
    requires Usable(g) && blnr % g.sect + i < g.sect
    ensures var a := Locate(g, blnr);
      Locate(g, blnr + i) == a.(sector := a.sector + i) && a.sector == blnr % g.sect + 1
  {
    var side := g.sect * g.heads;
    Positive(g.sect, g.heads);
    var t, rest := blnr / side, blnr % side;
    var h, s := rest / g.sect, rest % g.sect;
    LocateIsExact(g, blnr);
    // the sector is the block number modulo the sectors of a side
    assert t * side == (t * g.heads) * g.sect by { Associate(t, g.heads, g.sect); }
    Distribute(t * g.heads, h, g.sect);
    DivUnique(blnr, t * g.heads + h, s, g.sect);
    // and i sectors further on nothing else changes
    assert rest + i < side by {
      Grows(h, g.heads, g.sect);
    }
    DivUnique(blnr + i, t, rest + i, side);
    DivUnique(rest + i, h, s + i, g.sect);
  }

  /** A read command: where it starts and how many sectors are taken from it. */
  datatype Command = Command(at: Address, count: nat)

  predicate OnOneSide(g: Geometry, c: Command) {
    1 <= c.at.sector && c.at.sector + c.count <= g.sect + 1
  }

  // ----- the data of a run of blocks -----

  /** Byte k of the blocks from start on. */
  function DiskByte(g: Geometry, disk: (Address, nat) -> byte, start: nat, k: nat): byte
    requires Usable(g)
  {
    disk(Locate(g, start + k / g.size), k % g.size)
  }

  /** Byte i of what a command delivers: its sectors one after the other. */
  function CommandByte(g: Geometry, disk: (Address, nat) -> byte, at: Address, i: nat): byte
    requires Usable(g)
  {
    disk(at.(sector := at.sector + i / g.size), i % g.size)
  }

  lemma BlockBelow(i: nat, n: nat, size: nat)
    requires size >= 1 && i < n * size
    ensures i / size < n
  {
    var q := i / size;
    assert i == q * size + i % size;
    if q >= n {
      Monotone(n, q, size);
    }
  }

  lemma BlockBehind(done: nat, i: nat, size: nat)
    requires size >= 1
    ensures (done * size + i) / size == done + i / size && (done * size + i) % size == i % size
  {
    assert i == i / size * size + i % size;
    Distribute(done, i / size, size);
    DivUnique(done * size + i, done + i / size, i % size, size);
  }

  /** A command on one track side delivers the blocks it stands for. */
  lemma CommandDelivers(g: Geometry, disk: (Address, nat) -> byte, start: nat, done: nat, n: nat, i: nat)
    requires Usable(g) && (start + done) % g.sect + n <= g.sect && i < n * g.size
    ensures CommandByte(g, disk, Locate(g, start + done), i) == DiskByte(g, disk, start, done * g.size + i)
  {
    hide Locate;
    var q, k := i / g.size, done * g.size + i;
    BlockBehind(done, i, g.size);
    assert start + k / g.size == start + done + q;
    assert DiskByte(g, disk, start, k) == disk(Locate(g, start + done + q), i % g.size);
    hide DiskByte;
    BlockBelow(i, n, g.size);
    SameSide(g, start + done, q);
  }

  /** A command of readblk sectors from blnr on stays on its track side. */
  lemma CommandStays(g: Geometry, blnr: nat, readblk: nat)
    requires Usable(g) && readblk >= 1 && blnr % g.sect + readblk <= g.sect
    ensures OnOneSide(g, Command(Locate(g, blnr), readblk))
  {
    SameSide(g, blnr, 0);
  }

  /** The next command, of n blocks from `at` on, goes up to the end of the side or of the request. */
  predicate Reaches(sect: nat, at: nat, n: nat, left: nat)
    requires sect >= 1
  {
    1 <= n <= left && at % sect + n <= sect && (n < left ==> at % sect + n == sect)
  }

  lemma FirstReaches(sect: nat, at: nat, left: nat)
    requires sect >= 1 && left >= 1
    ensures var n := sect - at % sect;
      n >= 1 && Reaches(sect, at, if n > left then left else n, left)
  {
  }

  lemma NextReaches(sect: nat, at: nat, n: nat, left: nat)
    requires sect >= 1 && Reaches(sect, at, n, left) && n < left
    ensures Reaches(sect, at + n, if sect > left - n then left - n else sect, left - n)
  {
    SideEnds(sect, at, n);
  }

  lemma SideEnds(sect: nat, blnr: nat, readblk: nat)
    requires sect >= 1 && blnr % sect + readblk == sect
    ensures (blnr + readblk) % sect == 0
  {
    var q := blnr / sect;
    Distribute(q, 1, sect);
    DivUnique(blnr + readblk, q + 1, 0, sect);
  }

  /** Blocks done, blocks to read now and the blocks still left, in bytes. */
  lemma Fits(done: nat, readblk: nat, left: nat, size: nat)
    requires readblk <= left
    ensures done * size + readblk * size == (done + readblk) * size <= (done + left) * size
    ensures 0 <= done * size && 0 <= readblk * size
  {
    Distribute(done, readblk, size);
    NonNegative(done, size);
    NonNegative(readblk, size);
    Monotone(done + readblk, done + left, size);
  }

  // ----- the drive -----

  class Drive {
    const g: Geometry
    const disk: (Address, nat) -> byte
    /** The k-th transfer fails at this byte, if the transfer is that long; noise is what a failing one delivers. */
    const failsAt: nat -> Option<nat>
    const noise: (nat, nat) -> byte
    const seeks: nat -> bool
    const recalibrates: nat -> bool
    const accepts: nat -> bool
    /** The track the heads stand on: a read takes its data from there. */
    var position: nat
    var transfers: nat
    var sought: nat
    var recalibrated: nat
    var commands: seq<Command>
    ghost var failures: nat

    constructor (g: Geometry, disk: (Address, nat) -> byte, failsAt: nat -> Option<nat>, noise: (nat, nat) -> byte,
                 seeks: nat -> bool, recalibrates: nat -> bool, accepts: nat -> bool)
      requires Usable(g)
      ensures this.g == g && this.disk == disk && commands == [] && failures == 0
    {
      this.g, this.disk, this.failsAt, this.noise := g, disk, failsAt, noise;
      this.seeks, this.recalibrates, this.accepts := seeks, recalibrates, accepts;
      position, transfers, sought, recalibrated, commands, failures := 0, 0, 0, 0, [], 0;
    }

    /** Seeks, recalibrations and command bytes work. */
    ghost predicate Working() {
      forall k: nat :: seeks(k) && recalibrates(k) && accepts(k)
    }

    /** fdc_seek and the check of its status. */
    method Seek(blnr: nat) returns (ok: bool)
      requires Usable(g)
      modifies this`sought, this`position
      ensures Working() ==> ok
      ensures ok ==> position == Locate(g, blnr).track
    {
      ok := seeks(sought);
      sought := sought + 1;
      position := if ok then Locate(g, blnr).track else position;
    }

    /** fdc_recalibrate: back to track 0. */
    method Recalibrate() returns (ok: bool)
      modifies this`recalibrated, this`position
      ensures Working() ==> ok
      ensures position == 0
    {
      ok := recalibrates(recalibrated);
      recalibrated := recalibrated + 1;
      position := 0;
    }

    /** One read command and its byte loop: fills buffer[offset..offset+len], or breaks off. */
    method Transfer(buffer: array<byte>, offset: nat, blnr: nat, readblk: nat) returns (issued: bool, ok: bool)
      requires Usable(g) && offset + readblk * g.size <= buffer.Length
      modifies buffer, this`transfers, this`commands, this`failures
      ensures Working() ==> issued
      ensures issued ==> commands == old(commands) + [Command(Locate(g, blnr), readblk)]
      ensures !issued ==> commands == old(commands) && !ok
      ensures failures == old(failures) + if issued && !ok then 1 else 0
      ensures forall k :: 0 <= k < offset ==> buffer[k] == old(buffer[k])
      ensures forall k :: offset + readblk * g.size <= k < buffer.Length ==> buffer[k] == old(buffer[k])
      ensures ok ==> forall i :: 0 <= i < readblk * g.size ==>
        buffer[offset + i] == CommandByte(g, disk, Locate(g, blnr).(track := position), i)
    {
      hide Locate, CommandByte;
      if !accepts(transfers) {
        return false, false;
      }
      var n := transfers;
      commands := commands + [Command(Locate(g, blnr), readblk)];
      transfers := transfers + 1;
      var at := Locate(g, blnr).(track := position);
      var len := readblk * g.size;
      var breaks := failsAt(n).Some? && failsAt(n).value < len;
      issued := true;
      var i := 0;
      while i < len
        invariant 0 <= i <= len && (breaks ==> i <= failsAt(n).value)
        invariant commands == old(commands) + [Command(Locate(g, blnr), readblk)] && failures == old(failures)
        invariant forall k :: 0 <= k < offset ==> buffer[k] == old(buffer[k])
        invariant forall k :: offset + len <= k < buffer.Length ==> buffer[k] == old(buffer[k])
        invariant !breaks ==> forall k :: 0 <= k < i ==> buffer[offset + k] == CommandByte(g, disk, at, k)
      {
        if breaks && i == failsAt(n).value {
          failures := failures + 1;
          return true, false;
        }
        buffer[offset + i] := if breaks then noise(n, i) else CommandByte(g, disk, at, i);
        i := i + 1;
      }
      ok := true;
    }

    /** Transfer from the right track: the next readblk blocks of the request are in the buffer. */
    method ReadSide(buffer: array<byte>, blnr: nat, done: nat, readblk: nat) returns (issued: bool, ok: bool)
      requires Usable(g) && done * g.size + readblk * g.size <= buffer.Length
      requires readblk >= 1 && (blnr + done) % g.sect + readblk <= g.sect
      requires position == Locate(g, blnr + done).track
      modifies buffer, this`transfers, this`commands, this`failures
      ensures Working() ==> issued
      ensures issued ==> |commands| == |old(commands)| + 1 && commands[..|old(commands)|] == old(commands)
      ensures issued ==> OnOneSide(g, commands[|old(commands)|])
      ensures !issued ==> commands == old(commands) && !ok
      ensures failures == old(failures) + if issued && !ok then 1 else 0
      ensures forall k :: 0 <= k < done * g.size ==> buffer[k] == old(buffer[k])
      ensures forall k :: done * g.size + readblk * g.size <= k < buffer.Length ==> buffer[k] == old(buffer[k])
      ensures ok ==> forall k :: done * g.size <= k < done * g.size + readblk * g.size ==>
        buffer[k] == DiskByte(g, disk, blnr, k)
    {
      hide Locate, CommandByte, DiskByte;
      NonNegative(done, g.size);
      NonNegative(readblk, g.size);
      var offset := done * g.size;
      issued, ok := Transfer(buffer, offset, blnr + done, readblk);
      CommandStays(g, blnr + done, readblk);
      if ok {
        assert Locate(g, blnr + done).(track := position) == Locate(g, blnr + done);
        forall k | offset <= k < offset + readblk * g.size
          ensures buffer[k] == DiskByte(g, disk, blnr, k)
        {
          CommandDelivers(g, disk, blnr, done, readblk, k - offset);
          assert buffer[offset + (k - offset)] == CommandByte(g, disk, Locate(g, blnr + done), k - offset);
        }
      }
    }

    /** The retry ladder behind a failed transfer; it counts every failure and gives up on the last allowed one. */
    method Recover(blnr: nat, rw: nat, cal: nat) returns (go: bool, rw': nat, cal': nat)
      requires Usable(g) && position == Locate(g, blnr).track && rw <= RW_RETRIES + 1 && cal <= CAL_RETRIES + 1
      modifies this`sought, this`recalibrated, this`position
      ensures go ==> position == Locate(g, blnr).track && rw' <= RW_RETRIES + 1 && cal' <= CAL_RETRIES + 1
      ensures go ==> Failures(rw', cal') == Failures(rw, cal) + 1
      ensures Working() ==> (!go <==> Failures(rw, cal) + 1 == LAST_FAILURE)
    {
      hide Locate;
      rw', cal' := rw + 1, cal;
      if rw > RW_RETRIES {
        cal' := cal + 1;
        if cal > CAL_RETRIES {
          return false, rw', cal';
        }
        go := Recalibrate();
        if !go {
          return;
        }
        rw' := 0;
        go := Seek(blnr);
      } else {
        go := true;
      }
    }

    /** The bytes of the first n blocks of the request are in the buffer. */
    ghost predicate Filled(buffer: array<byte>, blnr: nat, n: nat)
      requires Usable(g)
      reads buffer
    {
      n * g.size <= buffer.Length && forall k :: 0 <= k < n * g.size ==> buffer[k] == DiskByte(g, disk, blnr, k)
    }

    lemma Extended(buffer: array<byte>, blnr: nat, done: nat, readblk: nat)
      requires Usable(g) && done * g.size + readblk * g.size <= buffer.Length
      requires forall k :: 0 <= k < done * g.size ==> buffer[k] == DiskByte(g, disk, blnr, k)
      requires forall k :: done * g.size <= k < done * g.size + readblk * g.size ==>
          buffer[k] == DiskByte(g, disk, blnr, k)
      ensures Filled(buffer, blnr, done + readblk)
    {
      hide DiskByte;
      Distribute(done, readblk, g.size);
    }

    /**
      ReadSide seen from the whole request of `blocks` blocks.
     */
    method ReadNext(buffer: array<byte>, blnr: nat, done: nat, readblk: nat, blocks: nat)
        returns (issued: bool, ok: bool)
      requires Usable(g) && blocks * g.size <= buffer.Length
      requires done <= blocks && Reaches(g.sect, blnr + done, readblk, blocks - done)
      requires position == Locate(g, blnr + done).track && Filled(buffer, blnr, done)
      modifies buffer, this`transfers, this`commands, this`failures
      ensures Working() ==> issued
      ensures issued ==> |commands| == |old(commands)| + 1 && commands[..|old(commands)|] == old(commands)
      ensures issued ==> OnOneSide(g, commands[|old(commands)|])
      ensures !issued ==> commands == old(commands) && !ok
      ensures failures == old(failures) + if issued && !ok then 1 else 0
      ensures forall k :: blocks * g.size <= k < buffer.Length ==> buffer[k] == old(buffer[k])
      ensures Filled(buffer, blnr, if ok then done + readblk else done)
    {
      hide Locate, DiskByte, OnOneSide;
      Fits(done, readblk, blocks - done, g.size);
      issued, ok := ReadSide(buffer, blnr, done, readblk);
      if ok {
        Extended(buffer, blnr, done, readblk);
      }
    }

    /**
      fdc_read_data: on success the buffer holds the blocks in order, whatever
      transfers failed in between; no command crosses a track side; with working
      seeks the call gives up exactly on its 25th failed transfer.
     */
    method ReadData(buffer: array<byte>, blnr: nat, blocks: nat) returns (ok: bool)
      requires Usable(g) && blocks >= 1 && blocks * g.size <= buffer.Length
      modifies buffer, this
      ensures ok ==> Filled(buffer, blnr, blocks)
      ensures forall k :: blocks * g.size <= k < buffer.Length ==> buffer[k] == old(buffer[k])
      ensures |commands| >= |old(commands)| && commands[..|old(commands)|] == old(commands)
      ensures forall c :: |old(commands)| <= c < |commands| ==> OnOneSide(g, commands[c])
      ensures failures - old(failures) <= 25
      ensures Working() ==> (!ok <==> failures - old(failures) == 25)
    {
      hide Locate, OnOneSide, Working, Reaches;
      assert Filled(buffer, blnr, 0);
      hide Filled;
      var rw: nat, cal: nat, done: nat, left: nat := 0, 0, 0, blocks;
      ok := Seek(blnr);
      if !ok {
        return;
      }
      FirstReaches(g.sect, blnr, left);
      var readblk := g.sect - blnr % g.sect;
      if readblk > left {
        readblk := left;
      }
      while true
        invariant done + left == blocks && 1 <= readblk <= left && Reaches(g.sect, blnr + done, readblk, left)
        invariant position == Locate(g, blnr + done).track
        invariant rw <= RW_RETRIES + 1 && cal <= CAL_RETRIES + 1 && failures == old(failures) + Failures(rw, cal)
        invariant Filled(buffer, blnr, done)
        invariant forall k :: blocks * g.size <= k < buffer.Length ==> buffer[k] == old(buffer[k])
        invariant |commands| >= |old(commands)| && commands[..|old(commands)|] == old(commands)
        invariant forall c :: |old(commands)| <= c < |commands| ==> OnOneSide(g, commands[c])
        decreases left, LAST_FAILURE - Failures(rw, cal)
      {
        var issued;
        issued, ok := ReadNext(buffer, blnr, done, readblk, blocks);
        if !issued || (ok && readblk == left) {
          return;
        }
        if ok {
          NextReaches(g.sect, blnr + done, readblk, left);
          done, left := done + readblk, left - readblk;
          readblk := if g.sect > left then left else g.sect;
          ok := Seek(blnr + done);
        } else {
          ok, rw, cal := Recover(blnr + done, rw, cal);
        }
        if !ok {
          return;
        }
      }
    }
  }
}
