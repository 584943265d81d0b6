/**
  The ARM memory reservation of board_f.c, from the top of RAM downwards in
  32-bit arithmetic, and the heap of board_r.c that relies on it.
 */
module Board {
  import opened Options
  import opened Arith
  import opened Word32

  /** The build and the board; an area that is not configured has size zero. */
  datatype Config = Config(
    base: word, size: word, logbuffer: word, pramKb: word, tlb: word, lcd: word, lcdAlign: nat, trace: word,
    monitor: word, malloc: word, boardInfo: word, haveBoardInfo: bool, globalData: word, fdt: Option<word>)

  /** Alignments are powers of two: they divide the address space. */
  predicate Proper(c: Config) { c.lcdAlign >= 1 && WORD % c.lcdAlign == 0 }

  // ----- 32-bit arithmetic -----

  function Sub(a: word, b: word): word { (a - b) % WORD }

  /** a & ~(align - 1). */
  function Mask(a: word, align: nat): word
    requires align >= 1
  {
    a - a % align
  }

  /** The ALIGN macro. */
  function AlignUp(a: word, align: nat): word
    requires 1 <= align <= WORD
  {
    Mask((a + align - 1) % WORD, align)
  }

  // ----- the plan, without wrap-around -----

  /** size bytes below the cursor, rounded down. */
  function Down(cursor: int, size: nat, align: nat): int
    requires align >= 1
  {
    cursor - size - (cursor - size) % align
  }

  datatype Step = Step(size: word, align: nat)

  const STEPS: nat := 13
  const TLB: nat := 3
  const LCD: nat := 5
  const TRACE: nat := 6
  const CODE: nat := 7
  const HEAP: nat := 8
  const BOARD_INFO: nat := 9
  const GLOBAL_DATA: nat := 10
  const FDT: nat := 11
  const STACK: nat := 12

  /** What init_sequence_f takes in turn. */
  function StepAt(c: Config, k: nat): (s: Step)
    requires Proper(c) && k < STEPS
    ensures s.align >= 1 && WORD % s.align == 0
  {
    if k == 0 then Step(c.logbuffer, 1)
    else if k == 1 then Step(c.pramKb * 1024 % WORD, 1)
    else if k == 2 then Step(0, 4096)
    else if k == TLB then Step(c.tlb, 0x1_0000)
    else if k == 4 then Step(0, if c.lcd == 0 then 1 else c.lcdAlign)
    else if k == LCD then Step(if c.lcd == 0 then 0 else DividesBounded(c.lcdAlign); AlignUp(c.lcd, c.lcdAlign), 1)
    else if k == TRACE then Step(c.trace, 1)
    else if k == CODE then Step(c.monitor, 4096)
    else if k == HEAP then Step(c.malloc, 1)
    else if k == BOARD_INFO then Step(if c.haveBoardInfo then 0 else c.boardInfo, 1)
    else if k == GLOBAL_DATA then Step(c.globalData, 1)
    else if k == FDT then Step(if c.fdt.None? then 0 else AlignUp((c.fdt.value + 0x1000) % WORD, 32), 1)
    else Step(16, 16)
  }

  lemma DividesBounded(a: nat)
    requires a >= 1 && WORD % a == 0
    ensures a <= WORD
  {
  }

  /** The end of the RAM that 32 bits can address. */
  function Top(c: Config): nat { if c.base + c.size < WORD then c.base + c.size else WORD }

  /** The lowest address taken after n steps. */
  function Cursor(c: Config, n: nat): int
    requires Proper(c) && n <= STEPS
  {
    if n == 0 then Top(c) else Down(Cursor(c, n - 1), StepAt(c, n - 1).size, StepAt(c, n - 1).align)
  }

  predicate Fits(c: Config)
    requires Proper(c)
  {
    Cursor(c, STEPS) >= c.base
  }

  /** What the code holds instead of the cursor. */
  function Address(c: Config, n: nat): word
    requires Proper(c) && n <= STEPS
  {
    Cursor(c, n) % WORD
  }

  // ----- wrap-around is harmless -----

  lemma SubWraps(x: int, b: word)
    ensures Sub(x % WORD, b) == (x - b) % WORD
  {
  }

  lemma MaskWraps(x: int, align: nat)
    requires align >= 1 && WORD % align == 0
    ensures Mask(x % WORD, align) == (x - x % align) % WORD
  {
    var r := x % WORD;
    ModMod(x, align, WORD);
    var b := r % align;
    assert x - b == x / WORD * WORD + (r - b);
    DivUnique(x - b, x / WORD, r - b, WORD);
  }

  lemma NextAddress(c: Config, n: nat)
    requires Proper(c) && n < STEPS
    ensures Address(c, n + 1) == Mask(Sub(Address(c, n), StepAt(c, n).size), StepAt(c, n).align)
  {
    hide StepAt, Mask, Sub;
    var s := StepAt(c, n);
    SubWraps(Cursor(c, n), s.size);
    MaskWraps(Cursor(c, n) - s.size, s.align);
  }

  // ----- the areas -----

  lemma Below(c: Config, n: nat)
    requires Proper(c) && n < STEPS
    ensures Cursor(c, n + 1) + StepAt(c, n).size <= Cursor(c, n)
    ensures Cursor(c, n + 1) % StepAt(c, n).align == 0
    ensures Cursor(c, n) - StepAt(c, n).size - StepAt(c, n).align < Cursor(c, n + 1)
  {
    hide StepAt;
    var s := StepAt(c, n);
    var x := Cursor(c, n) - s.size;
    assert x == x / s.align * s.align + x % s.align;
    DivUnique(x - x % s.align, x / s.align, 0, s.align);
  }

  lemma {:induction false} CursorFalls(c: Config, m: nat, n: nat)
    requires Proper(c) && m <= n <= STEPS
    ensures Cursor(c, n) <= Cursor(c, m)
    decreases n
  {
    hide StepAt, Cursor;
    if m < n {
      CursorFalls(c, m, n - 1);
      Below(c, n - 1);
    }
  }

  /** An area as the code sees it: the address it computed and the bytes set aside there. */
  datatype Area = Area(lo: word, size: word)

  function AreaAt(c: Config, k: nat): Area
    requires Proper(c) && k < STEPS
  {
    Area(Address(c, k + 1), StepAt(c, k).size)
  }

  /** Every area lies in RAM, below the wrap, and where the plan puts it. */
  lemma AreaInRam(c: Config, k: nat)
    requires Proper(c) && Fits(c) && k < STEPS && StepAt(c, k).size > 0
    ensures var a := AreaAt(c, k); a.lo == Cursor(c, k + 1) && c.base <= a.lo && a.lo + a.size <= Top(c)
  {
    hide StepAt, Cursor;
    CursorFalls(c, k + 1, STEPS);
    CursorFalls(c, 0, k);
    Below(c, k);
    assert Cursor(c, 0) == Top(c) by {
      TopFirst(c);
    }
  }

  lemma TopFirst(c: Config)
    requires Proper(c)
    ensures Cursor(c, 0) == Top(c)
  {
  }

  /** A later area lies below every earlier one. */
  lemma AreasDescend(c: Config, i: nat, j: nat)
    requires Proper(c) && Fits(c) && i < j < STEPS && StepAt(c, i).size > 0 && StepAt(c, j).size > 0
    ensures AreaAt(c, j).lo + AreaAt(c, j).size <= AreaAt(c, i).lo
  {
    hide StepAt, Cursor;
    AreaInRam(c, i);
    AreaInRam(c, j);
    CursorFalls(c, i + 1, j);
    Below(c, j);
  }

  lemma AreaAligned(c: Config, k: nat)
    requires Proper(c) && k < STEPS
    ensures AreaAt(c, k).lo % StepAt(c, k).align == 0
  {
    hide StepAt, Cursor;
    var align := StepAt(c, k).align;
    Below(c, k);
    MaskWraps(Cursor(c, k + 1), align);
    assert Cursor(c, k + 1) - Cursor(c, k + 1) % align == Cursor(c, k + 1);
  }

  lemma StackInRam(c: Config)
    requires Proper(c) && Fits(c)
    ensures AreaAt(c, STACK).lo >= c.base
  {
    hide Cursor;
    AreaInRam(c, STACK);
  }

  /** n is the least multiple of align from size on. */
  predicate IsRoundUp(n: nat, size: nat, align: nat)
    requires align >= 1
  {
    n % align == 0 && size <= n < size + align
  }

  lemma AlignUpRounds(a: word, align: nat)
    requires 1 <= align <= WORD && a + align <= WORD
    ensures IsRoundUp(AlignUp(a, align), a, align)
  {
    var x := a + align - 1;
    var q, r := x / align, x % align;
    assert x == q * align + r;
    DivUnique(x - r, q, 0, align);
  }

  /** What each reservation is rounded to: 4 kB, 64 kB for the table, the display's pages, 4 kB and 16 bytes. */
  function Alignment(c: Config, k: nat): nat {
    if k == 2 || k == 7 then 4096
    else if k == 3 then 65536
    else if k == 4 && c.lcd > 0 then c.lcdAlign
    else if k == 12 then 16
    else 1
  }

  lemma AlignmentIs(c: Config, k: nat)
    requires Proper(c) && k < STEPS
    ensures StepAt(c, k).align == Alignment(c, k)
  {
  }

  /** Without wrap the code's address is the plan's. */
  lemma PlanIsAddress(c: Config, n: nat)
    requires Proper(c) && Fits(c) && n <= STEPS && c.base + c.size < WORD
    ensures Address(c, n) == Cursor(c, n)
  {
    hide StepAt, Cursor;
    CursorFalls(c, n, STEPS);
    CursorFalls(c, 0, n);
    TopFirst(c);
  }

  // ----- how much room is enough -----

  /** Sizes and rounding losses of the first n steps. */
  function Needed(c: Config, n: nat): nat
    requires Proper(c) && n <= STEPS
  {
    if n == 0 then 0 else Needed(c, n - 1) + StepAt(c, n - 1).size + StepAt(c, n - 1).align - 1
  }

  lemma {:induction false} CursorBound(c: Config, n: nat)
    requires Proper(c) && n <= STEPS
    ensures Cursor(c, n) >= Top(c) - Needed(c, n)
  {
    hide StepAt;
    if n > 0 {
      CursorBound(c, n - 1);
      Below(c, n - 1);
    }
  }

  /** RAM for all sizes and the worst rounding is always enough. */
  lemma EnoughFits(c: Config)
    requires Proper(c) && c.base + Needed(c, STEPS) <= Top(c)
    ensures Fits(c)
  {
    CursorBound(c, STEPS);
  }

  /** Two gigabytes that end with the address space. */
  function FullSpace(): Config {
    Config(0x8000_0000, 0x8000_0000, 0, 0, 0x4000, 0, 1, 0, 0x8_0000, 0x100_0000, 80, false, 256, None)
  }

  /** Their top is address 0, and there is room. */
  lemma FullSpaceFits()
    ensures Proper(FullSpace()) && Fits(FullSpace()) && Address(FullSpace(), 0) == 0
  {
    hide Fits, Cursor, AlignUp;
    var c := FullSpace();
    assert Needed(c, 4) <= 0x1_6000;
    assert Needed(c, 8) <= 0x10_0000;
    assert Needed(c, STEPS) <= 0x130_0000;
    EnoughFits(c);
    TopFirst(c);
  }

  // ----- the code -----

  class GlobalData {
    const c: Config
    var ramTop: word
    var relocaddr: word
    var startAddrSp: word
    var tlbAddr: word
    var fbBase: word
    var traceBuff: word
    var boardInfo: word
    var newGd: word
    var newFdt: word
    /** What has been set aside, in order. */
    ghost var areas: seq<Area>

    constructor (c: Config)
      ensures this.c == c && areas == []
    {
      this.c := c;
      ramTop, relocaddr, startAddrSp, areas := 0, 0, 0, [];
      tlbAddr, fbBase, traceBuff, boardInfo, newGd, newFdt := 0, 0, 0, 0, 0, 0;
    }

    /** The first n steps have been taken. */
    ghost predicate Taken(n: nat)
      requires Proper(c) && n <= STEPS
      reads this
    {
      |areas| == n && forall k :: 0 <= k < n ==> areas[k] == AreaAt(c, k)
    }

    /** setup_dest_addr with board_get_usable_ram_top: a top beyond 32 bits becomes zero. */
    method SetupDestAddr()
      requires Proper(c)
      modifies this`ramTop, this`relocaddr
      ensures ramTop == relocaddr == Address(c, 0) == Top(c) % WORD
    {
      ramTop := (c.base + c.size) % WORD;
      if ramTop < c.base {
        ramTop := 0;
      }
      relocaddr := ramTop;
    }

    /** relocaddr lowered by a size and rounded down, which is step n. */
    method LowerReloc(size: word, align: nat, ghost n: nat)
      requires Proper(c) && n < STEPS && Taken(n) && relocaddr == Address(c, n) && StepAt(c, n) == Step(size, align)
      modifies this`relocaddr, this`areas
      ensures relocaddr == Address(c, n + 1) && Taken(n + 1)
    {
      hide StepAt, Address, Mask;
      NextAddress(c, n);
      relocaddr := Mask(Sub(relocaddr, size), align);
      areas := areas + [Area(relocaddr, size)];
    }

    method LowerSp(size: word, align: nat, ghost n: nat)
      requires Proper(c) && n < STEPS && Taken(n) && startAddrSp == Address(c, n) && StepAt(c, n) == Step(size, align)
      modifies this`startAddrSp, this`areas
      ensures startAddrSp == Address(c, n + 1) && Taken(n + 1)
    {
      hide StepAt, Address, Mask;
      NextAddress(c, n);
      startAddrSp := Mask(Sub(startAddrSp, size), align);
      areas := areas + [Area(startAddrSp, size)];
    }

    /** reserve_logbuffer, reserve_pram, reserve_round_4k, reserve_mmu. */
    method ReserveTop()
      requires Proper(c) && Taken(0) && relocaddr == Address(c, 0)
      modifies this`relocaddr, this`areas, this`tlbAddr
      ensures Taken(4) && relocaddr == Address(c, 4) == tlbAddr
    {
      hide Address, AreaAt;
      LowerReloc(c.logbuffer, 1, 0);
      LowerReloc(c.pramKb * 1024 % WORD, 1, 1);
      LowerReloc(0, 4096, 2);
      LowerReloc(c.tlb, 0x1_0000, TLB);
      tlbAddr := relocaddr;
    }

    /** reserve_lcd with lcd_setmem, reserve_trace. */
    method ReserveBuffers()
      requires Proper(c) && Taken(4) && relocaddr == Address(c, 4)
      modifies this`relocaddr, this`areas, this`fbBase, this`traceBuff
      ensures Taken(7) && relocaddr == Address(c, 7)
      ensures c.lcd > 0 ==> fbBase == Address(c, 6)
      ensures c.trace > 0 ==> traceBuff == Address(c, 7)
    {
      hide Address, AreaAt, AlignUp;
      if c.lcd > 0 {
        DividesBounded(c.lcdAlign);
        LowerReloc(0, c.lcdAlign, 4);
        LowerReloc(AlignUp(c.lcd, c.lcdAlign), 1, LCD);
        fbBase := relocaddr;
      } else {
        LowerReloc(0, 1, 4);
        LowerReloc(0, 1, LCD);
      }
      LowerReloc(c.trace, 1, TRACE);
      if c.trace > 0 {
        traceBuff := relocaddr;
      }
    }

    /** reserve_uboot, reserve_malloc, reserve_board. */
    method ReserveCode()
      requires Proper(c) && Taken(7) && relocaddr == Address(c, 7)
      modifies this`relocaddr, this`startAddrSp, this`areas, this`boardInfo
      ensures Taken(10) && relocaddr == Address(c, 8) && startAddrSp == Address(c, 10)
      ensures !c.haveBoardInfo ==> boardInfo == Address(c, 10)
    {
      hide Address, AreaAt;
      LowerReloc(c.monitor, 4096, CODE);
      startAddrSp := relocaddr;
      LowerSp(c.malloc, 1, HEAP);
      if c.haveBoardInfo {
        LowerSp(0, 1, BOARD_INFO);
      } else {
        LowerSp(c.boardInfo, 1, BOARD_INFO);
        boardInfo := startAddrSp;
      }
    }

    /** reserve_global_data, reserve_fdt, reserve_stacks. */
    method ReserveRest()
      requires Proper(c) && Taken(10) && startAddrSp == Address(c, 10)
      modifies this`startAddrSp, this`areas, this`newGd, this`newFdt
      ensures Taken(STEPS) && startAddrSp == Address(c, STEPS) && newGd == Address(c, 11)
      ensures c.fdt.Some? ==> newFdt == Address(c, 12)
    {
      hide Address, AreaAt, AlignUp;
      LowerSp(c.globalData, 1, GLOBAL_DATA);
      newGd := startAddrSp;
      if c.fdt.Some? {
        LowerSp(AlignUp((c.fdt.value + 0x1000) % WORD, 32), 1, FDT);
        newFdt := startAddrSp;
      } else {
        LowerSp(0, 1, FDT);
      }
      LowerSp(16, 16, STACK);
    }

    /** Every nonempty area lies in RAM and they are pairwise disjoint. */
    ghost predicate LaidOut()
      reads this
    {
      (forall k :: 0 <= k < |areas| && areas[k].size > 0 ==>
          c.base <= areas[k].lo && areas[k].lo + areas[k].size <= Top(c)) &&
      (forall i, j :: 0 <= i < j < |areas| && areas[i].size > 0 && areas[j].size > 0 ==>
        areas[j].lo + areas[j].size <= areas[i].lo)
    }

    lemma TakenIsLaidOut()
      requires Proper(c) && Fits(c) && Taken(STEPS)
      ensures LaidOut()
    {
      hide StepAt, Address, Cursor;
      forall k | 0 <= k < |areas| && areas[k].size > 0
        ensures c.base <= areas[k].lo && areas[k].lo + areas[k].size <= Top(c)
      {
        AreaInRam(c, k);
      }
      forall i, j | 0 <= i < j < |areas| && areas[i].size > 0 && areas[j].size > 0
        ensures areas[j].lo + areas[j].size <= areas[i].lo
      {
        AreasDescend(c, i, j);
      }
    }

    lemma Aligned()
      requires Proper(c) && Taken(STEPS)
      ensures areas[TLB].lo % 0x1_0000 == 0 && areas[CODE].lo % 4096 == 0 && areas[STACK].lo % 16 == 0
    {
      hide Address;
      AreaAligned(c, TLB);
      AreaAligned(c, CODE);
      AreaAligned(c, STACK);
    }

    /** The areas have the sizes of what is put into them. */
    ghost predicate Sized()
      requires Proper(c) && |areas| == STEPS
      reads this
    {
      && areas[0].size == c.logbuffer && areas[1].size == 1024 * c.pramKb % WORD && areas[2].size == areas[4].size == 0
      && areas[TLB].size == c.tlb && areas[TRACE].size == c.trace && areas[CODE].size == c.monitor
      && areas[HEAP].size == c.malloc && areas[BOARD_INFO].size == (if c.haveBoardInfo then 0 else c.boardInfo)
      && areas[GLOBAL_DATA].size == c.globalData && areas[STACK].size == 16
      && (c.fdt.None? ==> areas[FDT].size == 0)
      && (c.fdt.Some? && c.fdt.value < WORD - 0x2000 ==> IsRoundUp(areas[FDT].size, c.fdt.value + 0x1000, 32))
      && (c.lcd == 0 ==> areas[LCD].size == 0)
      && (c.lcd > 0 && c.lcd + c.lcdAlign <= WORD ==> IsRoundUp(areas[LCD].size, c.lcd, c.lcdAlign))
    }

    /** Each area lies as high below the one in front of it as its alignment allows. */
    ghost predicate Snug()
      requires |areas| == STEPS
      reads this
    {
      forall k :: 0 <= k < 13 ==>
        var room := (if k == 0 then c.base + c.size else areas[k - 1].lo) - areas[k].size;
        room - Alignment(c, k) < areas[k].lo <= room
    }

    lemma TakenIsSnug()
      requires Proper(c) && Fits(c) && Taken(STEPS) && c.base + c.size < WORD
      ensures Snug()
    {
      hide StepAt, Cursor;
      forall k | 0 <= k < 13
        ensures var room := (if k == 0 then c.base + c.size else areas[k - 1].lo) - areas[k].size;
          room - Alignment(c, k) < areas[k].lo <= room
      {
        AlignmentIs(c, k);
        Below(c, k);
        PlanIsAddress(c, k + 1);
        if k == 0 {
          TopFirst(c);
        } else {
          PlanIsAddress(c, k);
        }
      }
    }

    lemma TakenIsSized()
      requires Proper(c) && Taken(STEPS)
      ensures Sized()
    {
      hide Address, AlignUp;
      DividesBounded(c.lcdAlign);
      if c.lcd > 0 && c.lcd + c.lcdAlign <= WORD {
        AlignUpRounds(c.lcd, c.lcdAlign);
      }
      if c.fdt.Some? && c.fdt.value < WORD - 0x2000 {
        AlignUpRounds(c.fdt.value + 0x1000, 32);
      }
      hide IsRoundUp;
    }

    /**
      The whole sequence: areas that fit are disjoint and in RAM, also where RAM
      ends with the address space; table, code and stack are aligned.
     */
    method ReserveAll()
      requires Proper(c) && areas == []
      modifies this
      ensures Taken(STEPS) && Sized() && (Fits(c) ==> LaidOut() && c.base <= startAddrSp)
      ensures Fits(c) && c.base + c.size < WORD ==> Snug()
      ensures tlbAddr == areas[TLB].lo && tlbAddr % 0x1_0000 == 0
      ensures relocaddr == areas[CODE].lo && relocaddr % 4096 == 0
      ensures startAddrSp == areas[STACK].lo && startAddrSp % 16 == 0
      ensures c.lcd > 0 ==> fbBase == areas[LCD].lo
      ensures c.trace > 0 ==> traceBuff == areas[TRACE].lo
      ensures !c.haveBoardInfo ==> boardInfo == areas[BOARD_INFO].lo
      ensures newGd == areas[GLOBAL_DATA].lo && (c.fdt.Some? ==> newFdt == areas[FDT].lo)
    {
      hide StepAt, Address, Fits, LaidOut, Sized, Snug;
      SetupDestAddr();
      ReserveTop();
      ReserveBuffers();
      ReserveCode();
      ReserveRest();
      Aligned();
      TakenIsSized();
      if Fits(c) {
        TakenIsLaidOut();
        StackInRam(c);
        if c.base + c.size < WORD {
          TakenIsSnug();
        }
      }
    }

    /** initr_malloc: the arena handed to mem_malloc_init. */
    method InitrMalloc() returns (start: word, len: word)
      requires Proper(c) && Taken(STEPS) && relocaddr == areas[CODE].lo
      ensures Area(start, len) == areas[HEAP]
    {
      NextAddress(c, HEAP);
      start, len := Sub(relocaddr, c.malloc), c.malloc;
    }
  }
}
