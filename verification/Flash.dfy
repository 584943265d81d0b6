/**
  Sector selection of cmd_flash.c: flash_fill_sect_ranges turns an address range
  into a range of sectors per bank, flash_sect_roundb and addr_spec complete the
  "start +length" form.
 */
module Flash {
  import opened Options

  const ADDRESSES: nat := 0x1_0000_0000

  /** flash_info_t: sector start addresses and the bank size; unknown banks are passed over. */
  datatype Bank = Bank(known: bool, start: seq<nat>, size: nat)

  /** Sectors ascend inside a bank that ends inside the 32-bit address space. */
  predicate Sane(b: Bank) {
    && 1 <= |b.start| <= 0x7FFF && 1 <= b.size && b.start[0] + b.size <= ADDRESSES
    && (forall s, s' :: 0 <= s < s' < |b.start| ==> b.start[s] < b.start[s'])
    && b.start[|b.start| - 1] < b.start[0] + b.size
  }

  predicate AllSane(banks: seq<Bank>) { forall i :: 0 <= i < |banks| ==> Sane(banks[i]) }

  function BankEnd(b: Bank): nat
    requires Sane(b)
  {
    b.start[0] + b.size - 1
  }

  /** The last address of sector s. */
  function End(b: Bank, s: nat): nat
    requires Sane(b) && s < |b.start|
  {
    if s == |b.start| - 1 then BankEnd(b) else b.start[s + 1] - 1
  }

  datatype Fault = EndNotOnBoundary | EndPrecedesStart | StartNotOnBoundary | ReverseOrder

  // ----- one bank -----

  /** The first n rounds of the sector loop: sectors that start at first, end at last (-1: none). */
  function Scan(b: Bank, first: nat, last: nat, n: nat): (r: (int, int))
    requires Sane(b) && n <= |b.start|
    ensures -1 <= r.0 < n && -1 <= r.1 < n
  {
    if n == 0 then (-1, -1)
    else
      var s := n - 1;
      var (sf, sl) := Scan(b, first, last, s);
      if first > End(b, s) || last < b.start[s] then (sf, sl)
      else (if first == b.start[s] then s else sf, if last == End(b, s) then s else sl)
  }

  /** What a bank contributes: its sectors, and where the next bank has to go on; or a fault. */
  datatype Visit = Failed(fault: Fault) | Skipped | Chosen(sf: nat, sl: nat, next: nat)

  function VisitBank(b: Bank, first: nat, last: nat): (v: Visit)
    requires b.known ==> Sane(b)
    ensures v.Chosen? ==> b.known && v.sf <= v.sl < |b.start|
  {
    if !b.known then Skipped
    else
      var (sf, sl) := Scan(b, first, last, |b.start|);
      if sf >= 0 then
        if sl < 0 && last <= BankEnd(b) then Failed(EndNotOnBoundary)
        else
          var sl := if sl < 0 then |b.start| - 1 else sl;
          if sl < sf then Failed(EndPrecedesStart) else Chosen(sf, sl, (End(b, sl) + 1) % ADDRESSES)
      else if b.start[0] <= first < BankEnd(b) then Failed(StartNotOnBoundary)
      else if sl >= 0 then Failed(ReverseOrder)
      else Skipped
  }

  // ----- all banks -----

  /** The sectors sf..sl of one bank. */
  datatype Range = Range(sf: nat, sl: nat)

  datatype FillResult = Fault(fault: Fault) | Ranges(ranges: seq<Option<Range>>)

  ghost predicate KnownSane(banks: seq<Bank>) {
    forall i :: 0 <= i < |banks| && banks[i].known ==> Sane(banks[i])
  }

  function Nothing(n: nat): seq<Option<Range>> { seq(n, i => None) }

  /** flash_fill_sect_ranges from bank k on, with addr_first advanced to first. */
  ghost function FillFrom(banks: seq<Bank>, k: nat, first: nat, last: nat): (r: FillResult)
    requires KnownSane(banks) && k <= |banks|
    ensures r.Ranges? ==> |r.ranges| == |banks| - k
    decreases |banks| - k
  {
    if k == |banks| || first > last then Ranges(Nothing(|banks| - k))
    else
      match VisitBank(banks[k], first, last)
      case Failed(f) => Fault(f)
      case Skipped => Prepend(None, FillFrom(banks, k + 1, first, last))
      case Chosen(sf, sl, next) => Prepend(Some(Range(sf, sl)), FillFrom(banks, k + 1, next, last))
  }

  function Prepend(o: Option<Range>, r: FillResult): FillResult {
    if r.Fault? then r else Ranges([o] + r.ranges)
  }

  /** s_count */
  function Count(ranges: seq<Option<Range>>): int {
    if ranges == [] then 0
    else (if ranges[0].None? then 0 else ranges[0].value.sl - ranges[0].value.sf + 1) + Count(ranges[1..])
  }

  predicate Selected(ranges: seq<Option<Range>>, i: nat, s: nat)
    requires i < |ranges|
  {
    ranges[i].Some? && ranges[i].value.sf <= s <= ranges[i].value.sl
  }

  predicate Within(b: Bank, s: nat, first: nat, last: nat)
    requires Sane(b) && s < |b.start|
  {
    first <= b.start[s] && End(b, s) <= last
  }

  // ----- one bank: what the scan finds -----

  lemma EndAfterStart(b: Bank, s: nat)
    requires Sane(b) && s < |b.start|
    ensures b.start[0] <= b.start[s] <= End(b, s) <= BankEnd(b)
    ensures forall t :: s < t < |b.start| ==> End(b, s) < b.start[t]
  {
    assert s + 1 < |b.start| ==> b.start[s] < b.start[s + 1] <= b.start[|b.start| - 1];
    assert s > 0 ==> b.start[0] < b.start[s];
    assert s < |b.start| - 1 ==> b.start[s] < b.start[|b.start| - 1];
  }

  /** The sectors of a bank tile its addresses: each one lies in exactly one of them. */
  lemma {:induction false} SectorsTile(b: Bank, a: nat, n: nat) returns (s: nat)
    requires Sane(b) && n < |b.start| && b.start[0] <= a < b.start[0] + b.size
    requires forall t :: n < t < |b.start| ==> a < b.start[t]
    ensures s <= n && b.start[s] <= a <= End(b, s)
    ensures forall t :: 0 <= t < |b.start| && b.start[t] <= a <= End(b, t) ==> t == s
    decreases n
  {
    if b.start[n] <= a {
      s := n;
      forall t | 0 <= t < |b.start| && b.start[t] <= a <= End(b, t)
        ensures t == s
      {
        EndAfterStart(b, t);
      }
    } else {
      s := SectorsTile(b, a, n - 1);
    }
  }

  lemma SectorsAscend(b: Bank, s: nat, t: nat)
    requires Sane(b) && s < t < |b.start|
    ensures b.start[s] < b.start[t] && End(b, s) < End(b, t)
  {
    EndAfterStart(b, s);
    EndAfterStart(b, t);
  }

  lemma {:induction false} ScanSound(b: Bank, first: nat, last: nat, n: nat)
    requires Sane(b) && n <= |b.start|
    ensures var (sf, sl) := Scan(b, first, last, n);
      (sf >= 0 ==> b.start[sf] == first) && (sl >= 0 ==> End(b, sl) == last)
    decreases n
  {
    if n > 0 {
      ScanSound(b, first, last, n - 1);
    }
  }

  lemma {:induction false} ScanFindsOne(b: Bank, first: nat, last: nat, n: nat, s: nat)
    requires Sane(b) && s < n <= |b.start| && first <= last
    ensures b.start[s] == first ==> Scan(b, first, last, n).0 == s
    ensures End(b, s) == last ==> Scan(b, first, last, n).1 == s
    decreases n
  {
    EndAfterStart(b, s);
    if s < n - 1 {
      ScanFindsOne(b, first, last, n - 1, s);
      SectorsAscend(b, s, n - 1);
    }
  }

  /** With first <= last the scan finds the sector starting at first and the sector ending at last. */
  lemma ScanFinds(b: Bank, first: nat, last: nat)
    requires Sane(b) && first <= last
    ensures var (sf, sl) := Scan(b, first, last, |b.start|);
      && (sf >= 0 ==> b.start[sf] == first)
      && (forall s :: 0 <= s < |b.start| && b.start[s] == first ==> sf == s)
      && (sl >= 0 ==> End(b, sl) == last)
      && (forall s :: 0 <= s < |b.start| && End(b, s) == last ==> sl == s)
  {
    ScanSound(b, first, last, |b.start|);
    forall s | 0 <= s < |b.start|
      ensures b.start[s] == first ==> Scan(b, first, last, |b.start|).0 == s
      ensures End(b, s) == last ==> Scan(b, first, last, |b.start|).1 == s
    {
      ScanFindsOne(b, first, last, |b.start|, s);
    }
  }

  /** What a chosen bank means: it starts at first, and ends at last or with the bank. */
  lemma VisitMeans(b: Bank, first: nat, last: nat)
    requires b.known && Sane(b) && first <= last
    ensures var v := VisitBank(b, first, last);
      && (v.Chosen? ==>
            && b.start[v.sf] == first && v.next == (End(b, v.sl) + 1) % ADDRESSES
            && (End(b, v.sl) == last || (v.sl == |b.start| - 1 && last > BankEnd(b))))
      && (v.Chosen? <== (exists s :: 0 <= s < |b.start| && b.start[s] == first)
                        && (last > BankEnd(b) || exists s :: 0 <= s < |b.start| && End(b, s) == last))
      && v != Failed(EndPrecedesStart)
  {
    ScanFinds(b, first, last);
    var (sf, sl) := Scan(b, first, last, |b.start|);
    if sf >= 0 && sl >= 0 && sl < sf {
      EndAfterStart(b, sl);
    }
  }

  /**
    Which fault a bank raises, by the addresses alone: its last byte is no start
    that the code complains about.
   */
  lemma VisitFails(b: Bank, first: nat, last: nat)
    requires b.known && Sane(b) && first <= last
    ensures var v, top := VisitBank(b, first, last), b.start[0] + b.size - 1;
      var starts := exists s :: 0 <= s < |b.start| && b.start[s] == first;
      var ends := exists s :: 0 <= s < |b.start| && End(b, s) == last;
      && (v == Failed(EndNotOnBoundary) <==> starts && !ends && last <= top)
      && (v == Failed(StartNotOnBoundary) <==> !starts && b.start[0] <= first < top)
      && (v == Failed(ReverseOrder) <==> !starts && !(b.start[0] <= first < top) && ends)
      && (v == Skipped <==> !starts && !(b.start[0] <= first < top) && !ends)
  {
    ScanFinds(b, first, last);
    VisitMeans(b, first, last);
    hide Scan;
  }

  // ----- any layout of the banks -----

  /** A bank that ends at the last address, with one that starts at address 0 behind it in the table. */
  predicate WrapPair(banks: seq<Bank>, k: nat, j: nat)
    requires KnownSane(banks)
  {
    && k < j < |banks| && banks[k].known && banks[j].known
    && BankEnd(banks[k]) == ADDRESSES - 1 && banks[j].start[0] == 0
  }

  ghost predicate Wraps(banks: seq<Bank>)
    requires KnownSane(banks)
  {
    exists k: nat, j: nat :: WrapPair(banks, k, j)
  }

  /**
    Whatever the order of the banks, a successful call for any range selects no
    sector outside it, if the table has no such pair.
   */
  lemma {:induction false} NothingOutside(banks: seq<Bank>, k: nat, first: nat, last: nat, i: nat, s: nat)
    requires KnownSane(banks) && k <= i < |banks| && !Wraps(banks)
    requires FillFrom(banks, k, first, last).Ranges?
    requires Selected(FillFrom(banks, k, first, last).ranges, i - k, s)
    ensures banks[i].known && s < |banks[i].start| && Within(banks[i], s, first, last)
    decreases |banks| - k
  {
    hide Scan, VisitBank, Sane, FillFrom, Selected, Wraps;
    if first > last {
      NoneSelected(banks, k, first, last, i - k, s);
    } else {
      var b, v := banks[k], VisitBank(banks[k], first, last);
      FillUnfolds(banks, k, first, last);
      var first' := if v.Chosen? then v.next else first;
      if i > k {
        var o := if v.Chosen? then Some(Range(v.sf, v.sl)) else None;
        SelectedBehind(o, FillFrom(banks, k + 1, first', last), i - k, s);
        if v.Chosen? && v.next < first {
          NextWraps(banks, k, first, last);
          WrappedSelectsNothing(banks, k + 1, last, i, s);
        }
        NothingOutside(banks, k + 1, first', last, i, s);
      } else {
        ChosenWithin(b, first, last, s, FillFrom(banks, k + 1, first', last));
      }
    }
  }

  /** addr_first only falls by wrapping to 0, and then no later bank starts there. */
  lemma NextWraps(banks: seq<Bank>, k: nat, first: nat, last: nat)
    requires KnownSane(banks) && k < |banks| && first <= last && !Wraps(banks)
    requires VisitBank(banks[k], first, last).Chosen? && VisitBank(banks[k], first, last).next < first
    ensures VisitBank(banks[k], first, last).next == 0
    ensures forall j :: k < j < |banks| && banks[j].known ==> banks[j].start[0] > 0
  {
    var b, v := banks[k], VisitBank(banks[k], first, last);
    VisitMeans(b, first, last);
    EndAfterStart(b, v.sl);
    EndAfterStart(b, v.sf);
    if v.sf < v.sl {
      SectorsAscend(b, v.sf, v.sl);
    }
    forall j | k < j < |banks| && banks[j].known
      ensures banks[j].start[0] > 0
    {
      assert !WrapPair(banks, k, j);
    }
  }

  /** From address 0 on nothing is selected in banks that start higher. */
  lemma {:induction false} WrappedSelectsNothing(banks: seq<Bank>, k: nat, last: nat, i: nat, s: nat)
    requires KnownSane(banks) && k <= i < |banks|
    requires forall j :: k <= j < |banks| && banks[j].known ==> banks[j].start[0] > 0
    requires FillFrom(banks, k, 0, last).Ranges?
    ensures !Selected(FillFrom(banks, k, 0, last).ranges, i - k, s)
    decreases |banks| - k
  {
    var v := VisitBank(banks[k], 0, last);
    if v.Chosen? {
      VisitMeans(banks[k], 0, last);
      EndAfterStart(banks[k], v.sf);
    }
    hide Scan, VisitBank, Sane, FillFrom;
    FillUnfolds(banks, k, 0, last);
    if i > k {
      SelectedBehind(None, FillFrom(banks, k + 1, 0, last), i - k, s);
      WrappedSelectsNothing(banks, k + 1, last, i, s);
    }
  }

  lemma NoneSelected(banks: seq<Bank>, k: nat, first: nat, last: nat, i: nat, s: nat)
    requires KnownSane(banks) && k <= |banks| && first > last && i < |banks| - k
    ensures !Selected(FillFrom(banks, k, first, last).ranges, i, s)
  {
  }

  lemma ChosenWithin(b: Bank, first: nat, last: nat, s: nat, r: FillResult)
    requires (b.known ==> Sane(b)) && first <= last && r.Ranges?
    requires var v := VisitBank(b, first, last);
      Selected(Prepend(if v.Chosen? then Some(Range(v.sf, v.sl)) else None, r).ranges, 0, s)
    ensures b.known && s < |b.start| && Within(b, s, first, last)
  {
    var v := VisitBank(b, first, last);
    VisitMeans(b, first, last);
    EndAfterStart(b, v.sl);
    SectorsBetween(b, v.sf, v.sl);
  }

  lemma SectorsBetween(b: Bank, sf: nat, sl: nat)
    requires Sane(b) && sf <= sl < |b.start|
    ensures forall s :: sf <= s <= sl ==> b.start[sf] <= b.start[s] && End(b, s) <= End(b, sl)
    ensures forall s :: 0 <= s < |b.start| && b.start[sf] <= b.start[s] && End(b, s) <= End(b, sl) ==> sf <= s <= sl
  {
    forall s, t | 0 <= s < t < |b.start|
      ensures b.start[s] < b.start[t] && End(b, s) < End(b, t)
    {
      SectorsAscend(b, s, t);
    }
  }

  /** At the top of the address space addr_first wraps to 0 and a bank below the range is selected. */
  lemma TopOfSpaceWraps()
    ensures var banks := [Bank(true, [0xFFFF_0000], 0x1_0000), Bank(true, [0], 0x1_0000)];
      KnownSane(banks) && FillFrom(banks, 0, 0xFFFF_0000, 0xFFFF_FFFF) == Ranges([Some(Range(0, 0)), Some(Range(0, 0))])
  {
    var b0, b1 := Bank(true, [0xFFFF_0000], 0x1_0000), Bank(true, [0], 0x1_0000);
    var banks := [b0, b1];
    assert KnownSane(banks);
    assert Scan(b0, 0xFFFF_0000, 0xFFFF_FFFF, 0) == (-1, -1) && Scan(b1, 0, 0xFFFF_FFFF, 0) == (-1, -1);
    assert VisitBank(b0, 0xFFFF_0000, 0xFFFF_FFFF) == Chosen(0, 0, 0);
    assert VisitBank(b1, 0, 0xFFFF_FFFF) == Chosen(0, 0, 0x1_0000);
    assert FillFrom(banks, 2, 0x1_0000, 0xFFFF_FFFF) == Ranges([]);
    assert FillFrom(banks, 1, 0, 0xFFFF_FFFF) == Ranges([Some(Range(0, 0))]);
  }

  // ----- exactly the layouts that keep inside -----

  /** No two known banks share an address. */
  predicate Disjoint(banks: seq<Bank>)
    requires KnownSane(banks)
  {
    forall i, j :: 0 <= i < j < |banks| && banks[i].known && banks[j].known ==>
      BankEnd(banks[i]) < banks[j].start[0] || BankEnd(banks[j]) < banks[i].start[0]
  }

  /** No successful call for any range selects a sector outside it. */
  ghost predicate KeepsInside(banks: seq<Bank>)
    requires KnownSane(banks)
  {
    forall first: nat, last: nat, i: nat, s: nat ::
      var r := FillFrom(banks, 0, first, last);
      i < |banks| && r.Ranges? && Selected(r.ranges, i, s) ==>
        banks[i].known && s < |banks[i].start| && Within(banks[i], s, first, last)
  }

  /** The address lies in no known bank from k on, or at the start of one. */
  ghost predicate Aligned(banks: seq<Bank>, k: nat, a: nat)
    requires KnownSane(banks)
  {
    forall i :: k <= i < |banks| && banks[i].known ==> a <= banks[i].start[0] || BankEnd(banks[i]) < a
  }

  lemma WholeBank(b: Bank, first: nat)
    requires b.known && Sane(b) && first <= ADDRESSES - 1 && (first <= b.start[0] || BankEnd(b) < first)
    requires BankEnd(b) < ADDRESSES - 1 || b.start[0] == first
    ensures VisitBank(b, first, ADDRESSES - 1)
            == if b.start[0] == first then Chosen(0, |b.start| - 1, (BankEnd(b) + 1) % ADDRESSES) else Skipped
  {
    var last := ADDRESSES - 1;
    ScanFinds(b, first, last);
    var (sf, sl) := Scan(b, first, last, |b.start|);
    EndAfterStart(b, 0);
    if sf >= 0 {
      EndAfterStart(b, sf);
    }
    if sl >= 0 {
      EndAfterStart(b, sl);
    }
  }

  /** From an aligned address to the top, with the top in no later bank, filling succeeds. */
  lemma {:induction false} FillsToTop(banks: seq<Bank>, k: nat, first: nat)
    requires KnownSane(banks) && Disjoint(banks) && k <= |banks| && Aligned(banks, k, first) && first < ADDRESSES
    requires forall i :: k <= i < |banks| && banks[i].known ==> BankEnd(banks[i]) < ADDRESSES - 1
    ensures FillFrom(banks, k, first, ADDRESSES - 1).Ranges?
    decreases |banks| - k
  {
    if k < |banks| {
      hide VisitBank, FillFrom, Sane;
      var b, v := banks[k], VisitBank(banks[k], first, ADDRESSES - 1);
      FillUnfolds(banks, k, first, ADDRESSES - 1);
      if b.known {
        WholeBank(b, first);
      } else {
        UnknownSkipped(b, first, ADDRESSES - 1);
      }
      FillsToTop(banks, k + 1, if v.Chosen? then v.next else first);
    }
  }

  lemma UnknownSkipped(b: Bank, first: nat, last: nat)
    requires !b.known
    ensures VisitBank(b, first, last) == Skipped
  {
  }

  /** The bank holds neither a nor the top of the address space, or is not known. */
  predicate Apart(b: Bank, a: nat)
    requires b.known ==> Sane(b)
  {
    b.known ==> (a < b.start[0] || BankEnd(b) < a) && BankEnd(b) < ADDRESSES - 1
  }

  lemma ApartSkipped(b: Bank, first: nat)
    requires (b.known ==> Sane(b)) && Apart(b, first) && first < ADDRESSES
    ensures VisitBank(b, first, ADDRESSES - 1) == Skipped
  {
    if b.known {
      WholeBank(b, first);
    }
  }

  /** From bank n on, both calls do the same; i is a bank from there on. */
  ghost predicate SameBehind(banks: seq<Bank>, k: nat, n: nat, first: nat, i: nat)
    requires KnownSane(banks) && k <= n <= i < |banks|
  {
    var r, r' := FillFrom(banks, k, first, ADDRESSES - 1), FillFrom(banks, n, first, ADDRESSES - 1);
    r.Ranges? == r'.Ranges? && (r.Ranges? ==> r.ranges[i - k] == r'.ranges[i - n])
  }

  lemma PassedOne(banks: seq<Bank>, k: nat, first: nat, i: nat)
    requires KnownSane(banks) && k < i < |banks| && first < ADDRESSES && Apart(banks[k], first)
    ensures SameBehind(banks, k, k + 1, first, i)
  {
    hide VisitBank, FillFrom, Sane, Apart;
    FillUnfolds(banks, k, first, ADDRESSES - 1);
    ApartSkipped(banks[k], first);
    var r := FillFrom(banks, k + 1, first, ADDRESSES - 1);
    if r.Ranges? {
      assert ([None] + r.ranges)[i - k] == r.ranges[i - k - 1];
    }
  }

  /** Such banks are passed over. */
  lemma {:induction false} PassedOver(banks: seq<Bank>, k: nat, n: nat, first: nat, i: nat)
    requires KnownSane(banks) && k <= n <= i < |banks| && first < ADDRESSES
    requires forall j :: k <= j < n ==> Apart(banks[j], first)
    ensures SameBehind(banks, k, n, first, i)
    decreases n - k
  {
    if k < n {
      hide FillFrom, Sane, Apart;
      PassedOne(banks, k, first, i);
      PassedOver(banks, k + 1, n, first, i);
    }
  }

  /** After the wrap the second bank of the pair is selected whole. */
  lemma {:induction false} SecondSelected(banks: seq<Bank>, k: nat, j: nat)
    requires KnownSane(banks) && Disjoint(banks) && WrapPair(banks, k, j)
    ensures var r := FillFrom(banks, k + 1, 0, ADDRESSES - 1);
      r.Ranges? && r.ranges[j - k - 1] == Some(Range(0, |banks[j].start| - 1))
  {
    hide VisitBank, FillFrom;
    PassedOver(banks, k + 1, j, 0, j);
    FillUnfolds(banks, j, 0, ADDRESSES - 1);
    WholeBank(banks[j], 0);
    FillsToTop(banks, j + 1, BankEnd(banks[j]) + 1);
  }

  /** With a wrapping pair, the range from its first bank to the top selects its second bank. */
  lemma {:induction false} WrapShows(banks: seq<Bank>, k: nat, j: nat)
    requires KnownSane(banks) && Disjoint(banks) && WrapPair(banks, k, j)
    ensures var first := banks[k].start[0];
      var r := FillFrom(banks, 0, first, ADDRESSES - 1);
      r.Ranges? && Selected(r.ranges, j, 0) && !Within(banks[j], 0, first, ADDRESSES - 1)
  {
    hide VisitBank, FillFrom;
    var first, last := banks[k].start[0], ADDRESSES - 1;
    PassedOver(banks, 0, k, first, j);
    FillUnfolds(banks, k, first, last);
    WholeBank(banks[k], first);
    SecondSelected(banks, k, j);
    var r := FillFrom(banks, k + 1, 0, last);
    assert ([Some(Range(0, |banks[k].start| - 1))] + r.ranges)[j - k] == r.ranges[j - k - 1];
  }

  /** Disjoint banks keep every selection inside its range exactly when no pair of them wraps. */
  lemma InsideIffNoWrap(banks: seq<Bank>)
    requires KnownSane(banks) && Disjoint(banks)
    ensures KeepsInside(banks) <==> !Wraps(banks)
  {
    hide FillFrom, Selected, Sane;
    if Wraps(banks) {
      var k: nat, j: nat :| WrapPair(banks, k, j);
      WrapShows(banks, k, j);
    } else {
      forall first: nat, last: nat, i: nat, s: nat |
        i < |banks| && FillFrom(banks, 0, first, last).Ranges? && Selected(FillFrom(banks, 0, first, last).ranges, i, s)
        ensures banks[i].known && s < |banks[i].start| && Within(banks[i], s, first, last)
      {
        NothingOutside(banks, 0, first, last, i, s);
      }
    }
  }

  // ----- ascending, gap-free banks -----

  predicate GapFree(banks: seq<Bank>) {
    && banks != [] && AllSane(banks)
    && (forall i :: 0 <= i < |banks| ==> banks[i].known)
    && forall i :: 0 <= i < |banks| - 1 ==> BankEnd(banks[i]) + 1 == banks[i + 1].start[0]
  }

  /** Gap-free banks ascend, so only the last one can end at the top. */
  lemma GapFreeNoWrap(banks: seq<Bank>)
    requires GapFree(banks)
    ensures KnownSane(banks) && !Wraps(banks)
  {
    forall k: nat, j: nat
      ensures !WrapPair(banks, k, j)
    {
      if k + 1 < |banks| {
        assert BankEnd(banks[k]) + 1 == banks[k + 1].start[0] < ADDRESSES;
      }
    }
  }

  lemma SelectedWithin(banks: seq<Bank>, first: nat, last: nat, i: nat, s: nat)
    requires GapFree(banks) && i < |banks| && FillFrom(banks, 0, first, last).Ranges?
    requires Selected(FillFrom(banks, 0, first, last).ranges, i, s)
    ensures s < |banks[i].start| && Within(banks[i], s, first, last)
  {
    GapFreeNoWrap(banks);
    hide FillFrom, Wraps, GapFree;
    NothingOutside(banks, 0, first, last, i, s);
  }

  function Top(banks: seq<Bank>): nat
    requires GapFree(banks)
  {
    BankEnd(banks[|banks| - 1])
  }

  ghost predicate StartsSector(banks: seq<Bank>, k: nat, a: nat)
    requires AllSane(banks)
  {
    exists i, s :: k <= i < |banks| && 0 <= s < |banks[i].start| && banks[i].start[s] == a
  }

  ghost predicate EndsSector(banks: seq<Bank>, k: nat, a: nat)
    requires AllSane(banks)
  {
    exists i, s :: k <= i < |banks| && 0 <= s < |banks[i].start| && End(banks[i], s) == a
  }

  lemma {:induction false} BanksAscend(banks: seq<Bank>, i: nat, j: nat)
    requires GapFree(banks) && i < j < |banks|
    ensures BankEnd(banks[i]) < banks[j].start[0]
    decreases j - i
  {
    assert BankEnd(banks[j - 1]) + 1 == banks[j].start[0];
    if i < j - 1 {
      BanksAscend(banks, i, j - 1);
    }
  }

  ghost predicate Success(r: FillResult) { r.Ranges? && Count(r.ranges) > 0 }

  lemma {:induction false} CountNothing(n: nat)
    ensures Count(Nothing(n)) == 0
    decreases n
  {
    if n > 0 {
      CountNothing(n - 1);
      assert Nothing(n)[1..] == Nothing(n - 1);
    }
  }

  /** A range that starts in front of the remaining banks selects nothing in them. */
  lemma {:induction false} NeverChosen(banks: seq<Bank>, k: nat, first: nat, last: nat)
    requires GapFree(banks) && k <= |banks| && (k < |banks| ==> first < banks[k].start[0])
    ensures var r := FillFrom(banks, k, first, last); r.Ranges? ==> Count(r.ranges) == 0
    decreases |banks| - k
  {
    if k == |banks| || first > last {
      CountNothing(|banks| - k);
    } else {
      var b := banks[k];
      VisitMeans(b, first, last);
      assert !VisitBank(b, first, last).Chosen? by {
        if VisitBank(b, first, last).Chosen? {
          EndAfterStart(b, VisitBank(b, first, last).sf);
        }
      }
      EndAfterStart(b, 0);
      NeverChosen(banks, k + 1, first, last);
      var r' := FillFrom(banks, k + 1, first, last);
      if r'.Ranges? {
        assert ([None] + r'.ranges)[1..] == r'.ranges;
      }
    }
  }

  /** No sector of a bank from k on ends at or before an address in front of bank k. */
  lemma LaterEnds(banks: seq<Bank>, k: nat, i: nat, s: nat)
    requires GapFree(banks) && k <= i < |banks| && s < |banks[i].start|
    ensures banks[k].start[0] <= banks[i].start[s]
    ensures k < i ==> BankEnd(banks[k]) < banks[i].start[s] <= End(banks[i], s)
  {
    EndAfterStart(banks[i], s);
    if k < i {
      BanksAscend(banks, k, i);
      EndAfterStart(banks[k], 0);
    }
  }

  lemma StartsHere(banks: seq<Bank>, k: nat, s: nat)
    requires AllSane(banks) && k < |banks| && s < |banks[k].start|
    ensures StartsSector(banks, k, banks[k].start[s])
  {
  }

  lemma EndsHere(banks: seq<Bank>, k: nat, s: nat)
    requires AllSane(banks) && k < |banks| && s < |banks[k].start|
    ensures EndsSector(banks, k, End(banks[k], s))
  {
  }

  /** The outcome from bank k on, for a range that starts at or behind its first address. */
  lemma {:induction false} FillsExactly(banks: seq<Bank>, k: nat, first: nat, last: nat)
    requires GapFree(banks) && k < |banks| && banks[k].start[0] <= first <= last <= Top(banks)
    ensures Success(FillFrom(banks, k, first, last)) <==> StartsSector(banks, k, first) && EndsSector(banks, k, last)
    ensures var r := FillFrom(banks, k, first, last); StartsSector(banks, k, first) && r.Ranges? ==> Count(r.ranges) > 0
    decreases |banks| - k
  {
    hide Scan, VisitBank, StartsSector, EndsSector, Count, Sane;
    var b, v := banks[k], VisitBank(banks[k], first, last);
    var r := FillFrom(banks, k, first, last);
    VisitMeans(b, first, last);
    if first > BankEnd(b) {
      // the range starts behind this bank
      NotHere(b, first, last);
      assert k + 1 < |banks|;
      FillsExactly(banks, k + 1, first, last);
      CountPrepend(None, FillFrom(banks, k + 1, first, last));
      StartBehind(banks, k, first);
      EndBehind(banks, k, last);
    } else if v.Chosen? {
      StartsHere(banks, k, v.sf);
      EndAfterStart(b, v.sl);
      if End(b, v.sl) == last {
        EndsHere(banks, k, v.sl);
        LastBank(banks, k, v.sl);
        CountNothing(|banks| - (k + 1));
      } else {
        NextBank(banks, k);
        FillsExactly(banks, k + 1, v.next, last);
        StartsHere(banks, k + 1, 0);
        EndBehind(banks, k, last);
      }
      CountPrepend(Some(Range(v.sf, v.sl)), FillFrom(banks, k + 1, v.next, last));
    } else {
      NotChosen(banks, k, first, last);
    }
  }

  lemma CountPrepend(o: Option<Range>, r: FillResult)
    requires o.Some? ==> o.value.sf <= o.value.sl
    ensures r.Ranges? ==>
      Count(Prepend(o, r).ranges) == (if o.None? then 0 else o.value.sl - o.value.sf + 1) + Count(r.ranges)
    ensures Success(r) && o.None? ==> Success(Prepend(o, r))
    ensures r.Ranges? && Count(r.ranges) >= 0 && o.Some? ==> Success(Prepend(o, r))
  {
    if r.Ranges? {
      assert ([o] + r.ranges)[1..] == r.ranges;
    }
  }

  lemma NotHere(b: Bank, first: nat, last: nat)
    requires b.known && Sane(b) && BankEnd(b) < first <= last
    ensures VisitBank(b, first, last) == Skipped
  {
    ScanFinds(b, first, last);
    var (sf, sl) := Scan(b, first, last, |b.start|);
    if sf >= 0 {
      EndAfterStart(b, sf);
    }
    if sl >= 0 {
      EndAfterStart(b, sl);
    }
  }

  lemma StartBehind(banks: seq<Bank>, k: nat, first: nat)
    requires GapFree(banks) && k + 1 < |banks| && first > BankEnd(banks[k])
    ensures StartsSector(banks, k, first) <==> StartsSector(banks, k + 1, first)
  {
    if i, s :| k <= i < |banks| && 0 <= s < |banks[i].start| && banks[i].start[s] == first {
      EndAfterStart(banks[i], s);
      assert i >= k + 1;
    }
  }

  lemma EndBehind(banks: seq<Bank>, k: nat, last: nat)
    requires GapFree(banks) && k + 1 < |banks| && last > BankEnd(banks[k])
    ensures EndsSector(banks, k, last) <==> EndsSector(banks, k + 1, last)
  {
    if i, s :| k <= i < |banks| && 0 <= s < |banks[i].start| && End(banks[i], s) == last {
      EndAfterStart(banks[i], s);
      assert i >= k + 1;
    }
  }

  lemma NextBank(banks: seq<Bank>, k: nat)
    requires GapFree(banks) && k < |banks| && BankEnd(banks[k]) < Top(banks)
    ensures k + 1 < |banks| && |banks[k + 1].start| > 0
    ensures banks[k + 1].start[0] == (BankEnd(banks[k]) + 1) % ADDRESSES == BankEnd(banks[k]) + 1
  {
  }

  lemma LastBank(banks: seq<Bank>, k: nat, s: nat)
    requires GapFree(banks) && k < |banks| && s < |banks[k].start|
    ensures var last := End(banks[k], s);
      FillFrom(banks, k + 1, (last + 1) % ADDRESSES, last) == Ranges(Nothing(|banks| - (k + 1)))
  {
    EndAfterStart(banks[k], s);
    if k + 1 < |banks| {
      assert BankEnd(banks[k]) + 1 == banks[k + 1].start[0];
    }
  }

  lemma StartInBank(banks: seq<Bank>, k: nat, first: nat) returns (s: nat)
    requires GapFree(banks) && k < |banks| && first <= BankEnd(banks[k]) && StartsSector(banks, k, first)
    ensures s < |banks[k].start| && banks[k].start[s] == first
  {
    var i, t :| k <= i < |banks| && 0 <= t < |banks[i].start| && banks[i].start[t] == first;
    LaterEnds(banks, k, i, t);
    s := t;
  }

  lemma EndInBank(banks: seq<Bank>, k: nat, last: nat) returns (s: nat)
    requires GapFree(banks) && k < |banks| && last <= BankEnd(banks[k]) && EndsSector(banks, k, last)
    ensures s < |banks[k].start| && End(banks[k], s) == last
  {
    var i, t :| k <= i < |banks| && 0 <= t < |banks[i].start| && End(banks[i], t) == last;
    LaterEnds(banks, k, i, t);
    s := t;
  }

  /** A sector start inside the bank is chosen or the call fails there. */
  lemma StartFails(b: Bank, first: nat, last: nat, s: nat)
    requires b.known && Sane(b) && first <= last && s < |b.start| && b.start[s] == first
    ensures !VisitBank(b, first, last).Skipped?
    ensures !VisitBank(b, first, last).Chosen? ==>
      last <= BankEnd(b) && forall t :: 0 <= t < |b.start| ==> End(b, t) != last
  {
    ScanFinds(b, first, last);
    VisitMeans(b, first, last);
  }

  /** A bank the range starts in, but does not choose: the call fails or selects nothing. */
  lemma NotChosen(banks: seq<Bank>, k: nat, first: nat, last: nat)
    requires GapFree(banks) && k < |banks| && banks[k].start[0] <= first <= last <= Top(banks)
    requires first <= BankEnd(banks[k]) && !VisitBank(banks[k], first, last).Chosen?
    ensures !Success(FillFrom(banks, k, first, last))
    ensures !(StartsSector(banks, k, first) && EndsSector(banks, k, last))
    ensures StartsSector(banks, k, first) ==> FillFrom(banks, k, first, last).Fault?
  {
    hide Scan, VisitBank, StartsSector, EndsSector, Count, Sane;
    var b, v := banks[k], VisitBank(banks[k], first, last);
    if v.Skipped? {
      NeverChosen(banks, k + 1, first, last) by {
        if k + 1 < |banks| {
          BanksAscend(banks, k, k + 1);
        }
      }
      CountPrepend(None, FillFrom(banks, k + 1, first, last));
    }
    if StartsSector(banks, k, first) {
      var s := StartInBank(banks, k, first);
      StartFails(b, first, last, s);
      if EndsSector(banks, k, last) {
        var t := EndInBank(banks, k, last);
        assert false;
      }
    }
  }

  // ----- main results for gap-free banks -----

  /** Success with a nonzero count, exactly when both ends lie on sector boundaries. */
  lemma FillIffAligned(banks: seq<Bank>, first: nat, last: nat)
    requires GapFree(banks) && banks[0].start[0] <= first <= last <= Top(banks)
    ensures Success(FillFrom(banks, 0, first, last)) <==> StartsSector(banks, 0, first) && EndsSector(banks, 0, last)
  {
    FillsExactly(banks, 0, first, last);
  }

  /** A range that starts in front of the flash selects nothing. */
  lemma BelowFlash(banks: seq<Bank>, first: nat, last: nat)
    requires GapFree(banks) && first < banks[0].start[0]
    ensures !Success(FillFrom(banks, 0, first, last))
  {
    NeverChosen(banks, 0, first, last);
  }

  /** A successful call selects every sector that lies in the range. */
  lemma {:induction false} NothingMissed(banks: seq<Bank>, k: nat, first: nat, last: nat, i: nat, s: nat)
    requires GapFree(banks) && k <= i < |banks| && s < |banks[i].start| && first <= last <= Top(banks)
    requires banks[k].start[0] <= first && Success(FillFrom(banks, k, first, last))
    requires Within(banks[i], s, first, last)
    ensures Selected(FillFrom(banks, k, first, last).ranges, i - k, s)
    decreases |banks| - k
  {
    hide Scan, VisitBank, StartsSector, EndsSector, Count, Sane, Selected, Within, FillFrom;
    var b, v := banks[k], VisitBank(banks[k], first, last);
    VisitMeans(b, first, last);
    FillUnfolds(banks, k, first, last);
    if first > BankEnd(b) {
      NotHere(b, first, last);
      NextBank(banks, k);
      CountPrepend(None, FillFrom(banks, k + 1, first, last));
      WithinBehind(banks, k, first, last, i, s);
      NothingMissed(banks, k + 1, first, last, i, s);
      SelectedBehind(None, FillFrom(banks, k + 1, first, last), i - k, s);
    } else if !v.Chosen? {
      NotChosen(banks, k, first, last);
    } else if i == k {
      SelectedHere(b, v.sf, v.sl, first, last, s, FillFrom(banks, k + 1, v.next, last));
    } else {
      WithinLater(banks, k, first, last, i, s);
      EndAfterStart(b, v.sl);
      NextBank(banks, k);
      StartsHere(banks, k + 1, 0);
      FillsExactly(banks, k + 1, v.next, last);
      NothingMissed(banks, k + 1, v.next, last, i, s);
      SelectedBehind(Some(Range(v.sf, v.sl)), FillFrom(banks, k + 1, v.next, last), i - k, s);
    }
  }

  lemma FillUnfolds(banks: seq<Bank>, k: nat, first: nat, last: nat)
    requires KnownSane(banks) && k < |banks| && first <= last
    ensures var v := VisitBank(banks[k], first, last);
      FillFrom(banks, k, first, last)
      == if v.Failed? then Fault(v.fault)
         else if v.Skipped? then Prepend(None, FillFrom(banks, k + 1, first, last))
         else Prepend(Some(Range(v.sf, v.sl)), FillFrom(banks, k + 1, v.next, last))
  {
    hide VisitBank;
  }

  lemma SelectedBehind(o: Option<Range>, r: FillResult, i: nat, s: nat)
    requires r.Ranges? && 1 <= i <= |r.ranges|
    ensures Selected(Prepend(o, r).ranges, i, s) == Selected(r.ranges, i - 1, s)
  {
  }

  lemma SelectedHere(b: Bank, sf: nat, sl: nat, first: nat, last: nat, s: nat, r: FillResult)
    requires Sane(b) && sf <= sl < |b.start| && s < |b.start| && r.Ranges?
    requires b.start[sf] == first && (End(b, sl) == last || (sl == |b.start| - 1 && last > BankEnd(b)))
    requires Within(b, s, first, last)
    ensures Selected(Prepend(Some(Range(sf, sl)), r).ranges, 0, s)
  {
    EndAfterStart(b, s);
    SectorsBetween(b, sf, sl);
  }

  /** A sector of the range in a range that starts behind bank k belongs to a later bank. */
  lemma WithinBehind(banks: seq<Bank>, k: nat, first: nat, last: nat, i: nat, s: nat)
    requires GapFree(banks) && k <= i < |banks| && s < |banks[i].start| && Within(banks[i], s, first, last)
    requires first > BankEnd(banks[k])
    ensures k < i && last > BankEnd(banks[k]) && banks[k + 1].start[0] <= first
  {
    EndAfterStart(banks[i], s);
    assert k < i;
    assert BankEnd(banks[k]) + 1 == banks[k + 1].start[0];
  }

  /** A sector of the range in a later bank stays in the range when it is advanced to that bank's neighbour. */
  lemma WithinLater(banks: seq<Bank>, k: nat, first: nat, last: nat, i: nat, s: nat)
    requires GapFree(banks) && k < i < |banks| && s < |banks[i].start| && Within(banks[i], s, first, last)
    ensures BankEnd(banks[k]) < last && Within(banks[i], s, BankEnd(banks[k]) + 1, last)
  {
    LaterEnds(banks, k, i, s);
  }

  // ----- addresses -----

  lemma {:induction false} SectorAtFrom(b: Bank, a: nat, s: nat) returns (t: nat)
    requires Sane(b) && s < |b.start| && b.start[s] <= a <= BankEnd(b)
    ensures t < |b.start| && b.start[t] <= a <= End(b, t)
    decreases |b.start| - s
  {
    if a <= End(b, s) {
      t := s;
    } else {
      t := SectorAtFrom(b, a, s + 1);
    }
  }

  /** Every address of the flash lies in a sector. */
  lemma {:induction false} SectorAt(banks: seq<Bank>, k: nat, a: nat) returns (i: nat, s: nat)
    requires GapFree(banks) && k < |banks| && banks[k].start[0] <= a <= Top(banks)
    ensures k <= i < |banks| && s < |banks[i].start| && banks[i].start[s] <= a <= End(banks[i], s)
    decreases |banks| - k
  {
    if a <= BankEnd(banks[k]) {
      i := k;
      s := SectorAtFrom(banks[k], a, 0);
    } else {
      NextBank(banks, k);
      i, s := SectorAt(banks, k + 1, a);
    }
  }

  /** Sectors do not overlap. */
  lemma SectorUnique(banks: seq<Bank>, i: nat, s: nat, j: nat, t: nat, a: nat)
    requires GapFree(banks) && i < |banks| && j < |banks| && s < |banks[i].start| && t < |banks[j].start|
    requires banks[i].start[s] <= a <= End(banks[i], s) && banks[j].start[t] <= a <= End(banks[j], t)
    ensures i == j && s == t
  {
    EndAfterStart(banks[i], s);
    EndAfterStart(banks[j], t);
    if i < j {
      BanksAscend(banks, i, j);
    } else if j < i {
      BanksAscend(banks, j, i);
    }
  }

  ghost predicate Covered(banks: seq<Bank>, ranges: seq<Option<Range>>, a: nat)
    requires AllSane(banks) && |ranges| == |banks|
  {
    exists i, s :: 0 <= i < |banks| && 0 <= s < |banks[i].start| && Selected(ranges, i, s)
      && banks[i].start[s] <= a <= End(banks[i], s)
  }

  /** The chosen sectors cover exactly the addresses first..last. */
  lemma CoversExactly(banks: seq<Bank>, first: nat, last: nat, a: nat)
    requires GapFree(banks) && banks[0].start[0] <= first <= last <= Top(banks)
    requires Success(FillFrom(banks, 0, first, last))
    ensures Covered(banks, FillFrom(banks, 0, first, last).ranges, a) <==> first <= a <= last
  {
    hide Scan, VisitBank, Count, Sane, FillFrom;
    var ranges := FillFrom(banks, 0, first, last).ranges;
    if i, s :| (0 <= i < |banks| && 0 <= s < |banks[i].start| && Selected(ranges, i, s) &&
                banks[i].start[s] <= a <= End(banks[i], s)) {
      SelectedWithin(banks, first, last, i, s);
    }
    if first <= a <= last {
      var i, s := SectorAt(banks, 0, a);
      FillIffAligned(banks, first, last);
      AlignedWithin(banks, first, last, i, s, a);
      NothingMissed(banks, 0, first, last, i, s);
    }
  }

  /** With aligned ends, a sector that meets the range lies in it. */
  lemma AlignedWithin(banks: seq<Bank>, first: nat, last: nat, i: nat, s: nat, a: nat)
    requires GapFree(banks) && i < |banks| && s < |banks[i].start|
    requires banks[i].start[s] <= a <= End(banks[i], s) && first <= a <= last
    requires StartsSector(banks, 0, first) && EndsSector(banks, 0, last)
    ensures Within(banks[i], s, first, last)
  {
    var j, t :| 0 <= j < |banks| && 0 <= t < |banks[j].start| && banks[j].start[t] == first;
    var j', t' :| 0 <= j' < |banks| && 0 <= t' < |banks[j'].start| && End(banks[j'], t') == last;
    EndAfterStart(banks[j], t);
    EndAfterStart(banks[j'], t');
    if first > banks[i].start[s] {
      SectorUnique(banks, i, s, j, t, first);
    }
    if last < End(banks[i], s) {
      SectorUnique(banks, i, s, j', t', last);
    }
  }

  // ----- the number of sectors -----

  function WithinIn(b: Bank, first: nat, last: nat, n: nat): nat
    requires Sane(b) && n <= |b.start|
  {
    if n == 0 then 0 else WithinIn(b, first, last, n - 1) + if Within(b, n - 1, first, last) then 1 else 0
  }

  /** The number of sectors from bank k on that lie in the range. */
  function SectorsWithin(banks: seq<Bank>, k: nat, first: nat, last: nat): nat
    requires AllSane(banks) && k <= |banks|
    decreases |banks| - k
  {
    if k == |banks| then 0
    else WithinIn(banks[k], first, last, |banks[k].start|) + SectorsWithin(banks, k + 1, first, last)
  }

  lemma {:induction false} WithinInRange(b: Bank, first: nat, last: nat, n: nat, o: Option<Range>)
    requires Sane(b) && n <= |b.start| && (o.Some? ==> o.value.sf <= o.value.sl < |b.start|)
    requires forall s :: 0 <= s < |b.start| ==>
        (Within(b, s, first, last) <==> o.Some? && o.value.sf <= s <= o.value.sl)
    ensures WithinIn(b, first, last, n)
            == if o.None? || n <= o.value.sf then 0
               else if n <= o.value.sl then n - o.value.sf
               else o.value.sl - o.value.sf + 1
    decreases n
  {
    if n > 0 {
      WithinInRange(b, first, last, n - 1, o);
    }
  }

  lemma {:induction false} CountFrom(banks: seq<Bank>, ranges: seq<Option<Range>>, k: nat, first: nat, last: nat)
    requires AllSane(banks) && k <= |banks| && |ranges| == |banks|
    requires forall i :: 0 <= i < |banks| && ranges[i].Some? ==>
        ranges[i].value.sf <= ranges[i].value.sl < |banks[i].start|
    requires forall i, s :: 0 <= i < |banks| && 0 <= s < |banks[i].start| ==>
        (Within(banks[i], s, first, last) <==> Selected(ranges, i, s))
    ensures Count(ranges[k..]) == SectorsWithin(banks, k, first, last)
    decreases |banks| - k
  {
    if k < |banks| {
      CountFrom(banks, ranges, k + 1, first, last);
      assert ranges[k..][1..] == ranges[k + 1..];
      forall s | 0 <= s < |banks[k].start|
        ensures Within(banks[k], s, first, last) <==> ranges[k].Some? && ranges[k].value.sf <= s <= ranges[k].value.sl
      {
        assert Selected(ranges, k, s) == (ranges[k].Some? && ranges[k].value.sf <= s <= ranges[k].value.sl);
      }
      WithinInRange(banks[k], first, last, |banks[k].start|, ranges[k]);
    }
  }

  lemma {:induction false} RangesFit(banks: seq<Bank>, k: nat, first: nat, last: nat, i: nat)
    requires KnownSane(banks) && k <= i < |banks| && FillFrom(banks, k, first, last).Ranges?
    ensures var o := FillFrom(banks, k, first, last).ranges[i - k];
      o.Some? ==> banks[i].known && o.value.sf <= o.value.sl < |banks[i].start|
    decreases |banks| - k
  {
    hide VisitBank, Sane;
    if first <= last && i > k {
      var v := VisitBank(banks[k], first, last);
      RangesFit(banks, k + 1, if v.Chosen? then v.next else first, last, i);
    }
  }

  /** s_count is the number of sectors in the range. */
  lemma CountIsSectors(banks: seq<Bank>, first: nat, last: nat)
    requires GapFree(banks) && banks[0].start[0] <= first <= last <= Top(banks)
    requires Success(FillFrom(banks, 0, first, last))
    ensures Count(FillFrom(banks, 0, first, last).ranges) == SectorsWithin(banks, 0, first, last)
  {
    hide Scan, VisitBank, Count, Sane, FillFrom;
    var ranges := FillFrom(banks, 0, first, last).ranges;
    forall i, s | 0 <= i < |banks| && 0 <= s < |banks[i].start|
      ensures Within(banks[i], s, first, last) <==> Selected(ranges, i, s)
    {
      if Within(banks[i], s, first, last) {
        NothingMissed(banks, 0, first, last, i, s);
      }
      if Selected(ranges, i, s) {
        SelectedWithin(banks, first, last, i, s);
      }
    }
    forall i | 0 <= i < |banks| && ranges[i].Some?
      ensures ranges[i].value.sf <= ranges[i].value.sl < |banks[i].start|
    {
      RangesFit(banks, 0, first, last, i);
    }
    CountFrom(banks, ranges, 0, first, last);
    assert ranges[0..] == ranges;
  }
}
