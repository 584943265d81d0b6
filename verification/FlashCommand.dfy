/**
  The loops of cmd_flash.c, and the "start +length" form: round the end up to
  its sector, then fill.
 */
module FlashCommand {
  import opened Options
  import opened Flash

  // ----- rounding -----

  /** Every bank is sane or, like one that was not found, without sectors. */
  predicate SaneOrEmpty(banks: seq<Bank>) {
    forall i :: 0 <= i < |banks| ==> banks[i].start == [] || Sane(banks[i])
  }

  /** The end of the sector of b that holds a, searching from sector s. */
  function RoundInBank(b: Bank, a: nat, s: nat): Option<nat>
    requires (b.start == [] || Sane(b)) && s <= |b.start|
    decreases |b.start| - s
  {
    if s == |b.start| then None
    else if b.start[s] <= a <= End(b, s) then Some(End(b, s))
    else RoundInBank(b, a, s + 1)
  }

  /** flash_sect_roundb: the end of the first sector that holds a. */
  function RoundUp(banks: seq<Bank>, a: nat, k: nat): Option<nat>
    requires SaneOrEmpty(banks) && k <= |banks|
    decreases |banks| - k
  {
    if k == |banks| then None
    else
      var r := RoundInBank(banks[k], a, 0);
      if r.Some? then r else RoundUp(banks, a, k + 1)
  }

  lemma {:induction false} RoundInBankFinds(b: Bank, a: nat, s: nat)
    requires (b.start == [] || Sane(b)) && s <= |b.start|
    ensures var r := RoundInBank(b, a, s);
      && (r.Some? ==> exists t :: s <= t < |b.start| && b.start[t] <= a <= End(b, t) && r.value == End(b, t))
      && (r.None? ==> forall t :: s <= t < |b.start| ==> !(b.start[t] <= a <= End(b, t)))
    decreases |b.start| - s
  {
    if s < |b.start| && !(b.start[s] <= a <= End(b, s)) {
      RoundInBankFinds(b, a, s + 1);
    }
  }

  /** Rounding finds the end of a sector that holds the address, whenever there is one. */
  lemma {:induction false} RoundFinds(banks: seq<Bank>, a: nat, k: nat)
    requires SaneOrEmpty(banks) && k <= |banks|
    ensures var r := RoundUp(banks, a, k);
      && (r.Some? ==>
            exists i, t ::
              && k <= i < |banks| && 0 <= t < |banks[i].start|
              && banks[i].start[t] <= a <= End(banks[i], t) && r.value == End(banks[i], t))
      && (r.None? ==> forall i, t :: k <= i < |banks| && 0 <= t < |banks[i].start| ==>
          !(banks[i].start[t] <= a <= End(banks[i], t)))
    decreases |banks| - k
  {
    if k < |banks| {
      RoundInBankFinds(banks[k], a, 0);
      RoundFinds(banks, a, k + 1);
    }
  }

  /** The sector shares an address with first..last. */
  predicate Meets(b: Bank, s: nat, first: nat, last: nat)
    requires Sane(b) && s < |b.start|
  {
    b.start[s] <= last && first <= End(b, s)
  }

  /**
    "start +length" with start on a sector boundary: rounding succeeds, filling
    never complains about the end address, and exactly the sectors that share an
    address with start..start+length-1 are selected.
   */
  lemma PlusLengthIsMinimal(banks: seq<Bank>, first: nat, len: nat)
    requires GapFree(banks) && StartsSector(banks, 0, first) && len >= 1
    requires banks[0].start[0] <= first && first + len - 1 <= Top(banks)
    ensures var r := RoundUp(banks, first + len - 1, 0);
      && r.Some? && first + len - 1 <= r.value <= Top(banks)
      && Success(FillFrom(banks, 0, first, r.value))
      && forall i, s :: 0 <= i < |banks| && 0 <= s < |banks[i].start| ==>
           (Selected(FillFrom(banks, 0, first, r.value).ranges, i, s) <==> Meets(banks[i], s, first, first + len - 1))
  {
    hide Sane, FillFrom, Selected, StartsSector, EndsSector;
    var a := first + len - 1;
    var last := RoundedEnd(banks, a);
    FillIffAligned(banks, first, last);
    forall i, s | 0 <= i < |banks| && 0 <= s < |banks[i].start|
      ensures Selected(FillFrom(banks, 0, first, last).ranges, i, s) <==> Meets(banks[i], s, first, a)
    {
      MeetsIffWithin(banks, first, a, i, s);
      if Within(banks[i], s, first, last) {
        NothingMissed(banks, 0, first, last, i, s);
      }
      if Selected(FillFrom(banks, 0, first, last).ranges, i, s) {
        SelectedWithin(banks, first, last, i, s);
      }
    }
  }

  lemma RoundedEnd(banks: seq<Bank>, a: nat) returns (last: nat)
    requires GapFree(banks) && banks[0].start[0] <= a <= Top(banks)
    ensures RoundUp(banks, a, 0) == Some(last) && a <= last <= Top(banks) && EndsSector(banks, 0, last)
    ensures exists i, t ::
      0 <= i < |banks| && 0 <= t < |banks[i].start| && banks[i].start[t] <= a <= End(banks[i], t) == last
  {
    var i, s := SectorAt(banks, 0, a);
    RoundFinds(banks, a, 0);
    last := RoundUp(banks, a, 0).value;
    var j, t :| 0 <= j < |banks| && 0 <= t < |banks[j].start| && banks[j].start[t] <= a <= End(banks[j], t) &&
        last == End(banks[j], t);
    EndAfterStart(banks[j], t);
    if j < |banks| - 1 {
      BanksAscend(banks, j, |banks| - 1);
      EndAfterStart(banks[|banks| - 1], 0);
    }
  }

  /** Meeting first..a is lying in first..(a rounded up), for aligned first. */
  lemma MeetsIffWithin(banks: seq<Bank>, first: nat, a: nat, i: nat, s: nat)
    requires GapFree(banks) && StartsSector(banks, 0, first) && banks[0].start[0] <= first <= a <= Top(banks)
    requires i < |banks| && s < |banks[i].start|
    ensures var r := RoundUp(banks, a, 0);
      r.Some? && (Meets(banks[i], s, first, a) <==> Within(banks[i], s, first, r.value))
  {
    hide StartsSector, EndsSector;
    var last := RoundedEnd(banks, a);
    EndAfterStart(banks[i], s);
    if Meets(banks[i], s, first, a) {
      AlignedWithin(banks, first, last, i, s, if banks[i].start[s] < first then first else banks[i].start[s]);
    } else if Within(banks[i], s, first, last) {
      var j, t :| 0 <= j < |banks| && 0 <= t < |banks[j].start| && banks[j].start[t] <= a <= End(banks[j], t) == last;
      SectorUnique(banks, i, s, j, t, banks[i].start[s]);
      assert false;
    }
  }

  // ----- the loops -----

  method RoundB(banks: seq<Bank>, addr: nat) returns (rcode: int, addr': nat)
    requires SaneOrEmpty(banks)
    ensures var r := RoundUp(banks, addr, 0);
      if r.Some? then rcode == 0 && addr' == r.value else rcode == 1 && addr' == addr
  {
    addr' := addr;
    var bank := 0;
    while bank < |banks|
      invariant 0 <= bank <= |banks| && RoundUp(banks, addr, bank) == RoundUp(banks, addr, 0)
    {
      var b, i := banks[bank], 0;
      while i < |b.start|
        invariant 0 <= i <= |b.start| && RoundInBank(b, addr, i) == RoundInBank(b, addr, 0)
      {
        if b.start[i] <= addr <= End(b, i) {
          return 0, End(b, i);
        }
        i := i + 1;
      }
      bank := bank + 1;
    }
    rcode := 1;
  }

  /** addr_spec with both numbers read; plus says that the second one is a length. */
  method AddrSpec(banks: seq<Bank>, first: nat, second: nat, plus: bool) returns (rcode: int, last: nat)
    requires SaneOrEmpty(banks) && first < ADDRESSES && second < ADDRESSES
    ensures !plus ==> rcode == 1 && last == second
    ensures plus ==> var r := RoundUp(banks, (first + second + ADDRESSES - 1) % ADDRESSES, 0);
      if r.Some? then rcode == 1 && last == r.value else rcode == -1
  {
    last := second;
    if plus {
      last := (first + last + ADDRESSES - 1) % ADDRESSES;
      var r;
      r, last := RoundB(banks, last);
      if r > 0 {
        return -1, last;
      }
    }
    rcode := 1;
  }

  /** The sector loop for one bank. */
  method ScanBank(b: Bank, first: nat, last: nat) returns (sf: int, sl: int)
    requires Sane(b)
    ensures (sf, sl) == Scan(b, first, last, |b.start|)
  {
    sf, sl := -1, -1;
    var sect := 0;
    while sect < |b.start|
      invariant 0 <= sect <= |b.start| && (sf, sl) == Scan(b, first, last, sect)
    {
      var end := End(b, sect);
      if !(first > end || last < b.start[sect]) {
        if first == b.start[sect] {
          sf := sect;
        }
        if last == end {
          sl := sect;
        }
      }
      sect := sect + 1;
    }
  }

  /** The body of the bank loop, up to the update of the arrays. */
  method VisitOne(b: Bank, first: nat, last: nat) returns (v: Visit)
    requires b.known ==> Sane(b)
    ensures v == VisitBank(b, first, last)
  {
    if !b.known {
      return Skipped;
    }
    hide Scan;
    var sf, sl := ScanBank(b, first, last);
    if sf >= 0 {
      if sl < 0 {
        if last > BankEnd(b) {
          sl := |b.start| - 1;
        } else {
          return Failed(EndNotOnBoundary);
        }
      }
      if sl < sf {
        return Failed(EndPrecedesStart);
      }
      return Chosen(sf, sl, (End(b, sl) + 1) % ADDRESSES);
    } else if b.start[0] <= first < BankEnd(b) {
      return Failed(StartNotOnBoundary);
    } else if sl >= 0 {
      return Failed(ReverseOrder);
    }
    v := Skipped;
  }

  /** s_first and s_last hold the ranges r; -1 marks a bank without one. */
  ghost predicate Filled(sFirst: array<int>, sLast: array<int>, r: seq<Option<Range>>)
    reads sFirst, sLast
  {
    && |r| <= sFirst.Length && sFirst.Length == sLast.Length
    && forall i :: 0 <= i < sFirst.Length ==>
         if i < |r| && r[i].Some? then sFirst[i] == r[i].value.sf && sLast[i] == r[i].value.sl
         else sFirst[i] == sLast[i] == -1
  }

  /** flash_fill_sect_ranges: fills the two arrays; fault None is rcode 0. */
  method FillSectRanges(banks: seq<Bank>, addrFirst: nat, addrLast: nat, sFirst: array<int>, sLast: array<int>)
    returns (fault: Option<Fault>, sCount: int)
    requires KnownSane(banks) && sFirst != sLast && sFirst.Length == sLast.Length == |banks|
    modifies sFirst, sLast
    ensures var r := FillFrom(banks, 0, addrFirst, addrLast);
      if r.Fault? then fault == Some(r.fault)
      else fault == None && sCount == Count(r.ranges) && Filled(sFirst, sLast, r.ranges)
  {
    hide VisitBank, Sane, FillFrom, Count;
    forall i | 0 <= i < |banks| {
      sFirst[i] := -1;
    }
    forall i | 0 <= i < |banks| {
      sLast[i] := -1;
    }
    sCount := 0;
    var first: nat, bank: nat := addrFirst, 0;
    ghost var done: seq<Option<Range>> := [];
    ghost var goal := FillFrom(banks, 0, addrFirst, addrLast);
    CountPadded([], 0);
    while bank < |banks| && first <= addrLast
      invariant bank <= |banks| && |done| == bank && sCount == Count(done) && Filled(sFirst, sLast, done)
      invariant goal == Joined(done, FillFrom(banks, bank, first, addrLast))
    {
      FillUnfolds(banks, bank, first, addrLast);
      var v := VisitOne(banks[bank], first, addrLast);
      if v.Failed? {
        return Some(v.fault), sCount;
      }
      ghost var o := None;
      if v.Chosen? {
        sFirst[bank], sLast[bank] := v.sf, v.sl;
        first, sCount := v.next, sCount + (v.sl - v.sf + 1);
        o := Some(Range(v.sf, v.sl));
      }
      bank := bank + 1;
      CountAppend(done, o);
      JoinedStep(done, o, FillFrom(banks, bank, first, addrLast));
      done := done + [o];
    }
    NothingMore(banks, bank, first, addrLast);
    CountPadded(done, |banks| - bank);
    fault := None;
  }

  ghost function Joined(done: seq<Option<Range>>, r: FillResult): FillResult {
    if r.Fault? then r else Ranges(done + r.ranges)
  }

  lemma JoinedStep(done: seq<Option<Range>>, o: Option<Range>, r: FillResult)
    ensures Joined(done, Prepend(o, r)) == Joined(done + [o], r)
  {
    if r.Ranges? {
      assert done + ([o] + r.ranges) == (done + [o]) + r.ranges;
    }
  }

  lemma NothingMore(banks: seq<Bank>, k: nat, first: nat, last: nat)
    requires KnownSane(banks) && k <= |banks| && (k == |banks| || first > last)
    ensures FillFrom(banks, k, first, last) == Ranges(Nothing(|banks| - k))
  {
  }

  lemma {:induction false} CountAppend(r: seq<Option<Range>>, o: Option<Range>)
    ensures Count(r + [o]) == Count(r) + if o.None? then 0 else o.value.sl - o.value.sf + 1
    decreases |r|
  {
    if r == [] {
      assert [] + [o] == [o];
    } else {
      assert (r + [o])[1..] == r[1..] + [o];
      CountAppend(r[1..], o);
    }
  }

  lemma {:induction false} CountPadded(r: seq<Option<Range>>, n: nat)
    ensures Count(r + Nothing(n)) == Count(r)
    ensures r == [] ==> Count(r) == 0
    decreases |r|
  {
    if r == [] {
      CountNothing(n);
      assert [] + Nothing(n) == Nothing(n);
    } else {
      assert (r + Nothing(n))[1..] == r[1..] + Nothing(n);
      CountPadded(r[1..], n);
    }
  }

  // ----- erasing -----

  /** One flash_erase call: a bank and its sectors. */
  datatype Erase = Erase(bank: nat, range: Range)

  /** The calls for the selected ranges from bank k on, ending with the first one that fails. */
  function EraseCalls(ranges: seq<Option<Range>>, k: nat, code: Erase -> int): (seq<Erase>, int)
    requires k <= |ranges|
    decreases |ranges| - k
  {
    if k == |ranges| then ([], 0)
    else if ranges[k].None? then EraseCalls(ranges, k + 1, code)
    else
      var e := Erase(k, ranges[k].value);
      if code(e) != 0 then ([e], code(e))
      else ([e] + EraseCalls(ranges, k + 1, code).0, EraseCalls(ranges, k + 1, code).1)
  }

  /** With a flash that does not fail, the erased sectors are exactly the selected ones. */
  lemma {:induction false} ErasesSelected(ranges: seq<Option<Range>>, k: nat, code: Erase -> int)
    requires k <= |ranges| && forall e :: code(e) == 0
    ensures EraseCalls(ranges, k, code).1 == 0
    ensures forall i, s :: k <= i < |ranges| && 0 <= s ==>
      (Selected(ranges, i, s) <==>
       exists e :: e in EraseCalls(ranges, k, code).0 && e.bank == i && e.range.sf <= s <= e.range.sl)
    ensures forall e :: e in EraseCalls(ranges, k, code).0 ==> k <= e.bank < |ranges|
    decreases |ranges| - k
  {
    if k < |ranges| {
      ErasesSelected(ranges, k + 1, code);
      var calls, rest := EraseCalls(ranges, k, code).0, EraseCalls(ranges, k + 1, code).0;
      forall i, s | k <= i < |ranges| && 0 <= s
        ensures Selected(ranges, i, s) <==> exists e :: e in calls && e.bank == i && e.range.sf <= s <= e.range.sl
      {
        if Selected(ranges, i, s) {
          if i == k {
            assert Erase(k, ranges[k].value) in calls;
          } else {
            var e :| e in rest && e.bank == i && e.range.sf <= s <= e.range.sl;
            assert e in calls;
          }
        }
        if e :| e in calls && e.bank == i && e.range.sf <= s <= e.range.sl {
          if e in rest {
            assert Selected(ranges, i, s);
          }
        }
      }
    }
  }

  lemma EraseUnfolds(ranges: seq<Option<Range>>, k: nat, code: Erase -> int)
    requires k < |ranges|
    ensures var rest := EraseCalls(ranges, k + 1, code);
      EraseCalls(ranges, k, code)
      == if ranges[k].None? then rest
         else
           var e := Erase(k, ranges[k].value);
           if code(e) != 0 then ([e], code(e)) else ([e] + rest.0, rest.1)
  {
  }

  lemma NothingErased(ranges: seq<Option<Range>>, code: Erase -> int)
    ensures EraseCalls(ranges, |ranges|, code) == ([], 0)
  {
  }

  lemma FilledAt(sFirst: array<int>, sLast: array<int>, r: seq<Option<Range>>, i: nat)
    requires Filled(sFirst, sLast, r) && i < |r|
    ensures r[i] == if sFirst[i] >= 0 then Some(Range(sFirst[i], sLast[i])) else None
  {
  }

  /** The erasing loop: the selected ranges bank by bank, up to the first failure. */
  method EraseRanges(sFirst: array<int>, sLast: array<int>, code: Erase -> int, ghost r: seq<Option<Range>>)
    returns (calls: seq<Erase>, rcode: int)
    requires sFirst.Length == sLast.Length == |r| && Filled(sFirst, sLast, r)
    ensures (calls, rcode) == EraseCalls(r, 0, code)
  {
    hide EraseCalls, Filled;
    calls, rcode := [], 0;
    var bank := 0;
    ghost var goal, rest := EraseCalls(r, 0, code), EraseCalls(r, 0, code);
    assert [] + rest.0 == rest.0;
    while bank < sFirst.Length
      invariant 0 <= bank <= |r| && rcode == 0 && rest == EraseCalls(r, bank, code)
      invariant goal == (calls + rest.0, rest.1)
    {
      EraseUnfolds(r, bank, code);
      FilledAt(sFirst, sLast, r, bank);
      rest := EraseCalls(r, bank + 1, code);
      if sFirst[bank] >= 0 {
        var e := Erase(bank, Range(sFirst[bank], sLast[bank]));
        rcode := code(e);
        assert calls + ([e] + rest.0) == (calls + [e]) + rest.0;
        calls := calls + [e];
        if rcode != 0 {
          return;
        }
      }
      bank := bank + 1;
    }
    NothingErased(r, code);
    assert calls + [] == calls;
  }

  /** flash_sect_erase */
  method SectErase(banks: seq<Bank>, first: nat, last: nat, code: Erase -> int) returns (rcode: int, calls: seq<Erase>)
    requires KnownSane(banks)
    ensures var r := FillFrom(banks, 0, first, last);
      if r.Ranges? && Count(r.ranges) != 0 then (calls, rcode) == EraseCalls(r.ranges, 0, code)
      else rcode == 1 && calls == []
  {
    var sFirst, sLast := new int[|banks|], new int[|banks|];
    var fault, planned := FillSectRanges(banks, first, last, sFirst, sLast);
    if fault.Some? || planned == 0 {
      return 1, [];
    }
    hide FillFrom, Count, Filled, EraseCalls;
    calls, rcode := EraseRanges(sFirst, sLast, code, FillFrom(banks, 0, first, last).ranges);
  }
}
