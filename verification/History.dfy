/**
  The command history of cli_readline.c: a ring of HIST_MAX lines with an
  insertion index and a browsing cursor.  It refines a zipper over the most
  recent lines.
 */
module History {
  import opened Options

  const HIST_MAX: nat := 20

  /** hist_list, hist_max, hist_add_idx, hist_cur (None is -1), hist_num. */
  datatype Ring = Ring(lines: seq<string>, max: nat, add: nat, cur: Option<nat>, num: nat)

  /** hist_init */
  function Empty(): (r: Ring)
    ensures InRange(r)
  {
    Ring(seq(HIST_MAX, i => ""), 0, 0, None, 0)
  }

  /** The indices are usable. */
  predicate InRange(r: Ring) {
    |r.lines| == HIST_MAX && r.add <= r.max < HIST_MAX && (r.cur.Some? ==> r.cur.value <= r.max)
  }

  // ----- the ring operations as functions -----

  /** cread_add_to_hist */
  function Add(r: Ring, line: string): (r': Ring)
    requires InRange(r)
    ensures InRange(r')
  {
    var next := if r.add + 1 >= HIST_MAX then 0 else r.add + 1;
    r.(lines := r.lines[r.add := line], add := next, max := if next > r.max then next else r.max, num := r.num + 1)
  }

  /** The end of cread_line: browsing starts at the insertion point. */
  function Rewind(r: Ring): (r': Ring)
    requires InRange(r)
    ensures InRange(r')
  {
    r.(cur := Some(r.add))
  }

  /** hist_prev */
  function Prev(r: Ring): (p: (Ring, Option<string>))
    requires InRange(r)
    ensures InRange(p.0)
  {
    if r.cur.None? then (r, None)
    else
      var c := if r.cur.value == 0 then r.max else r.cur.value - 1;
      if c == r.add then (r, None) else (r.(cur := Some(c)), Some(r.lines[c]))
  }

  /** hist_next */
  function Next(r: Ring): (p: (Ring, Option<string>))
    requires InRange(r)
    ensures InRange(p.0)
  {
    if r.cur.None? || r.cur.value == r.add then (r, None)
    else
      var c := if r.cur.value + 1 > r.max then 0 else r.cur.value + 1;
      (r.(cur := Some(c)), Some(if c == r.add then "" else r.lines[c]))
  }

  // ----- what the ring stands for -----

  /** The lines a user can walk back to, given all lines ever stored. */
  function Reach(stored: seq<string>): nat {
    if |stored| < HIST_MAX then |stored| else HIST_MAX - 1
  }

  /** The k-th most recent line, k >= 1. */
  function Recent(stored: seq<string>, k: nat): string
    requires 1 <= k <= |stored|
  {
    stored[|stored| - k]
  }

  /** The ring slot k steps behind the insertion point. */
  function Slot(add: nat, max: nat, k: nat): int {
    if k <= add then add - k else add - k + max + 1
  }

  ghost predicate SlotHolds(lines: seq<string>, add: nat, max: nat, stored: seq<string>, k: nat) {
    0 <= Slot(add, max, k) < |lines| && 1 <= k <= |stored| && lines[Slot(add, max, k)] == Recent(stored, k)
  }

  /** The ring holds the recent lines of stored and browses the pos-th of them (0: the fresh line). */
  ghost predicate Holds(r: Ring, stored: seq<string>, pos: Option<nat>) {
    && |r.lines| == HIST_MAX && r.max == Reach(stored) && r.add <= r.max && r.num == |stored|
    && (r.max < HIST_MAX - 1 ==> r.add == r.max)
    && (forall k :: 1 <= k <= r.max ==> SlotHolds(r.lines, r.add, r.max, stored, k))
    && (if pos.None? then r.cur.None? else pos.value <= r.max && r.cur == Some(Slot(r.add, r.max, pos.value)))
  }

  lemma AddHolds(r: Ring, stored: seq<string>, pos: Option<nat>, line: string)
    requires Holds(r, stored, pos)
    ensures Holds(Rewind(Add(r, line)), stored + [line], Some(0))
  {
    var r', stored' := Rewind(Add(r, line)), stored + [line];
    forall k | 1 <= k <= r'.max
      ensures SlotHolds(r'.lines, r'.add, r'.max, stored', k)
    {
      if k > 1 {
        assert SlotHolds(r.lines, r.add, r.max, stored, k - 1);
      }
    }
  }

  /** One step back: the next older line if there is one, else nothing moves. */
  lemma PrevBrowses(r: Ring, stored: seq<string>, p: nat)
    requires Holds(r, stored, Some(p))
    ensures var (r', line) := Prev(r);
      if p < Reach(stored) then line == Some(Recent(stored, p + 1)) && Holds(r', stored, Some(p + 1))
      else line == None && r' == r
  {
    assert p < r.max ==> SlotHolds(r.lines, r.add, r.max, stored, p + 1);
  }

  /** One step forward: the next newer line, or the empty fresh line, or nothing. */
  lemma NextBrowses(r: Ring, stored: seq<string>, p: nat)
    requires Holds(r, stored, Some(p))
    ensures var (r', line) := Next(r);
      if p == 0 then line == None && r' == r
      else line == Some(if p == 1 then "" else Recent(stored, p - 1)) && Holds(r', stored, Some(p - 1))
  {
    assert p > 1 ==> SlotHolds(r.lines, r.add, r.max, stored, p - 1);
  }

  /** hist_next undoes hist_prev, and the other way round. */
  lemma NextUndoesPrev(r: Ring, stored: seq<string>, p: nat)
    requires Holds(r, stored, Some(p))
    ensures Prev(r).1.Some? ==> Next(Prev(r).0).0 == r
    ensures Next(r).1.Some? ==> Prev(Next(r).0).0 == r
  {
  }

  // ----- any number of lines, any number of steps -----

  /** The ring after the lines of stored were entered one by one. */
  function Entered(stored: seq<string>): (r: Ring)
    ensures InRange(r)
    decreases |stored|
  {
    if stored == [] then Empty()
    else Rewind(Add(Entered(stored[..|stored| - 1]), stored[|stored| - 1]))
  }

  lemma {:induction false} EnteredHolds(stored: seq<string>)
    ensures Holds(Entered(stored), stored, if stored == [] then None else Some(0))
    decreases |stored|
  {
    if stored != [] {
      var n := |stored| - 1;
      EnteredHolds(stored[..n]);
      AddHolds(Entered(stored[..n]), stored[..n], if n == 0 then None else Some(0), stored[n]);
      assert stored[..n] + [stored[n]] == stored;
    }
  }

  /** k calls of hist_prev. */
  function PrevTimes(r: Ring, k: nat): (r': Ring)
    requires InRange(r)
    ensures InRange(r')
    decreases k
  {
    if k == 0 then r else Prev(PrevTimes(r, k - 1)).0
  }

  lemma {:induction false} PrevTimesHolds(r: Ring, stored: seq<string>, k: nat)
    requires Holds(r, stored, Some(0))
    ensures Holds(PrevTimes(r, k), stored, Some(if k <= Reach(stored) then k else Reach(stored)))
    decreases k
  {
    if k > 0 {
      PrevTimesHolds(r, stored, k - 1);
      PrevBrowses(PrevTimes(r, k - 1), stored, if k - 1 <= Reach(stored) then k - 1 else Reach(stored));
    }
  }

  /**
    After any number of stored lines, the k-th hist_prev that follows a completed
    line returns the k-th most recent line while k <= min(stored, HIST_MAX - 1),
    and from then on nothing, without moving.
   */
  lemma KthPrev(stored: seq<string>, k: nat)
    requires stored != [] && k >= 1
    ensures var before := PrevTimes(Entered(stored), k - 1);
      if k <= Reach(stored) then Prev(before).1 == Some(stored[|stored| - k])
      else Prev(before) == (before, None)
  {
    EnteredHolds(stored);
    PrevTimesHolds(Entered(stored), stored, k - 1);
    PrevBrowses(PrevTimes(Entered(stored), k - 1), stored, if k - 1 <= Reach(stored) then k - 1 else Reach(stored));
  }

  // ----- the ring in place -----

  class Log {
    var list: seq<string>
    var histMax: nat
    var addIdx: nat
    var histCur: Option<nat>
    var histNum: nat
    ghost var stored: seq<string>
    ghost var pos: Option<nat>

    ghost function Value(): Ring
      reads this
    {
      Ring(list, histMax, addIdx, histCur, histNum)
    }

    ghost predicate Valid()
      reads this
    {
      Holds(Value(), stored, pos)
    }

    /** hist_init */
    constructor ()
      ensures Valid() && stored == [] && pos == None
    {
      list, histMax, addIdx, histCur, histNum := seq(HIST_MAX, i => ""), 0, 0, None, 0;
      stored, pos := [], None;
    }

    /** The history part of a finished cread_line. */
    method Finish(line: string)
      requires Valid()
      modifies this
      ensures Valid() && pos == Some(0)
      ensures stored == if line != "" && line[0] != '!' then old(stored) + [line] else old(stored)
    {
      if line != "" && line[0] != '!' {
        AddHolds(Value(), stored, pos, line);
        ghost var goal := Add(Value(), line);
        list := list[addIdx := line];
        addIdx := addIdx + 1;
        if addIdx >= HIST_MAX {
          addIdx := 0;
        }
        if addIdx > histMax {
          histMax := addIdx;
        }
        histNum := histNum + 1;
        assert Value() == goal;
        stored := stored + [line];
      }
      histCur, pos := Some(addIdx), Some(0);
    }

    /** hist_prev */
    method Older() returns (line: Option<string>)
      requires Valid()
      modifies this
      ensures Valid() && stored == old(stored)
      ensures match old(pos)
        case None => line == None && pos == None
        case Some(p) =>
          if p < Reach(stored) then pos == Some(p + 1) && line == Some(Recent(stored, p + 1))
          else line == None && pos == old(pos)
    {
      if histCur.None? {
        return None;
      }
      PrevBrowses(Value(), stored, pos.value);
      var oldCur := histCur;
      histCur := Some(if histCur.value == 0 then histMax else histCur.value - 1);
      if histCur.value == addIdx {
        histCur, line := oldCur, None;
      } else {
        line, pos := Some(list[histCur.value]), Some(pos.value + 1);
      }
    }

    /** hist_next */
    method Newer() returns (line: Option<string>)
      requires Valid()
      modifies this
      ensures Valid() && stored == old(stored)
      ensures match old(pos)
        case None => line == None && pos == None
        case Some(p) =>
          if p == 0 then line == None && pos == old(pos)
          else pos == Some(p - 1) && line == Some(if p == 1 then "" else Recent(stored, p - 1))
    {
      if histCur.None? {
        return None;
      }
      NextBrowses(Value(), stored, pos.value);
      if histCur.value == addIdx {
        return None;
      }
      histCur := Some(if histCur.value + 1 > histMax then 0 else histCur.value + 1);
      line := Some(if histCur.value == addIdx then "" else list[histCur.value]);
      pos := Some(pos.value - 1);
    }
  }
}
