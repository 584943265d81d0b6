/**
  bootstage.c: the table of boot stage records, its stash in a byte buffer and
  the way back. Words are 32 bits and stored low byte first.
 */
module Bootstage {
  import opened Options
  import opened Word32
  import opened Decimals

  const HALF: nat := 0x8000_0000
  const VERSION: nat := 0
  const MAGIC: word := 0xb007_57a3
  const HEADER: nat := 16
  const RECORD: nat := 20
  const BOOTSTAGEF_ALLOC: nat := 2

  /** A C string without its final zero. */
  type text = s: seq<byte> | forall i :: 0 <= i < |s| ==> s[i] != 0

  datatype Record = Record(time: word, start: word, name: Option<text>, flags: word, id: word)

  datatype Header = Header(version: word, count: word, size: word, magic: word)

  // ----- names -----

  function Decimal(n: nat): (r: text)
    ensures |r| >= 1
  {
    var d := InDecimal(n);
    seq(|d|, i requires 0 <= i < |d| => 48 + d[i])
  }

  /** get_record_name; user is BOOTSTAGE_ID_USER. */
  function RecordName(r: Record, user: nat): text {
    if r.name.Some? then r.name.value
    else if r.id >= user then [117, 115, 101, 114, 95] + Decimal(r.id - user)
    else [105, 100, 61] + Decimal(r.id)
  }

  /** s in the character codes of its letters. */
  function Ascii(s: string): seq<byte>
    requires forall i :: 0 <= i < |s| ==> s[i] as int < 256
  {
    seq(|s|, i requires 0 <= i < |s| => s[i] as int)
  }

  /** The names of records without one: `user_` or `id=` and a decimal number. */
  lemma NamesSpelled(r: Record, user: nat) returns (digits: seq<nat>)
    requires r.name.None?
    ensures digits != [] && (forall i :: 0 <= i < |digits| ==> digits[i] < 10) && (|digits| > 1 ==> digits[0] != 0)
    ensures Total(digits) == if r.id >= user then r.id - user else r.id
    ensures RecordName(r, user) == Ascii(if r.id >= user then "user_" else "id=") + seq(|digits|,
      i requires 0 <= i < |digits| => 48 + digits[i])
  {
    digits := InDecimal(if r.id >= user then r.id - user else r.id);
    DecimalRead(if r.id >= user then r.id - user else r.id);
    assert Ascii("user_") == [117, 115, 101, 114, 95] && Ascii("id=") == [105, 100, 61];
  }

  // ----- words -----

  /** A byte of memory; beyond the modelled memory everything reads as zero. */
  function At(mem: seq<byte>, k: nat): byte { if k < |mem| then mem[k] else 0 }

  function WordAt(mem: seq<byte>, k: nat): word {
    At(mem, k) + 256 * At(mem, k + 1) + 65536 * At(mem, k + 2) + 16777216 * At(mem, k + 3)
  }

  /** Memory holds b from position k on. */
  ghost predicate Holds(mem: seq<byte>, k: nat, b: seq<byte>) {
    k + |b| <= |mem| && forall i :: 0 <= i < |b| ==> mem[k + i] == b[i]
  }

  lemma HoldsCat(mem: seq<byte>, k: nat, b: seq<byte>, d: seq<byte>)
    ensures Holds(mem, k, b + d) <==> Holds(mem, k, b) && Holds(mem, k + |b|, d)
  {
    var all := b + d;
    if Holds(mem, k, all) {
      forall i | 0 <= i < |b|
        ensures mem[k + i] == b[i]
      {
        assert all[i] == b[i];
      }
      forall i | 0 <= i < |d|
        ensures mem[k + |b| + i] == d[i]
      {
        assert all[|b| + i] == d[i];
      }
    } else if Holds(mem, k, b) && Holds(mem, k + |b|, d) {
      forall i | 0 <= i < |all|
        ensures mem[k + i] == all[i]
      {
        assert i >= |b| ==> mem[k + |b| + (i - |b|)] == d[i - |b|];
      }
      assert false;
    }
  }

  lemma WordRound(mem: seq<byte>, k: nat, w: word)
    requires Holds(mem, k, Bytes(w))
    ensures WordAt(mem, k) == w
  {
    var b := Bytes(w);
    assert mem[k + 0] == b[0] && mem[k + 1] == b[1] && mem[k + 2] == b[2] && mem[k + 3] == b[3];
    Digits(w);
  }

  // ----- the stash format -----

  /** The records that have been marked, among the first n. */
  function Live(t: seq<Record>, n: nat): seq<Record>
    requires n <= |t|
  {
    if n == 0 then [] else Live(t, n - 1) + if t[n - 1].time != 0 then [t[n - 1]] else []
  }

  function HeaderBytes(h: Header): (b: seq<byte>)
    ensures |b| == HEADER
  {
    Bytes(h.version) + Bytes(h.count) + Bytes(h.size) + Bytes(h.magic)
  }

  /** The struct as it lies in memory; the name is a pointer that means nothing later. */
  function RecordBytes(r: Record, pointer: Option<text> -> word): (b: seq<byte>)
    ensures |b| == RECORD
  {
    Bytes(r.time) + Bytes(r.start) + Bytes(pointer(r.name)) + Bytes(r.flags) + Bytes(r.id)
  }

  function RecordsBytes(l: seq<Record>, pointer: Option<text> -> word): (b: seq<byte>)
    ensures |b| == 20 * |l|
  {
    if l == [] then [] else RecordsBytes(l[..|l| - 1], pointer) + RecordBytes(l[|l| - 1], pointer)
  }

  function NamesBytes(l: seq<Record>, user: nat): (b: seq<byte>)
    ensures |b| >= |l|
  {
    if l == [] then [] else NamesBytes(l[..|l| - 1], user) + RecordName(l[|l| - 1], user) + [0]
  }

  /** Bytes of a whole stash. */
  function StashSize(l: seq<Record>, user: nat): nat { HEADER + RECORD * |l| + |NamesBytes(l, user)| }

  /** A complete stash of these records lies at the start of the memory. */
  ghost predicate Stashed(mem: seq<byte>, l: seq<Record>, user: nat, pointer: Option<text> -> word) {
    StashSize(l, user) < WORD &&
    Holds(mem, 0, HeaderBytes(Header(VERSION, |l|, StashSize(l, user), MAGIC))) &&
    Holds(mem, HEADER, RecordsBytes(l, pointer)) &&
    Holds(mem, HEADER + RECORD * |l|, NamesBytes(l, user))
  }

  /** What a stash that ran out of room leaves: its header, with size zero. */
  ghost predicate Broken(mem: seq<byte>, n: word) {
    n >= 1 && Holds(mem, 0, HeaderBytes(Header(VERSION, n, 0, MAGIC)))
  }

  // ----- reading -----

  function HeaderAt(mem: seq<byte>): Header {
    Header(WordAt(mem, 0), WordAt(mem, 4), WordAt(mem, 8), WordAt(mem, 12))
  }

  /** The checks of bootstage_unstash; size -1 means no end. room is BOOTSTAGE_ID_COUNT - next_id. */
  predicate Fits(h: Header, size: int, room: int) {
    (size == -1 || size >= HEADER) && h.magic == MAGIC && (size == -1 || h.size <= size) &&
    h.count * RECORD <= h.size && h.version == VERSION && h.count <= room
  }

  predicate Accepts(mem: seq<byte>, size: int, room: int) { Fits(HeaderAt(mem), size, room) }

  /** The same checks as the source makes them, products and sums in 32 bits; length is BOOTSTAGE_ID_COUNT. */
  predicate Passes(h: Header, size: int, nextId: nat, length: nat) {
    (size == -1 || size >= HEADER) && h.magic == MAGIC && (size == -1 || h.size <= size) &&
    (h.count * RECORD) % WORD <= h.size && h.version == VERSION && (nextId + h.count) % WORD <= length
  }

  /** A count that wraps next_id has a product close to 2^32, which no size below 2^31 covers. */
  lemma WrappingProduct(count: word, nextId: nat)
    requires nextId + count >= WORD && RECORD * nextId < HALF
    ensures (count * RECORD) % WORD >= HALF
  {
    var m := WORD - count;
    assert count * RECORD == (RECORD - 1) * WORD + (WORD - RECORD * m);
  }

  /** The 32-bit checks of a header are the intended ones if its count does not wrap next_id, or if a size is given. */
  lemma PassesIffFits(h: Header, size: int, nextId: nat, length: nat)
    requires RECORD * length < WORD && size < HALF
    requires nextId + h.count < WORD || (size != -1 && RECORD * nextId < HALF)
    ensures Passes(h, size, nextId, length) <==> Fits(h, size, length - nextId)
  {
    if nextId + h.count >= WORD {
      WrappingProduct(h.count, nextId);
    }
  }

  /** A header that passes without a size although its count wraps next_id to 0. */
  function WrappingHeader(nextId: nat): Header
    requires 0 < nextId < WORD
  {
    Header(VERSION, WORD - nextId, WORD - 1, MAGIC)
  }

  lemma WrappingPasses(nextId: nat, length: nat)
    requires 0 < nextId <= length && RECORD * length < HALF
    ensures var h := WrappingHeader(nextId); Passes(h, -1, nextId, length) && !Fits(h, -1, length - nextId)
  {
  }

  /**
    For every header the 32-bit checks are the intended ones exactly when a size is
    given or the table's own ids are all still free.
   */
  lemma ChecksIntendedIff(size: int, nextId: nat, length: nat)
    requires RECORD * length < HALF && size < HALF && nextId <= length
    ensures (forall h: Header :: Passes(h, size, nextId, length) <==> Fits(h, size, length - nextId))
            <==> size != -1 || nextId == 0
  {
    if size != -1 || nextId == 0 {
      forall h: Header
        ensures Passes(h, size, nextId, length) <==> Fits(h, size, length - nextId)
      {
        PassesIffFits(h, size, nextId, length);
      }
    } else {
      WrappingPasses(nextId, length);
    }
  }

  /** The struct at k, without its pointer. */
  function RecordAt(mem: seq<byte>, k: nat): Record {
    Record(WordAt(mem, k), WordAt(mem, k + 4), None, WordAt(mem, k + 12), WordAt(mem, k + 16))
  }

  /** The C string at k. */
  function TextAt(mem: seq<byte>, k: nat): text
    decreases |mem| - k
  {
    if At(mem, k) == 0 then [] else [At(mem, k)] + TextAt(mem, k + 1)
  }

  /** Where the i-th of the strings from k on starts. */
  function TextStart(mem: seq<byte>, k: nat, i: nat): nat {
    if i == 0 then k else TextStart(mem, k, i - 1) + |TextAt(mem, TextStart(mem, k, i - 1))| + 1
  }

  /** The i-th record that unstashing yields. */
  function Unstashed(mem: seq<byte>, i: nat): Record {
    RecordAt(mem, HEADER + RECORD * i).(name := Some(TextAt(mem,
        TextStart(mem, HEADER + RECORD * HeaderAt(mem).count, i))))
  }

  // ----- round trip -----

  lemma HeaderRound(mem: seq<byte>, h: Header)
    requires Holds(mem, 0, HeaderBytes(h))
    ensures HeaderAt(mem) == h
  {
    hide Bytes, WordAt, Holds;
    var v, c, s, m := Bytes(h.version), Bytes(h.count), Bytes(h.size), Bytes(h.magic);
    HoldsCat(mem, 0, v + c + s, m);
    HoldsCat(mem, 0, v + c, s);
    HoldsCat(mem, 0, v, c);
    WordRound(mem, 0, h.version);
    WordRound(mem, 4, h.count);
    WordRound(mem, 8, h.size);
    WordRound(mem, 12, h.magic);
  }

  lemma RecordRound(mem: seq<byte>, k: nat, r: Record, pointer: Option<text> -> word)
    requires Holds(mem, k, RecordBytes(r, pointer))
    ensures RecordAt(mem, k) == r.(name := None)
  {
    hide Bytes, WordAt, Holds;
    var t, s, p, f, i := Bytes(r.time), Bytes(r.start), Bytes(pointer(r.name)), Bytes(r.flags), Bytes(r.id);
    HoldsCat(mem, k, t + s + p + f, i);
    HoldsCat(mem, k, t + s + p, f);
    HoldsCat(mem, k, t + s, p);
    HoldsCat(mem, k, t, s);
    WordRound(mem, k, r.time);
    WordRound(mem, k + 4, r.start);
    WordRound(mem, k + 12, r.flags);
    WordRound(mem, k + 16, r.id);
  }

  lemma {:induction false} RecordsRound(mem: seq<byte>, k: nat, l: seq<Record>, pointer: Option<text> -> word, i: nat)
    requires Holds(mem, k, RecordsBytes(l, pointer)) && i < |l|
    ensures RecordAt(mem, k + RECORD * i) == l[i].(name := None)
    decreases |l|
  {
    hide RecordBytes, RecordAt, Holds;
    var n := |l| - 1;
    HoldsCat(mem, k, RecordsBytes(l[..n], pointer), RecordBytes(l[n], pointer));
    if i == n {
      RecordRound(mem, k + RECORD * n, l[n], pointer);
    } else {
      RecordsRound(mem, k, l[..n], pointer, i);
    }
  }

  lemma {:induction false} TextRound(mem: seq<byte>, k: nat, s: text)
    requires Holds(mem, k, s + [0])
    ensures TextAt(mem, k) == s
    decreases |s|
  {
    var z: seq<byte> := s + [0];
    assert mem[k + 0] == z[0];
    if s != [] {
      assert z == s[..1] + (s[1..] + [0]);
      HoldsCat(mem, k, s[..1], s[1..] + [0]);
      TextRound(mem, k + 1, s[1..]);
    }
  }

  /** The i-th name starts behind the first i names and is read whole. */
  lemma {:induction false} NamesRound(mem: seq<byte>, k: nat, l: seq<Record>, user: nat, i: nat)
    requires Holds(mem, k, NamesBytes(l, user)) && i < |l|
    ensures TextStart(mem, k, i) == k + |NamesBytes(l[..i], user)|
    ensures TextAt(mem, TextStart(mem, k, i)) == RecordName(l[i], user)
    decreases |l|, i
  {
    hide RecordName, TextAt, Holds;
    var n := |l| - 1;
    var last := RecordName(l[n], user) + [0];
    assert NamesBytes(l, user) == NamesBytes(l[..n], user) + last;
    HoldsCat(mem, k, NamesBytes(l[..n], user), last);
    if i < n {
      NamesRound(mem, k, l[..n], user, i);
      assert l[..n][..i] == l[..i];
    } else {
      if i > 0 {
        NamesRound(mem, k, l[..n], user, i - 1);
        assert l[..n][..i - 1] == l[..i][..i - 1] && l[..i][i - 1] == l[i - 1];
      }
      TextRound(mem, k + |NamesBytes(l[..n], user)|, RecordName(l[n], user));
    }
  }

  /** Four bytes, the lowest first, spell w. */
  predicate Spelt(mem: seq<byte>, k: nat, w: word) {
    k + 4 <= |mem| &&
    (var a: int, b: int, c: int, d: int := mem[k], mem[k + 1], mem[k + 2], mem[k + 3];
     a + 256 * b + 65536 * c + 16777216 * d == w)
  }

  lemma WordSpelt(mem: seq<byte>, k: nat)
    requires k + 4 <= |mem|
    ensures Spelt(mem, k, WordAt(mem, k))
  {
  }

  lemma HeaderWords(mem: seq<byte>, h: Header)
    requires Holds(mem, 0, HeaderBytes(h))
    ensures Spelt(mem, 0, h.version) && Spelt(mem, 4, h.count) && Spelt(mem, 8, h.size) && Spelt(mem, 12, h.magic)
  {
    assert |mem| >= 16;
    hide WordAt, Spelt, Holds, HeaderBytes;
    HeaderRound(mem, h);
    WordSpelt(mem, 0);
    WordSpelt(mem, 4);
    WordSpelt(mem, 8);
    WordSpelt(mem, 12);
  }

  /** The four words of the header. */
  lemma HeaderLayout(mem: seq<byte>, l: seq<Record>, user: nat, pointer: Option<text> -> word)
    requires Stashed(mem, l, user, pointer)
    ensures var size := 16 + 20 * |l| + |NamesBytes(l, user)|;
      Spelt(mem, 0, 0) && Spelt(mem, 4, |l|) && Spelt(mem, 8, size) && Spelt(mem, 12, 0xb007_57a3)
  {
    hide NamesBytes, RecordsBytes, Spelt, Holds, HeaderBytes;
    HeaderWords(mem, Header(VERSION, |l|, StashSize(l, user), MAGIC));
  }

  /** Twenty bytes for each record. */
  lemma RecordLayout(mem: seq<byte>, l: seq<Record>, user: nat, pointer: Option<text> -> word, i: nat)
    requires Stashed(mem, l, user, pointer) && i < |l|
    ensures var k := 16 + 20 * i;
      && Spelt(mem, k, l[i].time) && Spelt(mem, k + 4, l[i].start)
      && Spelt(mem, k + 12, l[i].flags) && Spelt(mem, k + 16, l[i].id)
  {
    var k := 16 + 20 * i;
    assert k + 20 <= |mem|;
    RecordsRound(mem, HEADER, l, pointer, i);
    hide WordAt, NamesBytes, RecordsBytes, Spelt, Holds;
    WordSpelt(mem, k);
    WordSpelt(mem, k + 4);
    WordSpelt(mem, k + 12);
    WordSpelt(mem, k + 16);
  }

  lemma NamesUnfold(l: seq<Record>, user: nat)
    requires l != []
    ensures NamesBytes(l, user) == NamesBytes(l[..|l| - 1], user) + (RecordName(l[|l| - 1], user) + [0])
  {
    hide RecordName;
  }

  /** The names one behind the other, each with its zero. */
  lemma {:induction false} NameLayout(mem: seq<byte>, k: nat, l: seq<Record>, user: nat, i: nat)
    requires Holds(mem, k, NamesBytes(l, user)) && i < |l|
    ensures Holds(mem, k + |NamesBytes(l[..i], user)|, RecordName(l[i], user) + [0])
    decreases |l|
  {
    hide NamesBytes, RecordName, Holds;
    var n := |l| - 1;
    NamesUnfold(l, user);
    HoldsCat(mem, k, NamesBytes(l[..n], user), RecordName(l[n], user) + [0]);
    if i < n {
      NameLayout(mem, k, l[..n], user, i);
      assert l[..n][..i] == l[..i] && l[..n][i] == l[i];
    } else {
      assert l[..i] == l[..n];
    }
  }

  /** Unstashing a complete stash gives every record back, under the name it was stashed with. */
  lemma StashRound(mem: seq<byte>, l: seq<Record>, user: nat, pointer: Option<text> -> word, i: nat)
    requires Stashed(mem, l, user, pointer) && i < |l|
    ensures Unstashed(mem, i) == l[i].(name := Some(RecordName(l[i], user)))
  {
    hide Holds, RecordsBytes, NamesBytes, RecordAt, TextStart, TextAt, HeaderAt, RecordName;
    HeaderRound(mem, Header(VERSION, |l|, StashSize(l, user), MAGIC));
    RecordsRound(mem, HEADER, l, pointer, i);
    NamesRound(mem, HEADER + RECORD * |l|, l, user, i);
  }

  /** A complete stash is accepted exactly where there is room for its records and the size covers it. */
  lemma StashAccepted(mem: seq<byte>, l: seq<Record>, user: nat, pointer: Option<text> -> word, size: int, room: int)
    requires Stashed(mem, l, user, pointer)
    ensures Accepts(mem, size, room) <==> (size == -1 || StashSize(l, user) <= size) && |l| <= room
  {
    hide Holds, RecordsBytes, NamesBytes, HeaderAt;
    HeaderRound(mem, Header(VERSION, |l|, StashSize(l, user), MAGIC));
  }

  /** A stash that ran out of room is never accepted. */
  lemma BrokenRefused(mem: seq<byte>, n: word, size: int, room: int)
    requires Broken(mem, n)
    ensures HeaderAt(mem).count == n && !Accepts(mem, size, room)
  {
    hide Holds, HeaderAt;
    HeaderRound(mem, Header(VERSION, n, 0, MAGIC));
  }

  // ----- the code -----

  /** memcpy into the buffer. */
  method Copy(base: array<byte>, at: nat, data: seq<byte>)
    requires at + |data| <= base.Length
    modifies base
    ensures Holds(base[..], at, data)
    ensures forall k :: 0 <= k < base.Length && !(at <= k < at + |data|) ==> base[k] == old(base[k])
  {
    var i := 0;
    while i < |data|
      invariant 0 <= i <= |data|
      invariant forall k :: 0 <= k < i ==> base[at + k] == data[k]
      invariant forall k :: 0 <= k < base.Length && !(at <= k < at + |data|) ==> base[k] == old(base[k])
    {
      base[at + i] := data[i];
      i := i + 1;
    }
  }

  /** Only the bytes from lo up to hi may have changed. */
  ghost predicate Kept(was: seq<byte>, now: seq<byte>, lo: nat, hi: nat) {
    |was| == |now| && forall k :: 0 <= k < |was| && (k < lo || k >= hi) ==> now[k] == was[k]
  }

  lemma KeptBoth(a: seq<byte>, b: seq<byte>, c: seq<byte>, lo: nat, mid: nat, hi: nat)
    requires Kept(a, b, lo, hi) && Kept(b, c, mid, hi) && lo <= mid
    ensures Kept(a, c, lo, hi)
  {
  }

  /** append_data: moves on in any case, writes only what fits. */
  method AppendData(base: array<byte>, ptr: nat, end: nat, data: seq<byte>) returns (ptr': nat)
    requires end <= base.Length
    modifies base
    ensures ptr' == ptr + |data|
    ensures ptr' <= end ==> Holds(base[..], ptr, data)
    ensures Kept(old(base[..]), base[..], ptr, end)
  {
    ptr' := ptr + |data|;
    if ptr' > end {
      return;
    }
    Copy(base, ptr, data);
  }

  /** What lies before ptr stays when bytes from ptr on change. */
  lemma HoldsBefore(mem: seq<byte>, mem': seq<byte>, k: nat, b: seq<byte>)
    requires Holds(mem, k, b) && |mem| == |mem'| && forall i :: 0 <= i < k + |b| ==> mem[i] == mem'[i]
    ensures Holds(mem', k, b)
  {
  }

  lemma {:induction false} LiveGrows(t: seq<Record>, n: nat, user: nat, pointer: Option<text> -> word)
    requires n < |t| && t[n].time != 0
    ensures Live(t, n + 1) == Live(t, n) + [t[n]]
    ensures RecordsBytes(Live(t, n + 1), pointer) == RecordsBytes(Live(t, n), pointer) + RecordBytes(t[n], pointer)
    ensures NamesBytes(Live(t, n + 1), user) == NamesBytes(Live(t, n), user) + (RecordName(t[n], user) + [0])
  {
    hide RecordBytes, RecordName;
    var l := Live(t, n + 1);
    assert l[..|l| - 1] == Live(t, n) && l[|l| - 1] == t[n];
  }

  lemma {:induction false} LiveLength(t: seq<Record>, n: nat)
    requires n <= |t|
    ensures |Live(t, n)| <= n
  {
    if n > 0 {
      LiveLength(t, n - 1);
    }
  }

  lemma LiveSkips(t: seq<Record>, n: nat)
    requires n < |t| && t[n].time == 0
    ensures Live(t, n + 1) == Live(t, n)
  {
  }

  lemma NoneLive(t: seq<Record>, user: nat, pointer: Option<text> -> word)
    ensures Live(t, 0) == [] && RecordsBytes([], pointer) == [] && NamesBytes([], user) == []
  {
  }

  /** append_data behind what has been written since start. */
  method AppendNext(base: array<byte>, start: nat, ptr: nat, end: nat, data: seq<byte>, ghost done: seq<byte>)
      returns (ptr': nat)
    requires end <= base.Length && ptr == start + |done| && (ptr <= end ==> Holds(base[..], start, done))
    modifies base
    ensures ptr' == start + |done + data| && (ptr' <= end ==> Holds(base[..], start, done + data))
    ensures Kept(old(base[..]), base[..], start, end)
  {
    ghost var was := base[..];
    ptr' := AppendData(base, ptr, end, data);
    if ptr' <= end {
      hide Holds;
      Appended(was, base[..], start, done, data, end);
    }
  }

  class Table {
    /** BOOTSTAGE_ID_USER. */
    const user: nat
    /** The address of a name in memory. */
    const pointer: Option<text> -> word
    /** As many as BOOTSTAGE_ID_COUNT. */
    const records: array<Record>
    var nextId: nat

    ghost predicate Valid() { RECORD * records.Length < WORD }

    constructor (user: nat, count: nat, pointer: Option<text> -> word)
      requires RECORD * count < WORD
      ensures Valid() && nextId == user && fresh(records) && records.Length == count
      ensures forall k :: 0 <= k < count ==> records[k] == Record(if k == 0 then 1 else 0, 0, None, 0, 0)
    {
      this.user, this.pointer, this.nextId := user, pointer, user;
      records := new Record[count](k => Record(if k == 0 then 1 else 0, 0, None, 0, 0));
    }

    /** bootstage_add_record: the first event of an id is kept for good. */
    method AddRecord(id: word, name: Option<text>, flags: word, mark: word)
      requires nextId < WORD
      modifies this`nextId, records
      ensures var alloc := flags / 2 % 2 == 1;
        var i := if alloc then old(nextId) else id;
        nextId == old(nextId) + (if alloc then 1 else 0) &&
        (i < records.Length && old(records[i]).time != 0 ==> records[i] == old(records[i])) &&
        (i < records.Length && old(records[i]).time == 0 ==>
          records[i] == Record(mark, old(records[i]).start, name, flags, i)) &&
        forall k :: 0 <= k < records.Length && k != i ==> records[k] == old(records[k])
    {
      var i := id;
      if flags / BOOTSTAGEF_ALLOC % 2 == 1 {
        i, nextId := nextId, nextId + 1;
      }
      if i < records.Length && records[i].time == 0 {
        records[i] := Record(mark, records[i].start, name, flags, i);
      }
    }

    /** The first loop of bootstage_stash. */
    method CountLive() returns (count: nat)
      ensures count == |Live(records[..], records.Length)|
    {
      var id := 0;
      count := 0;
      while id < records.Length
        invariant 0 <= id <= records.Length && count == |Live(records[..], id)|
      {
        if records[id].time != 0 {
          count := count + 1;
        }
        id := id + 1;
      }
    }

    /** The bytes of the live ones among the first n records, from start on, if they end by the end. */
    ghost predicate RecordsDone(mem: seq<byte>, ptr: nat, end: nat, n: nat)
      requires n <= records.Length
      reads records
    {
      var b := RecordsBytes(Live(records[..], n), pointer);
      ptr == HEADER + |b| && (ptr <= end ==> Holds(mem, HEADER, b))
    }

    method AppendRecord(base: array<byte>, ptr: nat, end: nat, id: nat) returns (ptr': nat)
      requires end <= base.Length && id < records.Length && RecordsDone(base[..], ptr, end, id)
      modifies base
      ensures RecordsDone(base[..], ptr', end, id + 1) && Kept(old(base[..]), base[..], HEADER, end)
    {
      hide RecordBytes, RecordsBytes, Live, Holds;
      ptr' := ptr;
      if records[id].time != 0 {
        ghost var done := RecordsBytes(Live(records[..], id), pointer);
        LiveGrows(records[..], id, user, pointer);
        ptr' := AppendNext(base, HEADER, ptr, end, RecordBytes(records[id], pointer), done);
      } else {
        LiveSkips(records[..], id);
      }
    }

    /** Its second loop. */
    method AppendRecords(base: array<byte>, end: nat) returns (ptr: nat)
      requires HEADER <= end <= base.Length
      modifies base
      ensures RecordsDone(base[..], ptr, end, records.Length) && Kept(old(base[..]), base[..], HEADER, end)
    {
      ptr := HEADER;
      NoneLive(records[..], user, pointer);
      HoldsNothing(base[..], HEADER);
      hide RecordsDone;
      for id := 0 to records.Length
        invariant RecordsDone(base[..], ptr, end, id) && Kept(old(base[..]), base[..], HEADER, end)
      {
        ghost var was := base[..];
        ptr := AppendRecord(base, ptr, end, id);
        KeptBoth(old(base[..]), was, base[..], HEADER, HEADER, end);
      }
    }

    /** The same of the names. */
    ghost predicate NamesDone(mem: seq<byte>, start: nat, ptr: nat, end: nat, n: nat)
      requires n <= records.Length
      reads records
    {
      var b := NamesBytes(Live(records[..], n), user);
      ptr == start + |b| && (ptr <= end ==> Holds(mem, start, b))
    }

    method AppendName(base: array<byte>, start: nat, ptr: nat, end: nat, id: nat) returns (ptr': nat)
      requires end <= base.Length && id < records.Length && NamesDone(base[..], start, ptr, end, id)
      modifies base
      ensures NamesDone(base[..], start, ptr', end, id + 1) && Kept(old(base[..]), base[..], start, end)
    {
      hide RecordName, NamesBytes, Live, Holds;
      ptr' := ptr;
      if records[id].time != 0 {
        ghost var done := NamesBytes(Live(records[..], id), user);
        LiveGrows(records[..], id, user, pointer);
        ptr' := AppendNext(base, start, ptr, end, RecordName(records[id], user) + [0], done);
      } else {
        LiveSkips(records[..], id);
      }
    }

    /** Its third loop: the names follow the records. */
    method AppendNames(base: array<byte>, start: nat, end: nat) returns (ptr: nat)
      requires end <= base.Length
      modifies base
      ensures NamesDone(base[..], start, ptr, end, records.Length) && Kept(old(base[..]), base[..], start, end)
    {
      ptr := start;
      NoneLive(records[..], user, pointer);
      if start <= end {
        HoldsNothing(base[..], start);
      }
      hide NamesDone;
      for id := 0 to records.Length
        invariant NamesDone(base[..], start, ptr, end, id) && Kept(old(base[..]), base[..], start, end)
      {
        ghost var was := base[..];
        ptr := AppendName(base, start, ptr, end, id);
        KeptBoth(old(base[..]), was, base[..], start, start, end);
      }
    }

    /**
      bootstage_stash: it succeeds exactly when header, records and names fit,
      never writes at or behind the end, and leaves a header of size zero when
      only the header fitted.
     */
    method Stash(base: array<byte>, size: int) returns (ok: bool)
      requires Valid() && size <= base.Length && size < HALF
      modifies base
      ensures ok <==> StashSize(Live(records[..], records.Length), user) <= size
      ensures ok ==> Stashed(base[..], Live(records[..], records.Length), user, pointer)
      ensures |Live(records[..], records.Length)| < HALF
      ensures !ok && size >= HEADER ==> Broken(base[..], |Live(records[..], records.Length)|)
      ensures forall k :: 0 <= k < base.Length && k >= size ==> base[k] == old(base[k])
    {
      hide Holds, HeaderBytes, Live, RecordsBytes, NamesBytes;
      ghost var l := Live(records[..], records.Length);
      LiveLength(records[..], records.Length);
      if HEADER > size {
        return false;
      }
      var count := CountLive();
      Copy(base, 0, HeaderBytes(Header(VERSION, count, 0, MAGIC)));
      ghost var m0 := base[..];
      var ptr := AppendRecords(base, size);
      ghost var m1 := base[..];
      ptr := AppendNames(base, ptr, size);
      ghost var m2 := base[..];
      HoldsBefore(m0, m2, 0, HeaderBytes(Header(VERSION, count, 0, MAGIC)));
      if ptr > size {
        NoneLive(records[..], user, pointer);
        assert Broken(base[..], count);
        return false;
      }
      HoldsBefore(m1, m2, HEADER, RecordsBytes(l, pointer));
      Copy(base, 0, HeaderBytes(Header(VERSION, count, ptr, MAGIC)));
      HoldsBehind(m2, base[..], HEADER, RecordsBytes(l, pointer));
      HoldsBehind(m2, base[..], HEADER + RECORD * |l|, NamesBytes(l, user));
      ok := true;
    }

    /** memcpy of the structs, where they are known to fit. */
    method CopyRecords(base: array<byte>, count: nat)
      requires nextId + count <= records.Length
      modifies records
      ensures forall i :: nextId <= i < nextId + count ==>
        records[i] == RecordAt(base[..], HEADER + RECORD * (i - nextId))
      ensures forall k :: 0 <= k < records.Length && !(nextId <= k < nextId + count) ==> records[k] == old(records[k])
    {
      hide RecordAt;
      var i := nextId;
      while i < nextId + count
        invariant nextId <= i <= nextId + count
        invariant forall j :: nextId <= j < i ==> records[j] == RecordAt(base[..], HEADER + RECORD * (j - nextId))
        invariant forall k :: 0 <= k < records.Length && !(nextId <= k < nextId + count) ==>
            records[k] == old(records[k])
      {
        records[i] := RecordAt(base[..], HEADER + RECORD * (i - nextId));
        i := i + 1;
      }
    }

    /** The loop that points every name at its string. */
    method TakeNames(base: array<byte>, start: nat, count: nat)
      requires nextId + count <= records.Length
      modifies records
      ensures forall i :: nextId <= i < nextId + count ==>
        records[i] == old(records[i]).(name := Some(TextAt(base[..], TextStart(base[..], start, i - nextId))))
      ensures forall k :: 0 <= k < records.Length && !(nextId <= k < nextId + count) ==> records[k] == old(records[k])
    {
      hide TextAt;
      var i, ptr := nextId, start;
      while i < nextId + count
        invariant nextId <= i <= nextId + count && ptr == TextStart(base[..], start, i - nextId)
        invariant forall j :: nextId <= j < i ==>
          records[j] == old(records[j]).(name := Some(TextAt(base[..], TextStart(base[..], start, j - nextId))))
        invariant forall k :: i <= k < records.Length || 0 <= k < nextId ==> records[k] == old(records[k])
      {
        var name := TextAt(base[..], ptr);
        records[i] := records[i].(name := Some(name));
        i, ptr := i + 1, ptr + |name| + 1;
      }
    }

    /** The two loops of bootstage_unstash. */
    method TakeRecords(base: array<byte>, count: nat)
      requires Valid() && count == HeaderAt(base[..]).count && nextId + count <= records.Length
      modifies this`nextId, records
      ensures nextId == old(nextId) + count
      ensures forall i :: old(nextId) <= i < nextId ==> records[i] == Unstashed(base[..], i - old(nextId))
      ensures forall k :: 0 <= k < records.Length && !(old(nextId) <= k < nextId) ==> records[k] == old(records[k])
    {
      hide HeaderAt, RecordAt, TextAt, TextStart;
      CopyRecords(base, count);
      TakeNames(base, HEADER + RECORD * count, count);
      nextId := nextId + count;
    }

    /** The checks of bootstage_unstash, in 32 bits. */
    method CheckHeader(h: Header, size: int) returns (ok: bool)
      ensures ok <==> Passes(h, size, nextId, records.Length)
    {
      if size != -1 && HEADER > size {
        return false;
      }
      if h.magic != MAGIC || (size != -1 && h.size > size) {
        return false;
      }
      if (h.count * RECORD) % WORD > h.size || h.version != VERSION {
        return false;
      }
      ok := (nextId + h.count) % WORD <= records.Length;
    }

    /**
      bootstage_unstash: refused, the table stays as it is; accepted, the
      stashed records follow the ones already there. Without a size, a count that
      wraps next_id in 32 bits would pass and overrun the table.
     */
    method Unstash(base: array<byte>, size: int) returns (ok: bool)
      requires Valid() && size < HALF
      requires nextId + HeaderAt(base[..]).count < WORD || (size != -1 && RECORD * nextId < HALF)
      modifies this`nextId, records
      ensures ok <==> Accepts(base[..], size, records.Length - old(nextId))
      ensures !ok ==> nextId == old(nextId) && records[..] == old(records[..])
      ensures ok ==> nextId == old(nextId) + HeaderAt(base[..]).count <= records.Length
      ensures ok ==> forall i :: old(nextId) <= i < nextId ==> records[i] == Unstashed(base[..], i - old(nextId))
      ensures ok ==> forall k :: 0 <= k < records.Length && !(old(nextId) <= k < nextId) ==>
        records[k] == old(records[k])
    {
      PassesIffFits(HeaderAt(base[..]), size, nextId, records.Length);
      assert Accepts(base[..], size, records.Length - nextId) ==> HeaderAt(base[..]).count <= records.Length - nextId;
      hide HeaderAt, Unstashed, Passes, Fits;
      var h := HeaderAt(base[..]);
      ok := CheckHeader(h, size);
      if !ok {
        return;
      }
      TakeRecords(base, h.count);
    }
  }

  /**
    A table stashed and unstashed into another one: it arrives exactly when it
    fits the buffer and the other table has room, and then in order and with
    every record under its name. What a failed stash left is refused.
   */
  method HandOver(from: Table, to: Table, base: array<byte>, size: int) returns (ok: bool)
    requires from.Valid() && to.Valid() && from.records != to.records && to.nextId < HALF
    requires 0 <= size <= base.Length && size < HALF
    modifies base, to, to.records
    ensures var l := Live(from.records[..], from.records.Length);
      (ok <==> StashSize(l, from.user) <= size && |l| <= to.records.Length - old(to.nextId)) &&
      (!ok ==> to.records[..] == old(to.records[..])) &&
      (ok ==> to.nextId == old(to.nextId) + |l| <= to.records.Length) &&
      (ok ==> forall i :: old(to.nextId) <= i < to.nextId ==>
        to.records[i] == l[i - old(to.nextId)].(name := Some(RecordName(l[i - old(to.nextId)], from.user))))
  {
    hide Live, Stashed, Broken, StashSize, RecordName, HeaderAt, Accepts, Unstashed;
    ghost var l := Live(from.records[..], from.records.Length);
    ok := from.Stash(base, size);
    if !ok && size >= HEADER {
      BrokenRefused(base[..], |l|, size, to.records.Length - to.nextId);
      ok := to.Unstash(base, size);
    } else if ok {
      CountStashed(base[..], l, from.user, from.pointer);
      StashAccepted(base[..], l, from.user, from.pointer, size, to.records.Length - to.nextId);
      ghost var n := to.nextId;
      ok := to.Unstash(base, size);
      if ok {
        forall i | n <= i < to.nextId
          ensures to.records[i] == l[i - n].(name := Some(RecordName(l[i - n], from.user)))
        {
          StashRound(base[..], l, from.user, from.pointer, i - n);
        }
      }
    }
  }

  lemma CountStashed(mem: seq<byte>, l: seq<Record>, user: nat, pointer: Option<text> -> word)
    requires Stashed(mem, l, user, pointer)
    ensures HeaderAt(mem).count == |l| < HALF
  {
    hide Holds, HeaderAt;
    HeaderRound(mem, Header(VERSION, |l|, StashSize(l, user), MAGIC));
  }

  lemma HoldsNothing(mem: seq<byte>, k: nat)
    requires k <= |mem|
    ensures Holds(mem, k, [])
  {
  }

  lemma HoldsBehind(mem: seq<byte>, mem': seq<byte>, k: nat, b: seq<byte>)
    requires Holds(mem, k, b) && |mem| == |mem'| && forall i :: k <= i < |mem| ==> mem[i] == mem'[i]
    ensures Holds(mem', k, b)
  {
  }

  lemma Appended(mem: seq<byte>, mem': seq<byte>, k: nat, b: seq<byte>, d: seq<byte>, end: nat)
    requires Holds(mem, k, b) && Kept(mem, mem', k + |b|, end) && Holds(mem', k + |b|, d)
    ensures Holds(mem', k, b + d)
  {
    HoldsBefore(mem, mem', k, b);
    HoldsCat(mem', k, b, d);
  }
}
