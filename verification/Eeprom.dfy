/**
  eeprom_read and eeprom_write of cmd_eeprom.c, against chips whose address
  counter wraps inside a write page and inside a 256-byte block on reads.
 */
module Eeprom {
  import opened Options
  import opened Arith
  import opened Bits
  import opened Word32

  /** What a cell never written reads as. */
  const ERASED: byte := 0xFF

  /** Address octets (1 or 2), page write bits, I2C_RXTX_LEN and the device address. */
  datatype Config = Config(octets: nat, bits: nat, rx: nat, dev: byte)

  /** What the build demands: the #error of the source, and a transfer length. */
  predicate Built(c: Config) { (c.octets == 1 || c.octets == 2) && c.rx >= 1 }

  lemma PageSizes(bits: nat)
    ensures bits >= 8 ==> Power2(bits) % 256 == 0 && Power2(bits) >= 256
    ensures bits <= 8 ==> 256 % Power2(bits) == 0 && Power2(bits) <= 256
    ensures bits > 8 ==> Power2(bits) > 256
  {
    var low, high := if bits <= 8 then bits else 8, if bits <= 8 then 8 else bits;
    var p, q := Power2(low), Power2(high - low);
    assert Power2(8) == 256;
    PowerSum(high - low, low);
    AtLeast(q, p);
    DivUnique(q * p, q, 0, p);
  }

  function Page(c: Config): (p: nat)
    ensures p >= 1
    ensures c.bits >= 8 ==> p % 256 == 0 && p >= 256
    ensures c.bits <= 8 ==> 256 % p == 0 && p <= 256
    ensures c.bits > 8 ==> p > 256
  {
    PageSizes(c.bits);
    Power2(c.bits)
  }

  /** 1 << CONFIG_SYS_EEPROM_PAGE_WRITE_BITS */
  lemma PageDoubles(c: Config)
    ensures c.bits == 0 ==> Page(c) == 1
    ensures c.bits > 0 ==> Page(c) == 2 * Page(c.(bits := c.bits - 1))
  {
  }

  /** Bytes behind one chip address. */
  function Span(c: Config): (s: nat) ensures s % 256 == 0 && s >= 256 { if c.octets == 1 then 0x100 else 0x1_0000 }

  // ----- addresses -----

  datatype Cell = Cell(chip: nat, at: nat)

  /** Bitwise or. */
  function Or(a: nat, b: nat): nat {
    if a == 0 && b == 0 then 0
    else 2 * Or(a / 2, b / 2) + if a % 2 == 1 || b % 2 == 1 then 1 else 0
  }

  /** No bit is set in both. */
  predicate Apart(a: nat, b: nat) {
    a == 0 || b == 0 || (!(a % 2 == 1 && b % 2 == 1) && Apart(a / 2, b / 2))
  }

  lemma {:induction false} OrOfApart(a: nat, b: nat)
    requires Apart(a, b)
    ensures Or(a, b) == a + b
    decreases a + b
  {
    if a == 0 && b == 0 {
    } else {
      OrOfApart(a / 2, b / 2);
    }
  }

  /** The block number that goes into the chip address; the source truncates it to an octet. */
  function Block(c: Config, x: nat): byte { (x / Span(c)) % 256 }

  function CellOf(c: Config, x: nat): Cell { Cell(Or(Block(c, x), c.dev), x % Span(c)) }

  /** Bit k of n. */
  predicate Bit(n: nat, k: nat) { n / Power2(k) % 2 == 1 }

  function Weight(n: nat, k: nat): nat { if Bit(n, k) then Power2(k) else 0 }

  /** A number below 2^k is the sum of its bits. */
  function BitSum(n: nat, k: nat): nat {
    if k == 0 then 0 else BitSum(n, k - 1) + Weight(n, k - 1)
  }

  lemma TopBit(n: nat, p: nat)
    requires p >= 1
    ensures n % (2 * p) == (if n / p % 2 == 1 then p else 0) + n % p
  {
    var q, r := n / p, n % p;
    assert n == q * p + r && q == q / 2 * 2 + q % 2;
    Associate(q / 2, 2, p);
    Distribute(q / 2 * 2, q % 2, p);
    DivUnique(n, q / 2, q % 2 * p + r, 2 * p);
  }

  lemma {:induction false} BitsAdd(n: nat, k: nat)
    ensures BitSum(n, k) == n % Power2(k)
    decreases k
  {
    if k > 0 {
      BitsAdd(n, k - 1);
      TopBit(n, Power2(k - 1));
    }
  }

  lemma BitBehind(n: nat, k: nat)
    requires k > 0
    ensures Bit(n, k) == Bit(n / 2, k - 1)
  {
    var p := Power2(k - 1);
    var q := n / 2 / p;
    assert n / 2 == q * p + n / 2 % p && n == 2 * (n / 2) + n % 2;
    Associate(2, q, p);
    assert n == q * (2 * p) + (2 * (n / 2 % p) + n % 2);
    DivUnique(n, q, 2 * (n / 2 % p) + n % 2, 2 * p);
  }

  lemma BitZero(n: nat)
    ensures Bit(n, 0) <==> n % 2 == 1
  {
    assert Power2(0) == 1;
  }

  lemma OrHalves(a: nat, b: nat)
    ensures Or(a, b) / 2 == Or(a / 2, b / 2) && (Or(a, b) % 2 == 1 <==> a % 2 == 1 || b % 2 == 1)
  {
  }

  /** Every bit of the result is set exactly where it is in one of the two. */
  lemma {:induction false} OrBits(a: nat, b: nat, k: nat)
    ensures Bit(Or(a, b), k) <==> Bit(a, k) || Bit(b, k)
    decreases k
  {
    hide Bit, Or;
    OrHalves(a, b);
    if k == 0 {
      BitZero(a);
      BitZero(b);
      BitZero(Or(a, b));
    } else {
      BitBehind(a, k);
      BitBehind(b, k);
      BitBehind(Or(a, b), k);
      OrBits(a / 2, b / 2, k - 1);
    }
  }

  lemma {:induction false} OrBelow(a: nat, b: nat, n: nat)
    requires a < Power2(n) && b < Power2(n)
    ensures Or(a, b) < Power2(n)
    decreases n
  {
    if n > 0 {
      OrBelow(a / 2, b / 2, n - 1);
    }
  }

  /**
    The octets that both loops build: the block number with the device address
    or'ed in, then the address inside the chip, its upper octet first.
   */
  function Octets(c: Config, x: nat): (o: seq<byte>)
    requires Built(c)
    ensures |o| == c.octets + 1
  {
    var block := if c.octets == 1 then x / 256 % 256 else x / 65536 % 256;
    assert Power2(8) == 256;
    OrBelow(block, c.dev, 8);
    [Or(block, c.dev)] + if c.octets == 1 then [x % 256] else [x / 256 % 256, x % 256]
  }

  function BigEndian(o: seq<byte>): nat {
    if o == [] then 0 else 256 * BigEndian(o[..|o| - 1]) + o[|o| - 1]
  }

  lemma BigEndianIs(a: byte, b: byte)
    ensures BigEndian([a]) == a && BigEndian([a, b]) == 256 * (a as int) + b
  {
    assert BigEndian([]) == 0 && [a][..0] == [] && [a, b][..1] == [a];
  }

  lemma TwoOctets(x: nat)
    ensures x % 65536 == 256 * (x / 256 % 256) + x % 256
  {
  }

  /** Octet 0 selects the chip, the others are the address in it. */
  lemma OctetsName(c: Config, x: nat)
    requires Built(c)
    ensures CellOf(c, x) == Cell(Octets(c, x)[0], BigEndian(Octets(c, x)[1..]))
  {
    hide BigEndian, Or;
    var o := Octets(c, x)[1..];
    BigEndianIs(x % 256, 0);
    BigEndianIs(x / 256 % 256, x % 256);
    TwoOctets(x);
    assert o == if c.octets == 1 then [x % 256] else [x / 256 % 256, x % 256];
  }

  /**
    One address octet: 256 bytes behind each chip address, the chip being bits 8
    to 15 of the offset or'ed with the device.  Two: 65536 bytes, and bits 16 to 23.
   */
  lemma CellsAre(c: Config, x: nat)
    requires Built(c)
    ensures var cell := CellOf(c, x); c.octets == 1 ==>
      cell.at == x % 256 && forall k :: 0 <= k < 8 ==> (Bit(cell.chip, k) <==> Bit(x / 256, k) || Bit(c.dev, k))
    ensures var cell := CellOf(c, x); c.octets == 2 ==>
      cell.at == x % 65536 && forall k :: 0 <= k < 8 ==> (Bit(cell.chip, k) <==> Bit(x / 65536, k) || Bit(c.dev, k))
    ensures CellOf(c, x).chip < 256
  {
    var q := x / if c.octets == 1 then 256 else 65536;
    forall k | 0 <= k < 8
      ensures Bit(CellOf(c, x).chip, k) <==> Bit(q, k) || Bit(c.dev, k)
    {
      OrBits(q % 256, c.dev, k);
      assert Power2(8) == 256;
      LowBits(q, 8, k);
    }
    assert Power2(8) == 256;
    OrBelow(q % 256, c.dev, 8);
  }

  lemma RemainderHalves(q: nat, n: nat)
    requires n > 0
    ensures q % Power2(n) / 2 == q / 2 % Power2(n - 1) && q % Power2(n) % 2 == q % 2
  {
    var p := Power2(n - 1);
    HalfRemainder(q, p);
    assert q % Power2(n) == 2 * (q / 2 % p) + q % 2;
  }

  lemma {:induction false} LowBits(q: nat, n: nat, k: nat)
    requires k < n
    ensures Bit(q % Power2(n), k) == Bit(q, k)
    decreases k
  {
    hide Bit, Power2;
    RemainderHalves(q, n);
    if k == 0 {
      BitZero(q);
      BitZero(q % Power2(n));
    } else {
      BitBehind(q, k);
      BitBehind(q % Power2(n), k);
      LowBits(q / 2, n - 1, k - 1);
    }
  }

  // ----- the chunks -----

  function Least(a: nat, b: nat): (m: nat) ensures m <= a && m <= b && (m == a || m == b) { if a <= b then a else b }

  /** Length of the next write: up to the end of the page that the low octet shows. */
  function WriteChunk(c: Config, offset: nat, left: nat): (len: nat)
    requires Built(c)
    ensures len <= left && len <= c.rx && (left >= 1 ==> len >= 1)
    ensures len == left || len == c.rx || offset % 256 % Page(c) + len == Page(c)
  {
    Least(left, Least(c.rx, Page(c) - offset % 256 % Page(c)))
  }

  function ReadChunk(c: Config, offset: nat, left: nat): (len: nat)
    requires Built(c)
    ensures len <= left && len <= c.rx && (left >= 1 ==> len >= 1)
    ensures offset % 256 + len <= 256 && (len == left || len == c.rx || offset % 256 + len == 256)
  {
    Least(left, Least(c.rx, 256 - offset % 256))
  }

  predicate StaysInPage(c: Config, offset: nat, len: nat) { offset % Page(c) + len <= Page(c) }

  lemma ChunkStays(c: Config, offset: nat, left: nat)
    requires Built(c) && (c.bits <= 8 || c.rx == 1)
    ensures StaysInPage(c, offset, WriteChunk(c, offset, left))
  {
    if c.bits <= 8 {
      ModMod(offset, Page(c), 256);
    }
  }

  /**
    Every write chunk stays inside a page exactly when the page has at most 8
    bits or bytes go one at a time: the source masks the low octet only.
   */
  lemma ChunksStayIff(c: Config)
    requires Built(c)
    ensures (c.bits <= 8 || c.rx == 1) <==>
      forall offset: nat, left: nat :: StaysInPage(c, offset, WriteChunk(c, offset, left))
  {
    if c.bits <= 8 || c.rx == 1 {
      forall offset: nat, left: nat
        ensures StaysInPage(c, offset, WriteChunk(c, offset, left))
      {
        ChunkStays(c, offset, left);
      }
    } else {
      var p := Page(c);
      DivUnique(p - 1, p / 256 - 1, 255, 256);
      DivUnique(p - 1, 0, p - 1, p);
      DivUnique(255, 0, 255, p);
      assert !StaysInPage(c, p - 1, WriteChunk(c, p - 1, 2));
    }
  }

  // ----- the chips -----

  type Memory = map<Cell, byte>

  function Get(m: Memory, cell: Cell): byte { if cell in m then m[cell] else ERASED }

  /** Where byte i of a transfer at address a lands when the counter wraps inside n bytes. */
  function Wrapped(a: nat, i: nat, n: nat): nat
    requires n >= 1
  {
    a - a % n + (a % n + i) % n
  }

  function ChipWrite(m: Memory, c: Config, chip: nat, a: nat, data: seq<byte>, i: nat): Memory
    requires i <= |data|
    decreases |data| - i
  {
    if i == |data| then m
    else ChipWrite(m[Cell(chip, Wrapped(a, i, Page(c))) := data[i]], c, chip, a, data, i + 1)
  }

  function ChipByte(m: Memory, chip: nat, a: nat, i: nat): byte { Get(m, Cell(chip, Wrapped(a, i, 256))) }

  // ----- the flat device -----

  /** Bytes written one by one at consecutive offsets. */
  function FlatWrite(m: Memory, c: Config, offset: nat, data: seq<byte>): Memory
    decreases |data|
  {
    if data == [] then m else FlatWrite(m[CellOf(c, offset) := data[0]], c, offset + 1, data[1..])
  }

  function FlatByte(m: Memory, c: Config, offset: nat): byte { Get(m, CellOf(c, offset)) }

  lemma {:induction false} FlatWriteCat(m: Memory, c: Config, offset: nat, d: seq<byte>, e: seq<byte>)
    ensures FlatWrite(m, c, offset, d + e) == FlatWrite(FlatWrite(m, c, offset, d), c, offset + |d|, e)
    decreases |d|
  {
    hide CellOf;
    if d == [] {
      assert d + e == e;
    } else {
      assert (d + e)[1..] == d[1..] + e;
      FlatWriteCat(m[CellOf(c, offset) := d[0]], c, offset + 1, d[1..], e);
    }
  }

  /** A cell that no offset of the range names keeps its byte. */
  lemma {:induction false} FlatWriteKeeps(m: Memory, c: Config, offset: nat, data: seq<byte>, cell: Cell)
    requires forall x :: offset <= x < offset + |data| ==> CellOf(c, x) != cell
    ensures Get(FlatWrite(m, c, offset, data), cell) == Get(m, cell)
    decreases |data|
  {
    hide CellOf;
    if data != [] {
      FlatWriteKeeps(m[CellOf(c, offset) := data[0]], c, offset + 1, data[1..], cell);
    }
  }

  /** A byte that no later offset overwrites can be read back. */
  lemma {:induction false} FlatWriteAt(m: Memory, c: Config, offset: nat, data: seq<byte>, i: nat)
    requires i < |data|
    requires forall x :: offset + i < x < offset + |data| ==> CellOf(c, x) != CellOf(c, offset + i)
    ensures FlatByte(FlatWrite(m, c, offset, data), c, offset + i) == data[i]
    decreases |data|
  {
    hide CellOf;
    var m' := m[CellOf(c, offset) := data[0]];
    if i == 0 {
      FlatWriteKeeps(m', c, offset + 1, data[1..], CellOf(c, offset));
    } else {
      FlatWriteAt(m', c, offset + 1, data[1..], i - 1);
    }
  }

  // ----- a chunk against the flat device -----

  lemma SpanDivided(c: Config, n: nat)
    requires n >= 1 && 256 % n == 0
    ensures Span(c) % n == 0
  {
    var k, l := Span(c) / 256, 256 / n;
    assert Span(c) == k * 256 && 256 == l * n;
    Associate(k, l, n);
    DivUnique(Span(c), k * l, 0, n);
  }

  /** A piece of size n that starts below a multiple s of n ends there at the latest. */
  lemma PieceEnds(r: nat, i: nat, n: nat, s: nat)
    requires n >= 1 && s % n == 0 && r < s && r % n + i < n
    ensures r + i < s
  {
    var a, k := r / n, s / n;
    assert r == a * n + r % n && s == k * n;
    if a < k {
      Grows(a, k, n);
    } else {
      Monotone(k, a, n);
    }
  }

  /** Offsets of one aligned piece share the chip address and follow each other. */
  lemma SamePiece(c: Config, x: nat, i: nat, n: nat)
    requires n >= 1 && 256 % n == 0 && x % n + i < n
    ensures CellOf(c, x + i) == Cell(CellOf(c, x).chip, Wrapped(x % Span(c), i, n))
  {
    var s := Span(c);
    var q, r := x / s, x % s;
    SpanDivided(c, n);
    ModMod(x, n, s);
    PieceEnds(r, i, n, s);
    assert x == q * s + r;
    hide Span, Or;
    DivUnique(x + i, q, r + i, s);
    DivUnique(r % n + i, 0, r % n + i, n);
  }

  lemma {:induction false} ChunkIsFlat(m: Memory, c: Config, x: nat, data: seq<byte>, i: nat)
    requires c.bits <= 8 && i <= |data| && StaysInPage(c, x, |data|)
    ensures ChipWrite(m, c, CellOf(c, x).chip, x % Span(c), data, i) == FlatWrite(m, c, x + i, data[i..])
    decreases |data| - i
  {
    hide Wrapped, CellOf;
    if i < |data| {
      SamePiece(c, x, i, Page(c));
      var m' := m[CellOf(c, x + i) := data[i]];
      ChunkIsFlat(m', c, x, data, i + 1);
      assert data[i..][1..] == data[i + 1..];
    }
  }

  lemma {:induction false} SingleIsFlat(m: Memory, c: Config, x: nat, data: seq<byte>)
    requires |data| <= 1
    ensures ChipWrite(m, c, CellOf(c, x).chip, x % Span(c), data, 0) == FlatWrite(m, c, x, data)
  {
    if |data| == 1 {
      var p, a := Page(c), x % Span(c);
      DivUnique(a % p, 0, a % p, p);
      assert Wrapped(a, 0, p) == a;
      var m' := m[CellOf(c, x) := data[0]];
      assert data[1..] == [];
      assert FlatWrite(m, c, x, data) == FlatWrite(m', c, x + 1, []) == m';
      assert ChipWrite(m, c, CellOf(c, x).chip, a, data, 0) == ChipWrite(m', c, CellOf(c, x).chip, a, data, 1) == m';
    }
  }

  /** One transfer of the write loop, whole or cut short, writes what the flat device would get. */
  lemma TransferIsFlat(m: Memory, c: Config, x: nat, data: seq<byte>)
    requires Built(c) && (c.bits <= 8 || c.rx == 1) && StaysInPage(c, x, |data|) && |data| <= c.rx
    ensures ChipWrite(m, c, CellOf(c, x).chip, x % Span(c), data, 0) == FlatWrite(m, c, x, data)
  {
    if c.bits <= 8 {
      ChunkIsFlat(m, c, x, data, 0);
      assert data[0..] == data;
    } else {
      SingleIsFlat(m, c, x, data);
    }
  }

  // ----- reading back -----

  /** No two offsets of the range share a cell. */
  ghost predicate Distinct(c: Config, offset: nat, n: nat) {
    forall x, y :: offset <= x < y < offset + n ==> CellOf(c, x) != CellOf(c, y)
  }

  ghost predicate ReadsBack(c: Config, offset: nat, data: seq<byte>, m: Memory) {
    forall i :: 0 <= i < |data| ==> FlatByte(FlatWrite(m, c, offset, data), c, offset + i) == data[i]
  }

  lemma DistinctReadsBack(c: Config, offset: nat, data: seq<byte>, m: Memory)
    requires Distinct(c, offset, |data|)
    ensures ReadsBack(c, offset, data, m)
  {
    forall i | 0 <= i < |data|
      ensures FlatByte(FlatWrite(m, c, offset, data), c, offset + i) == data[i]
    {
      FlatWriteAt(m, c, offset, data, i);
    }
  }

  /** Everything written to a range can be read back exactly when its offsets have cells of their own. */
  lemma ReadBackIff(c: Config, offset: nat, n: nat, m: Memory)
    ensures Distinct(c, offset, n) <==> forall data: seq<byte> | |data| == n :: ReadsBack(c, offset, data, m)
  {
    hide CellOf, FlatByte, FlatWrite;
    forall data: seq<byte> | |data| == n && Distinct(c, offset, n)
      ensures ReadsBack(c, offset, data, m)
    {
      DistinctReadsBack(c, offset, data, m);
    }
    if !Distinct(c, offset, n) {
      var x, y :| offset <= x < y < offset + n && CellOf(c, x) == CellOf(c, y);
      var data: seq<byte> := seq(n, i => if offset + i == x then 1 else 0);
      assert !ReadsBack(c, offset, data, m) by {
        Shared(m, c, offset, data, x, y);
      }
    }
  }

  /** Two offsets with one cell read the same. */
  lemma Shared(m: Memory, c: Config, offset: nat, data: seq<byte>, x: nat, y: nat)
    requires offset <= x < y < offset + |data| && CellOf(c, x) == CellOf(c, y) && data[x - offset] != data[y - offset]
    ensures !ReadsBack(c, offset, data, m)
  {
    hide CellOf, FlatWrite;
    var w := FlatWrite(m, c, offset, data);
    assert FlatByte(w, c, x) == FlatByte(w, c, y);
    assert offset + (x - offset) == x && offset + (y - offset) == y;
    assert !(FlatByte(w, c, offset + (x - offset)) == data[x - offset] &&
        FlatByte(w, c, offset + (y - offset)) == data[y - offset]);
  }

  /** The case the source is written for: block numbers fit the octet and keep clear of the chip-select bits. */
  lemma ClearBlocksAreDistinct(c: Config, offset: nat, n: nat)
    requires offset + n <= 256 * Span(c)
    requires forall x :: offset <= x < offset + n ==> Apart(Block(c, x), c.dev)
    ensures Distinct(c, offset, n)
  {
    hide Or, Apart, Block;
    forall x, y | offset <= x < y < offset + n
      ensures CellOf(c, x) != CellOf(c, y)
    {
      OrOfApart(Block(c, x), c.dev);
      OrOfApart(Block(c, y), c.dev);
      if CellOf(c, x) == CellOf(c, y) {
        BlockIsQuotient(c, x);
        BlockIsQuotient(c, y);
      }
    }
  }

  lemma BlockIsQuotient(c: Config, x: nat)
    requires x < 256 * Span(c)
    ensures Block(c, x) == x / Span(c)
  {
    assert x / Span(c) < 256;
  }

  // ----- the bus and the two loops -----

  class Bus {
    const c: Config
    /** The k-th transfer breaks off after this many bytes, if it does. */
    const breaksAt: nat -> Option<nat>
    const noise: (nat, nat) -> byte
    var mem: Memory
    var transfers: nat

    constructor (c: Config, breaksAt: nat -> Option<nat>, noise: (nat, nat) -> byte)
      ensures this.c == c && this.breaksAt == breaksAt && mem == map[]
    {
      this.c, this.breaksAt, this.noise, mem, transfers := c, breaksAt, noise, map[], 0;
    }

    /** Every transfer from the k-th on is acknowledged. */
    ghost predicate AllGood(from: nat) { forall k :: from <= k ==> breaksAt(k).None? }

    /** i2c_write of len bytes of the buffer to the address octets: a broken transfer has written a part of them. */
    method I2cWrite(addr: seq<byte>, data: seq<byte>, ghost x: nat) returns (ok: bool)
      requires Built(c) && (c.bits <= 8 || c.rx == 1) && StaysInPage(c, x, |data|) && |data| <= c.rx
      requires addr == Octets(c, x)
      modifies this`mem, this`transfers
      ensures transfers == old(transfers) + 1 && ok == breaksAt(old(transfers)).None?
      ensures ok ==> mem == FlatWrite(old(mem), c, x, data)
      ensures exists k :: 0 <= k <= |data| && mem == FlatWrite(old(mem), c, x, data[..k])
    {
      ok := breaksAt(transfers).None?;
      var k := if ok then |data| else Least(|data|, breaksAt(transfers).value);
      TransferIsFlat(mem, c, x, data[..k]);
      assert ok ==> data[..k] == data;
      OctetsName(c, x);
      mem := ChipWrite(mem, c, addr[0], BigEndian(addr[1..]), data[..k], 0);
      transfers := transfers + 1;
    }

    /** i2c_read from the address octets into buffer[pos..pos+len]. */
    method I2cRead(addr: seq<byte>, buffer: array<byte>, pos: nat, len: nat, ghost x: nat) returns (ok: bool)
      requires Built(c) && x % 256 + len <= 256 && pos + len <= buffer.Length && addr == Octets(c, x)
      modifies buffer, this`transfers
      ensures transfers == old(transfers) + 1 && ok == breaksAt(old(transfers)).None?
      ensures forall k :: 0 <= k < buffer.Length && !(pos <= k < pos + len) ==> buffer[k] == old(buffer[k])
      ensures ok ==> forall k :: pos <= k < pos + len ==> buffer[k] == FlatByte(mem, c, x + (k - pos))
    {
      OctetsName(c, x);
      assert CellOf(c, x).at == x % Span(c);
      hide Wrapped, CellOf, Octets, Span;
      var chip, at := addr[0], BigEndian(addr[1..]);
      hide BigEndian;
      ok := breaksAt(transfers).None?;
      var i := 0;
      while i < len
        invariant 0 <= i <= len && transfers == old(transfers)
        invariant forall k :: 0 <= k < buffer.Length && !(pos <= k < pos + len) ==> buffer[k] == old(buffer[k])
        invariant ok ==> forall k :: pos <= k < pos + i ==> buffer[k] == FlatByte(mem, c, x + (k - pos))
      {
        SamePiece(c, x, i, 256);
        buffer[pos + i] := if ok then ChipByte(mem, chip, at, i) else noise(transfers, i);
        i := i + 1;
      }
      transfers := transfers + 1;
    }

    /** Only cells of the range differ. */
    ghost predicate OnlyRange(before: Memory, after: Memory, offset: nat, n: nat) {
      forall cell ::
        (forall x :: offset <= x < offset + n ==> CellOf(c, x) != cell) ==> Get(after, cell) == Get(before, cell)
    }

    lemma ChunkInRange(before: Memory, m: Memory, offset: nat, n: nat, at: nat, data: seq<byte>, after: Memory)
      requires OnlyRange(before, m, offset, n) && offset <= at && at + |data| <= offset + n
      requires exists k :: 0 <= k <= |data| && after == FlatWrite(m, c, at, data[..k])
      ensures OnlyRange(before, after, offset, n)
    {
      hide CellOf, FlatWrite, Get;
      var k :| 0 <= k <= |data| && after == FlatWrite(m, c, at, data[..k]);
      forall cell | forall x :: offset <= x < offset + n ==> CellOf(c, x) != cell
        ensures Get(after, cell) == Get(before, cell)
      {
        FlatWriteKeeps(m, c, at, data[..k], cell);
      }
    }

    lemma Appended(m: Memory, offset: nat, s: seq<byte>, pos: nat, len: nat)
      requires pos + len <= |s|
      ensures FlatWrite(FlatWrite(m, c, offset, s[..pos]), c, offset + pos, s[pos..pos + len])
           == FlatWrite(m, c, offset, s[..pos + len])
    {
      FlatWriteCat(m, c, offset, s[..pos], s[pos..pos + len]);
      assert s[..pos] + s[pos..pos + len] == s[..pos + len];
    }

    /**
      eeprom_write: when every transfer is acknowledged the chips hold what one
      flat write leaves; a bad transfer is reported and never touches a cell
      outside the range; a range beyond 32 bits is silently skipped.
     */
    method Write(offset: nat, buffer: array<byte>, cnt: nat) returns (rcode: nat)
      requires Built(c) && (c.bits <= 8 || c.rx == 1) && offset < WORD && cnt < WORD && cnt <= buffer.Length
      modifies this`mem, this`transfers
      ensures offset + cnt >= WORD ==> rcode == 0 && mem == old(mem)
      ensures offset + cnt < WORD && rcode == 0 ==> mem == FlatWrite(old(mem), c, offset, buffer[..][..cnt])
      ensures OnlyRange(old(mem), mem, offset, cnt)
      ensures transfers >= old(transfers) && (AllGood(old(transfers)) ==> rcode == 0)
      ensures rcode != 0 ==> exists k :: old(transfers) <= k < transfers && breaksAt(k).Some?
    {
      assert OnlyRange(mem, mem, offset, cnt);
      assert FlatWrite(mem, c, offset, buffer[..][..0]) == mem;
      hide FlatWrite, CellOf, StaysInPage, OnlyRange, Octets;
      var end := (offset + cnt) % WORD;
      var at, pos := offset, 0;
      rcode := 0;

      while at < end
        invariant at == offset + pos && pos <= cnt && (offset + cnt < WORD ==> end == offset + cnt)
        invariant offset + cnt >= WORD ==> end < offset && pos == 0 && rcode == 0 && mem == old(mem)
        invariant rcode == 0 ==> mem == FlatWrite(old(mem), c, offset, buffer[..][..pos])
        invariant OnlyRange(old(mem), mem, offset, cnt)
        invariant transfers >= old(transfers)
        invariant rcode != 0 ==> exists k :: old(transfers) <= k < transfers && breaksAt(k).Some?
      {
        var len := WriteChunk(c, at, end - at);
        ChunkStays(c, at, end - at);
        var data := buffer[..][pos..pos + len];
        ghost var was := mem;
        var ok := I2cWrite(Octets(c, at), data, at);
        ChunkInRange(old(mem), was, offset, cnt, at, data, mem);
        Appended(old(mem), offset, buffer[..], pos, len);
        if !ok {
          rcode := 1;
        }
        at, pos := at + len, pos + len;
      }
    }

    /** eeprom_read: when every transfer is acknowledged the buffer holds the bytes of the range. */
    method Read(offset: nat, buffer: array<byte>, cnt: nat) returns (rcode: nat)
      requires Built(c) && offset < WORD && cnt < WORD && cnt <= buffer.Length
      modifies buffer, this`transfers
      ensures offset + cnt >= WORD ==> rcode == 0 && buffer[..] == old(buffer[..])
      ensures offset + cnt < WORD && rcode == 0 ==>
        forall k :: 0 <= k < cnt ==> buffer[k] == FlatByte(mem, c, offset + k)
      ensures forall k :: cnt <= k < buffer.Length ==> buffer[k] == old(buffer[k])
      ensures transfers >= old(transfers) && (AllGood(old(transfers)) ==> rcode == 0)
      ensures rcode != 0 ==> exists k :: old(transfers) <= k < transfers && breaksAt(k).Some?
    {
      hide CellOf, FlatByte, Octets;
      var end := (offset + cnt) % WORD;
      var at, pos := offset, 0;
      rcode := 0;
      while at < end
        invariant at == offset + pos && pos <= cnt && (offset + cnt < WORD ==> end == offset + cnt)
        invariant offset + cnt >= WORD ==> end < offset && pos == 0 && rcode == 0 && buffer[..] == old(buffer[..])
        invariant rcode == 0 ==> forall k :: 0 <= k < pos ==> buffer[k] == FlatByte(mem, c, offset + k)
        invariant forall k :: cnt <= k < buffer.Length ==> buffer[k] == old(buffer[k])
        invariant transfers >= old(transfers)
        invariant rcode != 0 ==> exists k :: old(transfers) <= k < transfers && breaksAt(k).Some?
      {
        var len := ReadChunk(c, at, end - at);
        var ok := I2cRead(Octets(c, at), buffer, pos, len, at);
        assert ok ==> forall k :: pos <= k < pos + len ==> buffer[k] == FlatByte(mem, c, at + (k - pos));
        if !ok {
          rcode := 1;
        }
        at, pos := at + len, pos + len;
      }
    }

    /** Written and read again with every transfer acknowledged: the same bytes, where the cells are distinct. */
    method WriteThenRead(offset: nat, data: array<byte>, back: array<byte>, cnt: nat)
      requires Built(c) && (c.bits <= 8 || c.rx == 1) && offset + cnt < WORD
      requires data != back && cnt <= data.Length && cnt <= back.Length
      requires AllGood(transfers) && Distinct(c, offset, cnt)
      modifies back, this`mem, this`transfers
      ensures forall k :: 0 <= k < cnt ==> back[k] == data[k]
    {
      hide CellOf, FlatWrite, FlatByte;
      var r := Write(offset, data, cnt);
      ghost var w := data[..][..cnt];
      DistinctReadsBack(c, offset, w, old(mem));
      r := Read(offset, back, cnt);
      forall k | 0 <= k < cnt
        ensures back[k] == w[k]
      {
        assert FlatByte(mem, c, offset + k) == w[k];
      }
    }
  }
}
