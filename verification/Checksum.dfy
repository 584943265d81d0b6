/**
  compute_crc of cmd_armflash.c: a 32-bit sum whose carry comes back in at the
  low end, complemented.
 */
module Checksum {
  import opened Arith
  import opened Word32

  /** All ones; the end-around sum counts modulo this. */
  const ONES: nat := 0xFFFF_FFFF

  function Complement(w: word): word { ONES - w }

  /** One turn of the loop, in 32 bits. */
  function AddWord(sum: word, val: word): word {
    var carried := if val > Complement(sum) then (sum + 1) % WORD else sum;
    (carried + val) % WORD
  }

  function SumUp(sum: word, words: seq<word>): word
    decreases |words|
  {
    if words == [] then sum else SumUp(AddWord(sum, words[0]), words[1..])
  }

  /** The checksum of a list of words. */
  function Crc(words: seq<word>): word { Complement(SumUp(0, words)) }

  // ----- what the sum is -----

  function Total(words: seq<word>): nat {
    if words == [] then 0 else words[0] + Total(words[1..])
  }

  /** The representative of a total in 1..ONES, and 0 for 0 alone. */
  function Reduced(total: nat): (r: word)
    ensures r == 0 <==> total == 0
    ensures r % ONES == total % ONES
  {
    if total == 0 then 0 else (total - 1) % ONES + 1
  }

  lemma AddReduces(total: nat, val: word)
    ensures AddWord(Reduced(total), val) == Reduced(total + val)
  {
    if total > 0 {
      var q, r := (total - 1) / ONES, Reduced(total);
      assert total == q * ONES + r;
      AddExplicit(r, val);
      if r + val <= ONES {
        DivUnique(total + val - 1, q, r + val - 1, ONES);
      } else {
        Distribute(q, 1, ONES);
        DivUnique(total + val - 1, q + 1, r + val - 1 - ONES, ONES);
      }
    }
  }

  lemma AddExplicit(sum: word, val: word)
    ensures AddWord(sum, val) == if sum + val <= ONES then sum + val else sum + val - ONES
  {
  }

  lemma {:induction false} SumIsReduced(total: nat, words: seq<word>)
    ensures SumUp(Reduced(total), words) == Reduced(total + Total(words))
    decreases |words|
  {
    hide Reduced, AddWord;
    if words != [] {
      AddReduces(total, words[0]);
      SumIsReduced(total + words[0], words[1..]);
    }
  }

  /** The checksum complements a sum that is congruent to the total modulo ONES, and zero only for zeros. */
  lemma CrcIsTotal(words: seq<word>)
    ensures Crc(words) == Complement(Reduced(Total(words)))
    ensures Complement(Crc(words)) % ONES == Total(words) % ONES
  {
    SumIsReduced(0, words);
  }

  // ----- order -----

  lemma {:induction false} TotalCat(a: seq<word>, b: seq<word>)
    ensures Total(a + b) == Total(a) + Total(b)
    decreases |a|
  {
    if a == [] {
      assert a + b == b;
    } else {
      assert (a + b)[1..] == a[1..] + b;
      TotalCat(a[1..], b);
    }
  }

  /** Taking the k-th word out. */
  lemma WithoutWord(b: seq<word>, k: nat)
    requires k < |b|
    ensures Total(b) == b[k] + Total(b[..k] + b[k + 1..])
    ensures multiset(b) == multiset(b[..k] + b[k + 1..]) + multiset{b[k]}
  {
    hide Total;
    assert b == b[..k] + ([b[k]] + b[k + 1..]);
    TotalCat(b[..k], b[k + 1..]);
    TotalCat(b[..k], [b[k]] + b[k + 1..]);
    TotalFirst(b[k], b[k + 1..]);
  }

  lemma TotalFirst(w: word, rest: seq<word>)
    ensures Total([w] + rest) == w + Total(rest)
  {
    assert ([w] + rest)[1..] == rest;
  }

  lemma Cancel(m: multiset<word>, n: multiset<word>, w: word)
    requires m + multiset{w} == n + multiset{w}
    ensures m == n
  {
    assert m == m + multiset{w} - multiset{w} && n == n + multiset{w} - multiset{w};
  }

  lemma {:induction false} TotalOrder(a: seq<word>, b: seq<word>)
    requires multiset(a) == multiset(b)
    ensures Total(a) == Total(b)
    decreases |a|
  {
    hide Total;
    if a == [] {
      assert |multiset(b)| == 0;
    } else {
      assert a[0] in multiset(b);
      var k :| 0 <= k < |b| && b[k] == a[0];
      WithoutWord(b, k);
      WithoutWord(a, 0);
      Cancel(multiset(a[..0] + a[1..]), multiset(b[..k] + b[k + 1..]), a[0]);
      TotalOrder(a[..0] + a[1..], b[..k] + b[k + 1..]);
    }
  }

  /** The order of the words does not matter. */
  lemma OrderIndependent(a: seq<word>, b: seq<word>)
    requires multiset(a) == multiset(b)
    ensures Crc(a) == Crc(b)
  {
    TotalOrder(a, b);
    CrcIsTotal(a);
    CrcIsTotal(b);
  }

  // ----- when it is zero -----

  lemma {:induction false} TotalZero(words: seq<word>)
    ensures Total(words) == 0 <==> forall i :: 0 <= i < |words| ==> words[i] == 0
    decreases |words|
  {
    if words != [] {
      TotalZero(words[1..]);
      assert words == [words[0]] + words[1..];
    }
  }

  /** Zero exactly for words that are not all zero and add up to a multiple of ONES. */
  lemma ZeroIff(words: seq<word>)
    ensures Crc(words) == 0 <==>
      (exists i :: 0 <= i < |words| && words[i] != 0) && Total(words) % ONES == 0
  {
    CrcIsTotal(words);
    TotalZero(words);
    assert Crc(words) == 0 <==> Reduced(Total(words)) == ONES;
    FullIff(Total(words));
  }

  lemma FullIff(total: nat)
    ensures Reduced(total) == ONES <==> total > 0 && total % ONES == 0
  {
    assert ONES % ONES == 0;
  }

  /** The checksum of some words, put among them at any place, makes theirs zero. */
  lemma SelfChecking(words: seq<word>, p: nat)
    requires p <= |words|
    ensures Crc(words[..p] + [Crc(words)] + words[p..]) == 0
  {
    hide Reduced;
    var c := Crc(words);
    var all := words[..p] + [c] + words[p..];
    assert words == words[..p] + words[p..];
    TotalCat(words[..p] + [c], words[p..]);
    TotalCat(words[..p], [c]);
    TotalCat(words[..p], words[p..]);
    TotalFirst(c, []);
    assert [c] + [] == [c];
    assert Total(all) == Total(words) + c;
    CrcIsTotal(words);
    CrcIsTotal(all);
    Completed(Total(words));
  }

  lemma Completed(total: nat)
    ensures Reduced(total + Complement(Reduced(total))) == ONES
  {
    var r := Reduced(total);
    if total > 0 {
      var q := (total - 1) / ONES;
      assert total == q * ONES + r;
      DivUnique(total + ONES - r - 1, q, ONES - 1, ONES);
    }
  }

  // ----- the code -----

  /** The len / 4 words from start on. */
  function Words(readl: nat -> word, start: nat, n: nat): (s: seq<word>)
    ensures |s| == n
    decreases n
  {
    if n == 0 then [] else [readl(start)] + Words(readl, start + 4, n - 1)
  }

  lemma NoWords(readl: nat -> word, start: nat, sum: word)
    ensures SumUp(sum, Words(readl, start, 0)) == sum
  {
  }

  lemma SumStep(readl: nat -> word, start: nat, n: nat, sum: word)
    requires n >= 1
    ensures SumUp(sum, Words(readl, start, n)) == SumUp(AddWord(sum, readl(start)), Words(readl, start + 4, n - 1))
  {
    assert Words(readl, start, n)[1..] == Words(readl, start + 4, n - 1);
  }

  /** compute_crc over a region of memory. */
  method ComputeCrc(readl: nat -> word, start: nat, len: nat) returns (crc: word)
    ensures len % 4 != 0 ==> crc == 0
    ensures len % 4 == 0 ==> crc == Crc(Words(readl, start, len / 4))
  {
    hide SumUp, Words;
    if len % 4 != 0 {
      return 0;
    }
    var sum: word, i := 0, 0;
    while i < len
      invariant 0 <= i <= len && i % 4 == 0
      invariant SumUp(sum, Words(readl, start + i, (len - i) / 4)) == SumUp(0, Words(readl, start, len / 4))
    {
      var val := readl(start + i);
      SumStep(readl, start + i, (len - i) / 4, sum);
      if val > Complement(sum) {
        sum := (sum + 1) % WORD;
      }
      sum := (sum + val) % WORD;
      i := i + 4;
    }
    NoWords(readl, start + len, sum);
    crc := Complement(sum);
  }
}
