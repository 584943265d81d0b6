/**
  cmd_fdt.c: how a property is printed and how the printed form is parsed
  again. A text is read up to its end, which the source marks with a zero.
 */
module Fdt {
  import opened Options
  import opened Arith
  import opened Word32

  // ----- is_printable_string -----

  /** A zero, or isprint or isspace of the ctype table. */
  predicate Shows(b: byte) { b == 0 || 9 <= b <= 13 || 32 <= b <= 126 || b >= 160 }

  /** Exactly the control codes other than the blank ones, DEL and the bytes up to 159 do not show. */
  lemma ShowsIff(b: byte)
    ensures Shows(b) <==> !(1 <= b <= 8 || 14 <= b <= 31 || 127 <= b <= 159)
  {
  }

  /** isprint and isspace of the ctype table. */
  predicate IsPrint(b: byte) { 0x20 <= b < 0x7F || 0xA0 <= b }

  predicate IsSpace(b: byte) { b in {9, 10, 11, 12, 13, 32, 160} }

  predicate NoTwoZeros(data: seq<byte>) {
    forall i :: 0 <= i < |data| - 1 ==> !(data[i] == 0 && data[i + 1] == 0)
  }

  /** What the heuristic takes for strings; beyond is the byte behind the property. */
  ghost predicate LooksLikeStrings(data: seq<byte>, beyond: byte) {
    data != [] &&
    (forall i :: 0 <= i < |data| ==> Shows(data[i])) &&
    NoTwoZeros(data) &&
    (data[|data| - 1] == 0 || (data[|data| - 1] == 10 && beyond == 0))
  }

  /** Strings one behind the other, each with its zero. */
  function Chained(parts: seq<seq<byte>>): seq<byte> {
    if parts == [] then [] else parts[0] + [0] + Chained(parts[1..])
  }

  /** Nonempty strings of printable ASCII, however many, are recognised whatever lies behind them. */
  lemma {:induction false} StringsRecognised(parts: seq<seq<byte>>, beyond: byte)
    requires parts != []
    requires forall i :: 0 <= i < |parts| ==> parts[i] != []
    requires forall i, j :: 0 <= i < |parts| && 0 <= j < |parts[i]| ==> 32 <= parts[i][j] <= 126
    ensures LooksLikeStrings(Chained(parts), beyond) && Chained(parts)[0] == parts[0][0]
    decreases |parts|
  {
    var first, rest := parts[0], Chained(parts[1..]);
    var data := first + [0] + rest;
    if |parts| > 1 {
      StringsRecognised(parts[1..], beyond);
    }
    forall i | 0 <= i < |data|
      ensures Shows(data[i])
      ensures i < |data| - 1 ==> !(data[i] == 0 && data[i + 1] == 0)
    {
      if i > |first| {
        assert data[i] == rest[i - |first| - 1];
      }
    }
  }

  method IsPrintableString(data: seq<byte>, beyond: byte) returns (r: bool)
    ensures r <==> LooksLikeStrings(data, beyond)
  {
    if |data| == 0 {
      return false;
    }
    if data[|data| - 1] != 0 && data[|data| - 1] != 10 {
      return false;
    }
    var s := 0;
    while s < |data| && (data[s] == 0 || IsPrint(data[s]) || IsSpace(data[s]))
      invariant 0 <= s <= |data|
      invariant forall i :: 0 <= i < s ==> Shows(data[i])
      invariant forall i :: 0 <= i < s && i < |data| - 1 ==> !(data[i] == 0 && data[i + 1] == 0)
      invariant s == |data| ==> data[|data| - 1] == 10
    {
      if data[s] == 0 {
        if s == |data| - 1 {
          return true;
        }
        if data[s + 1] == 0 {
          return false;
        }
      }
      s := s + 1;
    }
    if s < |data| {
      return false;
    }
    return beyond == 0;
  }

  // ----- numbers -----

  function HexDigit(v: nat): (c: char)
    requires v < 16
    ensures IsHex(c) && Value(c) == v && c == "0123456789abcdef"[v]
  {
    if v < 10 then '0' + v as char else 'a' + (v - 10) as char
  }

  predicate IsHex(c: char) { '0' <= c <= '9' || 'a' <= c <= 'f' || 'A' <= c <= 'F' }

  function Value(c: char): (v: nat)
    requires IsHex(c)
    ensures v < 16
  {
    if c <= '9' then (c - '0') as nat else if c <= 'F' then (c - 'A') as nat + 10 else (c - 'a') as nat + 10
  }

  /** Digits count alike in upper and lower case. */
  lemma DigitsAre(c: char, v: nat)
    requires v < 16
    ensures IsHex(c) <==> c in "0123456789abcdefABCDEF"
    ensures c == "0123456789abcdef"[v] || c == "0123456789ABCDEF"[v] ==> IsHex(c) && Value(c) == v
  {
  }

  /** The digits of %0nx. */
  function Hex(v: nat, n: nat): (s: string)
    ensures |s| == n && forall i :: 0 <= i < n ==> IsHex(s[i])
  {
    if n == 0 then "" else Hex(v / 16, n - 1) + [HexDigit(v % 16)]
  }

  function Power16(n: nat): nat { if n == 0 then 1 else 16 * Power16(n - 1) }

  /** The digit loop of simple_strtoul: the value, modulo the word, and what is left. */
  function Number(s: string, base: nat, acc: word): (r: (word, string))
    ensures |r.1| <= |s|
  {
    if s != [] && IsHex(s[0]) && Value(s[0]) < base
    then Number(s[1..], base, (acc * base + Value(s[0])) % WORD)
    else (acc, s)
  }

  /** simple_strtoul; base 0 asks for C conventions. */
  function StrToUl(s: string, base: nat): (r: (word, string))
    ensures |r.1| <= |s|
  {
    if s != [] && s[0] == '0' then
      if |s| > 2 && s[1] == 'x' && IsHex(s[2]) then Number(s[2..], 16, 0)
      else Number(s[1..], if base == 0 then 8 else base, 0)
    else Number(s, if base == 0 then 10 else base, 0)
  }

  lemma NumberOfDigit(d: nat, rest: string, acc: word)
    requires d < 16
    ensures Number([HexDigit(d)] + rest, 16, acc) == Number(rest, 16, (acc * 16 + d) % WORD)
  {
    assert ([HexDigit(d)] + rest)[1..] == rest;
  }

  lemma {:induction false} NumberOfHex(v: nat, n: nat, rest: string)
    requires v < WORD && v < Power16(n)
    ensures Number(Hex(v, n) + rest, 16, 0) == Number(rest, 16, v)
    decreases n
  {
    hide Number, HexDigit;
    if n == 0 {
      assert Hex(v, n) + rest == rest;
    } else {
      var all := [HexDigit(v % 16)] + rest;
      assert Hex(v, n) + rest == Hex(v / 16, n - 1) + all;
      NumberOfHex(v / 16, n - 1, all);
      NumberOfDigit(v % 16, rest, v / 16);
      assert v / 16 * 16 + v % 16 == v;
    }
  }

  lemma Quotient(n: nat, base: nat)
    requires base >= 2
    ensures n == n / base * base + n % base && (n >= base ==> 1 <= n / base < n)
  {
    var q := n / base;
    assert n == q * base + n % base;
    if q >= 1 {
      AtLeast(q, base);
      Distribute(q, q, 1);
      Monotone(2, base, q);
    }
  }

  /** n in a base of at most 16, without leading zeros. */
  function Numeral(n: nat, base: nat): (s: string)
    requires 2 <= base <= 16
    ensures s != "" && IsHex(s[0]) && (n > 0 ==> s[0] != '0')
    decreases n
  {
    Quotient(n, base);
    if n < base then [HexDigit(n)] else Numeral(n / base, base) + [HexDigit(n % base)]
  }

  lemma NumberOfLast(d: nat, base: nat, rest: string, acc: word)
    requires d < base <= 16
    ensures Number([HexDigit(d)] + rest, base, acc) == Number(rest, base, (acc * base + d) % WORD)
  {
    assert ([HexDigit(d)] + rest)[1..] == rest;
  }

  lemma NumeralUnfolds(n: nat, base: nat, q: nat, r: nat, rest: string)
    requires 2 <= base <= 16 && n >= base && q == n / base && r == n % base
    ensures r < base && Numeral(n, base) + rest == Numeral(q, base) + ([HexDigit(r)] + rest)
  {
    hide HexDigit;
  }

  lemma NumberOfStep(n: nat, q: nat, r: nat, base: nat, rest: string)
    requires n == q * base + r && n < WORD && r < base <= 16 && q < WORD
    ensures Number([HexDigit(r)] + rest, base, q) == Number(rest, base, n)
  {
    hide Number, HexDigit;
    NumberOfLast(r, base, rest, q);
  }

  lemma {:induction false} NumberOfNumeral(n: nat, base: nat, rest: string)
    requires n < WORD && 2 <= base <= 16
    ensures Number(Numeral(n, base) + rest, base, 0) == Number(rest, base, n)
    decreases n
  {
    hide Number, HexDigit;
    if n < base {
      NumberOfStep(n, 0, n, base, rest);
    } else {
      var q, r := n / base, n % base;
      assert n == q * base + r && q < n by {
        Quotient(n, base);
      }
      NumeralUnfolds(n, base, q, r, rest);
      hide Numeral;
      NumberOfNumeral(q, base, [HexDigit(r)] + rest);
      NumberOfStep(n, q, r, base, rest);
    }
  }

  lemma DecimalCell(n: nat, rest: string)
    requires 0 < n < WORD && Stops(rest)
    ensures StrToUl(Numeral(n, 10) + rest, 0) == (n, rest)
  {
    NumberOfNumeral(n, 10, rest);
    assert (Numeral(n, 10) + rest)[0] != '0';
    hide Numeral;
  }

  lemma OctalCell(n: nat, rest: string)
    requires n < WORD && Stops(rest)
    ensures StrToUl("0" + Numeral(n, 8) + rest, 0) == (n, rest)
  {
    NumberOfNumeral(n, 8, rest);
    hide Numeral;
    var s := "0" + Numeral(n, 8) + rest;
    assert s[1..] == Numeral(n, 8) + rest && s[1] == Numeral(n, 8)[0];
  }

  lemma HexCell(n: nat, rest: string)
    requires n < WORD && Stops(rest)
    ensures StrToUl("0x" + Numeral(n, 16) + rest, 0) == (n, rest)
  {
    NumberOfNumeral(n, 16, rest);
    hide Numeral;
    var s := "0x" + Numeral(n, 16) + rest;
    assert s[2..] == Numeral(n, 16) + rest && s[2] == Numeral(n, 16)[0];
  }

  /** A number in C's conventions: plain in base 10, behind `0` in base 8, behind `0x` in base 16. */
  lemma ConventionsRead(n: nat, rest: string)
    requires n < WORD && Stops(rest)
    ensures n > 0 ==> StrToUl(Numeral(n, 10) + rest, 0) == (n, rest)
    ensures StrToUl("0" + Numeral(n, 8) + rest, 0) == (n, rest)
    ensures StrToUl("0x" + Numeral(n, 16) + rest, 0) == (n, rest)
  {
    hide StrToUl, Numeral;
    if n > 0 {
      DecimalCell(n, rest);
    }
    OctalCell(n, rest);
    HexCell(n, rest);
  }

  /** The number ends here. */
  predicate Stops(rest: string) { rest == [] || !IsHex(rest[0]) }

  lemma CellRead(v: word, rest: string)
    requires Stops(rest)
    ensures StrToUl("0x" + Hex(v, 8) + rest, 0) == (v, rest)
  {
    var s := "0x" + Hex(v, 8) + rest;
    assert s[2..] == Hex(v, 8) + rest;
    assert s[2] == Hex(v, 8)[0];
    assert v < Power16(8) by {
      assert Power16(1) == 16 && Power16(2) == 256 && Power16(3) == 4096 && Power16(4) == 65536;
      assert Power16(5) == 16 * Power16(4) && Power16(6) == 16 * Power16(5) && Power16(7) == 16 * Power16(6);
      assert Power16(8) == 16 * Power16(7);
    }
    NumberOfHex(v, 8, rest);
  }

  /** In base 16 a leading zero changes nothing. */
  lemma HexPlain(s: string)
    requires |s| >= 2 && IsHex(s[1])
    ensures StrToUl(s, 16) == Number(s, 16, 0)
  {
    if s[0] == '0' {
      assert Number(s, 16, 0) == Number(s[1..], 16, 0);
    }
  }

  lemma ByteRead(b: byte, rest: string)
    requires Stops(rest)
    ensures StrToUl(Hex(b, 2) + rest, 16) == (b, rest)
  {
    var s := Hex(b, 2) + rest;
    assert Number(rest, 16, b) == (b, rest);
    assert Power16(1) == 16 && Power16(2) == 256;
    assert s[1] == Hex(b, 2)[1] && IsHex(s[1]);
    hide Number, StrToUl, Hex;
    NumberOfHex(b, 2, rest);
    HexPlain(s);
  }

  // ----- print_data -----

  function Weighted(a: int, b: int, c: int, d: int): int { 16777216 * a + 65536 * b + 256 * c + d }

  /** Cell j, high byte first. */
  function Cell(data: seq<byte>, j: nat): word
    requires 4 * j + 4 <= |data|
  {
    Weighted(data[4 * j], data[4 * j + 1], data[4 * j + 2], data[4 * j + 3])
  }

  /** From cell j to the closing bracket. */
  function CellText(data: seq<byte>, j: nat): string
    requires |data| % 4 == 0 && 4 * j <= |data|
    decreases |data| - 4 * j
  {
    if 4 * j == |data| then ">"
    else "0x" + Hex(Cell(data, j), 8) + (if j < |data| / 4 - 1 then " " else "") + CellText(data, j + 1)
  }

  function ByteText(data: seq<byte>, j: nat): string
    requires j <= |data|
    decreases |data| - j
  {
    if j == |data| then "]" else Hex(data[j], 2) + (if j < |data| - 1 then " " else "") + ByteText(data, j + 1)
  }

  /** Position of the first zero, |data| if there is none: strlen, if a zero lies behind. */
  function ZeroAt(data: seq<byte>): (n: nat)
    ensures n <= |data| && (n < |data| ==> data[n] == 0) && forall i :: 0 <= i < n ==> data[i] != 0
  {
    if data == [] || data[0] == 0 then 0 else 1 + ZeroAt(data[1..])
  }

  function Chars(b: seq<byte>): (s: string)
    ensures |s| == |b|
  {
    seq(|b|, i requires 0 <= i < |b| => b[i] as char)
  }

  /** The bytes behind the first string and its zero. */
  function Behind(data: seq<byte>): seq<byte> {
    var n := ZeroAt(data);
    if n < |data| then data[n + 1..] else []
  }

  /** The strings of a property, each without its zero. */
  function StringsOf(data: seq<byte>): seq<string>
    decreases |data|
  {
    if data == [] then [] else [Chars(data[..ZeroAt(data)])] + StringsOf(Behind(data))
  }

  /** Strings in quotes, with commas between them, from behind the first quote. */
  function QuotedText(parts: seq<string>): string {
    if parts == [] then "\""
    else if |parts| == 1 then parts[0] + "\""
    else parts[0] + ("\", \"" + QuotedText(parts[1..]))
  }

  /** The loop over the strings of a printable property. */
  method PrintStrings(data: seq<byte>) returns (text: string)
    requires data != []
    ensures text == "\"" + QuotedText(StringsOf(data))
  {
    hide StringsOf, QuotedText, Chars, ZeroAt;
    NoStrings();
    text := "\"";
    var rest, first := data, true;
    while rest != []
      invariant first <==> rest == data
      invariant |rest| <= |data|
      invariant text + (if first || rest == [] then "" else "\", \"") + QuotedText(StringsOf(rest)) ==
          "\"" + QuotedText(StringsOf(data))
      decreases |rest|
    {
      ghost var was, sep := text, if first then "" else "\", \"";
      var n := ZeroAt(rest);
      var part := Chars(rest[..n]);
      text := text + (if first then "" else "\", \"") + part;
      QuotedStep(was, sep, rest);
      rest, first := if n < |rest| then rest[n + 1..] else [], false;
    }
    text := text + "\"";
  }

  lemma NoStrings()
    ensures QuotedText(StringsOf([])) == "\""
  {
  }

  lemma QuotedStep(text: string, sep: string, rest: seq<byte>)
    requires rest != []
    ensures var part, next := Chars(rest[..ZeroAt(rest)]), Behind(rest);
      text + sep + QuotedText(StringsOf(rest))
      == text + sep + part + (if next == [] then "" else "\", \"") + QuotedText(StringsOf(next))
  {
    var part, next := Chars(rest[..ZeroAt(rest)]), Behind(rest);
    var parts := StringsOf(rest);
    assert parts[0] == part && parts[1..] == StringsOf(next);
    if next != [] {
      assert StringsOf(next) != [];
    }
  }

  /** Nothing for an empty property, quoted strings, an address for a long one, or the text of the value. */
  datatype Printout = Nothing | Strings(quoted: string) | Address | Text(text: string)

  /** print_data, without the digits of an address. */
  method PrintData(data: seq<byte>, beyond: byte, limit: nat) returns (p: Printout)
    ensures p.Nothing? <==> data == []
    ensures p.Strings? <==> LooksLikeStrings(data, beyond)
    ensures p.Strings? ==> p.quoted == "\"" + QuotedText(StringsOf(data))
    ensures p.Address? <==> |data| > limit && data != [] && !LooksLikeStrings(data, beyond)
    ensures p.Text? ==> p.text == if |data| % 4 == 0 then "<" + CellText(data, 0) else "[" + ByteText(data, 0)
  {
    if |data| == 0 {
      return Nothing;
    }
    var strings := IsPrintableString(data, beyond);
    if strings {
      var quoted := PrintStrings(data);
      return Strings(quoted);
    }
    if |data| > limit {
      return Address;
    }
    var text;
    if |data| % 4 == 0 {
      text := PrintCells(data);
    } else {
      text := PrintBytes(data);
    }
    p := Text(text);
  }

  method PrintCells(data: seq<byte>) returns (text: string)
    requires |data| % 4 == 0
    ensures text == "<" + CellText(data, 0)
  {
    hide Hex, Cell;
    text := "<";
    var j := 0;
    while j < |data| / 4
      invariant 0 <= j <= |data| / 4
      invariant text + CellText(data, j) == "<" + CellText(data, 0)
    {
      var token := "0x" + Hex(Cell(data, j), 8) + if j < |data| / 4 - 1 then " " else "";
      assert CellText(data, j) == token + CellText(data, j + 1);
      assert text + (token + CellText(data, j + 1)) == text + token + CellText(data, j + 1);
      text := text + token;
      j := j + 1;
    }
    text := text + ">";
  }

  method PrintBytes(data: seq<byte>) returns (text: string)
    ensures text == "[" + ByteText(data, 0)
  {
    hide Hex;
    text := "[";
    var j := 0;
    while j < |data|
      invariant 0 <= j <= |data|
      invariant text + ByteText(data, j) == "[" + ByteText(data, 0)
    {
      var token := Hex(data[j], 2) + if j < |data| - 1 then " " else "";
      assert ByteText(data, j) == token + ByteText(data, j + 1);
      assert text + (token + ByteText(data, j + 1)) == text + token + ByteText(data, j + 1);
      text := text + token;
      j := j + 1;
    }
    text := text + "]";
  }

  // ----- the printed text, character by character -----

  /** The two digits of a byte. */
  function Pair(b: byte): string {
    ["0123456789abcdef"[b / 16], "0123456789abcdef"[b % 16]]
  }

  lemma HexByte(u: nat, d: byte, n: nat)
    requires n >= 2
    ensures Hex(256 * u + d, n) == Hex(u, n - 2) + Pair(d)
  {
    var v := 256 * u + d;
    assert v / 16 == 16 * u + d / 16 && v % 16 == d % 16 && v / 16 / 16 == u && v / 16 % 16 == d / 16;
    assert Hex(v, n) == Hex(v / 16, n - 1) + [HexDigit(d % 16)];
    assert Hex(v / 16, n - 1) == Hex(u, n - 2) + [HexDigit(d / 16)];
  }

  lemma HexOfByte(d: byte)
    ensures Hex(d, 2) == Pair(d)
  {
    HexByte(0, d, 2);
    assert Hex(0, 0) == "";
  }

  lemma HexOfTwo(a: byte, b: byte)
    ensures Hex(256 * (a as int) + b, 4) == Pair(a) + Pair(b)
  {
    HexByte(a, b, 4);
    HexOfByte(a);
  }

  lemma HexOfWord(a: byte, b: byte, c: byte, d: byte)
    ensures Hex(Weighted(a, b, c, d), 8) == Pair(a) + Pair(b) + Pair(c) + Pair(d)
  {
    hide Hex, Pair;
    var u1: nat := 256 * (a as int) + b;
    var u2: nat := 256 * u1 + c;
    assert Hex(u2, 6) == Pair(a) + Pair(b) + Pair(c) by {
      HexOfTwo(a, b);
      HexByte(u1, c, 6);
    }
    assert Weighted(a, b, c, d) == 256 * u2 + d;
    HexByte(u2, d, 8);
  }

  /** A cell in hexadecimal shows its bytes in memory order. */
  lemma HexOfCell(data: seq<byte>, j: nat)
    requires 4 * j + 4 <= |data|
    ensures Hex(Cell(data, j), 8)
         == Pair(data[4 * j]) + Pair(data[4 * j + 1]) + Pair(data[4 * j + 2]) + Pair(data[4 * j + 3])
  {
    HexOfWord(data[4 * j], data[4 * j + 1], data[4 * j + 2], data[4 * j + 3]);
  }

  /** Eleven characters: `0x`, the bytes of cell i, and a blank or the bracket. */
  function CellShown(data: seq<byte>, i: nat): (s: string)
    requires |data| % 4 == 0 && i < |data| / 4
    ensures |s| == 11
  {
    "0x" + (Pair(data[4 * i]) + Pair(data[4 * i + 1]) + Pair(data[4 * i + 2]) + Pair(data[4 * i + 3]))
    + if i + 1 < |data| / 4 then " " else ">"
  }

  lemma CellFirst(data: seq<byte>, j: nat)
    requires |data| % 4 == 0 && j < |data| / 4
    ensures CellText(data, j) == CellShown(data, j) + if j + 1 < |data| / 4 then CellText(data, j + 1) else ""
  {
    HexOfCell(data, j);
    hide Hex, Cell, Pair;
    if j + 1 == |data| / 4 {
      assert CellText(data, j + 1) == ">";
    }
  }

  lemma Shifted(first: string, rest: string, k: nat, n: nat)
    requires k + n <= |rest|
    ensures (first + rest)[|first| + k..|first| + k + n] == rest[k..k + n]
  {
  }

  lemma {:induction false} CellTextLength(data: seq<byte>, j: nat)
    requires |data| % 4 == 0 && j < |data| / 4
    ensures |CellText(data, j)| == 11 * (|data| / 4 - j)
    decreases |data| - j
  {
    CellFirst(data, j);
    hide CellText, CellShown;
    if j + 1 < |data| / 4 {
      CellTextLength(data, j + 1);
    }
  }

  lemma SliceFirst(first: string, rest: string)
    ensures (first + rest)[..|first|] == first
  {
  }

  /** Cell i stands at position 11 * (i - j) of the text from cell j on. */
  lemma {:induction false} CellTextAt(data: seq<byte>, j: nat, i: nat)
    requires |data| % 4 == 0 && j <= i < |data| / 4
    ensures var t, k := CellText(data, j), 11 * (i - j);
      |t| == 11 * (|data| / 4 - j) && t[k..k + 11] == CellShown(data, i)
    decreases i - j
  {
    hide CellText, CellShown;
    CellTextLength(data, j);
    CellFirst(data, j);
    var first, rest := CellShown(data, j), if j + 1 < |data| / 4 then CellText(data, j + 1) else "";
    if i == j {
      SliceFirst(first, rest);
    } else {
      CellTextAt(data, j + 1, i);
      Shifted(first, rest, 11 * (i - j - 1), 11);
    }
  }

  /** Three characters: the byte, and a blank or the bracket. */
  function ByteShown(data: seq<byte>, i: nat): (s: string)
    requires i < |data|
    ensures |s| == 3
  {
    Pair(data[i]) + if i + 1 < |data| then " " else "]"
  }

  lemma ByteFirst(data: seq<byte>, j: nat)
    requires j < |data|
    ensures ByteText(data, j) == ByteShown(data, j) + if j + 1 < |data| then ByteText(data, j + 1) else ""
  {
    HexOfByte(data[j]);
    hide Hex, Pair;
    if j + 1 == |data| {
      assert ByteText(data, j + 1) == "]";
    }
  }

  lemma {:induction false} ByteTextAt(data: seq<byte>, j: nat, i: nat)
    requires j <= i < |data|
    ensures var t, k := ByteText(data, j), 3 * (i - j);
      |t| == 3 * (|data| - j) && t[k..k + 3] == ByteShown(data, i)
    decreases |data| - j
  {
    ByteFirst(data, j);
    hide ByteText, ByteShown;
    var first, rest := ByteShown(data, j), if j + 1 < |data| then ByteText(data, j + 1) else "";
    if j + 1 < |data| {
      ByteTextAt(data, j + 1, if i == j then j + 1 else i);
      if i > j {
        Shifted(first, rest, 3 * (i - j - 1), 3);
      }
    }
    if i == j {
      assert (first + rest)[0..3] == first;
    }
  }

  // ----- fdt_parse_prop -----

  function SkipSpaces(s: string): (r: string)
    ensures |r| <= |s| && (r == [] || r[0] != ' ')
  {
    if s != [] && s[0] == ' ' then SkipSpaces(s[1..]) else s
  }

  function BigEndian(v: word): seq<byte> { [v / 16777216, v / 65536 % 256, v / 256 % 256, v % 256] }

  function TotalLength(args: seq<string>): nat { if args == [] then 0 else |args[0]| + 1 + TotalLength(args[1..]) }

  /** The cell loop: cur is left of the current argument, more are the following ones. */
  function ParseCells(cur: string, more: seq<string>, out: seq<byte>): Option<seq<byte>>
    decreases |cur| + TotalLength(more)
  {
    if cur == [] then
      if more == [] then None else ParseCells(more[0], more[1..], out)
    else if cur[0] == '>' then Some(out)
    else
      var (v, rest) := StrToUl(cur, 0);
      if |rest| == |cur| then None else ParseCells(SkipSpaces(rest), more, out + BigEndian(v))
  }

  /** The byte loop; it needs no progress check, as it only converts hex digits. */
  function ParseBytes(cur: string, more: seq<string>, out: seq<byte>): Option<seq<byte>>
    decreases |cur| + TotalLength(more)
  {
    if cur != [] && cur[0] == ']' then Some(out)
    else
      var s := SkipSpaces(cur);
      if s == [] then
        if more == [] then None else ParseBytes(more[0], more[1..], out)
      else if !IsHex(s[0]) then
        if s[0] == ']' then Some(out) else None
      else
        var (v, rest) := StrToUl(s, 16);
        HexAdvances(s);
        ParseBytes(rest, more, out + [v % 256])
  }

  lemma HexAdvances(s: string)
    requires s != [] && IsHex(s[0])
    ensures |StrToUl(s, 16).1| < |s|
  {
  }

  /** The string case: every argument with its final zero. */
  function ParseStrings(args: seq<string>): seq<byte> {
    if args == [] then [] else Codes(args[0]) + [0] + ParseStrings(args[1..])
  }

  function Codes(s: string): (r: seq<byte>)
    ensures |r| == |s|
  {
    if s == [] then [] else [s[0] as int % 256] + Codes(s[1..])
  }

  /** fdt_parse_prop; None stands for its error return. */
  function ParseProp(args: seq<string>): Option<seq<byte>>
    requires args != []
  {
    if args[0] != [] && args[0][0] == '<' then ParseCells(args[0][1..], args[1..], [])
    else if args[0] != [] && args[0][0] == '[' then ParseBytes(args[0][1..], args[1..], [])
    else Some(ParseStrings(args))
  }

  method ParseCellArgs(newval: seq<string>) returns (r: Option<seq<byte>>)
    requires newval != [] && newval[0] != []
    ensures r == ParseCells(newval[0][1..], newval[1..], [])
  {
    hide StrToUl, BigEndian;
    var stridx, newp := 0, newval[0][1..];
    var data: seq<byte> := [];
    while stridx < |newval| && (newp == [] || newp[0] != '>')
      invariant 0 <= stridx <= |newval|
      invariant stridx < |newval| ==>
        ParseCells(newp, newval[stridx + 1..], data) == ParseCells(newval[0][1..], newval[1..], [])
      invariant stridx == |newval| ==> newp == [] && ParseCells(newval[0][1..], newval[1..], []) == None
      decreases |newval| - stridx, |newp|
    {
      if newp == [] {
        stridx := stridx + 1;
        if stridx < |newval| {
          newp := newval[stridx];
          assert newval[stridx..][0] == newval[stridx] && newval[stridx..][1..] == newval[stridx + 1..];
        }
        continue;
      }
      var (tmp, rest) := StrToUl(newp, 0);
      data := data + BigEndian(tmp);
      if |rest| == |newp| {
        return None;
      }
      newp := SkipSpaces(rest);
    }
    r := if newp == [] || newp[0] != '>' then None else Some(data);
  }

  method ParseByteArgs(newval: seq<string>) returns (r: Option<seq<byte>>)
    requires newval != [] && newval[0] != []
    ensures r == ParseBytes(newval[0][1..], newval[1..], [])
  {
    hide StrToUl, IsHex;
    var stridx, newp := 0, newval[0][1..];
    var data: seq<byte> := [];
    while stridx < |newval| && (newp == [] || newp[0] != ']')
      invariant 0 <= stridx <= |newval|
      invariant stridx < |newval| ==>
        ParseBytes(newp, newval[stridx + 1..], data) == ParseBytes(newval[0][1..], newval[1..], [])
      invariant stridx == |newval| ==> newp == [] && ParseBytes(newval[0][1..], newval[1..], []) == None
      decreases |newval| - stridx, |newp|
    {
      var s := SkipSpaces(newp);
      if s == [] {
        stridx, newp := stridx + 1, s;
        if stridx < |newval| {
          newp := newval[stridx];
          assert newval[stridx..][0] == newval[stridx] && newval[stridx..][1..] == newval[stridx + 1..];
        }
        continue;
      }
      if !IsHex(s[0]) {
        newp := s;
        break;
      }
      var (tmp, rest) := StrToUl(s, 16);
      HexAdvances(s);
      newp, data := rest, data + [tmp % 256];
    }
    r := if newp == [] || newp[0] != ']' then None else Some(data);
  }

  method ParseStringArgs(newval: seq<string>) returns (data: seq<byte>)
    ensures data == ParseStrings(newval)
  {
    var stridx := 0;
    data := [];
    while stridx < |newval|
      invariant 0 <= stridx <= |newval|
      invariant data + ParseStrings(newval[stridx..]) == ParseStrings(newval)
    {
      assert newval[stridx..][1..] == newval[stridx + 1..];
      data := data + (Codes(newval[stridx]) + [0]);
      stridx := stridx + 1;
    }
  }

  method ParsePropArgs(newval: seq<string>) returns (r: Option<seq<byte>>)
    requires newval != []
    ensures r == ParseProp(newval)
  {
    if newval[0] != [] && newval[0][0] == '<' {
      r := ParseCellArgs(newval);
    } else if newval[0] != [] && newval[0][0] == '[' {
      r := ParseByteArgs(newval);
    } else {
      var data := ParseStringArgs(newval);
      r := Some(data);
    }
  }

  // ----- the round trip -----

  /** The arguments with one space between each two. */
  function Join(args: seq<string>): string
    requires args != []
  {
    if |args| == 1 then args[0] else args[0] + " " + Join(args[1..])
  }

  predicate NoSpace(s: string) { forall i :: 0 <= i < |s| ==> s[i] != ' ' }

  /**
    However a text of a word, a space and a tail is split, the first argument is
    the word or goes on behind the space.
   */
  lemma SplitStep(cur: string, more: seq<string>, token: string, tail: string)
    requires Join([cur] + more) == token + " " + tail && NoSpace(token) && tail != [] && tail[0] != ' '
    ensures (cur == token && more != [] && Join(more) == tail) ||
      (|cur| > |token| && cur == token + " " + cur[|token| + 1..] && cur[|token| + 1..] != [] &&
          cur[|token| + 1] != ' ' &&
       Join([cur[|token| + 1..]] + more) == tail)
  {
    var all := token + " " + tail;
    assert all[|token|] == ' ';
    assert all[..|token|] == token && all[|token| + 1..] == tail;
    if more == [] {
      assert cur == all;
      assert [cur[|token| + 1..]] + more == [tail];
    } else {
      assert ([cur] + more)[1..] == more;
      assert all == cur + " " + Join(more);
      assert all[|cur|] == ' ';
      if |cur| == |token| {
        assert all[..|cur|] == cur && all[|cur| + 1..] == Join(more);
      } else {
        var c := cur[|token| + 1..];
        assert cur[|token|] == all[|token|];
        assert cur[..|token|] == all[..|token|];
        assert cur == token + " " + c;
        assert tail == c + " " + Join(more);
        assert ([c] + more)[1..] == more;
        assert tail[0] == if c == [] then ' ' else c[0];
      }
    }
  }

  /** A text without spaces is one argument. */
  lemma NoSplit(cur: string, more: seq<string>, text: string)
    requires Join([cur] + more) == text && NoSpace(text)
    ensures more == [] && cur == text
  {
    if more != [] {
      SplitShows(cur, more);
      assert false;
    }
  }

  lemma SplitShows(cur: string, more: seq<string>)
    requires more != []
    ensures |cur| < |Join([cur] + more)| && Join([cur] + more)[|cur|] == ' '
  {
    assert ([cur] + more)[1..] == more;
  }

  lemma BigEndianOfCell(data: seq<byte>, j: nat)
    requires 4 * j + 4 <= |data|
    ensures BigEndian(Cell(data, j)) == data[4 * j..4 * j + 4]
  {
    Digits(data[4 * j], data[4 * j + 1], data[4 * j + 2], data[4 * j + 3]);
  }

  lemma Digits(a: int, b: int, c: int, d: int)
    requires 0 <= a < 256 && 0 <= b < 256 && 0 <= c < 256 && 0 <= d < 256
    ensures var v := Weighted(a, b, c, d);
      v / 16777216 == a && v / 65536 % 256 == b && v / 256 % 256 == c && v % 256 == d
  {
    var v := Weighted(a, b, c, d);
    assert v / 65536 == 256 * a + b;
    assert v / 256 == 65536 * a + 256 * b + c;
  }

  lemma HexNoSpace(v: nat, n: nat)
    ensures NoSpace(Hex(v, n))
  {
  }

  /** One turn of the cell loop on a printed cell. */
  lemma CellTaken(v: word, rest: string, more: seq<string>, out: seq<byte>)
    requires Stops(rest)
    ensures ParseCells("0x" + Hex(v, 8) + rest, more, out) == ParseCells(SkipSpaces(rest), more, out + BigEndian(v))
  {
    hide Hex, StrToUl, BigEndian, SkipSpaces;
    var cur := "0x" + Hex(v, 8) + rest;
    assert cur[0] == '0';
    CellRead(v, rest);
  }

  lemma {:induction false} CellsRound(data: seq<byte>, j: nat, cur: string, more: seq<string>, out: seq<byte>)
    requires |data| % 4 == 0 && 4 * j < |data| && Join([cur] + more) == CellText(data, j)
    ensures ParseCells(cur, more, out) == Some(out + data[4 * j..])
    decreases |data| - 4 * j
  {
    hide Hex, Cell, BigEndian, StrToUl, Join;
    var v := Cell(data, j);
    var token := "0x" + Hex(v, 8);
    HexNoSpace(v, 8);
    BigEndianOfCell(data, j);
    assert out + data[4 * j..] == out + BigEndian(v) + data[4 * j + 4..];
    if j == |data| / 4 - 1 {
      assert CellText(data, j + 1) == ">" && data[4 * j + 4..] == [];
      assert CellText(data, j) == token + ">";
      NoSplit(cur, more, token + ">");
      assert out + data[4 * j..] == out + BigEndian(v);
      CellTaken(v, ">", more, out);
      assert SkipSpaces(">") == ">";
    } else {
      var tail := CellText(data, j + 1);
      assert CellText(data, j) == token + " " + tail;
      TailStarts(data, j + 1);
      SplitStep(cur, more, token, tail);
      if cur == token && more != [] && Join(more) == tail {
        assert token + "" == token;
        CellTaken(v, "", more, out);
        assert [more[0]] + more[1..] == more;
        CellsRound(data, j + 1, more[0], more[1..], out + BigEndian(v));
      } else {
        var c := cur[|token| + 1..];
        assert cur == token + (" " + c);
        CellTaken(v, " " + c, more, out);
        SpaceSkipped(c);
        CellsRound(data, j + 1, c, more, out + BigEndian(v));
      }
    }
  }

  lemma SpaceSkipped(c: string)
    requires c != [] && c[0] != ' '
    ensures SkipSpaces(" " + c) == c
  {
    assert (" " + c)[1..] == c;
  }

  lemma TailStarts(data: seq<byte>, j: nat)
    requires |data| % 4 == 0 && 4 * j < |data|
    ensures CellText(data, j) != [] && CellText(data, j)[0] == '0'
  {
  }

  /** One turn of the byte loop on a printed byte. */
  lemma ByteTaken(b: byte, rest: string, more: seq<string>, out: seq<byte>)
    requires Stops(rest)
    ensures ParseBytes(Hex(b, 2) + rest, more, out) == ParseBytes(rest, more, out + [b])
  {
    hide Hex, StrToUl;
    var cur := Hex(b, 2) + rest;
    assert cur[0] == Hex(b, 2)[0];
    assert SkipSpaces(cur) == cur;
    ByteRead(b, rest);
  }

  lemma {:induction false} BytesRound(data: seq<byte>, j: nat, cur: string, more: seq<string>, out: seq<byte>)
    requires j < |data| && Join([cur] + more) == ByteText(data, j)
    ensures ParseBytes(cur, more, out) == Some(out + data[j..])
    decreases |data| - j
  {
    hide Hex, StrToUl, Join;
    var b := data[j];
    var token := Hex(b, 2);
    HexNoSpace(b, 2);
    assert out + data[j..] == out + [b] + data[j + 1..];
    if j == |data| - 1 {
      assert ByteText(data, j + 1) == "]" && data[j + 1..] == [];
      assert ByteText(data, j) == token + "]";
      NoSplit(cur, more, token + "]");
      assert out + data[j..] == out + [b];
      ByteTaken(b, "]", more, out);
    } else {
      var tail := ByteText(data, j + 1);
      assert ByteText(data, j) == token + " " + tail;
      assert tail[0] == Hex(data[j + 1], 2)[0];
      SplitStep(cur, more, token, tail);
      if cur == token && more != [] && Join(more) == tail {
        assert token + "" == token;
        ByteTaken(b, "", more, out);
        assert [more[0]] + more[1..] == more;
        BytesRound(data, j + 1, more[0], more[1..], out + [b]);
      } else {
        var c := cur[|token| + 1..];
        assert cur == token + (" " + c);
        ByteTaken(b, " " + c, more, out);
        SpaceIgnored(c, more, out + [b]);
        BytesRound(data, j + 1, c, more, out + [b]);
      }
    }
  }

  /** One space in front changes nothing for the byte loop. */
  lemma SpaceIgnored(c: string, more: seq<string>, out: seq<byte>)
    requires c != [] && c[0] != ' '
    ensures ParseBytes(" " + c, more, out) == ParseBytes(c, more, out)
  {
    SpaceSkipped(c);
  }

  /** What print_data prints for a value is parsed to the same value, however the text is split at spaces. */
  lemma {:induction false} PrintedIsParsed(data: seq<byte>, args: seq<string>)
    requires data != [] && args != []
    requires Join(args) == if |data| % 4 == 0 then "<" + CellText(data, 0) else "[" + ByteText(data, 0)
    ensures ParseProp(args) == Some(data)
  {
    hide ParseCells, ParseBytes, CellText, ByteText, Join;
    var none: seq<byte> := [];
    assert none + data[0..] == data;
    if |data| % 4 == 0 {
      Opened(args, '<', CellText(data, 0));
      CellsRound(data, 0, args[0][1..], args[1..], none);
    } else {
      Opened(args, '[', ByteText(data, 0));
      BytesRound(data, 0, args[0][1..], args[1..], none);
    }
  }

  lemma Opened(args: seq<string>, bracket: char, tail: string)
    requires args != [] && Join(args) == [bracket] + tail && bracket != ' '
    ensures args[0] != [] && args[0][0] == bracket && Join([args[0][1..]] + args[1..]) == tail
  {
    assert Join(args)[0] == bracket;
    if |args| > 1 {
      assert Join(args)[0] == if args[0] == [] then ' ' else args[0][0];
      if args[0] != [] {
        assert Join(args)[1..] == args[0][1..] + " " + Join(args[1..]);
        assert ([args[0][1..]] + args[1..])[1..] == args[1..];
      }
      assert Join(args)[1..] == tail;
    } else {
      assert [args[0][1..]] + args[1..] == [tail];
    }
  }

  lemma {:induction false} CodesOfChars(b: seq<byte>)
    ensures Codes(Chars(b)) == b
    decreases |b|
  {
    if b != [] {
      assert Chars(b)[1..] == Chars(b[1..]);
      CodesOfChars(b[1..]);
    }
  }

  lemma FirstString(data: seq<byte>)
    requires data != []
    ensures ParseStrings(StringsOf(data)) == data[..ZeroAt(data)] + [0] + ParseStrings(StringsOf(Behind(data)))
  {
    hide Codes, Chars;
    CodesOfChars(data[..ZeroAt(data)]);
    assert StringsOf(data)[1..] == StringsOf(Behind(data));
  }

  predicate ZeroEnded(data: seq<byte>) { data == [] || data[|data| - 1] == 0 }

  lemma {:induction false} SplitAtZero(data: seq<byte>)
    requires data != []
    ensures var first, next := data[..ZeroAt(data)], Behind(data);
      && |next| < |data|
      && (next == [] && !ZeroEnded(data) ==> first == data)
      && (next != [] || ZeroEnded(data) ==> data == first + [0] + next && ZeroEnded(next) == ZeroEnded(data))
  {
    hide ZeroAt;
    var n := ZeroAt(data);
    if n < |data| {
      assert data[..n] + [0] + data[n + 1..] == data;
    } else {
      assert data[..n] == data && data[|data| - 1] != 0;
    }
  }

  lemma Regroup(a: seq<byte>, b: seq<byte>, c: seq<byte>)
    ensures a + (b + c) == (a + b) + c
  {
  }

  /** Strings as arguments: each gets its zero back, also a last one that had none. */
  lemma {:induction false} StringsParsed(data: seq<byte>)
    ensures ParseStrings(StringsOf(data)) == data + if ZeroEnded(data) then [] else [0]
    decreases |data|
  {
    if data != [] {
      SplitAtZero(data);
      FirstString(data);
      var first, next := data[..ZeroAt(data)], Behind(data);
      StringsParsed(next);
      hide ZeroAt, Behind, StringsOf, ParseStrings;
      var end := if ZeroEnded(data) then [] else [0];
      if next != [] || ZeroEnded(data) {
        Regroup(first + [0], next, end);
      }
    }
  }

  // ----- text that starts with a bracket is too long for what is parsed from it -----

  lemma NextBelow(acc: word, base: nat, d: nat)
    requires d < base <= 16
    ensures (acc * base + d) % WORD <= 16 * acc + 15
  {
    Monotone(base, 16, acc);
    var x := acc * base;
    assert 0 <= x <= 16 * acc && (x + d) % WORD <= x + d;
  }

  lemma DigitBelow(acc: nat, next: nat, v: nat, p: nat)
    requires next <= 16 * acc + 15 && v < (next + 1) * p
    ensures v < (acc + 1) * (16 * p)
  {
    var most := 16 * acc + 16;
    Monotone(next + 1, most, p);
    Associate(acc + 1, 16, p);
  }

  lemma {:induction false} NumberBelow(s: string, base: nat, acc: word)
    requires 2 <= base <= 16
    ensures var r := Number(s, base, acc); r.0 < (acc + 1) * Power16(|s| - |r.1|)
    decreases |s|
  {
    if s != [] && IsHex(s[0]) && Value(s[0]) < base {
      var next := (acc * base + Value(s[0])) % WORD;
      NumberBelow(s[1..], base, next);
      var r := Number(s[1..], base, next);
      NextBelow(acc, base, Value(s[0]));
      DigitBelow(acc, next, r.0, Power16(|s[1..]| - |r.1|));
    }
  }

  /** A number of four characters or less has two zero bytes in front. */
  lemma ShortNumber(s: string)
    requires |s| - |StrToUl(s, 0).1| <= 4
    ensures StrToUl(s, 0).0 < 65536
  {
    var t := if s != [] && s[0] == '0' then if |s| > 2 && s[1] == 'x' && IsHex(s[2]) then s[2..] else s[1..] else s;
    var base := if s != [] && s[0] == '0' then if |s| > 2 && s[1] == 'x' && IsHex(s[2]) then 16 else 8 else 10;
    NumberBelow(t, base, 0);
    assert Number(t, base, 0) == StrToUl(s, 0);
    assert Power16(0) == 1 && Power16(1) == 16 && Power16(2) == 256 && Power16(3) == 4096 && Power16(4) == 65536;
  }

  lemma {:induction false} CellsKeep(cur: string, more: seq<string>, out: seq<byte>)
    requires ParseCells(cur, more, out).Some?
    ensures out <= ParseCells(cur, more, out).value
    decreases |cur| + TotalLength(more)
  {
    if cur == [] {
      CellsKeep(more[0], more[1..], out);
    } else if cur[0] != '>' {
      var (v, rest) := StrToUl(cur, 0);
      CellsKeep(SkipSpaces(rest), more, out + BigEndian(v));
    }
  }

  /** Cells without two zeros in a row need at least five characters each. */
  lemma {:induction false} CellsShrink(cur: string, more: seq<string>, out: seq<byte>)
    requires ParseCells(cur, more, out).Some? && NoTwoZeros(ParseCells(cur, more, out).value)
    ensures 5 * (|ParseCells(cur, more, out).value| - |out|) < 4 * (|cur| + TotalLength(more))
    decreases |cur| + TotalLength(more)
  {
    if cur == [] {
      CellsShrink(more[0], more[1..], out);
    } else if cur[0] != '>' {
      var (v, rest) := StrToUl(cur, 0);
      var next := out + BigEndian(v);
      CellsShrink(SkipSpaces(rest), more, next);
      CellsKeep(SkipSpaces(rest), more, next);
      var r := ParseCells(cur, more, out).value;
      assert r[|out|] == next[|out|] == v / 16777216 && r[|out| + 1] == next[|out| + 1] == v / 65536 % 256;
      if |cur| - |rest| <= 4 {
        ShortNumber(cur);
      }
    }
  }

  lemma {:induction false} NumberStops(s: string, acc: word)
    ensures var rest := Number(s, 16, acc).1; rest == [] || !IsHex(rest[0])
    decreases |s|
  {
    if s != [] && IsHex(s[0]) {
      NumberStops(s[1..], (acc * 16 + Value(s[0])) % WORD);
    }
  }

  lemma HexStops(s: string)
    ensures var rest := StrToUl(s, 16).1; rest == [] || !IsHex(rest[0])
  {
    NumberStops(s, 0);
    if s != [] {
      NumberStops(s[1..], 0);
      if |s| > 2 {
        NumberStops(s[2..], 0);
      }
    }
  }

  /** Each byte needs a digit and something that ends it. */
  lemma {:induction false} BytesShrink(cur: string, more: seq<string>, out: seq<byte>)
    requires ParseBytes(cur, more, out).Some?
    ensures var n := |cur| + TotalLength(more) - if cur == [] || !IsHex(cur[0]) then 1 else 0;
      2 * (|ParseBytes(cur, more, out).value| - |out|) <= n
    decreases |cur| + TotalLength(more)
  {
    if cur == [] || cur[0] != ']' {
      var s := SkipSpaces(cur);
      if s == [] {
        BytesShrink(more[0], more[1..], out);
      } else if IsHex(s[0]) {
        var (v, rest) := StrToUl(s, 16);
        HexAdvances(s);
        HexStops(s);
        BytesShrink(rest, more, out + [v % 256]);
      }
    }
  }

  lemma {:induction false} StringsLength(data: seq<byte>)
    ensures TotalLength(StringsOf(data)) <= |data| + 1
    decreases |data|
  {
    if data != [] {
      StringsLength(Behind(data));
      assert StringsOf(data)[1..] == StringsOf(Behind(data));
      var n := ZeroAt(data);
      assert |Chars(data[..n])| == n;
      if n == |data| {
        assert TotalLength(StringsOf([])) == 0;
      }
    }
  }

  lemma BracketFails(data: seq<byte>)
    requires data != [] && (data[0] == 60 || data[0] == 91) && NoTwoZeros(data)
    ensures StringsOf(data) != [] && ParseProp(StringsOf(data)) != Some(data)
  {
    var args := StringsOf(data);
    StringsLength(data);
    assert args[0] != [] && args[0][0] == data[0] as char && '<' == 60 as char && '[' == 91 as char;
    hide StringsOf, ParseCells, ParseBytes, StrToUl;
    var r := ParseProp(args);
    if r == Some(data) {
      if data[0] == 60 {
        CellsShrink(args[0][1..], args[1..], []);
      } else {
        BytesShrink(args[0][1..], args[1..], []);
      }
    }
  }

  /**
    The strings of a property without two zeros in a row, given as arguments, are
    parsed to the property exactly when it ends with a zero and does not start
    with a bracket, which is taken for cells or bytes.
   */
  lemma {:induction false} StringsRoundIff(data: seq<byte>)
    requires data != [] && (data[0] == 60 || data[0] == 91 ==> NoTwoZeros(data))
    ensures StringsOf(data) != []
    ensures ParseProp(StringsOf(data)) == Some(data) <==> data[|data| - 1] == 0 && data[0] != 60 && data[0] != 91
  {
    if data[0] == 60 || data[0] == 91 {
      BracketFails(data);
    } else {
      StringsParsed(data);
      assert data + [] == data && |data + [0]| != |data|;
      var first := StringsOf(data)[0];
      assert first != [] ==> first[0] == data[0] as char;
      hide StringsOf, ParseStrings, ParseCells, ParseBytes;
      assert '<' == 60 as char && '[' == 91 as char;
    }
  }

  /** The property printed and, split into any arguments, set again. */
  method PrintThenParse(data: seq<byte>, beyond: byte, limit: nat, split: string -> seq<string>)
      returns (r: Option<seq<byte>>)
    requires 0 < |data| <= limit && !LooksLikeStrings(data, beyond)
    requires forall t :: split(t) != [] && Join(split(t)) == t
    ensures r == Some(data)
  {
    hide CellText, ByteText, ParseProp, LooksLikeStrings, Join;
    var p := PrintData(data, beyond, limit);
    PrintedIsParsed(data, split(p.text));
    r := ParsePropArgs(split(p.text));
  }
}
