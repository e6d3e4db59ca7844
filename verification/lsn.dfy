/** LSNs as text, `hi/lo` in hexadecimal, and the rows of a consuming poll. */
module Lsn {
  import opened Values

  const LOW := 0x1_0000_0000

  // ---- Bitwise or ------------------------------------------------------------------------------

  /** Python's `|` on non-negative integers, bit by bit. */
  function Or(a: nat, b: nat): nat
    decreases a + b
  {
    if a == 0 then b
    else if b == 0 then a
    else 2 * Or(a / 2, b / 2) + (if a % 2 == 1 || b % 2 == 1 then 1 else 0)
  }

  function Pow2(n: nat): (p: nat)
    ensures p >= 1
  {
    if n == 0 then 1 else 2 * Pow2(n - 1)
  }

  /** The bits that two numbers have in common. */
  function And(a: nat, b: nat): nat
    decreases a + b
  {
    if a == 0 || b == 0 then 0
    else 2 * And(a / 2, b / 2) + (if a % 2 == 1 && b % 2 == 1 then 1 else 0)
  }

  lemma {:induction false} OrAndSum(a: nat, b: nat)
    ensures Or(a, b) + And(a, b) == a + b
    decreases a + b
  {
    if a == 0 || b == 0 {
    } else {
      OrAndSum(a / 2, b / 2);
    }
  }

  function Shl(h: nat, n: nat): nat { if n == 0 then h else 2 * Shl(h, n - 1) }
  function Shr(l: nat, n: nat): nat { if n == 0 then l else Shr(l / 2, n - 1) }

  /** A number shifted left meets only the bits of another above the shift. */
  lemma {:induction false} AndShift(h: nat, l: nat, n: nat)
    ensures And(Shl(h, n), l) == Shl(And(h, Shr(l, n)), n)
  {
    if n == 0 {
    } else {
      AndShift(h, l / 2, n - 1);
      AndDouble(Shl(h, n - 1), l);
    }
  }

  lemma AndDouble(a: nat, l: nat)
    ensures And(2 * a, l) == 2 * And(a, l / 2)
  {
  }

  lemma {:induction false} ShlIsTimes(h: nat, n: nat)
    ensures Shl(h, n) == h * Pow2(n)
  {
    if n == 0 {
    } else {
      ShlIsTimes(h, n - 1);
      assert 2 * (h * Pow2(n - 1)) == h * (2 * Pow2(n - 1));
    }
  }

  lemma {:induction false} ShrSplits(l: nat, n: nat) returns (r: nat)
    ensures r < Pow2(n) && l == Shl(Shr(l, n), n) + r
  {
    if n == 0 {
      r := 0;
    } else {
      var half := ShrSplits(l / 2, n - 1);
      r := 2 * half + l % 2;
    }
  }

  /** Shifting left by `n` leaves `n` zero bits, so or-ing a number below `2 ** n` adds it. */
  lemma {:induction false} OrIsPlus(h: nat, l: nat, n: nat)
    requires l < Pow2(n)
    ensures Or(h * Pow2(n), l) == h * Pow2(n) + l
  {
    if n == 0 || h == 0 || l == 0 {
    } else {
      var a := h * Pow2(n - 1);
      assert h * Pow2(n) == 2 * a;
      assert a >= 1 by { assert h * Pow2(n - 1) >= 1; }
      OrIsPlus(h, l / 2, n - 1);
    }
  }

  lemma Pow32()
    ensures Pow2(32) == LOW
  {
    assert Pow2(8) == 256;
    assert Pow2(16) == 0x1_0000;
    assert Pow2(24) == 0x100_0000;
  }

  // ---- Hexadecimal ---------------------------------------------------------------------------------

  function HexChar(d: nat): char
    requires d < 16
  {
    if d < 10 then '0' + d as char else 'A' + (d - 10) as char
  }

  function HexValue(c: char): Option<nat> {
    if '0' <= c <= '9' then Some((c - '0') as nat)
    else if 'A' <= c <= 'F' then Some((c - 'A') as nat + 10)
    else if 'a' <= c <= 'f' then Some((c - 'a') as nat + 10)
    else None
  }

  /** `format(n, "X")` */
  function PrintHex(n: nat): string {
    if n < 16 then [HexChar(n)] else PrintHex(n / 16) + [HexChar(n % 16)]
  }

  /** The value of the digits read so far, most significant first. */
  function Digits(s: string): Option<nat> {
    if s == [] then Some(0)
    else
      match (Digits(s[..|s| - 1]), HexValue(s[|s| - 1]))
      case (Some(n), Some(d)) => Some(16 * n + d)
      case _ => None
  }

  /** `int(s, 16)` on plain hexadecimal digits. */
  function ParseHex(s: string): Option<nat> { if s == [] then None else Digits(s) }

  /** Zero padding on the left, up to `width`. */
  function Pad(s: string, width: nat): string
    decreases width - |s|
  {
    if |s| >= width then s else Pad(['0'] + s, width)
  }

  lemma HexCharInverts(d: nat)
    requires d < 16
    ensures HexValue(HexChar(d)) == Some(d) && HexChar(d) != '/'
  {
  }

  lemma {:induction false} PrintHexInverts(n: nat)
    ensures Digits(PrintHex(n)) == Some(n) && PrintHex(n) != [] && '/' !in PrintHex(n)
  {
    hide HexValue, HexChar;
    if n < 16 {
      HexCharInverts(n);
      assert [HexChar(n)][..0] == [];
    } else {
      PrintHexInverts(n / 16);
      HexCharInverts(n % 16);
      assert PrintHex(n)[..|PrintHex(n)| - 1] == PrintHex(n / 16);
    }
  }

  lemma {:induction false} LeadingZero(s: string)
    ensures Digits(['0'] + s) == Digits(s)
  {
    if s == [] {
      assert ['0'] + s == ['0'];
      assert ['0'][..0] == [];
    } else {
      assert (['0'] + s)[..|s|] == ['0'] + s[..|s| - 1];
      LeadingZero(s[..|s| - 1]);
    }
  }

  lemma {:induction false} PadInverts(s: string, width: nat)
    requires '/' !in s
    ensures Digits(Pad(s, width)) == Digits(s) && '/' !in Pad(s, width) && |Pad(s, width)| >= |s|
    decreases width - |s|
  {
    if |s| >= width {
    } else {
      LeadingZero(s);
      PadInverts(['0'] + s, width);
    }
  }

  // ---- LSN text ------------------------------------------------------------------------------------------

  /** `s.split("/")` */
  function SplitSlash(s: string): (parts: seq<string>)
    ensures parts != []
  {
    if s == [] then [[]]
    else
      var init, c := SplitSlash(s[..|s| - 1]), s[|s| - 1];
      if c == '/' then init + [[]] else init[..|init| - 1] + [init[|init| - 1] + [c]]
  }

  /** `_lsn_str_to_int`; None stands for the ValueError of malformed text. */
  function StrToInt(s: string): Option<nat> {
    var parts := SplitSlash(s);
    if |parts| != 2 then None
    else
      match (ParseHex(parts[0]), ParseHex(parts[1]))
      case (Some(hi), Some(lo)) => Some(Or(hi * LOW, lo))
      case _ => None
  }

  /** `_lsn_int_to_str` */
  function IntToStr(lsn: nat): string {
    PrintHex(lsn / LOW) + ['/'] + Pad(PrintHex(lsn % LOW), 8)
  }

  lemma {:induction false} SplitPlain(s: string)
    requires '/' !in s
    ensures SplitSlash(s) == [s]
  {
    if s == [] {
    } else {
      SplitPlain(s[..|s| - 1]);
      assert s == s[..|s| - 1] + [s[|s| - 1]];
    }
  }

  lemma {:induction false} SplitPair(a: string, b: string)
    requires '/' !in a && '/' !in b
    ensures SplitSlash(a + ['/'] + b) == [a, b]
  {
    var s := a + ['/'] + b;
    if b == [] {
      assert s[..|s| - 1] == a;
      SplitPlain(a);
    } else {
      var init := b[..|b| - 1];
      assert s[..|s| - 1] == a + ['/'] + init;
      SplitPair(a, init);
      assert b == init + [b[|b| - 1]];
    }
  }

  /** Reading `hi/lo` is `hi * 2 ** 32 + lo` as long as `lo` fits its 32 bits. */
  lemma PairValue(a: string, b: string, hi: nat, lo: nat)
    requires '/' !in a && '/' !in b && ParseHex(a) == Some(hi) && ParseHex(b) == Some(lo)
    ensures StrToInt(a + ['/'] + b) == Some(Or(hi * LOW, lo))
    ensures lo < LOW ==> StrToInt(a + ['/'] + b) == Some(hi * LOW + lo)
  {
    hide Or, ParseHex, Pow2;
    SplitPair(a, b);
    if lo < LOW {
      Pow32();
      OrIsPlus(hi, lo, 32);
    }
  }

  /** Printing and reading back returns every LSN. */
  lemma RoundTrip(lsn: nat)
    ensures StrToInt(IntToStr(lsn)) == Some(lsn)
  {
    hide PrintHex, Pad, StrToInt, Digits;
    var hi, lo := lsn / LOW, lsn % LOW;
    PrintHexInverts(hi);
    PrintHexInverts(lo);
    PadInverts(PrintHex(lo), 8);
    PairValue(PrintHex(hi), Pad(PrintHex(lo), 8), hi, lo);
  }

  /** Reading keeps the order of LSNs: first by `hi`, then by `lo`. */
  lemma ReadingKeepsOrder(a: string, b: string, hiA: nat, loA: nat, c: string, d: string, hiC: nat, loC: nat)
    requires '/' !in a && '/' !in b && ParseHex(a) == Some(hiA) && ParseHex(b) == Some(loA) && loA < LOW
    requires '/' !in c && '/' !in d && ParseHex(c) == Some(hiC) && ParseHex(d) == Some(loC) && loC < LOW
    ensures var x, y := StrToInt(a + ['/'] + b), StrToInt(c + ['/'] + d);
            x.Some? && y.Some? && (x.value < y.value <==> hiA < hiC || (hiA == hiC && loA < loC))
  {
    hide StrToInt, ParseHex;
    PairValue(a, b, hiA, loA);
    PairValue(c, d, hiC, loC);
  }

  /** Reading `hi/lo` is `hi * 2 ** 32 + lo` exactly when `lo` has no bit in common with `hi` above its 32 bits. */
  lemma {:induction false} PairValueIffDisjoint(a: string, b: string, hi: nat, lo: nat)
    requires '/' !in a && '/' !in b && ParseHex(a) == Some(hi) && ParseHex(b) == Some(lo)
    ensures StrToInt(a + ['/'] + b) == Some(hi * LOW + lo) <==> And(hi, lo / LOW) == 0
  {
    hide Or, And, ParseHex, Pow2, StrToInt, Shl, Shr;
    PairValue(a, b, hi, lo);
    Pow32();
    OrAndSum(hi * LOW, lo);
    AndShift(hi, lo, 32);
    ShlIsTimes(hi, 32);
    ShlIsTimes(And(hi, Shr(lo, 32)), 32);
    var r := ShrSplits(lo, 32);
    ShlIsTimes(Shr(lo, 32), 32);
    assert Shr(lo, 32) == lo / LOW;
  }

  // ---- What a text means, digit by digit ---------------------------------------------------------------------

  /** The hexadecimal digit for `d`, in either case. */
  ghost predicate IsDigit(c: char, d: nat) {
    d < 16 && (c == "0123456789ABCDEF"[d] || c == "0123456789abcdef"[d])
  }

  /** The digits of `n`, possibly after leading zeros. */
  ghost predicate Spells(s: string, n: nat) {
    if |s| == 0 then false
    else if |s| == 1 then IsDigit(s[0], n)
    else Spells(s[..|s| - 1], n / 16) && IsDigit(s[|s| - 1], n % 16)
  }

  /** `hi`, a slash and `lo`. */
  ghost predicate Halves(s: string, a: string, b: string, hi: nat, lo: nat) {
    s == a + ['/'] + b && Spells(a, hi) && Spells(b, lo)
  }

  lemma DigitIs(c: char, d: nat)
    ensures IsDigit(c, d) <==> HexValue(c) == Some(d)
    ensures IsDigit(c, d) ==> c != '/'
  {
  }

  lemma {:induction false} SpellsIsParse(s: string, n: nat)
    ensures Spells(s, n) <==> ParseHex(s) == Some(n)
    ensures Spells(s, n) ==> '/' !in s
  {
    hide HexValue, IsDigit;
    if |s| == 1 {
      DigitIs(s[0], n);
      assert s[..|s| - 1] == [] && s == [s[0]];
      assert Digits(s) == if HexValue(s[0]).Some? then Some(HexValue(s[0]).value) else None;
    } else if |s| > 1 {
      var init, c := s[..|s| - 1], s[|s| - 1];
      SpellsIsParse(init, n / 16);
      DigitIs(c, n % 16);
      assert s == init + [c];
      if Digits(init).Some? && HexValue(c).Some? {
        DigitIs(c, HexValue(c).value);
        DigitBelow(c);
      }
    }
  }

  lemma DigitBelow(c: char)
    ensures HexValue(c).Some? ==> HexValue(c).value < 16
  {
  }

  lemma {:induction false} SplitJoins(s: string)
    ensures |SplitSlash(s)| == 1 ==> s == SplitSlash(s)[0]
    ensures |SplitSlash(s)| == 2 ==> s == SplitSlash(s)[0] + ['/'] + SplitSlash(s)[1]
  {
    if s != [] {
      SplitJoins(s[..|s| - 1]);
      assert s == s[..|s| - 1] + [s[|s| - 1]];
    }
  }

  /** Text that is read is two halves, and every two halves are read. */
  lemma {:induction false} ReadIsHalves(s: string)
    ensures StrToInt(s).Some? <==> exists a, b, hi: nat, lo: nat :: Halves(s, a, b, hi, lo)
  {
    hide ParseHex, Spells, SplitSlash;
    if StrToInt(s).Some? {
      SplitJoins(s);
      var a, b := SplitSlash(s)[0], SplitSlash(s)[1];
      var hi, lo := ParseHex(a).value, ParseHex(b).value;
      SpellsIsParse(a, hi);
      SpellsIsParse(b, lo);
      assert Halves(s, a, b, hi, lo);
    }
    if a, b, hi: nat, lo: nat :| Halves(s, a, b, hi, lo) {
      HalvesRead(s, a, b, hi, lo);
    }
  }

  /** They are read as `hi * 2 ** 32 + lo`, as long as `lo` fits its 32 bits. */
  lemma HalvesRead(s: string, a: string, b: string, hi: nat, lo: nat)
    requires Halves(s, a, b, hi, lo)
    ensures StrToInt(s).Some? && (lo < 0x1_0000_0000 ==> StrToInt(s) == Some(hi * 0x1_0000_0000 + lo))
  {
    hide ParseHex, Spells, StrToInt;
    SpellsIsParse(a, hi);
    SpellsIsParse(b, lo);
    PairValue(a, b, hi, lo);
  }

  // ---- The rows of one consuming poll ----------------------------------------------------------------------

  /** The driver hands LSNs over as text or as numbers. */
  datatype LsnCell = LsnText(text: string) | LsnNumber(n: nat)

  function CellValue(c: LsnCell): Option<nat> {
    match c
    case LsnText(s) => StrToInt(s)
    case LsnNumber(n) => Some(n)
  }

  /** The LSN that a cell stands for; a low half that does not fit its 32 bits is left open. */
  ghost predicate Means(c: LsnCell, n: nat) {
    match c
    case LsnText(s) =>
      exists a, b, hi: nat, lo: nat :: Halves(s, a, b, hi, lo) && lo < 0x1_0000_0000 && n == hi * 0x1_0000_0000 + lo
    case LsnNumber(m) => n == m
  }

  /** Text that is no two hexadecimal halves. */
  ghost predicate Malformed(c: LsnCell) {
    c.LsnText? && !exists a, b, hi: nat, lo: nat :: Halves(c.text, a, b, hi, lo)
  }

  lemma CellMeans(c: LsnCell)
    ensures CellValue(c).None? <==> Malformed(c)
    ensures forall n: nat :: Means(c, n) ==> CellValue(c) == Some(n)
  {
    hide StrToInt, Halves;
    if c.LsnText? {
      ReadIsHalves(c.text);
      forall n: nat | Means(c, n) ensures StrToInt(c.text) == Some(n) {
        var a, b, hi: nat, lo: nat :|
          Halves(c.text, a, b, hi, lo) && lo < 0x1_0000_0000 && n == hi * 0x1_0000_0000 + lo;
        HalvesRead(c.text, a, b, hi, lo);
      }
    }
  }

  /** The printed form of a number means that number. */
  lemma PrintedMeans(n: nat)
    ensures Means(LsnText(IntToStr(n)), n)
  {
    hide PrintHex, Pad, Digits, Spells;
    var hi, lo := n / LOW, n % LOW;
    PrintHexInverts(hi);
    PrintHexInverts(lo);
    PadInverts(PrintHex(lo), 8);
    SpellsIsParse(PrintHex(hi), hi);
    SpellsIsParse(Pad(PrintHex(lo), 8), lo);
    assert Halves(IntToStr(n), PrintHex(hi), Pad(PrintHex(lo), 8), hi, lo);
  }

  predicate UpperHex(c: char) { '0' <= c <= '9' || 'A' <= c <= 'F' }

  lemma {:induction false} PrintHexShape(n: nat, width: nat)
    requires width >= 1 && n < Pow16(width)
    ensures 1 <= |PrintHex(n)| <= width && (n > 0 ==> PrintHex(n)[0] != '0')
    ensures forall i :: 0 <= i < |PrintHex(n)| ==> UpperHex(PrintHex(n)[i])
  {
    if n >= 16 {
      PrintHexShape(n / 16, width - 1);
    }
  }

  function Pow16(n: nat): nat { if n == 0 then 1 else 16 * Pow16(n - 1) }

  lemma {:induction false} PadShape(s: string, width: nat)
    requires |s| <= width && forall i :: 0 <= i < |s| ==> UpperHex(s[i])
    ensures |Pad(s, width)| == width && forall i :: 0 <= i < width ==> UpperHex(Pad(s, width)[i])
    decreases width - |s|
  {
    if |s| < width {
      PadShape(['0'] + s, width);
    }
  }

  /** `hi` without leading zeros, a slash, and exactly eight upper-case digits. */
  lemma {:induction false} PrintedShape(lsn: nat)
    requires lsn < 0x1_0000_0000_0000_0000
    ensures var s, n := IntToStr(lsn), |PrintHex(lsn / LOW)|;
            && 1 <= n <= 8 && |s| == n + 9 && s[n] == '/' && (s[0] == '0' ==> n == 1)
            && forall i :: 0 <= i < |s| && i != n ==> UpperHex(s[i])
  {
    hide Pad, HexChar;
    assert Pow16(8) == LOW by { assert Pow16(4) == 0x1_0000; }
    PrintHexShape(lsn / LOW, 8);
    PrintHexShape(lsn % LOW, 8);
    PadShape(PrintHex(lsn % LOW), 8);
  }

  /** The loop of `poll_changes`: all rows in slot order, or the exception of the first bad LSN. */
  method PollChanges(rows: seq<(LsnCell, Bytes)>) returns (r: Outcome<seq<(nat, Bytes)>>)
    ensures r.Returned? <==> forall i :: 0 <= i < |rows| ==> CellValue(rows[i].0).Some?
    ensures r.Returned? ==> |r.value| == |rows|
    ensures r.Returned? ==> forall i :: 0 <= i < |rows| ==> r.value[i] == (CellValue(rows[i].0).value, rows[i].1)
    ensures r.Raised? <==> exists i :: 0 <= i < |rows| && Malformed(rows[i].0)
    ensures r.Returned? ==> forall i, n: nat :: 0 <= i < |rows| && Means(rows[i].0, n) ==> r.value[i].0 == n
  {
    hide CellValue, Malformed, Means;
    forall i | 0 <= i < |rows|
      ensures CellValue(rows[i].0).None? <==> Malformed(rows[i].0)
      ensures forall n: nat :: Means(rows[i].0, n) ==> CellValue(rows[i].0) == Some(n)
    {
      CellMeans(rows[i].0);
    }
    var result: seq<(nat, Bytes)> := [];
    for i := 0 to |rows|
      invariant |result| == i
      invariant forall j :: 0 <= j < i ==>
                  CellValue(rows[j].0).Some? && result[j] == (CellValue(rows[j].0).value, rows[j].1)
    {
      var lsn := CellValue(rows[i].0);
      if lsn.None? {
        return Raised;
      }
      result := result + [(lsn.value, rows[i].1)];
    }
    r := Returned(result);
  }
}
