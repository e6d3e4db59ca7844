/** UTF-8, as section 3 of RFC 3629 lays it out, read the way `bytes.decode` reads it. */
module Utf8 {
  import opened Values

  predicate Cont(b: byte) { 0x80 <= b < 0xC0 }

  /** The width of the well-formed sequence that `s` starts with, or 0. */
  function Utf8Width(s: Bytes): (n: nat)
    requires s != []
    ensures n <= |s| && n <= 4
  {
    var b := s[0];
    if b < 0x80 then 1
    else if 0xC2 <= b < 0xE0 && |s| >= 2 && Cont(s[1]) then 2
    else if 0xE0 <= b < 0xF0 && |s| >= 3 && SecondOk(b, s[1]) && Cont(s[2]) then 3
    else if 0xF0 <= b < 0xF5 && |s| >= 4 && SecondOk(b, s[1]) && Cont(s[2]) && Cont(s[3]) then 4
    else 0
  }

  /** No overlong form, no surrogate, nothing beyond U+10FFFF. */
  predicate SecondOk(lead: byte, b: byte) {
    && Cont(b)
    && (lead == 0xE0 ==> b >= 0xA0) && (lead == 0xED ==> b < 0xA0)
    && (lead == 0xF0 ==> b >= 0x90) && (lead == 0xF4 ==> b < 0x90)
  }

  /** Strict UTF-8, as `bytes.decode("utf-8")` accepts it. */
  predicate ValidUtf8(s: Bytes) {
    if s == [] then true
    else
      var n := Utf8Width(s);
      n > 0 && ValidUtf8(s[n..])
  }

  function Scalar(s: Bytes): char
    requires s != [] && Utf8Width(s) > 0
  {
    var n := Utf8Width(s);
    if n == 1 then s[0] as int as char
    else if n == 2 then ((s[0] - 0xC0) as int * 0x40 + (s[1] - 0x80) as int) as char
    else if n == 3 then ((s[0] - 0xE0) as int * 0x1000 + (s[1] - 0x80) as int * 0x40 + (s[2] - 0x80) as int) as char
    else ((s[0] - 0xF0) as int * 0x4_0000 + (s[1] - 0x80) as int * 0x1000 + (s[2] - 0x80) as int * 0x40
          + (s[3] - 0x80) as int) as char
  }

  const REPLACEMENT := '\U{FFFD}'

  /** How many bytes one replacement character stands for: as many as could begin a well-formed sequence. */
  function BadWidth(s: Bytes): (n: nat)
    requires s != [] && Utf8Width(s) == 0
    ensures 1 <= n <= |s|
  {
    var b := s[0];
    if 0xE0 <= b < 0xF5 && |s| >= 2 && SecondOk(b, s[1]) then
      if b >= 0xF0 && |s| >= 3 && Cont(s[2]) then 3 else 2
    else 1
  }

  /** `bytes.decode("utf-8", errors="replace")`; on valid bytes `bytes.decode("utf-8")`. */
  function Chars(s: Bytes): string {
    if s == [] then []
    else if Utf8Width(s) > 0 then [Scalar(s)] + Chars(s[Utf8Width(s)..])
    else [REPLACEMENT] + Chars(s[BadWidth(s)..])
  }

  // ---- Encoding ------------------------------------------------------------------------------

  function EncChar(c: char): (bs: Bytes)
    ensures 1 <= |bs| <= 4
  {
    var n := c as int;
    if n < 0x80 then [n as byte]
    else if n < 0x800 then [(0xC0 + n / 0x40) as byte, (0x80 + n % 0x40) as byte]
    else if n < 0x1_0000 then
      [(0xE0 + n / 0x1000) as byte, (0x80 + n / 0x40 % 0x40) as byte, (0x80 + n % 0x40) as byte]
    else
      [(0xF0 + n / 0x4_0000) as byte, (0x80 + n / 0x1000 % 0x40) as byte, (0x80 + n / 0x40 % 0x40) as byte,
       (0x80 + n % 0x40) as byte]
  }

  /** `str.encode("utf-8")` */
  function EncText(t: string): Bytes {
    if t == [] then [] else EncChar(t[0]) + EncText(t[1..])
  }

  // ---- Both ways ------------------------------------------------------------------------------

  lemma Starts(c: char, tail: Bytes)
    ensures var e := EncChar(c);
            |e + tail| >= |e| && (e + tail)[0] == e[0]
            && (|e| > 1 ==> (e + tail)[1] == e[1]) && (|e| > 2 ==> (e + tail)[2] == e[2])
            && (|e| > 3 ==> (e + tail)[3] == e[3])
  {
    hide EncChar;
  }

  /** Six bits at a time. */
  lemma Cut(q: nat, r: nat)
    requires r < 0x40
    ensures (q * 0x40 + r) / 0x40 == q && (q * 0x40 + r) % 0x40 == r
  {
  }

  lemma CutTwice(n: nat)
    ensures n / 0x40 / 0x40 == n / 0x1000 && n / 0x1000 / 0x40 == n / 0x4_0000
  {
  }

  lemma Sixes(n: nat)
    ensures n == n / 0x40 * 0x40 + n % 0x40
    ensures n == n / 0x1000 * 0x1000 + n / 0x40 % 0x40 * 0x40 + n % 0x40
    ensures n == n / 0x4_0000 * 0x4_0000 + n / 0x1000 % 0x40 * 0x1000 + n / 0x40 % 0x40 * 0x40 + n % 0x40
  {
    CutTwice(n);
    var a, b := n / 0x40, n / 0x1000;
    assert a == a / 0x40 * 0x40 + a % 0x40;
    assert b == b / 0x40 * 0x40 + b % 0x40;
  }

  lemma WidthInverts(c: char, tail: Bytes)
    ensures Utf8Width(EncChar(c) + tail) == |EncChar(c)|
  {
    var n := c as int;
    Starts(c, tail);
    Sixes(n);
  }

  lemma CharInverts(c: char, tail: Bytes)
    ensures Utf8Width(EncChar(c) + tail) == |EncChar(c)|
    ensures Scalar(EncChar(c) + tail) == c
  {
    WidthInverts(c, tail);
    Starts(c, tail);
    Sixes(c as int);
    hide Utf8Width;
  }

  /** Sixes put together come apart again. */
  lemma Joined(a: nat, b: nat, c: nat, d: nat)
    requires b < 0x40 && c < 0x40 && d < 0x40
    ensures var n := a * 0x4_0000 + b * 0x1000 + c * 0x40 + d;
            n / 0x4_0000 == a && n / 0x1000 % 0x40 == b && n / 0x40 % 0x40 == c && n % 0x40 == d
  {
    var n := a * 0x4_0000 + b * 0x1000 + c * 0x40 + d;
    CutTwice(n);
    Cut((a * 0x40 + b) * 0x40 + c, d);
    Cut(a * 0x40 + b, c);
    Cut(a, b);
  }

  lemma ScalarInverts(s: Bytes)
    requires s != [] && Utf8Width(s) > 0
    ensures EncChar(Scalar(s)) == s[..Utf8Width(s)]
  {
    var n := Utf8Width(s);
    if n == 1 {
      assert s[..1] == [s[0]];
    } else if n == 2 {
      Cut((s[0] - 0xC0) as int, (s[1] - 0x80) as int);
      assert s[..2] == [s[0], s[1]];
    } else if n == 3 {
      Joined(0, (s[0] - 0xE0) as int, (s[1] - 0x80) as int, (s[2] - 0x80) as int);
      assert s[..3] == [s[0], s[1], s[2]];
    } else {
      Joined((s[0] - 0xF0) as int, (s[1] - 0x80) as int, (s[2] - 0x80) as int, (s[3] - 0x80) as int);
      assert s[..4] == [s[0], s[1], s[2], s[3]];
    }
  }

  /** Every text comes back from its bytes. */
  lemma {:induction false} TextInverts(t: string)
    ensures ValidUtf8(EncText(t)) && Chars(EncText(t)) == t
  {
    hide Utf8Width, Scalar, EncChar;
    if t != [] {
      var head, tail := EncChar(t[0]), EncText(t[1..]);
      CharInverts(t[0], tail);
      TextInverts(t[1..]);
      assert (head + tail)[|head|..] == tail;
    }
  }

  /** Valid bytes come back from their text, so no two of them decode alike. */
  lemma {:induction false} BytesInvert(s: Bytes)
    requires ValidUtf8(s)
    ensures EncText(Chars(s)) == s
  {
    hide Utf8Width, Scalar, EncChar;
    if s != [] {
      var n := Utf8Width(s);
      ScalarInverts(s);
      BytesInvert(s[n..]);
      assert Chars(s)[1..] == Chars(s[n..]);
      assert s == s[..n] + s[n..];
    }
  }

  lemma ValidBytesApart(a: Bytes, b: Bytes)
    requires ValidUtf8(a) && ValidUtf8(b) && Chars(a) == Chars(b)
    ensures a == b
  {
    BytesInvert(a);
    BytesInvert(b);
  }

  /** ASCII text is encoded byte by byte. */
  lemma {:induction false} AsciiText(t: string)
    requires forall i :: 0 <= i < |t| ==> t[i] < 128 as char
    ensures |EncText(t)| == |t| && forall i :: 0 <= i < |t| ==> EncText(t)[i] as int == t[i] as int
  {
    if t != [] {
      AsciiText(t[1..]);
      assert EncChar(t[0]) == [t[0] as int as byte];
    }
  }

  lemma CharHasNul(c: char)
    ensures 0 in EncChar(c) <==> c == 0 as char
  {
  }

  lemma {:induction false} TextHasNul(t: string)
    ensures 0 in EncText(t) <==> 0 as char in t
  {
    hide EncChar;
    if t != [] {
      CharHasNul(t[0]);
      TextHasNul(t[1..]);
      assert t == [t[0]] + t[1..];
    }
  }

  /** Bytes that are not UTF-8 show: the text has a replacement character. */
  lemma {:induction false} InvalidBytesShow(s: Bytes)
    requires !ValidUtf8(s)
    ensures REPLACEMENT in Chars(s)
  {
    hide Scalar, BadWidth;
    if Utf8Width(s) > 0 {
      InvalidBytesShow(s[Utf8Width(s)..]);
    }
  }

  /**
   One replacement character stands for the longest start of a well-formed sequence: the bytes it
   stands for can be completed if they are more than one, and with the next byte they no longer can.
   */
  lemma BadWidthIsLongest(s: Bytes, rest: Bytes)
    requires s != [] && Utf8Width(s) == 0
    ensures BadWidth(s) > 1 ==> exists u: Bytes :: Utf8Width(s[..BadWidth(s)] + u) > BadWidth(s)
    ensures BadWidth(s) < |s| ==> Utf8Width(s[..BadWidth(s) + 1] + rest) == 0
  {
    var m := BadWidth(s);
    if m > 1 {
      var u: Bytes := if m == 3 || s[0] < 0xF0 then [0x80] else [0x80, 0x80];
      assert Utf8Width(s[..m] + u) > m;
    }
  }
}
