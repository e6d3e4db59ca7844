/** Bytes on the wire: big-endian integers, and NUL-terminated strings. */
module Wire {
  import opened Values
  import opened Utf8

  /** What reading at an offset gives: a value and the next offset, or an exception. */
  datatype Read<+T> = Ok(value: T, next: nat) | Bad

  // ---- Integers ------------------------------------------------------------------------------

  function Byte(n: nat): byte { (n % 256) as byte }

  function Enc16(n: nat): (bs: Bytes)
    ensures |bs| == 2
  {
    [Byte(n / 256), Byte(n)]
  }

  function Enc32(n: nat): (bs: Bytes)
    ensures |bs| == 4
  {
    Enc16(n / 0x1_0000) + Enc16(n % 0x1_0000)
  }

  function Enc64(n: nat): (bs: Bytes)
    ensures |bs| == 8
  {
    Enc32(n / 0x1_0000_0000) + Enc32(n % 0x1_0000_0000)
  }

  function U16(data: Bytes, o: nat): (n: nat)
    requires o + 2 <= |data|
    ensures n < 0x1_0000
  {
    data[o] as nat * 256 + data[o + 1] as nat
  }

  function U32(data: Bytes, o: nat): (n: nat)
    requires o + 4 <= |data|
    ensures n < 0x1_0000_0000
  {
    U16(data, o) * 0x1_0000 + U16(data, o + 2)
  }

  function U64(data: Bytes, o: nat): (n: nat)
    requires o + 8 <= |data|
    ensures n < 0x1_0000_0000_0000_0000
  {
    U32(data, o) * 0x1_0000_0000 + U32(data, o + 4)
  }

  /** Two's complement. */
  function I64(data: Bytes, o: nat): (n: int)
    requires o + 8 <= |data|
    ensures -0x8000_0000_0000_0000 <= n < 0x8000_0000_0000_0000
  {
    var n := U64(data, o);
    if n < 0x8000_0000_0000_0000 then n else n - 0x1_0000_0000_0000_0000
  }

  function EncI64(n: int): Bytes
    requires -0x8000_0000_0000_0000 <= n < 0x8000_0000_0000_0000
  {
    Enc64(if n >= 0 then n else n + 0x1_0000_0000_0000_0000)
  }

  /** `data` continues at offset `o` with `part` and then `tail`. */
  ghost predicate At(data: Bytes, o: nat, part: Bytes, tail: Bytes) {
    o <= |data| && data[o..] == part + tail
  }

  lemma AtSplit(data: Bytes, o: nat, a: Bytes, b: Bytes, tail: Bytes)
    requires At(data, o, a + b, tail)
    ensures At(data, o, a, b + tail) && At(data, o + |a|, b, tail)
  {
    assert data[o..] == a + (b + tail);
    assert data[o + |a|..] == data[o..][|a|..];
  }

  lemma AtBytes(data: Bytes, o: nat, part: Bytes, tail: Bytes)
    requires At(data, o, part, tail)
    ensures o + |part| <= |data| && data[o..o + |part|] == part
    ensures forall i :: 0 <= i < |part| ==> data[o + i] == part[i]
    ensures At(data, o + |part|, [], tail) && data[o + |part|..] == tail
  {
    assert forall i :: 0 <= i < |part| ==> data[o + i] == data[o..][i];
    assert data[o + |part|..] == data[o..][|part|..];
  }

  lemma Read16(data: Bytes, o: nat, n: nat, tail: Bytes)
    requires n < 0x1_0000 && At(data, o, Enc16(n), tail)
    ensures o + 2 <= |data| && U16(data, o) == n && data[o + 2..] == tail
  {
    AtBytes(data, o, Enc16(n), tail);
    assert data[o] == Enc16(n)[0] by { assert data[o + 0] == Enc16(n)[0]; }
    assert data[o + 1] == Enc16(n)[1];
    assert n == (n / 256) * 256 + n % 256;
  }

  lemma Read32(data: Bytes, o: nat, n: nat, tail: Bytes)
    requires n < 0x1_0000_0000 && At(data, o, Enc32(n), tail)
    ensures o + 4 <= |data| && U32(data, o) == n && data[o + 4..] == tail
  {
    hide Enc16, U16;
    AtSplit(data, o, Enc16(n / 0x1_0000), Enc16(n % 0x1_0000), tail);
    Read16(data, o, n / 0x1_0000, Enc16(n % 0x1_0000) + tail);
    Read16(data, o + 2, n % 0x1_0000, tail);
  }

  lemma Read64(data: Bytes, o: nat, n: nat, tail: Bytes)
    requires n < 0x1_0000_0000_0000_0000 && At(data, o, Enc64(n), tail)
    ensures o + 8 <= |data| && U64(data, o) == n && data[o + 8..] == tail
  {
    hide Enc32, U32;
    AtSplit(data, o, Enc32(n / 0x1_0000_0000), Enc32(n % 0x1_0000_0000), tail);
    Read32(data, o, n / 0x1_0000_0000, Enc32(n % 0x1_0000_0000) + tail);
    Read32(data, o + 4, n % 0x1_0000_0000, tail);
  }

  // ---- NUL-terminated strings ---------------------------------------------------------------------

  /** The first NUL at or after `o`, or the end. */
  function NulIndex(data: Bytes, o: nat): (i: nat)
    requires o <= |data|
    ensures o <= i <= |data|
    ensures i < |data| ==> data[i] == 0
    ensures forall j :: o <= j < i ==> data[j] != 0
    decreases |data| - o
  {
    if o == |data| || data[o] == 0 then o else NulIndex(data, o + 1)
  }

  function ReadCString(data: Bytes, o: nat): Read<string> {
    if o > |data| || NulIndex(data, o) == |data| then Bad
    else
      var end := NulIndex(data, o);
      if ValidUtf8(data[o..end]) then Ok(Chars(data[o..end]), end + 1) else Bad
  }

  predicate WireName(s: Bytes) { 0 !in s && ValidUtf8(s) }

  lemma CStringBytes(data: Bytes, o: nat, s: Bytes, tail: Bytes)
    requires 0 !in s && At(data, o, s + [0], tail)
    ensures o + |s| < |data| && NulIndex(data, o) == o + |s|
    ensures data[o..o + |s|] == s && data[o + |s| + 1..] == tail
  {
    AtBytes(data, o, s + [0], tail);
    hide At;
    var end := o + |s|;
    assert data[end] == 0 by { assert data[o + |s|] == (s + [0])[|s|]; }
    forall j | o <= j < end ensures data[j] != 0 {
      assert data[o + (j - o)] == (s + [0])[j - o] == s[j - o];
    }
    assert data[o..end] == s by { assert data[o..end] == data[o..o + |s| + 1][..|s|]; }
  }

  /** Reading a string back, whatever follows it. */
  lemma CStringInverts(data: Bytes, o: nat, s: Bytes, tail: Bytes)
    requires WireName(s) && At(data, o, s + [0], tail)
    ensures ReadCString(data, o) == Ok(Chars(s), o + |s| + 1)
    ensures o + |s| + 1 <= |data| && data[o + |s| + 1..] == tail
  {
    hide ValidUtf8, Chars, At, NulIndex;
    CStringBytes(data, o, s, tail);
  }
}
