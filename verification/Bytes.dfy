/** Bytes, fixed-width numbers and the reader the decoders share. */
module Bytes {

  newtype Byte = b: int | 0 <= b < 256

  type Data = seq<Byte>

  const NUL: Byte := 0

  /** A SHA-256 value: 32 bytes. */
  type Hash = h: Data | |h| == 32 witness seq(32, _ => 0)

  // ----- big-endian numbers -----

  function Pow256(n: nat): nat {
    if n == 0 then 1 else 256 * Pow256(n - 1)
  }

  function BigEndian(n: nat, v: nat): (bs: Data)
    ensures |bs| == n
  {
    if n == 0 then [] else BigEndian(n - 1, v / 256) + [(v % 256) as Byte]
  }

  function Value(bs: Data): nat {
    if bs == [] then 0 else 256 * Value(bs[..|bs| - 1]) + bs[|bs| - 1] as nat
  }

  lemma {:induction false} ValueOfBigEndian(n: nat, v: nat)
    requires v < Pow256(n)
    ensures Value(BigEndian(n, v)) == v
  {
    if n > 0 {
      ValueOfBigEndian(n - 1, v / 256);
      assert BigEndian(n, v)[..n - 1] == BigEndian(n - 1, v / 256);
    }
  }

  lemma {:induction false} BigEndianOfValue(bs: Data)
    ensures Value(bs) < Pow256(|bs|) && BigEndian(|bs|, Value(bs)) == bs
  {
    if bs != [] {
      var front, last := bs[..|bs| - 1], bs[|bs| - 1];
      BigEndianOfValue(front);
      assert Value(bs) / 256 == Value(front) && Value(bs) % 256 == last as nat;
      assert bs == front + [last];
    }
  }

  const WORD: nat := 0x1_0000_0000
  const WORD64: nat := 0x1_0000_0000_0000_0000

  lemma Widths()
    ensures Pow256(4) == WORD && Pow256(8) == WORD64
  {
    assert Pow256(1) == 256;
    assert Pow256(2) == 0x1_0000;
    assert Pow256(3) == 0x100_0000;
    assert Pow256(4) == 0x1_0000_0000;
    assert Pow256(5) == 0x100_0000_0000;
    assert Pow256(6) == 0x1_0000_0000_0000;
    assert Pow256(7) == 0x100_0000_0000_0000;
  }

  type Word = n: nat | n < 0x1_0000_0000

  type Int64 = t: int | -0x8000_0000_0000_0000 <= t < 0x8000_0000_0000_0000

  function WordBytes(n: Word): Data { BigEndian(4, n) }

  function WordOf(bs: Data): (n: Word)
    requires |bs| == 4
  {
    BigEndianOfValue(bs);
    Widths();
    Value(bs)
  }

  lemma WordTrip(n: Word, bs: Data)
    requires |bs| == 4
    ensures |WordBytes(n)| == 4 && WordOf(WordBytes(n)) == n
    ensures WordBytes(WordOf(bs)) == bs
  {
    Widths();
    ValueOfBigEndian(4, n);
    BigEndianOfValue(bs);
  }

  /** Two's complement in eight bytes. */
  function TimeBytes(t: Int64): Data { BigEndian(8, if t < 0 then WORD64 + t else t) }

  function TimeOf(bs: Data): (t: Int64)
    requires |bs| == 8
  {
    BigEndianOfValue(bs);
    Widths();
    var v := Value(bs);
    if v >= 0x8000_0000_0000_0000 then v - WORD64 else v
  }

  lemma TimeTrip(t: Int64, bs: Data)
    requires |bs| == 8
    ensures |TimeBytes(t)| == 8 && TimeOf(TimeBytes(t)) == t
    ensures TimeBytes(TimeOf(bs)) == bs
  {
    Widths();
    ValueOfBigEndian(8, if t < 0 then WORD64 + t else t);
    BigEndianOfValue(bs);
  }

  // ----- NUL-terminated text -----

  predicate NulFree(s: Data) { NUL !in s }

  /** The first NUL, or the length where there is none. */
  function NulAt(s: Data): (n: nat)
    ensures n <= |s| && NulFree(s[..n]) && (n < |s| ==> s[n] == NUL)
  {
    if s == [] || s[0] == NUL then 0 else 1 + NulAt(s[1..])
  }

  lemma {:induction false} NulAtIs(s: Data, r: Data)
    requires NulFree(s)
    ensures NulAt(s + [NUL] + r) == |s|
    decreases |s|
  {
    if s != [] {
      assert (s + [NUL] + r)[1..] == s[1..] + [NUL] + r;
      NulAtIs(s[1..], r);
    }
  }

  /** There is one way to split off a NUL-free text in front of a NUL. */
  lemma NulSplit(s: Data, r: Data, s': Data, r': Data)
    requires NulFree(s) && NulFree(s') && s + [NUL] + r == s' + [NUL] + r'
    ensures s == s' && r == r'
  {
    NulAtIs(s, r);
    NulAtIs(s', r');
    var x := s + [NUL] + r;
    assert s == x[..|s|] && s' == x[..|s|];
    assert r == x[|s| + 1..] && r' == x[|s| + 1..];
  }

  lemma PrefixSplit(a: Data, r: Data, a': Data, r': Data)
    requires |a| == |a'| && a + r == a' + r'
    ensures a == a' && r == r'
  {
    assert a == (a + r)[..|a|] && a' == (a' + r')[..|a'|];
    assert r == (a + r)[|a|..] && r' == (a' + r')[|a'|..];
  }

  // ----- the reader -----

  /** A reader over bytes in memory; what has been read is gone from rest. */
  class Reader {
    var rest: Data

    constructor (data: Data)
      ensures rest == data
    {
      rest := data;
    }

    /** Exactly n bytes; on failure some bytes may have been consumed. */
    method Read(n: nat) returns (ok: bool, bs: Data)
      modifies this
      ensures ok <==> n <= |old(rest)|
      ensures ok ==> |bs| == n && old(rest) == bs + rest
      ensures !ok ==> bs == old(rest) && rest == []
    {
      if n > |rest| {
        bs, rest := rest, [];
        return false, bs;
      }
      bs, rest := rest[..n], rest[n..];
      ok := true;
    }

    method ReadUntilNul() returns (ok: bool, s: Data)
      modifies this
      ensures ok <==> NUL in old(rest)
      ensures ok ==> NulFree(s) && old(rest) == s + [NUL] + rest
    {
      s := [];
      while |rest| > 0
        invariant NulFree(s) && s + rest == old(rest)
        decreases |rest|
      {
        var b := rest[0];
        rest := rest[1..];
        assert s + [b] + rest == old(rest);
        if b == NUL {
          return true, s;
        }
        s := s + [b];
      }
      assert s + rest == s;
      ok := false;
    }

    method ReadRest() returns (bs: Data)
      modifies this
      ensures bs == old(rest) && rest == []
    {
      bs, rest := rest, [];
    }
  }
}
