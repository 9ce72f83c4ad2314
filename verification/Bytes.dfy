/** Little-endian integers in byte sequences. */
module Bytes {
  import opened Prelude

  function FromLe(b: seq<u8>): nat {
    if b == [] then 0 else b[0] + 256 * FromLe(b[1..])
  }

  function Le(k: nat, n: nat): (b: seq<u8>)
    ensures |b| == k
  {
    if k == 0 then [] else [n % 256] + Le(k - 1, n / 256)
  }

  function Pow256(k: nat): nat { if k == 0 then 1 else 256 * Pow256(k - 1) }

  lemma {:induction false} FromLeOfLe(k: nat, n: nat)
    requires n < Pow256(k)
    ensures FromLe(Le(k, n)) == n
  {
    if k > 0 {
      FromLeOfLe(k - 1, n / 256);
      assert Le(k, n)[1..] == Le(k - 1, n / 256);
    }
  }

  lemma {:induction false} FromLeBound(b: seq<u8>)
    ensures FromLe(b) < Pow256(|b|)
  {
    if b != [] { FromLeBound(b[1..]); }
  }

  lemma Powers()
    ensures Pow256(1) == TWO_8 && Pow256(2) == TWO_16 && Pow256(4) == TWO_32 && Pow256(8) == TWO_64
  {
    assert Pow256(4) == 256 * 256 * Pow256(2);
    assert Pow256(8) == 256 * 256 * 256 * 256 * Pow256(4) by {
      assert Pow256(6) == 256 * 256 * Pow256(4);
      assert Pow256(8) == 256 * 256 * Pow256(6);
    }
  }

  lemma TwoBytes(a: u8, b: u8)
    ensures FromLe([a, b]) == U16(a, b)
  {
    assert FromLe([]) == 0;
    assert [b][1..] == [] && FromLe([b]) == b;
    assert [a, b][1..] == [b];
  }

  /** The first byte is the least. */
  lemma FourBytes(a: u8, b: u8, c: u8, d: u8)
    ensures var w: nat, x: nat, y: nat, z: nat := a, b, c, d;
      FromLe([a, b, c, d]) == w + 0x100 * x + 0x1_0000 * y + 0x100_0000 * z
  {
    TwoBytes(c, d);
    assert [b, c, d][1..] == [c, d] && [a, b, c, d][1..] == [b, c, d];
  }

  lemma Subslice(s: seq<u8>, i: nat, j: nat, m: nat, n: nat)
    requires i <= j <= |s| && m <= n <= j - i
    ensures s[i..j][m..n] == s[i + m..i + n]
  {
    var a, b := s[i..j][m..n], s[i + m..i + n];
    assert forall k :: 0 <= k < |a| ==> a[k] == b[k];
  }

  lemma SplitAfter(s: seq<u8>, i: nat, n: nat)
    requires i + n <= |s|
    ensures s[i..][..n] == s[i..i + n] && s[i..][n..] == s[i + n..]
  {
    assert forall k :: 0 <= k < n ==> s[i..][..n][k] == s[i..i + n][k];
    assert forall k :: 0 <= k < |s| - i - n ==> s[i..][n..][k] == s[i + n..][k];
  }

  /** A byte as a signed number. */
  function AsI8(x: u8): int { if x < 128 then x else x - 256 }

  function FromI8(v: int): u8
    requires -128 <= v < 128
  {
    if v >= 0 then v else v + 256
  }

  /** Two bytes as one number. */
  function U16(low: nat, high: nat): nat { low + 256 * high }

  /** Two's complement in `k` bytes. */
  function Signed(k: nat, n: nat): int { if 2 * n < Pow256(k) then n else n - Pow256(k) }

  function FromLeSigned(b: seq<u8>): int { Signed(|b|, FromLe(b)) }

  predicate FitsSigned(k: nat, v: int) { 0 <= 2 * v + Pow256(k) && 2 * v < Pow256(k) }

  function LeSigned(k: nat, v: int): (b: seq<u8>)
    requires FitsSigned(k, v)
    ensures |b| == k
  {
    Le(k, if v >= 0 then v else v + Pow256(k))
  }

  lemma SignedRoundTrip(k: nat, v: int)
    requires FitsSigned(k, v)
    ensures FromLeSigned(LeSigned(k, v)) == v
  {
    FromLeOfLe(k, if v >= 0 then v else v + Pow256(k));
  }

  /** Consecutive `i16` values. */
  function Words(b: seq<u8>): (w: seq<int>)
    requires |b| % 2 == 0
    ensures |w| == |b| / 2
  {
    if b == [] then [] else [FromLeSigned(b[..2])] + Words(b[2..])
  }

  predicate I16(w: seq<int>) { forall i :: 0 <= i < |w| ==> FitsSigned(2, w[i]) }

  function LeWords(w: seq<int>): (b: seq<u8>)
    requires I16(w)
    ensures |b| == 2 * |w|
  {
    if w == [] then [] else LeSigned(2, w[0]) + LeWords(w[1..])
  }

  lemma {:induction false} WordsOfLeWords(w: seq<int>)
    requires I16(w)
    ensures Words(LeWords(w)) == w
  {
    if w != [] {
      WordsOfLeWords(w[1..]);
      SignedRoundTrip(2, w[0]);
      var b := LeWords(w);
      assert b[..2] == LeSigned(2, w[0]) && b[2..] == LeWords(w[1..]);
      assert [w[0]] + w[1..] == w;
    }
  }
}
