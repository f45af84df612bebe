/**
 Byte strings and the byte-order conversions of framework/tlv/endian_converter.h.
 The host is little-endian, so every integer goes out as its little-endian bytes, while a
 double is sent byte-reversed.
 */
module Bytes {
  type byte = x: int | 0 <= x < 256

  type bytes = seq<byte>

  datatype Option<+T> = None | Some(value: T)

  const TWO32 := 0x1_0000_0000
  const TWO64 := 0x1_0000_0000_0000_0000

  type int32 = i: int | -0x8000_0000 <= i < 0x8000_0000
  type int64 = i: int | -0x8000_0000_0000_0000 <= i < 0x8000_0000_0000_0000
  type uint32 = n: int | 0 <= n < 0x1_0000_0000
  /** The 8 host bytes of a double. */
  type double = b: bytes | |b| == 8 witness [0, 0, 0, 0, 0, 0, 0, 0]

  /** The byte string of an ASCII literal. */
  function Ascii(s: string): (b: bytes)
    ensures |b| == |s|
  {
    seq(|s|, i requires 0 <= i < |s| => s[i] as int % 256)
  }

  function Zeros(n: nat): (b: bytes)
    ensures |b| == n
  {
    seq(n, _ => 0)
  }

  /** The w low bytes of n, least significant first. */
  function Le(n: nat, w: nat): (b: bytes)
    ensures |b| == w
  {
    if w == 0 then [] else [n % 256] + Le(n / 256, w - 1)
  }

  function UnLe(b: bytes): nat
  {
    if b == [] then 0 else b[0] + 256 * UnLe(b[1..])
  }

  function Pow256(w: nat): (p: nat)
    ensures p > 0
  {
    if w == 0 then 1 else 256 * Pow256(w - 1)
  }

  lemma {:induction false} UnLeOfLe(n: nat, w: nat)
    requires n < Pow256(w)
    ensures UnLe(Le(n, w)) == n
  {
    if w > 0 {
      UnLeOfLe(n / 256, w - 1);
      assert Le(n, w)[1..] == Le(n / 256, w - 1);
    }
  }

  lemma {:induction false} LeOfUnLe(b: bytes)
    ensures UnLe(b) < Pow256(|b|)
    ensures Le(UnLe(b), |b|) == b
  {
    if b != [] {
      LeOfUnLe(b[1..]);
      assert b == [b[0]] + b[1..];
    }
  }

  lemma Widths()
    ensures Pow256(2) == 0x1_0000 && Pow256(4) == TWO32 && Pow256(8) == TWO64
  {
    assert Pow256(1) == 256;
    assert Pow256(2) == 0x1_0000;
    assert Pow256(3) == 0x100_0000;
    assert Pow256(4) == TWO32;
    assert Pow256(5) == 256 * TWO32;
    assert Pow256(6) == 0x1_0000 * TWO32;
    assert Pow256(7) == 0x100_0000 * TWO32;
  }

  /** Two's complement: the unsigned reading of a signed integer of the given modulus, and back. */
  function ToUnsigned(i: int, modulus: int): (n: int)
    requires -modulus <= 2 * i < modulus
    ensures 0 <= n < modulus
  {
    if i < 0 then i + modulus else i
  }

  function ToSigned(n: nat, modulus: int): (i: int)
    requires n < modulus
    ensures -modulus <= 2 * i < modulus
  {
    if 2 * n < modulus then n else n - modulus
  }

  function Reversed<T>(b: seq<T>): (r: seq<T>)
    ensures |r| == |b|
  {
    seq(|b|, i requires 0 <= i < |b| => b[|b| - 1 - i])
  }

  /** HostToNet(double): the byte-reversing loop; NetToHost(double) is the same loop. */
  method ConvertDouble(from: bytes) returns (to: bytes)
    ensures to == Reversed(from)
    ensures Reversed(to) == from
  {
    to := [];
    for i := 0 to |from|
      invariant |to| == i
      invariant forall j :: 0 <= j < i ==> to[j] == from[|from| - 1 - j]
    {
      to := to + [from[|from| - i - 1]];
    }
  }

  /** The bytes of s stand in d from position cur on. */
  ghost predicate At(d: bytes, cur: nat, s: bytes)
  {
    cur + |s| <= |d| && d[cur..cur + |s|] == s
  }

  lemma AtSplit(d: bytes, cur: nat, a: bytes, b: bytes)
    ensures At(d, cur, a + b) <==> At(d, cur, a) && At(d, cur + |a|, b)
  {
    if cur + |a| + |b| <= |d| {
      var s := d[cur..cur + |a + b|];
      assert s == d[cur..cur + |a|] + d[cur + |a|..cur + |a| + |b|];
      assert s[..|a|] == d[cur..cur + |a|] && s[|a|..] == d[cur + |a|..cur + |a| + |b|];
      assert (a + b)[..|a|] == a && (a + b)[|a|..] == b;
    }
  }

  lemma Regroup<T>(a: seq<T>, b: seq<T>, c: seq<T>)
    ensures a + b + c == a + (b + c) && [] + c == c && a + [] == a
  {
  }

  lemma SliceOfSlice<T>(s: seq<T>, lo: nat, hi: nat, a: nat, b: nat)
    requires lo <= hi <= |s| && a <= b <= hi - lo
    ensures s[lo..hi][a..b] == s[lo + a..lo + b]
  {
    var x, y := s[lo..hi][a..b], s[lo + a..lo + b];
    forall k | 0 <= k < b - a ensures x[k] == y[k] {
      assert x[k] == s[lo..hi][a + k];
    }
    assert x == y;
  }
}
