/** Little-endian fixed-width integers, as storage_util.cc writes them. */
module Codec {
  import opened Bytes

  function Pow256(n: nat): nat {
    if n == 0 then 1 else 256 * Pow256(n - 1)
  }

  /** The low n bytes of v, least significant first. */
  function Fixed(v: nat, n: nat): (b: Blob)
    ensures |b| == n
    decreases n
  {
    if n == 0 then [] else [v % 256] + Fixed(v / 256, n - 1)
  }

  function Unfixed(b: Blob): nat {
    if b == [] then 0 else b[0] + 256 * Unfixed(b[1..])
  }

  lemma {:induction false} UnfixedFixed(v: nat, n: nat)
    requires v < Pow256(n)
    ensures Unfixed(Fixed(v, n)) == v
  {
    if n > 0 {
      UnfixedFixed(v / 256, n - 1);
    }
  }

  lemma {:induction false} FixedUnfixed(b: Blob)
    ensures Fixed(Unfixed(b), |b|) == b && Unfixed(b) < Pow256(|b|)
  {
    if b != [] {
      FixedUnfixed(b[1..]);
      assert Unfixed(b) / 256 == Unfixed(b[1..]) && Unfixed(b) % 256 == b[0];
    }
  }

  lemma Widths()
    ensures Pow256(4) == 0x1_0000_0000 && Pow256(8) == 0x1_0000_0000_0000_0000
  {
    assert Pow256(2) == 65536;
    assert Pow256(3) == 256 * Pow256(2) && Pow256(4) == 256 * Pow256(3);
    assert Pow256(6) == 256 * (256 * Pow256(4)) by { assert Pow256(5) == 256 * Pow256(4); }
    assert Pow256(8) == 256 * (256 * Pow256(6)) by { assert Pow256(7) == 256 * Pow256(6); }
  }

  type U32 = x: int | 0 <= x < 0x1_0000_0000

  function Get32(b: Blob, at: nat): (v: nat)
    requires at + 4 <= |b|
    ensures v < 0x1_0000_0000
  {
    FixedUnfixed(b[at..at + 4]);
    Widths();
    Unfixed(b[at..at + 4])
  }

  function Get64(b: Blob, at: nat): (v: nat)
    requires at + 8 <= |b|
    ensures v < 0x1_0000_0000_0000_0000
  {
    FixedUnfixed(b[at..at + 8]);
    Widths();
    Unfixed(b[at..at + 8])
  }

  /** Taking a concatenation of four apart again. */
  lemma Parts(a: Blob, b: Blob, c: Blob, d: Blob)
    ensures var r := a + b + c + d;
            && r[..|a|] == a && r[|a|..|a| + |b|] == b
            && r[|a| + |b|..|a| + |b| + |c|] == c && r[|a| + |b| + |c|..] == d
  {
  }

  lemma SubSlice(r: Blob, i: nat, j: nat, k: nat, l: nat)
    requires i <= j <= |r| && k <= l <= j - i
    ensures r[i..j][k..l] == r[i + k..i + l]
  {
    forall n | 0 <= n < l - k ensures r[i..j][k..l][n] == r[i + k..i + l][n] {
    }
  }

  /** A field is what its slice encodes. */
  lemma Slice32(b: Blob, at: nat, v: nat)
    requires v < 0x1_0000_0000 && at + 4 <= |b| && b[at..at + 4] == Fixed(v, 4)
    ensures Get32(b, at) == v
  {
    Widths();
    UnfixedFixed(v, 4);
  }

  lemma Slice64(b: Blob, at: nat, v: nat)
    requires v < 0x1_0000_0000_0000_0000 && at + 8 <= |b| && b[at..at + 8] == Fixed(v, 8)
    ensures Get64(b, at) == v
  {
    Widths();
    UnfixedFixed(v, 8);
  }

  /** Writing again what was read from a position. */
  lemma Put32Get(b: Blob, at: nat)
    requires at + 4 <= |b|
    ensures Fixed(Get32(b, at), 4) == b[at..at + 4]
  {
    FixedUnfixed(b[at..at + 4]);
  }

  /** EncodeFixed64's loop, at any width. */
  method EncodeFixed(value: nat, width: nat) returns (out: Blob)
    ensures out == Fixed(value, width)
  {
    out := [];
    var rest := value;
    for i := 0 to width
      invariant out + Fixed(rest, width - i) == Fixed(value, width)
    {
      assert Fixed(rest, width - i) == [rest % 256] + Fixed(rest / 256, width - i - 1);
      assert out + ([rest % 256] + Fixed(rest / 256, width - i - 1)) == (out + [rest % 256]) + Fixed(rest / 256, width - i - 1);
      out := out + [rest % 256];
      rest := rest / 256;
    }
  }

  /** DecodeFixed64 at any width, most significant byte first. */
  method DecodeFixed(b: Blob) returns (value: nat)
    ensures value == Unfixed(b)
  {
    value := 0;
    var i := |b|;
    while i > 0
      invariant 0 <= i <= |b| && value == Unfixed(b[i..])
    {
      i := i - 1;
      assert b[i..][1..] == b[i + 1..];
      value := b[i] + 256 * value;
    }
  }
}
