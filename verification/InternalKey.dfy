/** Internal keys: a user key, a NUL byte and the inverted sequence number in
    big-endian order, so that byte order is (key ascending, sequence descending). */
module InternalKey {
  import opened Bytes
  import opened Codec

  const MAX_SEQUENCE: nat := 0xffff_ffff_ffff_ffff

  /** The n low bytes of v, most significant first. */
  function BigEndian(v: nat, n: nat): (b: Blob)
    ensures |b| == n
    decreases n
  {
    if n == 0 then [] else BigEndian(v / 256, n - 1) + [v % 256]
  }

  function FromBigEndian(b: Blob): nat {
    if b == [] then 0 else 256 * FromBigEndian(b[..|b| - 1]) + b[|b| - 1]
  }

  function Encode(key: Blob, s: nat): Blob
    requires s <= MAX_SEQUENCE
  {
    key + [0] + BigEndian(MAX_SEQUENCE - s, 8)
  }

  datatype Decoded = NotInternal | Internal(key: Blob, s: nat)

  function Decode(ik: Blob): Decoded {
    var n := |ik|;
    if n < 9 || ik[n - 9] != 0 then NotInternal
    else
      BigEndianBounds(ik[n - 8..]);
      Internal(ik[..n - 9], MAX_SEQUENCE - FromBigEndian(ik[n - 8..]))
  }

  lemma {:induction false} FromTo(v: nat, n: nat)
    requires v < Pow256(n)
    ensures FromBigEndian(BigEndian(v, n)) == v
  {
    if n > 0 {
      FromTo(v / 256, n - 1);
      assert BigEndian(v, n)[..n - 1] == BigEndian(v / 256, n - 1);
    }
  }

  lemma {:induction false} FromBound(b: Blob)
    ensures FromBigEndian(b) < Pow256(|b|)
  {
    if b != [] {
      FromBound(b[..|b| - 1]);
    }
  }

  lemma BigEndianBounds(b: Blob)
    requires |b| == 8
    ensures FromBigEndian(b) <= MAX_SEQUENCE
  {
    FromBound(b);
    Widths();
  }

  /** Decoding inverts encoding, for every key, NUL bytes included. */
  lemma DecodeEncode(key: Blob, s: nat)
    requires s <= MAX_SEQUENCE
    ensures Decode(Encode(key, s)) == Internal(key, s)
  {
    hide BigEndian, FromBigEndian;
    var tail := BigEndian(MAX_SEQUENCE - s, 8);
    var ik := Encode(key, s);
    Widths();
    FromTo(MAX_SEQUENCE - s, 8);
    assert ik[|ik| - 8..] == tail && ik[..|ik| - 9] == key;
  }

  // ----------------------------------------------------------------------- order

  /** The last byte decides between strings that agree before it. */
  lemma {:induction false} LessSnoc(x: Blob, y: Blob, p: Byte, q: Byte)
    requires |x| == |y|
    ensures Less(x + [p], y + [q]) <==> Less(x, y) || (x == y && p < q)
    decreases |x|
  {
    if x == [] {
      assert x + [p] == [p] && y + [q] == [q];
      assert [p][1..] == [] && [q][1..] == [];
    } else {
      LessSnoc(x[1..], y[1..], p, q);
      assert (x + [p])[1..] == x[1..] + [p] && (y + [q])[1..] == y[1..] + [q];
      assert x == [x[0]] + x[1..] && y == [y[0]] + y[1..];
    }
  }

  lemma {:induction false} BigEndianOrder(a: nat, b: nat, n: nat)
    requires a < Pow256(n) && b < Pow256(n)
    ensures Less(BigEndian(a, n), BigEndian(b, n)) <==> a < b
    ensures BigEndian(a, n) == BigEndian(b, n) <==> a == b
  {
    if n > 0 {
      BigEndianOrder(a / 256, b / 256, n - 1);
      var x, y := BigEndian(a / 256, n - 1), BigEndian(b / 256, n - 1);
      LessSnoc(x, y, a % 256, b % 256);
      assert (x + [a % 256])[..n - 1] == x && (y + [b % 256])[..n - 1] == y;
      assert (x + [a % 256])[n - 1] == a % 256 && (y + [b % 256])[n - 1] == b % 256;
    }
  }

  predicate NulFree(k: Blob) {
    0 !in k
  }

  predicate Before(k1: Blob, s1: nat, k2: Blob, s2: nat) {
    Less(k1, k2) || (k1 == k2 && s1 > s2)
  }

  /** Byte order of internal keys is key ascending, sequence descending. */
  lemma {:induction false} OrderPreserved(k1: Blob, s1: nat, k2: Blob, s2: nat)
    requires NulFree(k1) && NulFree(k2) && s1 <= MAX_SEQUENCE && s2 <= MAX_SEQUENCE
    ensures Less(Encode(k1, s1), Encode(k2, s2)) <==> Before(k1, s1, k2, s2)
    decreases |k1|
  {
    hide BigEndian;
    var a, b := BigEndian(MAX_SEQUENCE - s1, 8), BigEndian(MAX_SEQUENCE - s2, 8);
    if k1 == [] && k2 == [] {
      Widths();
      BigEndianOrder(MAX_SEQUENCE - s1, MAX_SEQUENCE - s2, 8);
      assert Encode(k1, s1) == [0] + a && Encode(k2, s2) == [0] + b;
      LessCommonPrefix([0], a, b);
    } else if k1 == [] {
      assert Encode(k1, s1)[0] == 0 && Encode(k2, s2)[0] == k2[0];
    } else if k2 == [] {
      assert Encode(k1, s1)[0] == k1[0] && Encode(k2, s2)[0] == 0;
    } else if k1[0] == k2[0] {
      OrderPreserved(k1[1..], s1, k2[1..], s2);
      assert Encode(k1, s1)[1..] == Encode(k1[1..], s1) && Encode(k2, s2)[1..] == Encode(k2[1..], s2);
      assert k1 == [k1[0]] + k1[1..] && k2 == [k2[0]] + k2[1..];
    } else {
      assert Encode(k1, s1)[0] == k1[0] && Encode(k2, s2)[0] == k2[0];
    }
  }

  /** Any target, NUL bytes included, may be compared with NUL-free keys from one side. */
  lemma {:induction false} BeforeTarget(k1: Blob, s1: nat, target: Blob, s2: nat)
    requires NulFree(k1) && s1 <= MAX_SEQUENCE && s2 <= MAX_SEQUENCE
    requires Less(Encode(k1, s1), Encode(target, s2))
    ensures Before(k1, s1, target, s2)
    decreases |k1|
  {
    hide BigEndian;
    assert Encode(k1, s1)[0] == if k1 == [] then 0 else k1[0];
    assert Encode(target, s2)[0] == if target == [] then 0 else target[0];
    if k1 == [] {
      if target == [] {
        OrderPreserved(k1, s1, target, s2);
      }
    } else if target != [] && k1[0] == target[0] {
      assert Encode(k1, s1)[1..] == Encode(k1[1..], s1) && Encode(target, s2)[1..] == Encode(target[1..], s2);
      BeforeTarget(k1[1..], s1, target[1..], s2);
      assert k1 == [k1[0]] + k1[1..] && target == [target[0]] + target[1..];
    }
  }

  /** Without the NUL-free condition the order breaks: the key "a\0" would sort among
      the versions of "a". */
  lemma OrderNeedsNulFree()
    ensures Less([97], [97, 0]) && !Less(Encode([97], 0), Encode([97, 0], MAX_SEQUENCE))
  {
    var x, y := Encode([97], 0), Encode([97, 0], MAX_SEQUENCE);
    assert [97][1..] == [] && [97, 0][1..] == [0];
    assert y == [97, 0] + ([0] + BigEndian(0, 8));
    assert x == [97, 0] + BigEndian(MAX_SEQUENCE, 8);
    LessCommonPrefix([97, 0], BigEndian(MAX_SEQUENCE, 8), [0] + BigEndian(0, 8));
    TopByte();
  }

  lemma TopByte()
    ensures BigEndian(MAX_SEQUENCE, 8)[0] == 255
  {
    assert BigEndian(0xff, 1) == [] + [255];
    assert BigEndian(0xffff, 2)[0] == 255;
    assert BigEndian(0xffff_ffff, 4)[0] == 255;
    assert BigEndian(0xffff_ffff_ffff, 6)[0] == 255;
  }

  // ------------------------------------------------------------------- the loops

  method BigEndianBytes(v: nat, width: nat) returns (tail: Blob)
    ensures tail == BigEndian(v, width)
  {
    var rest := v;
    tail := [];
    var n := width;
    while n > 0
      invariant 0 <= n <= width && BigEndian(rest, n) + tail == BigEndian(v, width)
    {
      assert BigEndian(rest, n) == BigEndian(rest / 256, n - 1) + [rest % 256];
      assert (BigEndian(rest / 256, n - 1) + [rest % 256]) + tail == BigEndian(rest / 256, n - 1) + ([rest % 256] + tail);
      tail, rest, n := [rest % 256] + tail, rest / 256, n - 1;
    }
  }

  method EncodeKey(key: Blob, s: nat) returns (encoded: Blob)
    requires s <= MAX_SEQUENCE
    ensures encoded == Encode(key, s)
  {
    var tail := BigEndianBytes(MAX_SEQUENCE - s, 8);
    encoded := key + [0] + tail;
  }

  method DecodeKey(ik: Blob) returns (d: Decoded)
    ensures d == Decode(ik)
  {
    var n := |ik|;
    if n < 9 || ik[n - 9] != 0 {
      return NotInternal;
    }
    var tail := ik[n - 8..];
    var inverted: nat := 0;
    for i := 0 to 8
      invariant inverted == FromBigEndian(tail[..i])
    {
      assert tail[..i + 1][..i] == tail[..i];
      inverted := 256 * inverted + tail[i];
    }
    assert tail[..8] == tail;
    BigEndianBounds(tail);
    d := Internal(ik[..n - 9], MAX_SEQUENCE - inverted);
  }
}
