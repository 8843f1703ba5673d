/** The Bloom filter of a table.  The two hash values come from any hash function. */
module Bloom {
  import opened Bytes
  import opened Codec

  const SEED1: nat := 0x9747b28c
  const SEED2: nat := 0x5bd1e995
  const WRAP: nat := 0x1_0000_0000

  type Hash = (Blob, nat) -> U32

  datatype Filter = Filter(bitCount: nat, hashCount: nat, bits: Blob)

  function Pow2(n: nat): nat {
    if n == 0 then 1 else 2 * Pow2(n - 1)
  }

  /** (b >> j) & 1 */
  predicate BitOf(b: nat, j: nat) {
    if j == 0 then b % 2 == 1 else BitOf(b / 2, j - 1)
  }

  /** b | (1 << j) */
  function SetBitOf(b: nat, j: nat): nat {
    if j == 0 then (if b % 2 == 1 then b else b + 1) else 2 * SetBitOf(b / 2, j - 1) + b % 2
  }

  lemma {:induction false} SetBitMeans(b: nat, j: nat, i: nat)
    ensures BitOf(SetBitOf(b, j), i) <==> i == j || BitOf(b, i)
  {
    if j == 0 {
      if i > 0 {
        assert SetBitOf(b, 0) / 2 == b / 2;
      }
    } else if i > 0 {
      SetBitMeans(b / 2, j - 1, i - 1);
      assert SetBitOf(b, j) / 2 == SetBitOf(b / 2, j - 1);
    }
  }

  lemma {:induction false} SetBitBound(b: nat, j: nat, n: nat)
    requires b < Pow2(n) && j < n
    ensures SetBitOf(b, j) < Pow2(n)
  {
    if j > 0 {
      SetBitBound(b / 2, j - 1, n - 1);
      DoubleBelow(SetBitOf(b / 2, j - 1), b % 2, Pow2(n - 1));
    } else {
      DoubleBelow(b / 2, 1, Pow2(n - 1));
    }
  }

  lemma DoubleBelow(x: nat, bit: nat, p: nat)
    requires x < p && bit < 2
    ensures 2 * x + bit < 2 * p
  {
  }

  lemma Pow2Byte()
    ensures Pow2(8) == 256
  {
    assert Pow2(2) == 4 && Pow2(4) == 16 && Pow2(6) == 64;
  }

  predicate Bit(bits: Blob, n: nat)
    requires n / 8 < |bits|
  {
    BitOf(bits[n / 8], n % 8)
  }

  function SetBit(bits: Blob, n: nat): (r: Blob)
    requires n / 8 < |bits|
    ensures |r| == |bits|
  {
    Pow2Byte();
    SetBitBound(bits[n / 8], n % 8, 8);
    bits[n / 8 := SetBitOf(bits[n / 8], n % 8)]
  }

  /** Setting a bit sets that bit and no other. */
  lemma SetBitExact(bits: Blob, n: nat, k: nat)
    requires n / 8 < |bits| && k / 8 < |bits|
    ensures Bit(SetBit(bits, n), k) <==> k == n || Bit(bits, k)
  {
    if n / 8 == k / 8 {
      SetBitMeans(bits[n / 8], n % 8, k % 8);
    }
  }

  // --------------------------------------------------------------------- probing

  /** Probe i: 32-bit arithmetic, then the filter size. */
  function Probe(hash: Hash, key: Blob, i: nat, bitCount: nat): (n: nat)
    requires bitCount > 0
    ensures n < bitCount
  {
    (hash(key, SEED1) + i * hash(key, SEED2)) % WRAP % bitCount
  }

  predicate Sized(f: Filter) {
    f.bitCount > 0 && |f.bits| == (f.bitCount + 7) / 8
  }

  predicate HasKey(hash: Hash, f: Filter, key: Blob, n: nat)
    requires Sized(f)
  {
    forall i :: 0 <= i < n ==> Bit(f.bits, Probe(hash, key, i, f.bitCount))
  }

  method MayContain(hash: Hash, f: Filter, key: Blob) returns (r: bool)
    requires f.bitCount > 0 ==> Sized(f)
    ensures r <==> f.bitCount == 0 || f.hashCount == 0 || HasKey(hash, f, key, f.hashCount)
  {
    if f.bitCount == 0 || f.hashCount == 0 {
      return true;
    }
    for i := 0 to f.hashCount
      invariant HasKey(hash, f, key, i)
    {
      if !Bit(f.bits, Probe(hash, key, i, f.bitCount)) {
        return false;
      }
    }
    return true;
  }

  lemma SetKeeps(hash: Hash, f: Filter, n: nat, key: Blob, h: nat)
    requires Sized(f) && n < f.bitCount && HasKey(hash, f, key, h)
    ensures Sized(f.(bits := SetBit(f.bits, n))) && HasKey(hash, f.(bits := SetBit(f.bits, n)), key, h)
  {
    forall i | 0 <= i < h ensures Bit(SetBit(f.bits, n), Probe(hash, key, i, f.bitCount)) {
      SetBitExact(f.bits, n, Probe(hash, key, i, f.bitCount));
    }
  }

  function Max(a: nat, b: nat): nat {
    if a < b then b else a
  }

  function HashCount(bitsPerKey: nat): nat {
    var h := (bitsPerKey as real * 0.69).Floor;
    Max(1, if h < 30 then h else 30)
  }

  /** Build: no key that was added is ever reported absent. */
  method Build(hash: Hash, keys: seq<Blob>, bitsPerKey: nat) returns (f: Filter)
    requires |keys| * Max(1, bitsPerKey) + 7 < WRAP
    ensures Sized(f) && f.bitCount < WRAP && 1 <= f.hashCount <= 30
    ensures forall k :: 0 <= k < |keys| ==> HasKey(hash, f, keys[k], f.hashCount)
  {
    var bitCount := Max(64, |keys| * Max(1, bitsPerKey));
    f := Filter(bitCount, HashCount(bitsPerKey), seq((bitCount + 7) / 8, _ => 0));
    for k := 0 to |keys|
      invariant Sized(f) && f.bitCount == bitCount && f.hashCount == HashCount(bitsPerKey)
      invariant forall j :: 0 <= j < k ==> HasKey(hash, f, keys[j], f.hashCount)
    {
      for i := 0 to f.hashCount
        invariant Sized(f) && f.bitCount == bitCount && f.hashCount == HashCount(bitsPerKey)
        invariant forall j :: 0 <= j < k ==> HasKey(hash, f, keys[j], f.hashCount)
        invariant HasKey(hash, f, keys[k], i)
      {
        var n := Probe(hash, keys[k], i, f.bitCount);
        forall j | 0 <= j < k ensures HasKey(hash, f.(bits := SetBit(f.bits, n)), keys[j], f.hashCount) {
          SetKeeps(hash, f, n, keys[j], f.hashCount);
        }
        SetKeeps(hash, f, n, keys[k], i);
        SetBitExact(f.bits, n, n);
        f := f.(bits := SetBit(f.bits, n));
      }
    }
  }

  // -------------------------------------------------------------------- encoding

  function Encode(f: Filter): Blob {
    Fixed(f.bitCount, 4) + Fixed(f.hashCount, 4) + f.bits
  }

  function Decode(b: Blob): Option<Filter> {
    if |b| < 8 then None
    else
      var bitCount, hashCount := Get32(b, 0), Get32(b, 4);
      if |b| != (bitCount + 7) / 8 + 8 || bitCount == 0 || hashCount == 0 || hashCount > 30 then None
      else Some(Filter(bitCount, hashCount, b[8..]))
  }

  /** Every filter Build makes is accepted and restored. */
  lemma DecodeEncode(f: Filter)
    requires Sized(f) && f.bitCount < WRAP && 1 <= f.hashCount <= 30
    ensures Decode(Encode(f)) == Some(f)
  {
    hide Fixed, Get32;
    var b := Encode(f);
    Parts(Fixed(f.bitCount, 4), Fixed(f.hashCount, 4), f.bits, []);
    assert b == Fixed(f.bitCount, 4) + Fixed(f.hashCount, 4) + f.bits + [];
    assert b[0..4] == b[..4] && b[8..] == b[8..|b|];
    Slice32(b, 0, f.bitCount);
    Slice32(b, 4, f.hashCount);
  }
}
