/** Byte strings and the order std::string gives them. */
module Bytes {
  const MAX_U64: nat := 0xffff_ffff_ffff_ffff

  type Byte = b: int | 0 <= b < 256
  type Blob = seq<Byte>

  datatype Option<+T> = None | Some(value: T)

  /** std::string operator<: unsigned bytes, a proper prefix is smaller. */
  predicate Less(a: Blob, b: Blob)
    decreases |a|
  {
    if b == [] then false
    else if a == [] then true
    else if a[0] != b[0] then a[0] < b[0]
    else Less(a[1..], b[1..])
  }

  predicate Leq(a: Blob, b: Blob) {
    a == b || Less(a, b)
  }

  lemma {:induction false} LessIrreflexive(a: Blob)
    ensures !Less(a, a)
    decreases |a|
  {
    if a != [] {
      LessIrreflexive(a[1..]);
    }
  }

  lemma {:induction false} LessTransitive(a: Blob, b: Blob, c: Blob)
    requires Less(a, b) && Less(b, c)
    ensures Less(a, c)
    decreases |a|
  {
    if a != [] && a[0] == b[0] && b[0] == c[0] {
      LessTransitive(a[1..], b[1..], c[1..]);
    }
  }

  lemma {:induction false} LessTotal(a: Blob, b: Blob)
    ensures Less(a, b) || a == b || Less(b, a)
    decreases |a|
  {
    if a != [] && b != [] && a[0] == b[0] {
      LessTotal(a[1..], b[1..]);
      if a[1..] == b[1..] {
        assert a == [a[0]] + a[1..] == [b[0]] + b[1..] == b;
      }
    }
  }

  /** The order facts a caller needs at three given points. */
  lemma Order(a: Blob, b: Blob, c: Blob)
    ensures Less(a, b) && Less(b, c) ==> Less(a, c)
    ensures Less(a, b) || a == b || Less(b, a)
    ensures !(Less(a, b) && Less(b, a))
    ensures !Less(a, a)
  {
    LessTotal(a, b);
    LessIrreflexive(a);
    if Less(a, b) {
      if Less(b, c) {
        LessTransitive(a, b, c);
      }
      if Less(b, a) {
        LessTransitive(a, b, a);
      }
    }
  }

  /** The first difference decides: a common prefix may be cut off both sides. */
  lemma {:induction false} LessCommonPrefix(p: Blob, a: Blob, b: Blob)
    ensures Less(p + a, p + b) <==> Less(a, b)
  {
    if p == [] {
      assert p + a == a && p + b == b;
    } else {
      assert (p + a)[1..] == p[1..] + a && (p + b)[1..] == p[1..] + b;
      LessCommonPrefix(p[1..], a, b);
    }
  }
}
