/** The parts of an index file, and reading them back at an offset. */
module IndexBytes {
  import opened Bytes
  import opened Codec
  import opened HnswSearch
  import opened HnswGraph

  const B32: nat := 0x1_0000_0000
  const B64: nat := 0x1_0000_0000_0000_0000
  const MAX_LAYERS: nat := 64

  /** The bytes e are in b at the offset. */
  predicate Holds(b: Blob, at: nat, e: Blob) {
    at + |e| <= |b| && b[at..at + |e|] == e
  }

  lemma HoldsCat(b: Blob, at: nat, x: Blob, y: Blob)
    ensures Holds(b, at, x + y) <==> Holds(b, at, x) && Holds(b, at + |x|, y)
  {
    if Holds(b, at, x + y) {
      SubSlice(b, at, at + |x| + |y|, 0, |x|);
      SubSlice(b, at, at + |x| + |y|, |x|, |x| + |y|);
      assert (x + y)[0..|x|] == x && (x + y)[|x|..|x| + |y|] == y;
    }
    if Holds(b, at, x) && Holds(b, at + |x|, y) {
      assert b[at..at + |x| + |y|] == b[at..at + |x|] + b[at + |x|..at + |x| + |y|];
    }
  }

  // ------------------------------------------------------------ numbers and strings

  function U32At(b: Blob, at: nat): (r: Option<(nat, nat)>)
    ensures r.Some? ==> r.value.0 < B32 && at <= r.value.1 <= |b|
  {
    if at + 4 <= |b| then Some((Get32(b, at), at + 4)) else None
  }

  function U64At(b: Blob, at: nat): (r: Option<(nat, nat)>)
    ensures r.Some? ==> r.value.0 < B64 && at <= r.value.1 <= |b|
  {
    if at + 8 <= |b| then Some((Get64(b, at), at + 8)) else None
  }

  lemma U32Holds(b: Blob, at: nat, v: nat)
    requires v < B32 && Holds(b, at, Fixed(v, 4))
    ensures U32At(b, at) == Some((v, at + 4))
  {
    hide Fixed, Get32;
    Slice32(b, at, v);
  }

  lemma U64Holds(b: Blob, at: nat, v: nat)
    requires v < B64 && Holds(b, at, Fixed(v, 8))
    ensures U64At(b, at) == Some((v, at + 8))
  {
    hide Fixed, Get64;
    Slice64(b, at, v);
  }

  function Str(s: Blob): Blob {
    Fixed(|s|, 4) + s
  }

  function StrAt(b: Blob, at: nat): (r: Option<(Blob, nat)>)
    ensures r.Some? ==> |r.value.0| < B32 && at <= r.value.1 <= |b|
  {
    var n := U32At(b, at);
    if n.None? || |b| - n.value.1 < n.value.0 then None
    else Some((b[n.value.1..n.value.1 + n.value.0], n.value.1 + n.value.0))
  }

  lemma StrHolds(b: Blob, at: nat, s: Blob)
    requires |s| < B32 && Holds(b, at, Str(s))
    ensures StrAt(b, at) == Some((s, at + |Str(s)|))
  {
    hide Fixed, U32At;
    HoldsCat(b, at, Fixed(|s|, 4), s);
    U32Holds(b, at, |s|);
  }

  // ------------------------------------------------------------------------ vectors

  function Coordinates(v: Vector): Blob {
    if v == [] then [] else Coordinates(v[..|v| - 1]) + Fixed(v[|v| - 1], 4)
  }

  lemma {:induction false} CoordinatesSize(v: Vector)
    ensures |Coordinates(v)| == 4 * |v|
  {
    if v != [] {
      CoordinatesSize(v[..|v| - 1]);
    }
  }

  /** Where coordinate i is. */
  lemma {:induction false} CoordinateAt(b: Blob, at: nat, v: Vector, i: nat)
    requires Holds(b, at, Coordinates(v)) && i < |v|
    ensures U32At(b, at + 4 * i) == Some((v[i], at + 4 * i + 4))
  {
    hide U32At, Fixed, Holds;
    var init := v[..|v| - 1];
    CoordinatesSize(init);
    HoldsCat(b, at, Coordinates(init), Fixed(v[|v| - 1], 4));
    if i < |init| {
      CoordinateAt(b, at, init, i);
    } else {
      U32Holds(b, at + 4 * i, v[i]);
    }
  }

  /** Floating point facts about a 32-bit pattern. */
  datatype Floats = Floats(finite: nat -> bool, nonzero: nat -> bool, cosine: bool)

  predicate VectorOk(f: Floats, dimension: nat, v: Vector) {
    && |v| == dimension && (forall i :: 0 <= i < |v| ==> f.finite(v[i]))
    && (f.cosine ==> AnyNonzero(f, v))
  }

  predicate AnyNonzero(f: Floats, v: Vector) {
    exists i :: 0 <= i < |v| && f.nonzero(v[i])
  }

  lemma NonzeroNext(f: Floats, v: Vector, x: U32)
    ensures AnyNonzero(f, v + [x]) <==> AnyNonzero(f, v) || f.nonzero(x)
  {
    var w := v + [x];
    assert w[|v|] == x;
    if AnyNonzero(f, v) {
      var i :| 0 <= i < |v| && f.nonzero(v[i]);
      assert f.nonzero(w[i]);
    }
  }

  method ReadVector(b: Blob, at: nat, dimension: nat, f: Floats, ghost v: Vector) returns (r: Option<(Vector, nat)>)
    ensures r.Some? ==> VectorOk(f, dimension, r.value.0) && at <= r.value.1
    ensures VectorOk(f, dimension, v) && Holds(b, at, Coordinates(v)) ==> r == Some((v, at + |Coordinates(v)|))
  {
    hide U32At, Coordinates, Holds;
    ghost var good := VectorOk(f, dimension, v) && Holds(b, at, Coordinates(v));
    var values: seq<U32>, has, offset := [], false, at;
    for i := 0 to dimension
      invariant |values| == i && (forall j :: 0 <= j < i ==> f.finite(values[j]))
      invariant has <==> AnyNonzero(f, values)
      invariant offset >= at
      invariant good ==> values == v[..i] && offset == at + 4 * i
    {
      if good {
        CoordinateAt(b, at, v, i);
      }
      var bits := U32At(b, offset);
      if bits.None? {
        return None;
      }
      if !f.finite(bits.value.0) {
        return None;
      }
      NonzeroNext(f, values, bits.value.0);
      has := has || f.nonzero(bits.value.0);
      values, offset := values + [bits.value.0], offset + 4;
    }
    if good {
      assert v[..|v|] == v;
      CoordinatesSize(v);
    }
    if f.cosine && !has {
      return None;
    }
    r := Some((values, offset));
  }

  // --------------------------------------------------------------------- neighbours

  function Ids(ns: seq<nat>): Blob {
    if ns == [] then [] else Ids(ns[..|ns| - 1]) + Fixed(ns[|ns| - 1], 8)
  }

  lemma {:induction false} IdsSize(ns: seq<nat>)
    ensures |Ids(ns)| == 8 * |ns|
  {
    if ns != [] {
      IdsSize(ns[..|ns| - 1]);
    }
  }

  lemma {:induction false} IdAt(b: Blob, at: nat, ns: seq<nat>, i: nat)
    requires Holds(b, at, Ids(ns)) && i < |ns| && ns[i] < B64
    ensures U64At(b, at + 8 * i) == Some((ns[i], at + 8 * i + 8))
  {
    hide U64At, Fixed, Holds;
    var init := ns[..|ns| - 1];
    IdsSize(init);
    HoldsCat(b, at, Ids(init), Fixed(ns[|ns| - 1], 8));
    if i < |init| {
      IdAt(b, at, init, i);
    } else {
      U64Holds(b, at + 8 * i, ns[i]);
    }
  }

  function Layer(ns: seq<nat>): Blob {
    Fixed(|ns|, 4) + Ids(ns)
  }

  predicate LayerOk(ns: seq<nat>, limit: nat, count: nat) {
    |ns| <= limit && forall i :: 0 <= i < |ns| ==> ns[i] < count
  }

  method ReadLayer(b: Blob, at: nat, limit: nat, count: nat, ghost ns: seq<nat>) returns (r: Option<(seq<nat>, nat)>)
    ensures r.Some? ==> LayerOk(r.value.0, limit, count) && at <= r.value.1
    ensures LayerOk(ns, limit, count) && count <= B64 && |ns| < B32 && Holds(b, at, Layer(ns)) ==> r == Some((ns, at + |Layer(ns)|))
  {
    hide U32At, U64At, Ids, Holds, Fixed;
    ghost var good := LayerOk(ns, limit, count) && count <= B64 && |ns| < B32 && Holds(b, at, Layer(ns));
    if good {
      HoldsCat(b, at, Fixed(|ns|, 4), Ids(ns));
      U32Holds(b, at, |ns|);
      IdsSize(ns);
      HoldsFits(b, at + 4, Ids(ns));
    }
    var n := U32At(b, at);
    if n.None? {
      return None;
    }
    if n.value.0 > limit || n.value.0 > (|b| - n.value.1) / 8 {
      return None;
    }
    var list: seq<nat>, offset := [], n.value.1;
    for i := 0 to n.value.0
      invariant |list| == i && (forall j :: 0 <= j < i ==> list[j] < count) && offset >= at
      invariant good ==> n.value == (|ns|, at + 4) && list == ns[..i] && offset == at + 4 + 8 * i
    {
      if good {
        IdAt(b, at + 4, ns, i);
      }
      var id := U64At(b, offset);
      if id.None? || id.value.0 >= count {
        return None;
      }
      list, offset := list + [id.value.0], id.value.1;
    }
    if good {
      assert ns[..|ns|] == ns;
    }
    r := Some((list, offset));
  }

  lemma HoldsFits(b: Blob, at: nat, e: Blob)
    requires Holds(b, at, e)
    ensures at + |e| <= |b|
  {
  }

  function LayerBytes(ls: seq<seq<nat>>): Blob {
    if ls == [] then [] else LayerBytes(ls[..|ls| - 1]) + Layer(ls[|ls| - 1])
  }

  lemma {:induction false} LayersAt(b: Blob, at: nat, ls: seq<seq<nat>>, i: nat)
    requires Holds(b, at, LayerBytes(ls)) && i < |ls|
    ensures Holds(b, at + |LayerBytes(ls[..i])|, Layer(ls[i]))
    ensures |LayerBytes(ls[..i + 1])| == |LayerBytes(ls[..i])| + |Layer(ls[i])|
  {
    hide Layer, Holds;
    var init := ls[..|ls| - 1];
    HoldsCat(b, at, LayerBytes(init), Layer(ls[|ls| - 1]));
    if i < |init| {
      LayersAt(b, at, init, i);
      assert init[..i] == ls[..i] && init[..i + 1] == ls[..i + 1];
    } else {
      assert ls[..i] == init && ls[..i + 1] == ls;
    }
  }

  predicate LayersFit(ls: seq<seq<nat>>, m: nat, count: nat) {
    1 <= |ls| <= MAX_LAYERS && forall l :: 0 <= l < |ls| ==> LayerOk(ls[l], Limit(m, l), count)
  }

  function Layers(ls: seq<seq<nat>>): Blob {
    Fixed(|ls|, 4) + LayerBytes(ls)
  }

  method ReadLayers(b: Blob, at: nat, m: nat, count: nat, ghost ls: seq<seq<nat>>) returns (r: Option<(seq<seq<nat>>, nat)>)
    requires 2 * m < B32
    ensures r.Some? ==> LayersFit(r.value.0, m, count) && at <= r.value.1
    ensures LayersFit(ls, m, count) && count <= B64 && Holds(b, at, Layers(ls)) ==> r == Some((ls, at + |Layers(ls)|))
  {
    hide U32At, Layer, LayerBytes, Holds, Fixed, LayerOk;
    ghost var good := LayersFit(ls, m, count) && count <= B64 && Holds(b, at, Layers(ls));
    if good {
      HoldsCat(b, at, Fixed(|ls|, 4), LayerBytes(ls));
      U32Holds(b, at, |ls|);
    }
    var n := U32At(b, at);
    if n.None? || n.value.0 == 0 || n.value.0 > MAX_LAYERS {
      return None;
    }
    var list: seq<seq<nat>>, offset := [], n.value.1;
    NoLayers();
    for l := 0 to n.value.0
      invariant |list| == l && (forall j :: 0 <= j < l ==> LayerOk(list[j], Limit(m, j), count)) && offset >= at
      invariant good ==> n.value == (|ls|, at + 4) && list == ls[..l] && offset == at + 4 + |LayerBytes(ls[..l])|
    {
      if good {
        LayersAt(b, at + 4, ls, l);
        LayerFits(ls[l], m, l, count);
      }
      var layer := ReadLayer(b, offset, Limit(m, l), count, if good then ls[l] else []);
      if layer.None? {
        return None;
      }
      list, offset := list + [layer.value.0], layer.value.1;
    }
    if good {
      assert ls[..|ls|] == ls;
    }
    r := Some((list, offset));
  }

  lemma NoLayers()
    ensures LayerBytes([]) == []
  {
  }

  lemma LayerFits(ns: seq<nat>, m: nat, l: nat, count: nat)
    requires LayerOk(ns, Limit(m, l), count) && 2 * m < B32
    ensures |ns| < B32
  {
  }
}
