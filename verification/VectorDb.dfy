/**
 Coordination of the key-value store and the vector index.  When the index is Ready it
 shows exactly the vectors stored in the current key-value map; any failure makes it
 Dirty, and then no indexed search answers until a rebuild.
 */
module VectorDb {
  import opened Bytes
  import opened Versions
  import opened HnswSearch
  import opened HnswGraph
  import HI = HnswIndex
  import Engine
  import WB = WriteBatchCodec

  // ------------------------------------------------------------ views of the index

  ghost predicate AllBelow(v: HI.Versions, s: nat) {
    forall k, e :: k in v && e in v[k] ==> e.seqno < s
  }

  ghost predicate KeyBelow(v: HI.Versions, key: Blob, s: nat) {
    key in v ==> forall e :: e in v[key] ==> e.seqno < s
  }

  lemma ShownOk(nodes: seq<Node>, seqOf: seq<nat>, v: HI.Versions, k: Blob, r: nat)
    requires HI.VersionsOk(nodes, seqOf, v)
    ensures HI.Shown(v, k, r).Some? ==> k in v && HI.Shown(v, k, r).value < |nodes|
  {
    if k in v {
      assert HI.HistoryOk(nodes, seqOf, k, v[k]);
      HI.LatestBelow(v[k], r);
    }
  }

  /** A version newer than all others of its key decides what the key shows. */
  lemma ShownNew(v: HI.Versions, key: Blob, e: HI.Entry, r: nat)
    requires KeyBelow(v, key, e.seqno) && e.seqno <= r && (key in v ==> HI.Ascending(v[key]))
    ensures var h := if key in v then v[key] else [];
            && !HI.Has(h, e.seqno)
            && HI.Shown(v[key := HI.Emplaced(h, e)], key, r) == if e.deleted then None else Some(e.node)
  {
    var h := if key in v then v[key] else [];
    assert forall i :: 0 <= i < |h| ==> h[i] in v[key];
    HI.LatestEmplaced(h, e, r);
    HI.LatestBelow(h, r);
  }

  lemma SeenInserted(before: seq<Node>, after: seq<Node>, seqOf: seq<nat>, v: HI.Versions, key: Blob, s: nat, r: nat, k: Blob)
    requires HI.VersionsOk(before, seqOf, v) && |after| == |before| + 1 && SameShape(before, after[..|before|])
    requires KeyBelow(v, key, s) && s <= r
    ensures var h := if key in v then v[key] else [];
            HI.Seen(after, v[key := HI.Emplaced(h, HI.Entry(s, |before|, false))], r, k) ==
              if k == key then Some(HI.Record(after[|before|].vector, after[|before|].metadata)) else HI.Seen(before, v, r, k)
  {
    hide HI.Latest, HI.Emplaced, SameShape, HI.Shown, HI.HistoryOk;
    var h, e := if key in v then v[key] else [], HI.Entry(s, |before|, false);
    HistoryAscending(before, seqOf, v, key);
    ShownNew(v, key, e, r);
    HI.NodesKept(before, after, seqOf, s, v);
    ShownOk(before, seqOf, v, k, r);
    ShownSame(v, v[key := HI.Emplaced(h, e)], k, key, r);
  }

  lemma ViewInserted(before: seq<Node>, after: seq<Node>, seqOf: seq<nat>, v: HI.Versions, key: Blob, s: nat, r: nat)
    requires HI.VersionsOk(before, seqOf, v) && |after| == |before| + 1 && SameShape(before, after[..|before|])
    requires KeyBelow(v, key, s) && s <= r
    ensures var h := if key in v then v[key] else [];
            HI.View(after, v[key := HI.Emplaced(h, HI.Entry(s, |before|, false))], r) ==
              HI.View(before, v, r)[key := HI.Record(after[|before|].vector, after[|before|].metadata)]
  {
    hide HI.Seen, HI.View, HI.Emplaced, SameShape, HI.VersionsOk, KeyBelow;
    var h, e := if key in v then v[key] else [], HI.Entry(s, |before|, false);
    var w := v[key := HI.Emplaced(h, e)];
    var a, b := HI.View(after, w, r), HI.View(before, v, r)[key := HI.Record(after[|before|].vector, after[|before|].metadata)];
    forall k ensures (k in a <==> k in b) && (k in a ==> a[k] == b[k]) {
      SeenInserted(before, after, seqOf, v, key, s, r, k);
      HI.InView(after, w, r, k);
      HI.InView(before, v, r, k);
    }
    SameMap(a, b);
  }

  lemma SameMap(a: map<Blob, HI.Record>, b: map<Blob, HI.Record>)
    requires forall k :: (k in a <==> k in b) && (k in a ==> a[k] == b[k])
    ensures a == b
  {
    assert a.Keys == b.Keys;
  }

  lemma SeenDeleted(nodes: seq<Node>, seqOf: seq<nat>, v: HI.Versions, key: Blob, s: nat, r: nat, k: Blob)
    requires HI.VersionsOk(nodes, seqOf, v) && KeyBelow(v, key, s) && s <= r
    ensures var h := if key in v then v[key] else [];
            HI.Seen(nodes, v[key := HI.Emplaced(h, HI.Entry(s, 0, true))], r, k) == if k == key then None else HI.Seen(nodes, v, r, k)
  {
    hide HI.Latest, HI.Emplaced, HI.Shown, HI.HistoryOk;
    var h, e := if key in v then v[key] else [], HI.Entry(s, 0, true);
    HistoryAscending(nodes, seqOf, v, key);
    ShownNew(v, key, e, r);
    ShownSame(v, v[key := HI.Emplaced(h, e)], k, key, r);
  }

  lemma ViewDeleted(nodes: seq<Node>, seqOf: seq<nat>, v: HI.Versions, key: Blob, s: nat, r: nat)
    requires HI.VersionsOk(nodes, seqOf, v) && KeyBelow(v, key, s) && s <= r
    ensures var h := if key in v then v[key] else [];
            HI.View(nodes, v[key := HI.Emplaced(h, HI.Entry(s, 0, true))], r) == HI.View(nodes, v, r) - {key}
  {
    hide HI.Seen, HI.View, HI.Emplaced, HI.VersionsOk, KeyBelow;
    var h, e := if key in v then v[key] else [], HI.Entry(s, 0, true);
    var w := v[key := HI.Emplaced(h, e)];
    var a, b := HI.View(nodes, w, r), HI.View(nodes, v, r) - {key};
    forall k ensures (k in a <==> k in b) && (k in a ==> a[k] == b[k]) {
      SeenDeleted(nodes, seqOf, v, key, s, r, k);
      HI.InView(nodes, w, r, k);
      HI.InView(nodes, v, r, k);
    }
    SameMap(a, b);
  }

  lemma HistoryAscending(nodes: seq<Node>, seqOf: seq<nat>, v: HI.Versions, key: Blob)
    requires HI.VersionsOk(nodes, seqOf, v)
    ensures key in v ==> HI.Ascending(v[key])
  {
    if key in v {
      assert HI.HistoryOk(nodes, seqOf, key, v[key]);
    }
  }

  lemma ShownSame(v: HI.Versions, w: HI.Versions, k: Blob, key: Blob, r: nat)
    requires key in w && (forall x :: x != key ==> (x in v <==> x in w)) && forall x :: x != key && x in v ==> w[x] == v[x]
    ensures k != key ==> HI.Shown(w, k, r) == HI.Shown(v, k, r)
    ensures k != key ==> (k in v <==> k in w)
  {
  }

  /** A new version is below the next sequence like all the others. */
  lemma BelowNext(v: HI.Versions, key: Blob, e: HI.Entry)
    requires AllBelow(v, e.seqno) && (key in v ==> HI.Ascending(v[key]))
    ensures var h := if key in v then v[key] else []; AllBelow(v[key := HI.Emplaced(h, e)], e.seqno + 1)
  {
    var h := if key in v then v[key] else [];
    ShownNew(v, key, e, e.seqno);
    HI.EmplacedFacts(h, e);
    var w := v[key := HI.Emplaced(h, e)];
    forall k: Blob, x: HI.Entry | k in w && x in w[k] ensures x.seqno < e.seqno + 1 {
      if k != key {
        assert x in v[k];
      } else if x != e {
        assert x in v[key];
      }
    }
  }

  // ---------------------------------------------------------- vectors in the map

  datatype Codec = Codec(encoded: Blob -> bool, decode: Blob -> Option<HI.Record>, valid: Vector -> bool)

  predicate GoodVector(c: Codec, value: Blob) {
    c.encoded(value) && c.decode(value).Some? && c.valid(c.decode(value).value.vector)
  }

  /** The vector-encoded entries of a key-value map. */
  ghost function Vectors(c: Codec, kv: map<Blob, Blob>): map<Blob, HI.Record> {
    map k | k in kv && c.encoded(kv[k]) && c.decode(kv[k]).Some? :: c.decode(kv[k]).value
  }

  /** Every value that claims to be a vector is one. */
  ghost predicate AllGood(c: Codec, kv: map<Blob, Blob>) {
    forall k :: k in kv && c.encoded(kv[k]) ==> GoodVector(c, kv[k])
  }

  lemma {:induction false} GoodKept(c: Codec, kv: map<Blob, Blob>, ops: seq<Op>)
    requires AllGood(c, kv) && OpsOk(c, ops)
    ensures AllGood(c, ApplyOps(kv, ops))
  {
    hide GoodVector;
    if ops != [] {
      GoodKept(c, kv, ops[..|ops| - 1]);
    }
  }

  lemma VectorsPut(c: Codec, kv: map<Blob, Blob>, k: Blob, value: Blob)
    requires c.encoded(value) ==> c.decode(value).Some?
    ensures Vectors(c, kv[k := value]) ==
            if c.encoded(value) then Vectors(c, kv)[k := c.decode(value).value] else Vectors(c, kv) - {k}
  {
    var a := Vectors(c, kv[k := value]);
    var b := if c.encoded(value) then Vectors(c, kv)[k := c.decode(value).value] else Vectors(c, kv) - {k};
    assert a.Keys == b.Keys;
  }

  lemma VectorsDelete(c: Codec, kv: map<Blob, Blob>, k: Blob)
    ensures Vectors(c, kv - {k}) == Vectors(c, kv) - {k}
  {
  }

  // ------------------------------------------------------------------ the database

  datatype IndexState = Closed | Dirty | Ready
  datatype CommitState = NotCommitted | Unknown | Committed

  /** What the key-value store does with a batch: commits it, or fails having applied it
      or not; one that was not applied may still be whole in the log. */
  datatype Commit = Done | Failed(applied: bool, logged: bool)

  /** A key the store takes, sizes that can be encoded, and a valid vector if it claims to be
      one. */
  predicate OpOk(c: Codec, op: Op) {
    Engine.ValidKey(op.key) && WB.Fits(op) && (op.Put? && c.encoded(op.value) ==> GoodVector(c, op.value))
  }

  predicate OpsOk(c: Codec, ops: seq<Op>) {
    forall i :: 0 <= i < |ops| ==> OpOk(c, ops[i])
  }

  predicate BatchOk(c: Codec, ops: seq<Op>) {
    OpsOk(c, ops) && WB.Encodable(ops)
  }

  predicate KeysOk(kv: map<Blob, Blob>) {
    [] !in kv
  }

  predicate KeysOf(ops: seq<Op>) {
    forall i :: 0 <= i < |ops| ==> ops[i].key != []
  }

  lemma {:induction false} KeysKept(kv: map<Blob, Blob>, ops: seq<Op>)
    requires KeysOk(kv) && KeysOf(ops)
    ensures KeysOk(ApplyOps(kv, ops))
  {
    if ops != [] {
      KeysKept(kv, ops[..|ops| - 1]);
    }
  }

  class VectorDB {
    const codec: Codec
    const metric: (Vector, Vector) -> real
    const sameVector: (Vector, Vector) -> bool
    const maxNeighbors: nat
    const efConstruction: nat
    const rebuildEvery: nat
    var kv: map<Blob, Blob>
    /** A batch that failed but may come back when the store is reopened. */
    var pending: seq<Op>
    var state: IndexState
    var index: HI.Index?
    var indexSequence: nat
    var operations: nat

    /** From sequence s on, the index shows exactly the vectors of the map. */
    ghost predicate Shows(idx: HI.Index, s: nat, m: map<Blob, Blob>)
      reads idx, idx.graph, idx.marks
    {
      && idx.Valid() && idx.graph.admissible == codec.valid && AllBelow(idx.versions, s + 1)
      && forall r :: r >= s ==> idx.ViewAt(r) == Vectors(codec, m)
    }

    ghost function Objects(): set<object>
      reads this
    {
      if index == null then {} else {index, index.graph, index.marks}
    }

    /** Ready means agreement. */
    ghost predicate Valid()
      reads this, Objects()
    {
      && maxNeighbors >= 2 && efConstruction >= 1 && KeysOk(kv) && KeysOf(pending)
      && (state == Ready ==> index != null && Shows(index, indexSequence, kv) && AllGood(codec, kv))
    }

    constructor (codec: Codec, metric: (Vector, Vector) -> real, sameVector: (Vector, Vector) -> bool,
                 maxNeighbors: nat, efConstruction: nat, rebuildEvery: nat, kv: map<Blob, Blob>)
      requires maxNeighbors >= 2 && efConstruction >= 1 && KeysOk(kv)
      ensures Valid() && state == Closed && this.kv == kv && pending == [] && index == null
    {
      this.codec, this.metric, this.sameVector := codec, metric, sameVector;
      this.maxNeighbors, this.efConstruction, this.rebuildEvery := maxNeighbors, efConstruction, rebuildEvery;
      this.kv, pending, state, index, indexSequence, operations := kv, [], Closed, null, 0, 0;
    }

    /** BuildIndex: over one view of the store; a stored value that claims to be a vector
        and is not makes it fail. */
    method BuildIndex(view: map<Blob, Blob>, fails: bool, levels: nat -> nat) returns (idx: HI.Index?)
      requires maxNeighbors >= 2 && efConstruction >= 1 && KeysOk(view)
      ensures idx == null <==> fails || !AllGood(codec, view)
      ensures idx != null ==> fresh(idx) && fresh(idx.graph) && fresh(idx.marks) && Shows(idx, 0, view) && idx.graph.metric == metric
    {
      hide VectorDB.Shows, GoodVector;
      if fails {
        return null;
      }
      var graph := new Graph(metric, codec.valid, maxNeighbors, efConstruction);
      var marks := new VisitMarks();
      var replacement := new HI.Index(graph, marks, sameVector);
      var todo := view.Keys;
      ghost var seen: map<Blob, Blob> := map[];
      StartEmpty(replacement);
      while todo != {}
        invariant todo <= view.Keys && (forall k :: k in seen <==> k in view && k !in todo)
        invariant forall k :: k in seen ==> seen[k] == view[k]
        invariant fresh(replacement) && fresh(replacement.graph) && fresh(replacement.marks) && replacement.graph.metric == metric
        invariant Shows(replacement, 0, seen)
        invariant forall k :: k in todo ==> k !in replacement.versions
        invariant AllGood(codec, seen)
        decreases todo
      {
        var k :| k in todo;
        if codec.encoded(view[k]) {
          if !GoodVector(codec, view[k]) {
            return null;
          }
          Add(replacement, k, view[k], levels(|replacement.graph.nodes|), seen);
        } else {
          SkipPlain(replacement, k, view[k], seen);
        }
        todo, seen := todo - {k}, seen[k := view[k]];
      }
      assert seen == view;
      idx := replacement;
    }

    lemma StartEmpty(idx: HI.Index)
      requires idx.Valid() && idx.graph.admissible == codec.valid && idx.versions == map[]
      ensures Shows(idx, 0, map[])
    {
      NothingSeen(idx.graph.nodes, codec);
    }

    /** One vector of the view goes into the new index. */
    method Add(idx: HI.Index, k: Blob, value: Blob, level: nat, ghost seen: map<Blob, Blob>)
      requires Shows(idx, 0, seen) && k != [] && k !in idx.versions && GoodVector(codec, value)
      modifies idx, idx.graph, idx.marks
      ensures Shows(idx, 0, seen[k := value])
      ensures forall x :: x in idx.versions <==> x in old(idx.versions) || x == k
    {
      hide HI.View, HI.VersionsOk, HI.Emplaced, SameShape, GraphInv, Vectors, AllBelow;
      var record := codec.decode(value).value;
      ghost var nodes, versions, seqOf := idx.graph.nodes, idx.versions, idx.seqOf;
      forall r: nat ensures HI.View(nodes, versions, r) == Vectors(codec, seen) {
        assert idx.ViewAt(r) == Vectors(codec, seen);
      }
      var status := idx.InsertVersion(k, 0, record.vector, record.metadata, true, level);
      VectorsPut(codec, seen, k, value);
      forall r: nat ensures idx.ViewAt(r) == Vectors(codec, seen[k := value]) {
        ViewInserted(nodes, idx.graph.nodes, seqOf, versions, k, 0, r);
      }
      FreshBelow(versions, k, HI.Entry(0, |nodes|, false));
    }

    lemma SkipPlain(idx: HI.Index, k: Blob, value: Blob, seen: map<Blob, Blob>)
      requires Shows(idx, 0, seen) && !codec.encoded(value) && k !in seen
      ensures Shows(idx, 0, seen[k := value])
    {
      hide HI.View;
      VectorsPut(codec, seen, k, value);
      assert Vectors(codec, seen) - {k} == Vectors(codec, seen);
    }

    /** RebuildIndexLocked: Ready with agreement, or Dirty. */
    method Rebuild(fails: bool, levels: nat -> nat) returns (ok: bool)
      requires maxNeighbors >= 2 && efConstruction >= 1 && KeysOk(kv) && KeysOf(pending)
      modifies this
      ensures Valid() && kv == old(kv) && pending == old(pending) && fresh(Objects() - old(Objects()))
      ensures state == if ok then Ready else Dirty
      ensures ok <==> !fails && AllGood(codec, kv)
    {
      hide GoodVector, VectorDB.Shows;
      var replacement := BuildIndex(kv, fails, levels);
      if replacement == null {
        state := Dirty;
        return false;
      }
      index, indexSequence, operations, state := replacement, 0, 0, Ready;
      ok := true;
    }

    /** RebuildIndex */
    method RebuildIndex(fails: bool, levels: nat -> nat) returns (ok: bool)
      requires Valid()
      modifies this
      ensures Valid() && kv == old(kv)
      ensures old(state) == Closed ==> !ok && state == Closed
      ensures old(state) != Closed ==> state == if ok then Ready else Dirty
      ensures ok <==> old(state) != Closed && !fails && AllGood(codec, kv)
    {
      hide GoodVector, VectorDB.Shows;
      if state == Closed {
        return false;
      }
      ok := Rebuild(fails, levels);
    }

    method Open(stored: bool, survives: bool, fails: bool, levels: nat -> nat) returns (ok: bool)
      requires Valid()
      modifies this
      ensures Valid()
      ensures old(state) != Closed ==> !ok && state == old(state) && kv == old(kv)
      ensures old(state) == Closed ==> state == if ok then Ready else Closed
      ensures old(state) == Closed ==> kv == if stored && survives then ApplyOps(old(kv), old(pending)) else old(kv)
      ensures ok <==> old(state) == Closed && stored && !fails && AllGood(codec, kv)
    {
      hide GoodVector, VectorDB.Shows, ApplyOps;
      if state != Closed {
        return false;
      }
      KeysKept(kv, pending);
      if stored {
        if survives {
          kv := ApplyOps(kv, pending);
        }
        pending := [];
        ok := Rebuild(fails, levels);
      } else {
        ok := false;
      }
      if !ok {
        index, state := null, Closed;
      }
    }

    method Close()
      requires Valid()
      modifies this
      ensures Valid() && state == Closed && index == null && kv == old(kv)
    {
      index, state := null, Closed;
    }

    /** One operation of a committed batch goes into the index. */
    method UpdateIndex(op: Op, level: nat, ghost m: map<Blob, Blob>)
      requires index != null && Shows(index, indexSequence, m) && OpOk(codec, op)
      modifies this`indexSequence, index, index.graph, index.marks
      ensures Shows(index, indexSequence, ApplyOp(m, op))
    {
      hide HI.View, HI.VersionsOk, HI.Emplaced, SameShape, GraphInv, Vectors, AllBelow;
      ghost var nodes, versions, seqOf := index.graph.nodes, index.versions, index.seqOf;
      ghost var was := indexSequence;
      forall r: nat | r >= was ensures HI.View(nodes, versions, r) == Vectors(codec, m) {
        assert index.ViewAt(r) == Vectors(codec, m);
      }
      BelowKey(versions, op.key, was + 1);
      HistoryAscending(nodes, seqOf, versions, op.key);
      indexSequence := indexSequence + 1;
      if op.Put? && codec.encoded(op.value) {
        var record := codec.decode(op.value).value;
        ShownNew(versions, op.key, HI.Entry(indexSequence, |nodes|, false), indexSequence);
        var status := index.InsertVersion(op.key, indexSequence, record.vector, record.metadata, false, level);
        VectorsPut(codec, m, op.key, op.value);
        forall r: nat | r >= indexSequence ensures index.ViewAt(r) == Vectors(codec, ApplyOp(m, op)) {
          ViewInserted(nodes, index.graph.nodes, seqOf, versions, op.key, indexSequence, r);
        }
        BelowNext(versions, op.key, HI.Entry(indexSequence, |nodes|, false));
      } else {
        ShownNew(versions, op.key, HI.Entry(indexSequence, 0, true), indexSequence);
        var status := index.MarkDeleted(op.key, indexSequence);
        if op.Put? {
          VectorsPut(codec, m, op.key, op.value);
        } else {
          VectorsDelete(codec, m, op.key);
        }
        forall r: nat | r >= indexSequence ensures index.ViewAt(r) == Vectors(codec, ApplyOp(m, op)) {
          ViewDeleted(nodes, seqOf, versions, op.key, indexSequence, r);
        }
        BelowNext(versions, op.key, HI.Entry(indexSequence, 0, true));
      }
    }

    /** The index follows a committed batch, unless an update fails on the way. */
    method FollowBatch(ops: seq<Op>, failAt: Option<nat>, levels: nat -> nat, ghost m: map<Blob, Blob>) returns (ok: bool)
      requires index != null && Shows(index, indexSequence, m) && OpsOk(codec, ops)
      modifies this`indexSequence, index, index.graph, index.marks
      ensures ok <==> failAt.None? || failAt.value >= |ops|
      ensures ok ==> Shows(index, indexSequence, ApplyOps(m, ops))
    {
      hide VectorDB.Shows, ApplyOps, OpOk;
      NoOps(m);
      for i := 0 to |ops|
        invariant Shows(index, indexSequence, ApplyOps(m, ops[..i]))
        invariant failAt.None? || failAt.value >= i
      {
        if failAt == Some(i) {
          return false;
        }
        OpsNext(m, ops, i);
        UpdateIndex(ops[i], levels(i), ApplyOps(m, ops[..i]));
      }
      assert ops[..|ops|] == ops;
      ok := true;
    }

    /** Write: refused, of unknown outcome, or committed; only a committed batch that the
        index followed leaves it Ready. */
    method Write(ops: seq<Op>, commit: Commit, failAt: Option<nat>, rebuildFails: bool, levels: nat -> nat)
      returns (outcome: CommitState)
      requires Valid()
      modifies this, Objects()
      ensures Valid() && fresh(Objects() - old(Objects()))
      ensures outcome == NotCommitted <==> old(state) == Closed || !BatchOk(codec, ops)
      ensures outcome == NotCommitted ==> kv == old(kv) && state == old(state)
      ensures outcome == Unknown <==> outcome != NotCommitted && commit.Failed?
      ensures outcome == Unknown ==> state == Dirty && kv == if commit.applied then ApplyOps(old(kv), ops) else old(kv)
      ensures pending == if outcome == Unknown && !commit.applied && commit.logged then ops else old(pending)
      ensures outcome == Committed ==> kv == ApplyOps(old(kv), ops) && state != Closed
      ensures outcome == Committed && old(state) == Dirty ==> state == Dirty
      ensures outcome == Committed && old(state) == Ready && failAt.Some? && failAt.value < |ops| ==> state == Dirty
      ensures outcome == Committed && old(state) == Ready && failAt.None? && !rebuildFails ==> state == Ready
    {
      hide VectorDB.Shows, ApplyOps, GoodVector, WB.Encodable, WB.Fits;
      if state == Closed {
        return NotCommitted;
      }
      var good := ValidateBatch(ops);
      if !good {
        return NotCommitted;
      }
      KeysKept(kv, ops);
      if commit.Failed? {
        if commit.applied {
          kv := ApplyOps(kv, ops);
        } else if commit.logged {
          pending := ops;
        }
        state := Dirty;
        return Unknown;
      }
      ghost var was := kv;
      outcome := Committed;
      if state == Dirty {
        kv := ApplyOps(kv, ops);
        return;
      }
      GoodKept(codec, kv, ops);
      var ok := FollowBatch(ops, failAt, levels, was);
      kv := ApplyOps(kv, ops);
      if !ok {
        state := Dirty;
        return;
      }
      operations := operations + |ops|;
      if rebuildEvery != 0 && operations >= rebuildEvery {
        ok := Rebuild(rebuildFails, levels);
      }
    }

    method ValidateBatch(ops: seq<Op>) returns (ok: bool)
      ensures ok <==> BatchOk(codec, ops)
    {
      hide GoodVector, WB.Encodable, WB.Fits, Engine.ValidKey;
      for i := 0 to |ops|
        invariant forall j :: 0 <= j < i ==> OpOk(codec, ops[j])
      {
        if !Engine.ValidKey(ops[i].key) || !WB.Fits(ops[i]) {
          return false;
        }
        if ops[i].Put? && codec.encoded(ops[i].value) && !GoodVector(codec, ops[i].value) {
          return false;
        }
      }
      ok := WB.Encodable(ops);
    }

    /** An indexed search answers only when Ready, and then only from the current map: every
        result is a stored vector with its metadata and distance, each key once. */
    method Search(query: Vector, topK: nat, ef: nat)
      returns (ok: bool, results: seq<HI.Result>, ghost layer: seq<Candidate>, ghost from: seq<nat>)
      requires Valid()
      modifies if index == null then {} else {index.marks}
      ensures Valid()
      ensures ok <==> state == Ready && ef > 0 && codec.valid(query)
      ensures !ok ==> results == []
      ensures |results| <= topK && HI.InOrder(results) && HI.DistinctKeys(results)
      ensures ok ==> forall x :: x in results ==> HI.Tells(Vectors(codec, kv), index.graph.metric, query, x)
      ensures ok && index.graph.nodes != [] && topK > 0 ==>
                HI.Searched(index.graph.nodes, index.versions, index.graph.metric, query, topK, ef, indexSequence, from, layer, results)
    {
      hide HI.View, Vectors, HI.VersionsOk, GraphInv, AllBelow, HI.Tells, HI.Searched;
      layer, from := [], [];
      if state != Ready || ef == 0 || !codec.valid(query) {
        return false, [], layer, from;
      }
      assert index.ViewAt(indexSequence) == Vectors(codec, kv);
      var status;
      status, results, layer, from := index.SearchAt(query, topK, ef, indexSequence);
      ok := true;
    }

    /** A search at a snapshot goes to an index built from that view of the store. */
    method SearchSnapshot(view: map<Blob, Blob>, query: Vector, topK: nat, ef: nat, fails: bool, levels: nat -> nat)
      returns (ok: bool, results: seq<HI.Result>, ghost idx: HI.Index?, ghost layer: seq<Candidate>, ghost from: seq<nat>)
      requires Valid() && KeysOk(view)
      ensures !ok ==> results == []
      ensures ok <==> state == Ready && ef > 0 && codec.valid(query) && !fails && AllGood(codec, view)
      ensures ok ==> idx != null && Shows(idx, 0, view)
      ensures ok && idx != null && idx.graph.nodes != [] && topK > 0 ==>
                HI.Searched(idx.graph.nodes, idx.versions, metric, query, topK, ef, 0, from, layer, results)
      ensures |results| <= topK && HI.InOrder(results) && HI.DistinctKeys(results)
      ensures ok ==> forall x :: x in results ==> HI.Tells(Vectors(codec, view), metric, query, x)
    {
      hide HI.View, Vectors, HI.VersionsOk, GraphInv, AllBelow, HI.Tells, GoodVector, HI.Searched;
      idx, layer, from := null, [], [];
      if state != Ready || ef == 0 || !codec.valid(query) {
        return false, [], idx, layer, from;
      }
      var historical := BuildIndex(view, fails, levels);
      if historical == null {
        return false, [], idx, layer, from;
      }
      assert historical.ViewAt(0) == Vectors(codec, view);
      idx := historical;
      var status;
      status, results, layer, from := historical.SearchAt(query, topK, ef, 0);
      ok := true;
    }
  }

  // -------------------------------------------------------------- exhaustive search

  function ResultFor(d: (Vector, Vector) -> real, query: Vector, key: Blob, rec: HI.Record): HI.Result {
    HI.Result(key, d(query, rec.vector), rec.metadata)
  }

  ghost predicate HasKey(xs: seq<HI.Result>, key: Blob) {
    exists i :: 0 <= i < |xs| && xs[i].key == key
  }

  /** The n nearest entries of V, nearest first. */
  ghost predicate Nearest(V: map<Blob, HI.Record>, d: (Vector, Vector) -> real, query: Vector, n: nat, xs: seq<HI.Result>) {
    && |xs| <= n && HI.InOrder(xs) && HI.DistinctKeys(xs)
    && (forall i :: 0 <= i < |xs| ==> HI.Tells(V, d, query, xs[i]))
    && forall k :: k in V && !HasKey(xs, k) ==> |xs| == n && Beaten(xs, ResultFor(d, query, k, V[k]))
  }

  ghost predicate Beaten(xs: seq<HI.Result>, y: HI.Result) {
    forall i :: 0 <= i < |xs| ==> HI.Nearer(xs[i], y)
  }

  /** xs and one more entry, in order. */
  ghost predicate Merged(xs: seq<HI.Result>, y: HI.Result, zs: seq<HI.Result>) {
    HI.InOrder(zs) && multiset(zs) == multiset(xs) + multiset{y}
  }

  lemma MergedFacts(xs: seq<HI.Result>, y: HI.Result, zs: seq<HI.Result>)
    requires Merged(xs, y, zs) && HI.DistinctKeys(xs) && !HasKey(xs, y.key)
    ensures |zs| == |xs| + 1 && HI.DistinctKeys(zs)
    ensures forall i :: 0 <= i < |zs| ==> zs[i] == y || zs[i] in xs
    ensures forall k :: HasKey(zs, k) <==> HasKey(xs, k) || k == y.key
  {
    var all := xs + [y];
    assert multiset(all) == multiset(zs);
    assert forall i :: 0 <= i < |xs| ==> all[i] == xs[i] && xs[i].key != y.key;
    HI.SortedFacts(all, zs);
    forall i | 0 <= i < |zs| ensures zs[i] == y || zs[i] in xs {
      assert zs[i] in zs;
    }
    forall k ensures HasKey(zs, k) <==> HasKey(xs, k) || k == y.key {
      KeysAgree(all, zs, k);
      KeysAgree(zs, all, k);
      assert all[|xs|] == y;
      if HasKey(xs, k) {
        var i :| 0 <= i < |xs| && xs[i].key == k;
        assert all[i].key == k;
      }
    }
  }

  lemma KeysAgree(a: seq<HI.Result>, b: seq<HI.Result>, k: Blob)
    requires multiset(a) == multiset(b)
    ensures HasKey(a, k) ==> HasKey(b, k)
  {
    if HasKey(a, k) {
      var i :| 0 <= i < |a| && a[i].key == k;
      assert a[i] in multiset(a);
      assert a[i] in b;
      var j :| 0 <= j < |b| && b[j] == a[i];
    }
  }

  lemma BeatenMerged(xs: seq<HI.Result>, y: HI.Result, zs: seq<HI.Result>, c: HI.Result)
    requires (forall i :: 0 <= i < |zs| ==> zs[i] == y || zs[i] in xs) && Beaten(xs, c) && HI.Nearer(y, c)
    ensures Beaten(zs, c)
  {
    forall i | 0 <= i < |zs| ensures HI.Nearer(zs[i], c) {
      if zs[i] in xs {
        var j :| 0 <= j < |xs| && xs[j] == zs[i];
      }
    }
  }

  lemma TellsMore(V: map<Blob, HI.Record>, d: (Vector, Vector) -> real, query: Vector, key: Blob, rec: HI.Record, x: HI.Result)
    requires HI.Tells(V, d, query, x) && key !in V
    ensures HI.Tells(V[key := rec], d, query, x) && x.key != key
  {
  }

  /** With room for it, a new entry is taken. */
  lemma NearestRoom(V: map<Blob, HI.Record>, d: (Vector, Vector) -> real, query: Vector, n: nat, xs: seq<HI.Result>,
                    key: Blob, rec: HI.Record, zs: seq<HI.Result>)
    requires Nearest(V, d, query, n, xs) && key !in V && |xs| < n && Merged(xs, ResultFor(d, query, key, rec), zs)
    ensures Nearest(V[key := rec], d, query, n, zs)
  {
    hide HI.Nearer, HI.DistinctKeys, HI.InOrder, HI.Tells;
    var y := ResultFor(d, query, key, rec);
    forall i | 0 <= i < |xs| ensures HI.Tells(V[key := rec], d, query, xs[i]) && xs[i].key != key {
      TellsMore(V, d, query, key, rec, xs[i]);
    }
    MergedFacts(xs, y, zs);
    TellsNew(V, d, query, key, rec);
    forall i | 0 <= i < |zs| ensures HI.Tells(V[key := rec], d, query, zs[i]) {
      if zs[i] != y {
        var j :| 0 <= j < |xs| && xs[j] == zs[i];
      }
    }
  }

  lemma TellsNew(V: map<Blob, HI.Record>, d: (Vector, Vector) -> real, query: Vector, key: Blob, rec: HI.Record)
    ensures HI.Tells(V[key := rec], d, query, ResultFor(d, query, key, rec))
  {
  }

  /** Without room, an entry that is no nearer than the last one is left out. */
  lemma NearestSkip(V: map<Blob, HI.Record>, d: (Vector, Vector) -> real, query: Vector, n: nat, xs: seq<HI.Result>,
                    key: Blob, rec: HI.Record)
    requires Nearest(V, d, query, n, xs) && key !in V && |xs| == n > 0
    requires HI.Nearer(xs[n - 1], ResultFor(d, query, key, rec))
    ensures Nearest(V[key := rec], d, query, n, xs)
  {
    hide HI.Nearer, HI.DistinctKeys, HI.Tells;
    var y := ResultFor(d, query, key, rec);
    forall i | 0 <= i < |xs| ensures HI.Tells(V[key := rec], d, query, xs[i]) && HI.Nearer(xs[i], y) {
      TellsMore(V, d, query, key, rec, xs[i]);
      HI.NearerFacts(xs[i], xs[n - 1], y);
    }
  }

  /** Without room, a nearer entry takes the place of the last one. */
  lemma NearestSwap(V: map<Blob, HI.Record>, d: (Vector, Vector) -> real, query: Vector, n: nat, xs: seq<HI.Result>,
                    key: Blob, rec: HI.Record, zs: seq<HI.Result>)
    requires Nearest(V, d, query, n, xs) && key !in V && |xs| == n > 0
    requires HI.Nearer(ResultFor(d, query, key, rec), xs[n - 1])
    requires Merged(xs[..n - 1], ResultFor(d, query, key, rec), zs)
    ensures Nearest(V[key := rec], d, query, n, zs)
  {
    hide HI.Nearer, HI.Tells;
    var y, last, init, W := ResultFor(d, query, key, rec), xs[n - 1], xs[..n - 1], V[key := rec];
    forall i | 0 <= i < |xs| ensures HI.Tells(W, d, query, xs[i]) && xs[i].key != key {
      TellsMore(V, d, query, key, rec, xs[i]);
    }
    assert forall i :: 0 <= i < |init| ==> init[i] == xs[i];
    MergedFacts(init, y, zs);
    TellsNew(V, d, query, key, rec);
    forall i | 0 <= i < |zs| ensures HI.Tells(W, d, query, zs[i]) {
      if zs[i] != y {
        var j :| 0 <= j < |init| && init[j] == zs[i];
      }
    }
    assert Beaten(init, last);
    forall k | k in W && !HasKey(zs, k) ensures Beaten(zs, ResultFor(d, query, k, W[k])) {
      var c := ResultFor(d, query, k, W[k]);
      LastKey(V, d, query, xs, k);
      if HasKey(xs, k) {
        assert c == last;
      } else {
        assert Beaten(xs, c);
        assert Beaten(init, c);
        HI.NearerFacts(y, last, c);
      }
      BeatenMerged(init, y, zs, c);
    }
  }

  lemma LastKey(V: map<Blob, HI.Record>, d: (Vector, Vector) -> real, query: Vector, xs: seq<HI.Result>, k: Blob)
    requires xs != [] && k in V && forall i :: 0 <= i < |xs| ==> HI.Tells(V, d, query, xs[i])
    ensures HasKey(xs, k) && !HasKey(xs[..|xs| - 1], k) ==> ResultFor(d, query, k, V[k]) == xs[|xs| - 1]
  {
    if HasKey(xs, k) && !HasKey(xs[..|xs| - 1], k) {
      assert forall j :: 0 <= j < |xs| - 1 ==> xs[j] == xs[..|xs| - 1][j];
      var i :| 0 <= i < |xs| && xs[i].key == k;
      assert HI.Tells(V, d, query, xs[i]);
    }
  }

  /** BruteForceSearch: exactly the n nearest vectors of the view, whatever the state of
      the index. */
  method BruteForce(c: Codec, d: (Vector, Vector) -> real, view: map<Blob, Blob>, query: Vector, n: nat)
    returns (ok: bool, xs: seq<HI.Result>)
    ensures ok <==> c.valid(query) && (n == 0 || AllGood(c, view))
    ensures ok && n > 0 ==> Nearest(Vectors(c, view), d, query, n, xs)
    ensures n == 0 ==> xs == []
  {
    hide Nearest, HI.Nearer, Vectors, GoodVector;
    xs := [];
    if !c.valid(query) {
      return false, xs;
    }
    if n == 0 {
      return true, xs;
    }
    var todo := view.Keys;
    ghost var seen: map<Blob, Blob> := map[];
    NearestNone(c, d, query, n);
    while todo != {}
      invariant todo <= view.Keys && (forall k :: k in seen <==> k in view && k !in todo)
      invariant (forall k :: k in seen ==> seen[k] == view[k]) && AllGood(c, seen)
      invariant Nearest(Vectors(c, seen), d, query, n, xs)
      decreases todo
    {
      var k :| k in todo;
      if c.encoded(view[k]) && !GoodVector(c, view[k]) {
        return false, [];
      }
      xs := Consider(c, d, query, n, xs, k, view[k], seen);
      todo, seen := todo - {k}, seen[k := view[k]];
    }
    assert seen == view;
    ok := true;
  }

  lemma NearestNone(c: Codec, d: (Vector, Vector) -> real, query: Vector, n: nat)
    ensures Nearest(Vectors(c, map[]), d, query, n, [])
  {
  }

  /** One entry of the store against the n nearest so far. */
  method Consider(c: Codec, d: (Vector, Vector) -> real, query: Vector, n: nat, xs: seq<HI.Result>, k: Blob, value: Blob,
                  ghost seen: map<Blob, Blob>)
    returns (zs: seq<HI.Result>)
    requires n > 0 && Nearest(Vectors(c, seen), d, query, n, xs) && k !in seen && (c.encoded(value) ==> GoodVector(c, value))
    ensures Nearest(Vectors(c, seen[k := value]), d, query, n, zs)
  {
    hide Nearest, HI.Nearer, HI.InOrder, Vectors;
    NearestOrder(Vectors(c, seen), d, query, n, xs);
    VectorsPut(c, seen, k, value);
    NotVector(c, seen, k);
    if !c.encoded(value) {
      return xs;
    }
    var rec := c.decode(value).value;
    var y := ResultFor(d, query, k, rec);
    ghost var V := Vectors(c, seen);
    if |xs| < n {
      zs := HI.InsertResult(xs, y);
      NearestRoom(V, d, query, n, xs, k, rec, zs);
    } else if HI.Nearer(y, xs[n - 1]) {
      zs := HI.InsertResult(xs[..n - 1], y);
      NearestSwap(V, d, query, n, xs, k, rec, zs);
    } else {
      HI.NearerFacts(xs[n - 1], y, y);
      NearestSkip(V, d, query, n, xs, k, rec);
      zs := xs;
    }
  }

  lemma NearestOrder(V: map<Blob, HI.Record>, d: (Vector, Vector) -> real, query: Vector, n: nat, xs: seq<HI.Result>)
    requires Nearest(V, d, query, n, xs)
    ensures |xs| <= n && HI.InOrder(xs) && (xs != [] ==> HI.InOrder(xs[..|xs| - 1]))
  {
  }

  lemma NotVector(c: Codec, kv: map<Blob, Blob>, k: Blob)
    requires k !in kv
    ensures k !in Vectors(c, kv) && Vectors(c, kv) - {k} == Vectors(c, kv)
  {
  }

  lemma NoOps(m: map<Blob, Blob>)
    ensures ApplyOps(m, []) == m
  {
  }

  lemma OpsNext(m: map<Blob, Blob>, ops: seq<Op>, i: nat)
    requires i < |ops|
    ensures ApplyOps(m, ops[..i + 1]) == ApplyOp(ApplyOps(m, ops[..i]), ops[i])
  {
    assert ops[..i + 1][..i] == ops[..i];
  }

  lemma BelowKey(v: HI.Versions, key: Blob, s: nat)
    requires AllBelow(v, s)
    ensures KeyBelow(v, key, s)
  {
  }

  lemma NothingSeen(nodes: seq<Node>, c: Codec)
    ensures forall r :: HI.View(nodes, map[], r) == map[]
    ensures Vectors(c, map[]) == map[] && AllBelow(map[], 1)
  {
  }

  lemma FreshBelow(v: HI.Versions, k: Blob, e: HI.Entry)
    requires AllBelow(v, e.seqno + 1) && k !in v
    ensures AllBelow(v[k := HI.Emplaced([], e)], e.seqno + 1)
  {
  }
}
