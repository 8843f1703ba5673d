/**
 The versioned HNSW index: the graph, and for every key its history of inserted and
 deleted versions.  A node is visible at a sequence when it is the latest version of its
 key up to there.
 */
module HnswIndex {
  import opened Bytes
  import opened HnswSearch
  import opened HnswGraph

  datatype Entry = Entry(seqno: nat, node: nat, deleted: bool)

  /** The versions of one key, oldest first. */
  type History = seq<Entry>

  type Versions = map<Blob, History>

  predicate Ascending(h: History) {
    forall i, j :: 0 <= i < j < |h| ==> h[i].seqno < h[j].seqno
  }

  /** The last version at or below r. */
  function Latest(h: History, r: nat): Option<Entry> {
    if h == [] then None
    else if h[|h| - 1].seqno <= r then Some(h[|h| - 1])
    else Latest(h[..|h| - 1], r)
  }

  lemma {:induction false} LatestAt(h: History, r: nat, n: nat)
    requires n <= |h| && (n > 0 ==> h[n - 1].seqno <= r) && forall i :: n <= i < |h| ==> h[i].seqno > r
    ensures Latest(h, r) == if n == 0 then None else Some(h[n - 1])
  {
    if n < |h| {
      LatestAt(h[..|h| - 1], r, n);
    }
  }

  /** Which node of a key a reader at r sees, if any. */
  function Shown(v: Versions, key: Blob, r: nat): Option<nat> {
    if key !in v then None
    else
      var e := Latest(v[key], r);
      if e.None? || e.value.deleted then None else Some(e.value.node)
  }

  /** upper_bound: how many versions are at or below r. */
  method UpperBound(h: History, r: nat) returns (n: nat)
    requires Ascending(h)
    ensures n <= |h| && (n > 0 ==> h[n - 1].seqno <= r) && forall i :: n <= i < |h| ==> h[i].seqno > r
  {
    var lo, hi := 0, |h|;
    while lo < hi
      invariant 0 <= lo <= hi <= |h| && (lo > 0 ==> h[lo - 1].seqno <= r)
      invariant forall i :: hi <= i < |h| ==> h[i].seqno > r
    {
      var mid := (lo + hi) / 2;
      if h[mid].seqno <= r {
        lo := mid + 1;
      } else {
        hi := mid;
      }
    }
    n := lo;
  }

  /** emplace: the entry at its place, if there is none with its sequence. */
  function Emplaced(h: History, e: Entry): History {
    if h == [] || h[|h| - 1].seqno < e.seqno then h + [e]
    else if h[|h| - 1].seqno == e.seqno then h
    else Emplaced(h[..|h| - 1], e) + [h[|h| - 1]]
  }

  predicate Has(h: History, s: nat) {
    exists i :: 0 <= i < |h| && h[i].seqno == s
  }

  lemma HasInit(h: History, s: nat)
    requires h != [] && !Has(h, s)
    ensures !Has(h[..|h| - 1], s)
  {
    assert forall i :: 0 <= i < |h| - 1 ==> h[..|h| - 1][i] == h[i];
  }

  /** find */
  method FindVersion(h: History, s: nat) returns (found: bool, n: nat)
    requires Ascending(h)
    ensures found <==> Has(h, s)
    ensures found ==> n < |h| && h[n].seqno == s
  {
    var k := UpperBound(h, s);
    if k > 0 && h[k - 1].seqno == s {
      return true, k - 1;
    }
    forall i | 0 <= i < k ensures h[i].seqno != s {
      assert i < k - 1 ==> h[i].seqno < h[k - 1].seqno;
    }
    return false, 0;
  }

  lemma {:induction false} EmplacedFacts(h: History, e: Entry)
    requires Ascending(h) && !Has(h, e.seqno)
    ensures Ascending(Emplaced(h, e)) && forall x :: x in Emplaced(h, e) <==> x == e || x in h
  {
    if h != [] {
      var init, z := h[..|h| - 1], h[|h| - 1];
      assert h == init + [z];
      if z.seqno > e.seqno {
        HasInit(h, e.seqno);
        EmplacedFacts(init, e);
        var t := Emplaced(init, e);
        forall i | 0 <= i < |t| ensures t[i].seqno < z.seqno {
          assert t[i] in t;
          if t[i] in init {
            var j :| 0 <= j < |init| && init[j] == t[i];
            assert h[j] == t[i];
          }
        }
      } else {
        assert h[|h| - 1].seqno != e.seqno;
      }
    }
  }

  /** A new version is what readers see from its sequence up to the next version's. */
  lemma {:induction false} LatestEmplaced(h: History, e: Entry, r: nat)
    requires Ascending(h) && !Has(h, e.seqno)
    ensures Latest(Emplaced(h, e), r) ==
            if e.seqno <= r && (Latest(h, r).None? || Latest(h, r).value.seqno < e.seqno) then Some(e) else Latest(h, r)
  {
    if h == [] {
      assert ([] + [e])[..0] == [];
    } else {
      var init, z := h[..|h| - 1], h[|h| - 1];
      if z.seqno < e.seqno {
        assert (h + [e])[..|h|] == h;
        LatestBelow(h, r);
      } else {
        assert h[|h| - 1].seqno != e.seqno;
        HasInit(h, e.seqno);
        LatestEmplaced(init, e, r);
        var t := Emplaced(init, e);
        assert (t + [z])[..|t|] == t;
      }
    }
  }

  lemma {:induction false} LatestBelow(h: History, r: nat)
    requires Ascending(h)
    ensures Latest(h, r).Some? ==> Latest(h, r).value in h && Latest(h, r).value.seqno <= h[|h| - 1].seqno
  {
    if h != [] && h[|h| - 1].seqno > r {
      var init := h[..|h| - 1];
      LatestBelow(init, r);
      assert forall x :: x in init ==> x in h;
      if init != [] {
        assert init[|init| - 1] == h[|h| - 2];
      }
    }
  }

  // ---------------------------------------------------------------------- the index

  ghost predicate EntryOk(nodes: seq<Node>, seqOf: seq<nat>, key: Blob, e: Entry)
    requires |seqOf| == |nodes|
  {
    e.deleted || (e.node < |nodes| && nodes[e.node].key == key && seqOf[e.node] == e.seqno)
  }

  ghost predicate HistoryOk(nodes: seq<Node>, seqOf: seq<nat>, key: Blob, h: History)
    requires |seqOf| == |nodes|
  {
    key != [] && h != [] && Ascending(h) && forall e :: e in h ==> EntryOk(nodes, seqOf, key, e)
  }

  /** Every node is one live version of its key, and every live version is its node. */
  ghost predicate VersionsOk(nodes: seq<Node>, seqOf: seq<nat>, v: Versions) {
    && |seqOf| == |nodes|
    && (forall k :: k in v ==> HistoryOk(nodes, seqOf, k, v[k]))
    && forall i :: 0 <= i < |nodes| ==> nodes[i].key in v && Entry(seqOf[i], i, false) in v[nodes[i].key]
  }

  datatype Record = Record(vector: Vector, metadata: Blob)

  /** The record a reader at r sees of a key. */
  function Seen(nodes: seq<Node>, v: Versions, r: nat, k: Blob): Option<Record> {
    var id := Shown(v, k, r);
    if id.Some? && id.value < |nodes| then Some(Record(nodes[id.value].vector, nodes[id.value].metadata)) else None
  }

  /** What a search at r may return: the record of each visible key. */
  ghost function View(nodes: seq<Node>, v: Versions, r: nat): map<Blob, Record> {
    map k | k in v && Seen(nodes, v, r, k).Some? :: Seen(nodes, v, r, k).value
  }

  lemma InView(nodes: seq<Node>, v: Versions, r: nat, k: Blob)
    ensures k in View(nodes, v, r) <==> Seen(nodes, v, r, k).Some?
    ensures k in View(nodes, v, r) ==> View(nodes, v, r)[k] == Seen(nodes, v, r, k).value
  {
    ShownKey(v, k, r);
  }

  lemma NodesKept(before: seq<Node>, after: seq<Node>, seqOf: seq<nat>, s: nat, v: Versions)
    requires VersionsOk(before, seqOf, v) && |after| == |before| + 1 && SameShape(before, after[..|before|])
    ensures forall k :: k in v ==> HistoryOk(after, seqOf + [s], k, v[k])
    ensures forall i :: 0 <= i < |before| ==> after[i].key == before[i].key && after[i].vector == before[i].vector
                                              && after[i].metadata == before[i].metadata
  {
    forall i | 0 <= i < |before|
      ensures after[i].key == before[i].key && after[i].vector == before[i].vector && after[i].metadata == before[i].metadata
    {
      assert after[..|before|][i] == after[i];
      assert before[i].(neighbors := []) == after[i].(neighbors := []);
    }
    forall k | k in v ensures HistoryOk(after, seqOf + [s], k, v[k]) {
      assert HistoryOk(before, seqOf, k, v[k]);
      forall e | e in v[k] ensures EntryOk(after, seqOf + [s], k, e) {
        assert EntryOk(before, seqOf, k, e);
      }
    }
  }

  lemma VersionAdded(before: seq<Node>, after: seq<Node>, seqOf: seq<nat>, v: Versions, key: Blob, s: nat)
    requires VersionsOk(before, seqOf, v) && |after| == |before| + 1 && SameShape(before, after[..|before|])
    requires key != [] && after[|before|].key == key && (key in v ==> !Has(v[key], s))
    ensures var h := if key in v then v[key] else [];
            VersionsOk(after, seqOf + [s], v[key := Emplaced(h, Entry(s, |before|, false))])
  {
    hide SameShape, HistoryOk, Emplaced;
    NodesKept(before, after, seqOf, s, v);
    var h, e := if key in v then v[key] else [], Entry(s, |before|, false);
    var w, t := v[key := Emplaced(h, e)], seqOf + [s];
    HistoryGrown(after, t, key, h, e);
    forall i | 0 <= i < |after| ensures after[i].key in w && Entry(t[i], i, false) in w[after[i].key] {
      if i < |before| {
        assert t[i] == seqOf[i];
      }
    }
  }

  lemma HistoryGrown(nodes: seq<Node>, seqOf: seq<nat>, key: Blob, h: History, e: Entry)
    requires |seqOf| == |nodes| && key != [] && (h == [] || HistoryOk(nodes, seqOf, key, h)) && !Has(h, e.seqno)
    requires EntryOk(nodes, seqOf, key, e)
    ensures HistoryOk(nodes, seqOf, key, Emplaced(h, e)) && forall x :: x in Emplaced(h, e) <==> x == e || x in h
  {
    EmplacedFacts(h, e);
    assert e in Emplaced(h, e);
  }

  lemma VersionDeleted(nodes: seq<Node>, seqOf: seq<nat>, v: Versions, key: Blob, s: nat)
    requires VersionsOk(nodes, seqOf, v) && key != [] && (key in v ==> !Has(v[key], s))
    ensures var h := if key in v then v[key] else [];
            VersionsOk(nodes, seqOf, v[key := Emplaced(h, Entry(s, 0, true))])
  {
    hide HistoryOk, Emplaced;
    var h, e := if key in v then v[key] else [], Entry(s, 0, true);
    HistoryGrown(nodes, seqOf, key, h, e);
  }

  /** The version at s is there already, with this vector and metadata. */
  predicate Repeats(nodes: seq<Node>, h: History, s: nat, same: (Vector, Vector) -> bool, vector: Vector, metadata: Blob) {
    exists i :: 0 <= i < |h| && h[i].seqno == s && !h[i].deleted && h[i].node < |nodes|
                && same(nodes[h[i].node].vector, vector) && nodes[h[i].node].metadata == metadata
  }

  class Index {
    const graph: Graph
    const marks: VisitMarks
    /** Equality of vectors as floating point numbers. */
    const sameVector: (Vector, Vector) -> bool
    var versions: Versions
    ghost var seqOf: seq<nat>

    ghost predicate Valid()
      reads this, graph, marks
    {
      graph.Valid() && marks.Valid() && VersionsOk(graph.nodes, seqOf, versions)
    }

    ghost function ViewAt(r: nat): map<Blob, Record>
      reads this, graph
    {
      View(graph.nodes, versions, r)
    }

    constructor (graph: Graph, marks: VisitMarks, sameVector: (Vector, Vector) -> bool)
      requires graph.Valid() && marks.Valid() && graph.nodes == []
      ensures Valid() && this.graph == graph && this.marks == marks && versions == map[]
    {
      this.graph, this.marks, this.sameVector, versions, seqOf := graph, marks, sameVector, map[], [];
    }

    /** IsVisibleAt */
    method IsVisibleAt(id: nat, key: Blob, r: nat) returns (visible: bool)
      requires Valid()
      ensures visible <==> id < |graph.nodes| && Shown(versions, key, r) == Some(id)
    {
      hide Latest;
      if id >= |graph.nodes| || key !in versions {
        return false;
      }
      assert HistoryOk(graph.nodes, seqOf, key, versions[key]);
      var n := UpperBound(versions[key], r);
      LatestAt(versions[key], r, n);
      if n == 0 {
        return false;
      }
      visible := !versions[key][n - 1].deleted && versions[key][n - 1].node == id;
    }

    /** InsertVersionLocked: a new version of a key, with a new node.  A sequence that is
        taken is refused unless it holds the same record. */
    method InsertVersion(key: Blob, s: nat, vector: Vector, metadata: Blob, onlyNew: bool, level: nat) returns (status: Status)
      requires Valid()
      modifies this, graph, marks
      ensures Valid()
      ensures status == Ok || status == InvalidArgument
      ensures status != Ok ==> versions == old(versions) && graph.nodes == old(graph.nodes)
      ensures key != [] && graph.admissible(vector) && (key !in old(versions) || (!onlyNew && !Has(old(versions)[key], s))) ==>
                && status == Ok && |graph.nodes| == |old(graph.nodes)| + 1
                && SameShape(old(graph.nodes), graph.nodes[..|old(graph.nodes)|])
                && graph.nodes[|old(graph.nodes)|].vector == vector && graph.nodes[|old(graph.nodes)|].metadata == metadata
                && versions == old(versions)[key := Emplaced(if key in old(versions) then old(versions)[key] else [],
                                                             Entry(s, |old(graph.nodes)|, false))]
      ensures key == [] || !graph.admissible(vector) || (onlyNew && key in old(versions)) ==> status == InvalidArgument
      ensures key in old(versions) && Has(old(versions)[key], s) ==> versions == old(versions) && graph.nodes == old(graph.nodes)
      ensures key != [] && graph.admissible(vector) && !onlyNew && key in old(versions) && Has(old(versions)[key], s) ==>
                (status == Ok <==> Repeats(old(graph.nodes), old(versions)[key], s, sameVector, vector, metadata))
    {
      hide ListsOk, Emplaced, SameShape, LevelsOk;
      if key == [] || !graph.admissible(vector) {
        return InvalidArgument;
      }
      if onlyNew && key in versions {
        return InvalidArgument;
      }
      var h := if key in versions then versions[key] else [];
      assert h == [] || HistoryOk(graph.nodes, seqOf, key, h);
      var found, n := FindVersion(h, s);
      if found {
        assert h[n] in h;
        if h[n].deleted {
          return InvalidArgument;
        }
        var node := graph.nodes[h[n].node];
        return if sameVector(node.vector, vector) && node.metadata == metadata then Ok else InvalidArgument;
      }
      ghost var before := graph.nodes;
      var id;
      status, id := graph.AddNode(vector, key, metadata, level, marks);
      VersionAdded(before, graph.nodes, seqOf, versions, key, s);
      versions := versions[key := Emplaced(h, Entry(s, id, false))];
      seqOf := seqOf + [s];
    }

    /** MarkDeleted: a tombstone version. */
    method MarkDeleted(key: Blob, s: nat) returns (status: Status)
      requires Valid()
      modifies this
      ensures Valid()
      ensures key == [] ==> status == InvalidArgument
      ensures status == Ok || status == InvalidArgument
      ensures status != Ok ==> versions == old(versions)
      ensures key != [] && (key in old(versions) ==> !Has(old(versions)[key], s)) ==>
                && status == Ok
                && versions == old(versions)[key := Emplaced(if key in old(versions) then old(versions)[key] else [], Entry(s, 0, true))]
      ensures key in old(versions) && Has(old(versions)[key], s) ==> versions == old(versions)
      ensures key != [] && key in old(versions) && Has(old(versions)[key], s) ==>
                (status == Ok <==> exists i :: 0 <= i < |old(versions)[key]| && old(versions)[key][i].seqno == s && old(versions)[key][i].deleted)
    {
      hide ListsOk, Emplaced, LevelsOk;
      if key == [] {
        return InvalidArgument;
      }
      var h := if key in versions then versions[key] else [];
      assert h == [] || HistoryOk(graph.nodes, seqOf, key, h);
      var found, n := FindVersion(h, s);
      if found {
        return if h[n].deleted then Ok else InvalidArgument;
      }
      VersionDeleted(graph.nodes, seqOf, versions, key, s);
      versions := versions[key := Emplaced(h, Entry(s, 0, true))];
      status := Ok;
    }

    /** SearchAtSequenceLocked: only records visible at r, each key at most once, nearest
        first. */
    method SearchAt(query: Vector, topK: nat, ef: nat, r: nat)
      returns (status: Status, results: seq<Result>, ghost layer: seq<Candidate>, ghost from: seq<nat>)
      requires Valid()
      modifies marks
      ensures Valid() && status == Ok
      ensures |results| <= topK && InOrder(results) && DistinctKeys(results)
      ensures forall x :: x in results ==> Tells(ViewAt(r), graph.metric, query, x)
      ensures graph.nodes != [] && topK > 0 ==>
                Searched(graph.nodes, versions, graph.metric, query, topK, ef, r, from, layer, results)
    {
      hide ListsOk, LevelsOk, Answers, Enters, Tells, InOrder, DistinctKeys, VersionsOk;
      var nodes, v := graph.nodes, versions;
      var visible := Visibility(nodes, v, r);
      var found;
      status, found, layer, from := graph.Search(query, topK, ef, visible, marks);
      var list: seq<Result> := [];
      for i := 0 to |found|
        invariant |list| == i && forall j :: 0 <= j < i ==> list[j] == ResultOf(nodes, found[j])
      {
        list := list + [ResultOf(nodes, found[i])];
      }
      if nodes != [] && topK > 0 {
        FoundVisible(nodes, graph.metric, query, from, if topK < ef then ef else topK, v, r, layer);
        ResultsTell(nodes, seqOf, v, r, graph.metric, query, layer, found, list);
      } else {
        NoResults(ViewAt(r), graph.metric, query);
      }
      results := SortResults(list);
      SortedFacts(list, results);
    }
  }

  datatype Result = Result(key: Blob, distance: real, metadata: Blob)

  /** The search predicate at a read sequence. */
  function Visibility(nodes: seq<Node>, v: Versions, r: nat): nat -> bool {
    (id: nat) => id < |nodes| && Shown(v, nodes[id].key, r) == Some(id)
  }

  function ResultOf(nodes: seq<Node>, c: Candidate): Result {
    if c.id < |nodes| then Result(nodes[c.id].key, c.distance, nodes[c.id].metadata) else Result([], c.distance, [])
  }

  /** A result repeats what the view holds for its key. */
  ghost predicate Tells(view: map<Blob, Record>, metric: (Vector, Vector) -> real, query: Vector, x: Result) {
    x.key in view && x.metadata == view[x.key].metadata && x.distance == metric(query, view[x.key].vector)
  }

  ghost predicate DistinctKeys(xs: seq<Result>) {
    forall i, j :: 0 <= i < j < |xs| ==> xs[i].key != xs[j].key
  }

  predicate Nearer(a: Result, b: Result) {
    a.distance < b.distance || (a.distance == b.distance && Leq(a.key, b.key))
  }

  predicate InOrder(xs: seq<Result>) {
    forall i, j :: 0 <= i < j < |xs| ==> Nearer(xs[i], xs[j])
  }

  lemma NearerFacts(a: Result, b: Result, c: Result)
    ensures Nearer(a, b) || Nearer(b, a)
    ensures Nearer(a, b) && Nearer(b, c) ==> Nearer(a, c)
  {
    Order(a.key, b.key, c.key);
  }

  /** The results are the first topK of a search of layer 0 that keeps that search's promises. */
  ghost predicate Searched(nodes: seq<Node>, v: Versions, metric: (Vector, Vector) -> real, query: Vector, topK: nat, ef: nat,
                           r: nat, from: seq<nat>, layer: seq<Candidate>, results: seq<Result>)
  {
    && Enters(nodes, from, 0)
    && Answers(nodes, 0, To(metric, nodes, query), from, if topK < ef then ef else topK, Visibility(nodes, v, r), layer)
    && |results| == (if topK < |layer| then topK else |layer|)
    && forall i :: 0 <= i < |results| ==> ResultOf(nodes, layer[i]) in results
  }

  /** With room for every visible node that can be reached, the results are the nearest of
      them: one that is missing is no nearer than any result. */
  lemma NearestReached(nodes: seq<Node>, v: Versions, metric: (Vector, Vector) -> real, query: Vector, topK: nat, ef: nat,
                       r: nat, from: seq<nat>, layer: seq<Candidate>, results: seq<Result>, all: set<nat>, y: nat)
    requires Searched(nodes, v, metric, query, topK, ef, r, from, layer, results) && DistinctKeys(results)
    requires forall z :: z in all <==> Reachable(nodes, 0, from, z) && Visibility(nodes, v, r)(z)
    requires |all| <= (if topK < ef then ef else topK) && y in all
    ensures var x := ResultOf(nodes, Cand(To(metric, nodes, query), y));
            x in results || (|results| == topK && forall i :: 0 <= i < topK ==> layer[i].distance <= x.distance)
  {
    hide Reachable, Enters, To, Visibility;
    var d := To(metric, nodes, query);
    ExactWhenRoomy(nodes, 0, d, from, if topK < ef then ef else topK, Visibility(nodes, v, r), layer, all);
    var j :| 0 <= j < |layer| && layer[j].id == y;
    assert layer[j] == Cand(d, y);
    if j >= |results| {
      forall i | 0 <= i < topK ensures layer[i].distance <= layer[j].distance {
        assert Better(layer[i], layer[j]);
      }
    }
  }

  /** What a search of the layer returns is visible at r. */
  lemma FoundVisible(nodes: seq<Node>, metric: (Vector, Vector) -> real, query: Vector, from: seq<nat>, ef: nat,
                     v: Versions, r: nat, layer: seq<Candidate>)
    requires Answers(nodes, 0, To(metric, nodes, query), from, ef, Visibility(nodes, v, r), layer)
    ensures DistinctIds(layer)
    ensures forall i :: 0 <= i < |layer| ==>
              && layer[i].id < |nodes| && Shown(v, nodes[layer[i].id].key, r) == Some(layer[i].id)
              && layer[i].distance == metric(query, nodes[layer[i].id].vector)
  {
    hide Shown;
    var d, see := To(metric, nodes, query), Visibility(nodes, v, r);
    AnswersDistinct(nodes, 0, d, from, ef, see, layer);
    forall i | 0 <= i < |layer|
      ensures layer[i].id < |nodes| && Shown(v, nodes[layer[i].id].key, r) == Some(layer[i].id)
      ensures layer[i].distance == metric(query, nodes[layer[i].id].vector)
    {
      var id := layer[i].id;
      assert layer[i] == Cand(d, id) && see(id);
      assert layer[i].distance == d(id) == metric(query, NodeAt(nodes, id));
    }
  }

  lemma ResultsTell(nodes: seq<Node>, seqOf: seq<nat>, v: Versions, r: nat, metric: (Vector, Vector) -> real, query: Vector,
                    layer: seq<Candidate>, found: seq<Candidate>, list: seq<Result>)
    requires VersionsOk(nodes, seqOf, v) && DistinctIds(layer) && found <= layer && |list| == |found|
    requires forall i :: 0 <= i < |layer| ==>
               && layer[i].id < |nodes| && Shown(v, nodes[layer[i].id].key, r) == Some(layer[i].id)
               && layer[i].distance == metric(query, nodes[layer[i].id].vector)
    requires forall j :: 0 <= j < |found| ==> list[j] == ResultOf(nodes, found[j])
    ensures DistinctKeys(list) && forall x :: x in list ==> Tells(View(nodes, v, r), metric, query, x)
  {
    hide VersionsOk, Shown;
    forall i | 0 <= i < |found| ensures found[i] == layer[i] {
    }
    forall i | 0 <= i < |list| ensures Tells(View(nodes, v, r), metric, query, list[i]) {
      var k := nodes[layer[i].id].key;
      ShownKey(v, k, r);
      assert k in View(nodes, v, r);
    }
    forall i, j | 0 <= i < j < |list| ensures list[i].key != list[j].key {
      assert layer[i].id != layer[j].id;
    }
  }

  lemma ShownKey(v: Versions, k: Blob, r: nat)
    ensures Shown(v, k, r).Some? ==> k in v
  {
  }

  lemma NoResults(view: map<Blob, Record>, metric: (Vector, Vector) -> real, query: Vector)
    ensures DistinctKeys([])
  {
  }

  method InsertResult(s: seq<Result>, x: Result) returns (t: seq<Result>)
    requires InOrder(s)
    ensures InOrder(t) && multiset(t) == multiset(s) + multiset{x}
  {
    var k := 0;
    while k < |s| && Nearer(s[k], x)
      invariant k <= |s| && forall j :: 0 <= j < k ==> Nearer(s[j], x)
    {
      k := k + 1;
    }
    assert s == s[..k] + s[k..];
    t := s[..k] + [x] + s[k..];
    OrderInsert(s, k, x);
  }

  lemma OrderInsert(s: seq<Result>, k: nat, x: Result)
    requires InOrder(s) && k <= |s| && (forall j :: 0 <= j < k ==> Nearer(s[j], x)) && (k < |s| ==> !Nearer(s[k], x))
    ensures InOrder(s[..k] + [x] + s[k..])
  {
    hide Nearer;
    var t := s[..k] + [x] + s[k..];
    forall j | k <= j < |s| ensures Nearer(x, s[j]) {
      NearerFacts(s[k], x, x);
      NearerFacts(x, s[k], s[j]);
    }
    forall i, j | 0 <= i < j < |t| ensures Nearer(t[i], t[j]) {
      assert t[i] == if i < k then s[i] else if i == k then x else s[i - 1];
      assert t[j] == if j < k then s[j] else if j == k then x else s[j - 1];
    }
  }

  method SortResults(xs: seq<Result>) returns (s: seq<Result>)
    ensures InOrder(s) && multiset(s) == multiset(xs)
  {
    s := [];
    for i := 0 to |xs|
      invariant InOrder(s) && multiset(s) == multiset(xs[..i])
    {
      assert xs[..i + 1] == xs[..i] + [xs[i]];
      s := InsertResult(s, xs[i]);
    }
    assert xs[..|xs|] == xs;
  }

  lemma SortedFacts(a: seq<Result>, b: seq<Result>)
    requires multiset(a) == multiset(b) && DistinctKeys(a)
    ensures |a| == |b| && DistinctKeys(b) && forall x :: x in b <==> x in a
  {
    assert |multiset(a)| == |a| && |multiset(b)| == |b|;
    forall x ensures x in b <==> x in a {
      assert x in b <==> x in multiset(b);
      assert x in a <==> x in multiset(a);
    }
    forall i, j | 0 <= i < j < |b| ensures b[i].key != b[j].key {
      Twice(b, i, j);
      assert b[i] in a && b[j] in a;
      if b[i] == b[j] {
        Once(a, b[i]);
      }
    }
  }

  lemma Twice(b: seq<Result>, i: nat, j: nat)
    requires i < j < |b|
    ensures b[i] == b[j] ==> multiset(b)[b[i]] >= 2
  {
    assert b == b[..j] + [b[j]] + b[j + 1..];
    assert b[i] in b[..j];
  }

  lemma {:induction false} Once(a: seq<Result>, x: Result)
    requires DistinctKeys(a)
    ensures multiset(a)[x] <= 1
  {
    if a != [] {
      var init := a[..|a| - 1];
      assert a == init + [a[|a| - 1]];
      Once(init, x);
      if x == a[|a| - 1] {
        assert x !in init;
      }
    }
  }
}
