/** The HNSW graph: neighbour selection, pruning, linking, insertion and search. */
module HnswGraph {
  import opened Bytes
  import opened HnswSearch

  datatype Status = Ok | InvalidArgument | Corruption

  /** 2M at level 0, M above. */
  function Limit(m: nat, level: nat): nat {
    if level == 0 then 2 * m else m
  }

  ghost predicate Distinct(ns: seq<nat>) {
    forall i, j :: 0 <= i < j < |ns| ==> ns[i] != ns[j]
  }

  /** A legal neighbour list of node i at a level. */
  ghost predicate ListOk(nodes: seq<Node>, m: nat, i: nat, level: nat, ns: seq<nat>) {
    && |ns| <= Limit(m, level) && Distinct(ns)
    && forall j :: 0 <= j < |ns| ==> ns[j] != i && HasLevel(nodes, ns[j], level)
  }

  ghost predicate ListsOk(nodes: seq<Node>, m: nat) {
    forall i, l :: 0 <= i < |nodes| && 0 <= l < |nodes[i].neighbors| ==> ListOk(nodes, m, i, l, nodes[i].neighbors[l])
  }

  /** The entry point reaches the top level, which no node exceeds. */
  ghost predicate LevelsOk(nodes: seq<Node>, maxLevel: int, entry: nat) {
    && (nodes == [] ==> maxLevel == -1)
    && (nodes != [] ==> entry < |nodes| && |nodes[entry].neighbors| == maxLevel + 1)
    && (forall i :: 0 <= i < |nodes| ==> 1 <= |nodes[i].neighbors| <= maxLevel + 1)
  }

  ghost predicate GraphInv(nodes: seq<Node>, maxLevel: int, entry: nat, m: nat) {
    ListsOk(nodes, m) && LevelsOk(nodes, maxLevel, entry)
  }

  /** Everything but the neighbour lists is the same. */
  ghost predicate SameShape(a: seq<Node>, b: seq<Node>) {
    && |a| == |b|
    && forall i :: 0 <= i < |a| ==>
         a[i].(neighbors := []) == b[i].(neighbors := []) && |a[i].neighbors| == |b[i].neighbors|
  }

  function WithList(nodes: seq<Node>, i: nat, level: nat, ns: seq<nat>): seq<Node>
    requires HasLevel(nodes, i, level)
  {
    nodes[i := nodes[i].(neighbors := nodes[i].neighbors[level := ns])]
  }

  lemma WithListOk(nodes: seq<Node>, m: nat, i: nat, level: nat, ns: seq<nat>)
    requires ListsOk(nodes, m) && HasLevel(nodes, i, level) && ListOk(nodes, m, i, level, ns)
    ensures ListsOk(WithList(nodes, i, level, ns), m) && SameShape(nodes, WithList(nodes, i, level, ns))
  {
    hide Distinct;
    var nodes' := WithList(nodes, i, level, ns);
    forall x, l | 0 <= x < |nodes'| && 0 <= l < |nodes'[x].neighbors| ensures ListOk(nodes', m, x, l, nodes'[x].neighbors[l]) {
      if !(x == i && l == level) {
        assert nodes'[x].neighbors[l] == nodes[x].neighbors[l];
        assert ListOk(nodes, m, x, l, nodes[x].neighbors[l]);
      }
    }
  }

  lemma ShapeTransitive(a: seq<Node>, b: seq<Node>, c: seq<Node>)
    requires SameShape(a, b) && SameShape(b, c)
    ensures SameShape(a, c)
  {
  }

  // ------------------------------------------------------------------ selection

  ghost predicate DistinctIds(cs: seq<Candidate>) {
    forall i, j :: 0 <= i < j < |cs| ==> cs[i].id != cs[j].id
  }

  /** No selected node is closer to c than c is to the new node. */
  predicate Diverse(D: (nat, nat) -> real, c: Candidate, selected: seq<nat>) {
    forall j :: 0 <= j < |selected| ==> D(c.id, selected[j]) >= c.distance
  }

  ghost predicate From(cs: seq<Candidate>, ns: seq<nat>) {
    forall x :: x in ns ==> x in Ids(cs)
  }

  /** Each chosen node was diverse with respect to those chosen before it. */
  ghost predicate Justified(D: (nat, nat) -> real, cs: seq<Candidate>, selected: seq<nat>) {
    forall k :: 0 <= k < |selected| ==> JustifiedAt(D, cs, selected, k)
  }

  ghost predicate JustifiedAt(D: (nat, nat) -> real, cs: seq<Candidate>, selected: seq<nat>, k: nat)
    requires k < |selected|
  {
    exists c :: c in cs && c.id == selected[k] && Diverse(D, c, selected[..k])
  }

  /** Each of the first n candidates was chosen or is closer to a chosen one. */
  ghost predicate Covered(D: (nat, nat) -> real, cs: seq<Candidate>, n: nat, selected: seq<nat>)
    requires n <= |cs|
  {
    forall k :: 0 <= k < n ==> cs[k].id in selected || !Diverse(D, cs[k], selected)
  }

  /** Diverse candidates first, in order, then the others until the limit.  kept is
      how many were chosen for diversity. */
  method SelectNeighbors(D: (nat, nat) -> real, cs: seq<Candidate>, limit: nat) returns (selected: seq<nat>, ghost kept: nat)
    requires limit >= 1 && DistinctIds(cs)
    ensures |selected| == if |cs| < limit then |cs| else limit
    ensures Distinct(selected) && From(cs, selected)
    ensures cs != [] ==> selected[0] == cs[0].id
    ensures kept <= |selected| && Justified(D, cs, selected[..kept])
    ensures kept < limit ==> Covered(D, cs, |cs|, selected[..kept])
  {
    hide Distinct, DistinctIds, Ids, From, Diverse, Justified, Covered;
    selected := [];
    var pruned: seq<nat> := [];
    SelectNone(D, cs);
    for i := 0 to |cs|
      invariant |selected| < limit && |selected| + |pruned| == i
      invariant Distinct(selected + pruned) && From(cs[..i], selected + pruned)
      invariant i > 0 ==> selected != [] && selected[0] == cs[0].id
      invariant Justified(D, cs, selected) && Covered(D, cs, i, selected)
    {
      var c := cs[i];
      FreshId(cs, i, selected + pruned);
      FirstDiverse(D, c);
      if Diverse(D, c, selected) {
        SelectedGrows(D, cs, selected, i);
        Inserted(cs, i, selected, pruned);
        selected := selected + [c.id];
        if |selected| == limit {
          kept := |selected|;
          FromAll(cs, i + 1, selected, pruned);
          assert selected[..kept] == selected;
          return;
        }
      } else {
        PrunedGrows(D, cs, selected, i);
        Appended(cs, i, selected, pruned);
        pruned := pruned + [c.id];
      }
    }
    kept := |selected|;
    assert cs[..|cs|] == cs;
    Fill(cs, selected, pruned, limit);
    var n := if |pruned| < limit - |selected| then |pruned| else limit - |selected|;
    assert (selected + pruned[..n])[..kept] == selected;
    selected := selected + pruned[..n];
  }

  lemma SelectNone(D: (nat, nat) -> real, cs: seq<Candidate>)
    ensures Distinct([] + []) && From(cs[..0], [] + []) && Justified(D, cs, []) && Covered(D, cs, 0, [])
  {
  }

  lemma FirstDiverse(D: (nat, nat) -> real, c: Candidate)
    ensures Diverse(D, c, [])
  {
  }

  lemma FreshId(cs: seq<Candidate>, i: nat, ns: seq<nat>)
    requires i < |cs| && DistinctIds(cs) && From(cs[..i], ns)
    ensures cs[i].id !in ns
  {
  }

  lemma SelectedGrows(D: (nat, nat) -> real, cs: seq<Candidate>, selected: seq<nat>, i: nat)
    requires i < |cs| && Diverse(D, cs[i], selected) && Justified(D, cs, selected) && Covered(D, cs, i, selected)
    ensures Justified(D, cs, selected + [cs[i].id]) && Covered(D, cs, i + 1, selected + [cs[i].id])
  {
    var c := cs[i];
    var s := selected + [c.id];
    forall k | 0 <= k < |s| ensures JustifiedAt(D, cs, s, k) {
      if k < |selected| {
        assert JustifiedAt(D, cs, selected, k);
        assert s[..k] == selected[..k];
      } else {
        assert s[..k] == selected;
        assert c in cs;
      }
    }
    forall k | 0 <= k < i + 1 ensures cs[k].id in s || !Diverse(D, cs[k], s) {
      if k == i {
        assert s[|selected|] == c.id;
      } else if cs[k].id !in selected {
        var j :| 0 <= j < |selected| && D(cs[k].id, selected[j]) < cs[k].distance;
        assert s[j] == selected[j];
      }
    }
  }

  lemma PrunedGrows(D: (nat, nat) -> real, cs: seq<Candidate>, selected: seq<nat>, i: nat)
    requires i < |cs| && !Diverse(D, cs[i], selected) && Covered(D, cs, i, selected)
    ensures Covered(D, cs, i + 1, selected)
  {
  }

  lemma IdsSnoc(cs: seq<Candidate>, i: nat)
    requires i < |cs|
    ensures Ids(cs[..i + 1]) == Ids(cs[..i]) + {cs[i].id}
  {
    forall x | x in Ids(cs[..i]) + {cs[i].id} ensures x in Ids(cs[..i + 1]) {
      if x == cs[i].id {
        assert cs[..i + 1][i].id == x;
      } else {
        var j :| 0 <= j < i && cs[..i][j].id == x;
        assert cs[..i + 1][j].id == x;
      }
    }
    forall x | x in Ids(cs[..i + 1]) ensures x in Ids(cs[..i]) + {cs[i].id} {
      var j :| 0 <= j < i + 1 && cs[..i + 1][j].id == x;
      assert j < i ==> cs[..i][j].id == x;
    }
  }

  lemma Inserted(cs: seq<Candidate>, i: nat, a: seq<nat>, b: seq<nat>)
    requires i < |cs| && Distinct(a + b) && From(cs[..i], a + b) && cs[i].id !in a + b
    ensures Distinct((a + [cs[i].id]) + b) && From(cs[..i + 1], (a + [cs[i].id]) + b)
  {
    hide Ids;
    IdsSnoc(cs, i);
    var x := cs[i].id;
    var s, t := a + b, (a + [x]) + b;
    forall i, j | 0 <= i < j < |t| ensures t[i] != t[j] {
      assert i < |a| ==> t[i] == s[i];
      assert i > |a| ==> t[i] == s[i - 1];
      assert j < |a| ==> t[j] == s[j];
      assert j > |a| ==> t[j] == s[j - 1];
    }
    forall y | y in t ensures y in Ids(cs[..i + 1]) {
      assert y != x ==> y in a + b;
    }
  }

  lemma Appended(cs: seq<Candidate>, i: nat, a: seq<nat>, b: seq<nat>)
    requires i < |cs| && Distinct(a + b) && From(cs[..i], a + b) && cs[i].id !in a + b
    ensures Distinct(a + (b + [cs[i].id])) && From(cs[..i + 1], a + (b + [cs[i].id]))
  {
    hide Ids;
    IdsSnoc(cs, i);
    assert a + (b + [cs[i].id]) == (a + b) + [cs[i].id];
  }

  lemma FromAll(cs: seq<Candidate>, i: nat, a: seq<nat>, b: seq<nat>)
    requires i <= |cs| && From(cs[..i], a + b) && Distinct(a + b)
    ensures From(cs, a) && Distinct(a)
  {
    forall x | x in a ensures x in Ids(cs) {
      assert x in a + b;
      var k :| 0 <= k < i && cs[..i][k].id == x;
      assert cs[k].id == x;
    }
    forall i, j | 0 <= i < j < |a| ensures a[i] != a[j] {
      assert (a + b)[i] == a[i] && (a + b)[j] == a[j];
    }
  }

  lemma Fill(cs: seq<Candidate>, a: seq<nat>, b: seq<nat>, limit: nat)
    requires From(cs, a + b) && Distinct(a + b) && |a| < limit
    ensures var n := if |b| < limit - |a| then |b| else limit - |a|;
            From(cs, a + b[..n]) && Distinct(a + b[..n])
  {
    hide Ids;
    var n := if |b| < limit - |a| then |b| else limit - |a|;
    assert a + b == (a + b[..n]) + b[n..];
    assert cs[..|cs|] == cs;
    FromAll(cs, |cs|, a + b[..n], b[n..]);
  }

  // ------------------------------------------------------------------ the graph

  function NodeAt(nodes: seq<Node>, id: nat): Vector {
    if id < |nodes| then nodes[id].vector else []
  }

  /** Distances from a query to the stored vectors. */
  function To(metric: (Vector, Vector) -> real, nodes: seq<Node>, query: Vector): nat -> real {
    (id: nat) => metric(query, NodeAt(nodes, id))
  }

  function Between(metric: (Vector, Vector) -> real, nodes: seq<Node>): (nat, nat) -> real {
    (x: nat, y: nat) => metric(NodeAt(nodes, x), NodeAt(nodes, y))
  }

  function Everything(): nat -> bool {
    (id: nat) => true
  }

  /** PruneNeighbors: the list of one node, cut to the limit. */
  method Prune(metric: (Vector, Vector) -> real, nodes: seq<Node>, id: nat, ns: seq<nat>, limit: nat) returns (r: seq<nat>)
    requires Distinct(ns) && limit >= 1
    ensures |r| <= limit && Distinct(r) && forall x :: x in r ==> x in ns
    ensures |ns| <= limit ==> r == ns
    ensures |ns| > limit ==> |r| == limit
  {
    if |ns| <= limit {
      return ns;
    }
    var d := To(metric, nodes, NodeAt(nodes, id));
    var cands: set<Candidate> := {};
    for i := 0 to |ns|
      invariant |cands| == i && forall c :: c in cands <==> c.id in ns[..i] && c == Cand(d, c.id)
    {
      assert ns[..i + 1] == ns[..i] + [ns[i]];
      assert ns[i] !in ns[..i];
      cands := cands + {Cand(d, ns[i])};
    }
    assert ns[..|ns|] == ns;
    var sorted := Sort(cands);
    SortedDistinct(d, cands, sorted);
    ghost var kept;
    r, kept := SelectNeighbors(Between(metric, nodes), sorted, limit);
  }

  lemma SortedDistinct(d: nat -> real, cands: set<Candidate>, sorted: seq<Candidate>)
    requires Lists(cands, sorted) && forall c :: c in cands ==> c == Cand(d, c.id)
    ensures DistinctIds(sorted)
  {
    forall i, j | 0 <= i < j < |sorted| ensures sorted[i].id != sorted[j].id {
      assert sorted[i] in cands && sorted[j] in cands;
      BetterOrder(sorted[i], sorted[j], sorted[i]);
    }
  }

  lemma AnswersDistinct(nodes: seq<Node>, level: int, d: nat -> real, entries: seq<nat>, ef: nat, visible: nat -> bool, r: seq<Candidate>)
    requires Answers(nodes, level, d, entries, ef, visible, r)
    ensures DistinctIds(r)
    ensures forall x :: x in Ids(r) ==> HasLevel(nodes, x, level)
  {
    hide Reachable, Edge, HasLevel;
    forall i, j | 0 <= i < j < |r| ensures r[i].id != r[j].id {
      assert r[i] == Cand(d, r[i].id) && r[j] == Cand(d, r[j].id);
      BetterOrder(r[i], r[j], r[i]);
    }
  }

  /** A valid entry point makes an unrestricted layer search succeed. */
  lemma AnswersSome(nodes: seq<Node>, level: int, d: nat -> real, entries: seq<nat>, ef: nat, r: seq<Candidate>, x: nat)
    requires Answers(nodes, level, d, entries, ef, Everything(), r) && ef > 0
    requires x in entries && HasLevel(nodes, x, level)
    ensures r != []
  {
    hide Edge;
    ReachEntry(nodes, level, entries, x);
  }

  /** Link a node to its chosen neighbours and back, pruning full lists. */
  method Connect(metric: (Vector, Vector) -> real, m: nat, nodes0: seq<Node>, id: nat, level: nat) returns (nodes: seq<Node>)
    requires ListsOk(nodes0, m) && HasLevel(nodes0, id, level) && m >= 1
    ensures ListsOk(nodes, m) && SameShape(nodes0, nodes)
    ensures HasLevel(nodes, id, level) && nodes[id].neighbors[level] == nodes0[id].neighbors[level]
  {
    hide ListsOk, ListOk, SameShape, Distinct;
    nodes := nodes0;
    var neighbors := nodes[id].neighbors[level];
    SelfShape(nodes);
    NeighborFacts(nodes0, m, id, level);
    for i := 0 to |neighbors|
      invariant ListsOk(nodes, m) && SameShape(nodes0, nodes)
      invariant HasLevel(nodes, id, level) && nodes[id].neighbors[level] == neighbors
    {
      var n := neighbors[i];
      ShapeHas(nodes0, nodes, n, level);
      var reverse := nodes[n].neighbors[level];
      if id !in reverse {
        ReverseFacts(nodes, m, n, level, id);
        var pruned := Prune(metric, nodes, n, reverse + [id], Limit(m, level));
        PrunedOk(nodes, m, n, level, id, pruned);
        WithListOk(nodes, m, n, level, pruned);
        ShapeTransitive(nodes0, nodes, WithList(nodes, n, level, pruned));
        nodes := WithList(nodes, n, level, pruned);
      }
    }
  }

  lemma SelfShape(nodes: seq<Node>)
    ensures SameShape(nodes, nodes)
  {
  }

  lemma ShapeHas(a: seq<Node>, b: seq<Node>, n: nat, level: nat)
    requires SameShape(a, b) && HasLevel(a, n, level)
    ensures HasLevel(b, n, level)
  {
  }

  lemma NeighborFacts(nodes: seq<Node>, m: nat, id: nat, level: nat)
    requires ListsOk(nodes, m) && HasLevel(nodes, id, level)
    ensures var ns := nodes[id].neighbors[level];
            forall j :: 0 <= j < |ns| ==> ns[j] != id && HasLevel(nodes, ns[j], level)
  {
  }

  lemma ReverseFacts(nodes: seq<Node>, m: nat, n: nat, level: nat, id: nat)
    requires ListsOk(nodes, m) && HasLevel(nodes, n, level) && id !in nodes[n].neighbors[level]
    ensures Distinct(nodes[n].neighbors[level] + [id])
  {
    assert ListOk(nodes, m, n, level, nodes[n].neighbors[level]);
  }

  lemma PrunedOk(nodes: seq<Node>, m: nat, n: nat, level: nat, id: nat, pruned: seq<nat>)
    requires ListsOk(nodes, m) && HasLevel(nodes, n, level) && HasLevel(nodes, id, level) && n != id
    requires |pruned| <= Limit(m, level) && Distinct(pruned)
    requires forall x :: x in pruned ==> x in nodes[n].neighbors[level] + [id]
    ensures ListOk(nodes, m, n, level, pruned)
  {
    var ns := nodes[n].neighbors[level];
    assert ListOk(nodes, m, n, level, ns);
    forall j | 0 <= j < |pruned| ensures pruned[j] != n && HasLevel(nodes, pruned[j], level) {
      assert pruned[j] in ns + [id];
      if pruned[j] != id {
        var k :| 0 <= k < |ns| && ns[k] == pruned[j];
      }
    }
  }

  /** Links chosen for a node before it is published. */
  ghost predicate ChosenOk(nodes: seq<Node>, m: nat, links: seq<seq<nat>>) {
    forall l :: 0 <= l < |links| ==>
      |links[l]| <= m && Distinct(links[l]) && forall j :: 0 <= j < |links[l]| ==> HasLevel(nodes, links[l][j], l)
  }

  lemma PublishOk(nodes: seq<Node>, m: nat, node: Node)
    requires ListsOk(nodes, m) && ChosenOk(nodes, m, node.neighbors)
    ensures ListsOk(nodes + [node], m)
  {
    hide Distinct;
    var nodes' := nodes + [node];
    forall i, l | 0 <= i < |nodes'| && 0 <= l < |nodes'[i].neighbors| ensures ListOk(nodes', m, i, l, nodes'[i].neighbors[l]) {
      if i < |nodes| {
        assert nodes'[i] == nodes[i];
        assert ListOk(nodes, m, i, l, nodes[i].neighbors[l]);
      }
    }
  }

  lemma ChosenStep(nodes: seq<Node>, m: nat, links: seq<seq<nat>>, level: nat, cs: seq<Candidate>, ns: seq<nat>)
    requires ChosenOk(nodes, m, links) && level < |links| && |ns| <= m && Distinct(ns) && From(cs, ns)
    requires forall x :: x in Ids(cs) ==> HasLevel(nodes, x, level)
    ensures ChosenOk(nodes, m, links[level := ns])
  {
    hide Distinct, Ids;
    var links' := links[level := ns];
    forall l | 0 <= l < |links'|
      ensures |links'[l]| <= m && Distinct(links'[l]) && forall j :: 0 <= j < |links'[l]| ==> HasLevel(nodes, links'[l][j], l)
    {
      if l == level {
        forall j | 0 <= j < |ns| ensures HasLevel(nodes, ns[j], l) {
          assert ns[j] in ns;
        }
      }
    }
  }

  lemma LowerLevel(nodes: seq<Node>, x: nat, level: int)
    requires HasLevel(nodes, x, level) && level > 0
    ensures HasLevel(nodes, x, level - 1)
  {
  }

  /** Some given entry point exists at the level. */
  ghost predicate Enters(nodes: seq<Node>, entries: seq<nat>, level: int) {
    exists x :: x in entries && HasLevel(nodes, x, level)
  }

  function IdSeq(cs: seq<Candidate>): seq<nat> {
    seq(|cs|, i requires 0 <= i < |cs| => cs[i].id)
  }

  lemma EntersBelow(nodes: seq<Node>, level: int, cs: seq<Candidate>)
    requires cs != [] && level > 0 && forall x :: x in Ids(cs) ==> HasLevel(nodes, x, level)
    ensures Enters(nodes, IdSeq(cs), level - 1) && Enters(nodes, [cs[0].id], level - 1)
  {
    assert cs[0].id in Ids(cs);
    LowerLevel(nodes, cs[0].id, level);
    assert IdSeq(cs)[0] == cs[0].id;
    assert [cs[0].id][0] == cs[0].id;
  }

  /** Every node came through the checks of AddNode. */
  ghost predicate Admitted(nodes: seq<Node>, admissible: Vector -> bool) {
    forall i :: 0 <= i < |nodes| ==> nodes[i].key != [] && admissible(nodes[i].vector)
  }

  lemma AdmittedAdded(before: seq<Node>, after: seq<Node>, admissible: Vector -> bool)
    requires Admitted(before, admissible) && |after| == |before| + 1 && SameShape(before, after[..|before|])
    requires after[|before|].key != [] && admissible(after[|before|].vector)
    ensures Admitted(after, admissible)
  {
    forall i | 0 <= i < |before| ensures after[i].key != [] && admissible(after[i].vector) {
      assert after[i] == after[..|before|][i];
      assert before[i].(neighbors := []) == after[i].(neighbors := []);
    }
  }

  class Graph {
    const metric: (Vector, Vector) -> real
    const admissible: Vector -> bool
    const m: nat
    const efConstruction: nat
    var nodes: seq<Node>
    var maxLevel: int
    var entry: nat

    /** ValidateOptions has accepted the options. */
    ghost predicate Valid()
      reads this
    {
      m >= 2 && efConstruction >= 1 && GraphInv(nodes, maxLevel, entry, m) && Admitted(nodes, admissible)
    }

    constructor (metric: (Vector, Vector) -> real, admissible: Vector -> bool, m: nat, efConstruction: nat)
      requires m >= 2 && efConstruction >= 1
      ensures Valid() && nodes == [] && this.metric == metric && this.admissible == admissible
      ensures this.m == m && this.efConstruction == efConstruction
    {
      this.metric, this.admissible, this.m, this.efConstruction := metric, admissible, m, efConstruction;
      nodes, maxLevel, entry := [], -1, 0;
    }

    /** From the top level down to just above `stop`, the nearest node of each level. */
    method Descend(query: Vector, stop: int, marks: VisitMarks) returns (status: Status, entries: seq<nat>)
      requires Valid() && nodes != [] && marks.Valid() && -1 <= stop <= maxLevel
      modifies marks
      ensures marks.Valid() && status == Ok
      ensures stop >= 0 ==> Enters(nodes, entries, stop)
    {
      hide ListsOk, Answers;
      entries := [entry];
      var level := maxLevel;
      assert entry in entries && HasLevel(nodes, entry, level);
      while level > stop
        invariant marks.Valid() && stop <= level <= maxLevel && (level >= 0 ==> Enters(nodes, entries, level))
      {
        var d := To(metric, nodes, query);
        var nearest := SearchLayer(nodes, d, entries, 1, level, Everything(), marks);
        var x :| x in entries && HasLevel(nodes, x, level);
        AnswersSome(nodes, level, d, entries, 1, nearest, x);
        AnswersDistinct(nodes, level, d, entries, 1, Everything(), nearest);
        if nearest == [] {
          return Corruption, entries;
        }
        if level > 0 {
          EntersBelow(nodes, level, nearest);
        }
        entries := [nearest[0].id];
        level := level - 1;
      }
      status := Ok;
    }

    /** Choose links on every level the new node shares with the graph. */
    method Choose(vector: Vector, level: nat, marks: VisitMarks) returns (status: Status, links: seq<seq<nat>>)
      requires Valid() && nodes != [] && marks.Valid()
      modifies marks
      ensures marks.Valid() && status == Ok && |links| == level + 1 && ChosenOk(nodes, m, links)
    {
      hide ListsOk, Answers, ChosenOk, Enters;
      links := seq(level + 1, _ => []);
      NoLinks(nodes, m, level + 1);
      var first := if level < maxLevel then level else maxLevel;
      var entries;
      status, entries := Descend(vector, first, marks);
      if status != Ok {
        return;
      }
      var l := first;
      while l >= 0
        invariant marks.Valid() && -1 <= l <= first && |links| == level + 1 && status == Ok
        invariant ChosenOk(nodes, m, links) && (l >= 0 ==> Enters(nodes, entries, l))
        decreases l + 1
      {
        var d := To(metric, nodes, vector);
        var ef := if efConstruction < m then m else efConstruction;
        var cs := SearchLayer(nodes, d, entries, ef, l, Everything(), marks);
        EntersSome(nodes, l, d, entries, ef, cs);
        AnswersDistinct(nodes, l, d, entries, ef, Everything(), cs);
        if cs == [] {
          return Corruption, links;
        }
        ghost var kept;
        var ns;
        ns, kept := SelectNeighbors(Between(metric, nodes), cs, m);
        ChosenStep(nodes, m, links, l, cs, ns);
        links := links[l := ns];
        if l > 0 {
          EntersBelow(nodes, l, cs);
        }
        entries := IdSeq(cs);
        l := l - 1;
      }
    }

    /** Insert a node at a given (randomly drawn) level.  On a graph that satisfies the
        invariant the corruption returns are never taken; a refused vector or key leaves
        the graph unchanged. */
    method AddNode(vector: Vector, key: Blob, metadata: Blob, level: nat, marks: VisitMarks) returns (status: Status, id: nat)
      requires Valid() && marks.Valid()
      modifies this, marks
      ensures Valid() && marks.Valid()
      ensures status == if key == [] || !admissible(vector) then InvalidArgument else Ok
      ensures status != Ok ==> nodes == old(nodes) && maxLevel == old(maxLevel) && entry == old(entry)
      ensures status == Ok ==>
                && id == |old(nodes)| && |nodes| == id + 1
                && SameShape(old(nodes), nodes[..id])
                && nodes[id].key == key && nodes[id].vector == vector && nodes[id].metadata == metadata
                && |nodes[id].neighbors| == level + 1
                && maxLevel == (if level > old(maxLevel) then level else old(maxLevel))
                && entry == (if level > old(maxLevel) then id else old(entry))
    {
      hide ListsOk, ChosenOk, SameShape, Admitted;
      id := |nodes|;
      if key == [] || !admissible(vector) {
        return InvalidArgument, id;
      }
      var links: seq<seq<nat>> := seq(level + 1, _ => []);
      NoLinks(nodes, m, level + 1);
      if nodes != [] {
        status, links := Choose(vector, level, marks);
        if status != Ok {
          return;
        }
      }
      var node := Node(key, vector, metadata, links);
      PublishOk(nodes, m, node);
      var published := nodes + [node];
      nodes := published;
      SelfShape(nodes);
      var l := if level < maxLevel then level else maxLevel;
      while l >= 0
        invariant -1 <= l <= level && ListsOk(nodes, m) && SameShape(published, nodes)
        invariant maxLevel == old(maxLevel) && entry == old(entry) && marks.Valid()
        decreases l + 1
      {
        ShapeHas(published, nodes, id, l);
        var linked := Connect(metric, m, nodes, id, l);
        ShapeTransitive(published, nodes, linked);
        nodes := linked;
        l := l - 1;
      }
      AddedShape(old(nodes), node, nodes);
      AdmittedAdded(old(nodes), nodes, admissible);
      AddedLevels(old(nodes), node, nodes, maxLevel, entry, level);
      if level > maxLevel {
        entry, maxLevel := id, level;
      }
      status := Ok;
    }

    /** Top-k search; never reports corruption on a graph that satisfies the invariant. */
    method Search(query: Vector, topK: nat, ef: nat, visible: nat -> bool, marks: VisitMarks)
      returns (status: Status, results: seq<Candidate>, ghost layer: seq<Candidate>, ghost from: seq<nat>)
      requires Valid() && marks.Valid()
      modifies marks
      ensures marks.Valid() && status == Ok
      ensures nodes == [] || topK == 0 ==> results == []
      ensures nodes != [] && topK > 0 ==>
                && Enters(nodes, from, 0)
                && Answers(nodes, 0, To(metric, nodes, query), from, if topK < ef then ef else topK, visible, layer)
                && results == layer[..if topK < |layer| then topK else |layer|]
    {
      hide ListsOk, Answers, Enters;
      layer, from := [], [];
      if nodes == [] || topK == 0 {
        return Ok, [], layer, from;
      }
      var entries;
      status, entries := Descend(query, 0, marks);
      if status != Ok {
        return status, [], layer, from;
      }
      var nearest := SearchLayer(nodes, To(metric, nodes, query), entries, if topK < ef then ef else topK, 0, visible, marks);
      results := nearest[..if topK < |nearest| then topK else |nearest|];
      layer, from := nearest, entries;
    }
  }

  lemma NoLinks(nodes: seq<Node>, m: nat, n: nat)
    ensures ChosenOk(nodes, m, seq(n, _ => []))
  {
  }

  lemma EntersSome(nodes: seq<Node>, level: int, d: nat -> real, entries: seq<nat>, ef: nat, r: seq<Candidate>)
    requires Answers(nodes, level, d, entries, ef, Everything(), r) && ef > 0 && Enters(nodes, entries, level)
    ensures r != []
  {
    hide Answers;
    var x :| x in entries && HasLevel(nodes, x, level);
    AnswersSome(nodes, level, d, entries, ef, r, x);
  }

  lemma AddedShape(before: seq<Node>, node: Node, after: seq<Node>)
    requires SameShape(before + [node], after)
    ensures |after| == |before| + 1 && SameShape(before, after[..|before|])
    ensures var x := after[|before|];
            x.key == node.key && x.vector == node.vector && x.metadata == node.metadata && |x.neighbors| == |node.neighbors|
  {
    var all := before + [node];
    forall i | 0 <= i < |before|
      ensures before[i].(neighbors := []) == after[i].(neighbors := []) && |before[i].neighbors| == |after[i].neighbors|
    {
      assert all[i] == before[i];
    }
    assert all[|before|] == node;
  }

  lemma AddedLevels(before: seq<Node>, node: Node, after: seq<Node>, maxLevel: int, entry: nat, level: nat)
    requires SameShape(before + [node], after) && LevelsOk(before, maxLevel, entry) && |node.neighbors| == level + 1
    ensures LevelsOk(after, if level > maxLevel then level else maxLevel, if level > maxLevel then |before| else entry)
  {
    var all := before + [node];
    assert all[|before|] == node;
    assert forall i :: 0 <= i < |before| ==> all[i] == before[i];
  }
}
