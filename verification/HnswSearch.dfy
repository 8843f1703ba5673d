/**
 Beam search over one layer of the HNSW graph.  Distances are real numbers; the two
 heaps are sets from which the best or worst candidate is taken.
 */
module HnswSearch {
  import opened Bytes
  import opened Codec

  /** Coordinates as 32-bit patterns; the distance is any function of two vectors. */
  type Vector = seq<U32>

  datatype Node = Node(key: Blob, vector: Vector, metadata: Blob, neighbors: seq<seq<nat>>)

  datatype Candidate = Candidate(distance: real, id: nat)

  /** Closer wins; ties go to the smaller id, so the order is total. */
  predicate Better(a: Candidate, b: Candidate) {
    a.distance < b.distance || (a.distance == b.distance && a.id < b.id)
  }

  predicate HasLevel(nodes: seq<Node>, id: nat, level: int) {
    id < |nodes| && 0 <= level < |nodes[id].neighbors|
  }

  /** An edge the search follows: both ends exist at the level. */
  predicate Edge(nodes: seq<Node>, level: int, x: nat, y: nat) {
    HasLevel(nodes, x, level) && y in nodes[x].neighbors[level] && HasLevel(nodes, y, level)
  }

  ghost predicate Path(nodes: seq<Node>, level: int, p: seq<nat>) {
    p != [] && HasLevel(nodes, p[0], level) && forall i :: 0 <= i < |p| - 1 ==> Edge(nodes, level, p[i], p[i + 1])
  }

  ghost predicate Reachable(nodes: seq<Node>, level: int, entries: seq<nat>, y: nat) {
    exists p :: Path(nodes, level, p) && p[0] in entries && p[|p| - 1] == y
  }

  lemma ReachEntry(nodes: seq<Node>, level: int, entries: seq<nat>, x: nat)
    requires x in entries && HasLevel(nodes, x, level)
    ensures Reachable(nodes, level, entries, x)
  {
    assert Path(nodes, level, [x]);
    assert [x][0] == x && [x][|[x]| - 1] == x;
  }

  lemma ReachStep(nodes: seq<Node>, level: int, entries: seq<nat>, x: nat, y: nat)
    requires Reachable(nodes, level, entries, x) && Edge(nodes, level, x, y)
    ensures Reachable(nodes, level, entries, y)
  {
    var p :| Path(nodes, level, p) && p[0] in entries && p[|p| - 1] == x;
    var q := p + [y];
    assert Path(nodes, level, q);
    assert q[0] == p[0] && q[|q| - 1] == y;
  }

  /** A set that holds the entries and is closed under edges holds what they reach. */
  lemma {:induction false} ClosedHolds(nodes: seq<Node>, level: int, V: set<nat>, p: seq<nat>)
    requires Path(nodes, level, p) && p[0] in V
    requires forall x, y :: x in V && Edge(nodes, level, x, y) ==> y in V
    ensures p[|p| - 1] in V
    decreases |p|
  {
    if |p| > 1 {
      var init := p[..|p| - 1];
      assert Path(nodes, level, init);
      ClosedHolds(nodes, level, V, init);
      assert Edge(nodes, level, p[|p| - 2], p[|p| - 1]);
    }
  }

  // --------------------------------------------------------------- visited marks

  const GENERATIONS: nat := 0x1_0000_0000

  /** The per-thread mark array: an id is visited when its mark equals the current
      generation, so a new search starts empty without clearing the array. */
  class VisitMarks {
    var marks: seq<nat>
    var generation: nat

    ghost predicate Valid()
      reads this
    {
      generation < GENERATIONS && forall i :: 0 <= i < |marks| ==> marks[i] <= generation
    }

    ghost function Visited(): set<nat>
      reads this
    {
      set i: nat | i < |marks| && marks[i] == generation
    }

    constructor ()
      ensures Valid() && marks == []
    {
      marks, generation := [], 0;
    }

    /** A fresh, empty visited set over at least n ids, also when the 32-bit
        generation counter wraps around. */
    method Begin(n: nat)
      requires Valid()
      modifies this
      ensures Valid() && Visited() == {} && |marks| >= n && |marks| >= old(|marks|)
    {
      if |marks| < n {
        marks := marks + seq(n - |marks|, _ => 0);
      }
      generation := (generation + 1) % GENERATIONS;
      if generation == 0 {
        marks := seq(|marks|, _ => 0);
        generation := 1;
      }
    }

    method Mark(id: nat)
      requires Valid() && id < |marks|
      modifies this
      ensures Valid() && Visited() == old(Visited()) + {id}
      ensures |marks| == old(|marks|) && generation == old(generation)
    {
      marks := marks[id := generation];
    }

    predicate IsVisited(id: nat)
      requires id < |marks|
      reads this
    {
      marks[id] == generation
    }
  }

  // ----------------------------------------------------------------------- heaps

  lemma BetterOrder(a: Candidate, b: Candidate, c: Candidate)
    ensures Better(a, b) && Better(b, c) ==> Better(a, c)
    ensures a == b || Better(a, b) || Better(b, a)
    ensures !(Better(a, b) && Better(b, a)) && !Better(a, a)
  {
  }

  predicate IsBest(s: set<Candidate>, c: Candidate) {
    c in s && forall x :: x in s ==> x == c || Better(c, x)
  }

  predicate IsWorst(s: set<Candidate>, c: Candidate) {
    c in s && forall x :: x in s ==> x == c || Better(x, c)
  }

  method Best(s: set<Candidate>) returns (c: Candidate)
    requires s != {}
    ensures IsBest(s, c)
  {
    c :| c in s;
    var rest := s - {c};
    while rest != {}
      invariant c in s && rest <= s
      invariant forall x :: x in s && x !in rest ==> x == c || Better(c, x)
      decreases rest
    {
      var x :| x in rest;
      if Better(x, c) {
        c := x;
      }
      rest := rest - {x};
    }
  }

  method Worst(s: set<Candidate>) returns (c: Candidate)
    requires s != {}
    ensures IsWorst(s, c)
  {
    c :| c in s;
    var rest := s - {c};
    while rest != {}
      invariant c in s && rest <= s
      invariant forall x :: x in s && x !in rest ==> x == c || Better(x, c)
      decreases rest
    {
      var x :| x in rest;
      if Better(c, x) {
        c := x;
      }
      rest := rest - {x};
    }
  }

  /** The result set is full and everything in it is better than c. */
  ghost predicate Beaten(near: set<Candidate>, ef: nat, c: Candidate) {
    |near| == ef && forall x :: x in near ==> Better(x, c)
  }

  /** nearest.push(c), then pop the worst if there are more than ef. */
  method Insert(near: set<Candidate>, ef: nat, c: Candidate) returns (r: set<Candidate>)
    requires c !in near && |near| <= ef
    ensures |near| < ef ==> |r| == |near| + 1
    ensures |r| <= ef && r <= near + {c} && |near| <= |r|
    ensures forall z :: Beaten(near, ef, z) ==> Beaten(r, ef, z)
    ensures forall x :: x in near + {c} ==> x in r || Beaten(r, ef, x)
  {
    r := near + {c};
    if |r| > ef {
      var w := Worst(r);
      r := r - {w};
    }
  }

  // --------------------------------------------------------------- search invariant

  function Cand(d: nat -> real, id: nat): Candidate {
    Candidate(d(id), id)
  }

  /** V: visited, cand: to expand, near: results so far, done: expanded. */
  ghost predicate Explored(nodes: seq<Node>, level: int, d: nat -> real, entries: seq<nat>, ef: nat, visible: nat -> bool,
                           V: set<nat>, cand: set<Candidate>, near: set<Candidate>, done: set<nat>)
  {
    && |near| <= ef && done <= V
    && (forall c :: c in cand ==> c == Cand(d, c.id) && c.id in V && c.id !in done)
    && (forall c :: c in near ==> c == Cand(d, c.id) && c.id in V && visible(c.id))
    && (forall y :: y in V ==> HasLevel(nodes, y, level) && Reachable(nodes, level, entries, y))
    && (forall y :: y in V ==> Cand(d, y) in cand || y in done || Beaten(near, ef, Cand(d, y)))
    && (forall y :: y in V && visible(y) ==> Cand(d, y) in near || Beaten(near, ef, Cand(d, y)))
  }

  ghost predicate Closed(nodes: seq<Node>, level: int, V: set<nat>, done: set<nat>) {
    forall x, y :: x in done && Edge(nodes, level, x, y) ==> y in V
  }

  function Ids(r: seq<Candidate>): set<nat> {
    set i | 0 <= i < |r| :: r[i].id
  }

  /** What a layer search guarantees.  Results are distinct, visible, reachable and
      sorted.  If there are fewer than ef of them they are all visible reachable
      nodes.  Otherwise every visible entry point and every visible neighbour of a
      result is a result or worse than the worst result. */
  ghost predicate Answers(nodes: seq<Node>, level: int, d: nat -> real, entries: seq<nat>, ef: nat, visible: nat -> bool,
                          r: seq<Candidate>)
  {
    && |r| <= ef
    && (forall i, j :: 0 <= i < j < |r| ==> Better(r[i], r[j]))
    && (forall i :: 0 <= i < |r| ==>
          && r[i] == Cand(d, r[i].id) && visible(r[i].id)
          && HasLevel(nodes, r[i].id, level) && Reachable(nodes, level, entries, r[i].id))
    && (|r| < ef ==> forall y :: Reachable(nodes, level, entries, y) && visible(y) ==> y in Ids(r))
    && (|r| == ef > 0 ==>
          && (forall x :: x in entries && HasLevel(nodes, x, level) && visible(x) ==>
                x in Ids(r) || Better(r[ef - 1], Cand(d, x)))
          && (forall i, y :: 0 <= i < ef && Edge(nodes, level, r[i].id, y) && visible(y) ==>
                y in Ids(r) || Better(r[ef - 1], Cand(d, y))))
  }

  /** Visiting a new node and queueing it; a visible one enters the results. */
  lemma VisitQueued(nodes: seq<Node>, level: int, d: nat -> real, entries: seq<nat>, ef: nat, visible: nat -> bool,
                    V: set<nat>, cand: set<Candidate>, near: set<Candidate>, done: set<nat>, x: nat, near': set<Candidate>)
    requires Explored(nodes, level, d, entries, ef, visible, V, cand, near, done)
    requires x !in V && HasLevel(nodes, x, level) && Reachable(nodes, level, entries, x)
    requires !visible(x) ==> near' == near
    requires visible(x) ==> |near'| <= ef && near' <= near + {Cand(d, x)}
    requires forall z :: Beaten(near, ef, z) ==> Beaten(near', ef, z)
    requires forall c :: c in near || (visible(x) && c == Cand(d, x)) ==> c in near' || Beaten(near', ef, c)
    ensures Explored(nodes, level, d, entries, ef, visible, V + {x}, cand + {Cand(d, x)}, near', done)
  {
    hide Reachable, Beaten, HasLevel;
  }

  /** Visiting a new node that is worse than all ef results. */
  lemma VisitSkipped(nodes: seq<Node>, level: int, d: nat -> real, entries: seq<nat>, ef: nat, visible: nat -> bool,
                     V: set<nat>, cand: set<Candidate>, near: set<Candidate>, done: set<nat>, x: nat)
    requires Explored(nodes, level, d, entries, ef, visible, V, cand, near, done)
    requires x !in V && HasLevel(nodes, x, level) && Reachable(nodes, level, entries, x)
    requires Beaten(near, ef, Cand(d, x))
    ensures Explored(nodes, level, d, entries, ef, visible, V + {x}, cand, near, done)
  {
    hide Reachable, Beaten, HasLevel;
  }

  /** Taking the best candidate out to expand it. */
  lemma Taken(nodes: seq<Node>, level: int, d: nat -> real, entries: seq<nat>, ef: nat, visible: nat -> bool,
              V: set<nat>, cand: set<Candidate>, near: set<Candidate>, done: set<nat>, c: Candidate)
    requires Explored(nodes, level, d, entries, ef, visible, V, cand, near, done) && c in cand
    ensures Explored(nodes, level, d, entries, ef, visible, V, cand - {c}, near, done + {c.id})
  {
    hide Reachable, Beaten, HasLevel;
  }

  /** When the loop ends every result has been expanded. */
  lemma ResultsExpanded(nodes: seq<Node>, level: int, d: nat -> real, entries: seq<nat>, ef: nat, visible: nat -> bool,
                        V: set<nat>, cand: set<Candidate>, near: set<Candidate>, done: set<nat>)
    requires Explored(nodes, level, d, entries, ef, visible, V, cand, near, done)
    requires cand == {} || exists w, c :: IsWorst(near, w) && IsBest(cand, c) && c.distance > w.distance
    ensures forall c :: c in near ==> c.id in done
  {
    hide Reachable, HasLevel;
  }

  /** r lists the results, best first. */
  ghost predicate Lists(near: set<Candidate>, r: seq<Candidate>) {
    && |r| == |near| && (forall c :: c in near <==> c in r)
    && forall i, j :: 0 <= i < j < |r| ==> Better(r[i], r[j])
  }

  lemma Listed(nodes: seq<Node>, level: int, d: nat -> real, entries: seq<nat>, ef: nat, visible: nat -> bool,
               V: set<nat>, cand: set<Candidate>, near: set<Candidate>, done: set<nat>, r: seq<Candidate>)
    requires Explored(nodes, level, d, entries, ef, visible, V, cand, near, done) && Closed(nodes, level, V, done)
    requires forall x :: x in entries && HasLevel(nodes, x, level) ==> x in V
    requires forall c :: c in near ==> c.id in done
    requires |near| < ef ==> cand == {}
    requires Lists(near, r)
    ensures Answers(nodes, level, d, entries, ef, visible, r)
  {
    hide Reachable, HasLevel, Edge;
    forall i | 0 <= i < |r| ensures r[i] in near {
    }
    forall y | y in V && visible(y) ensures y in Ids(r) || (|r| == ef > 0 && Better(r[ef - 1], Cand(d, y))) || ef == 0 {
      if Cand(d, y) in near {
        var i :| 0 <= i < |r| && r[i] == Cand(d, y);
      } else if ef > 0 {
        assert r[ef - 1] in near;
      }
    }
    if |r| < ef {
      forall y | Reachable(nodes, level, entries, y) && visible(y) ensures y in Ids(r) {
        AllReached(nodes, level, entries, V, done, y);
      }
    }
  }

  lemma AllReached(nodes: seq<Node>, level: int, entries: seq<nat>, V: set<nat>, done: set<nat>, y: nat)
    requires Closed(nodes, level, V, done) && V <= done
    requires forall x :: x in entries && HasLevel(nodes, x, level) ==> x in V
    requires Reachable(nodes, level, entries, y)
    ensures y in V
  {
    hide HasLevel, Edge;
    var p :| Path(nodes, level, p) && p[0] in entries && p[|p| - 1] == y;
    ClosedHolds(nodes, level, V, p);
  }

  predicate IsId(nodes: seq<Node>, i: nat) {
    i < |nodes|
  }

  ghost function Universe(nodes: seq<Node>): set<nat> {
    set i: nat | i < |nodes| && IsId(nodes, i)
  }

  method Sort(near: set<Candidate>) returns (r: seq<Candidate>)
    ensures Lists(near, r)
  {
    r := [];
    var rest := near;
    while rest != {}
      invariant rest <= near && |r| + |rest| == |near|
      invariant forall c :: c in near <==> c in rest || c in r
      invariant forall c, i :: c in rest && 0 <= i < |r| ==> Better(c, r[i])
      invariant forall i, j :: 0 <= i < j < |r| ==> Better(r[i], r[j])
      decreases rest
    {
      var w := Worst(rest);
      r := [w] + r;
      rest := rest - {w};
    }
  }

  /** Queue the entry points that exist at the level. */
  method Seed(nodes: seq<Node>, d: nat -> real, entries: seq<nat>, ef: nat, level: int, visible: nat -> bool, marks: VisitMarks)
    returns (cand: set<Candidate>, near: set<Candidate>)
    requires marks.Valid() && |marks.marks| >= |nodes| && marks.Visited() == {} && ef > 0
    modifies marks
    ensures marks.Valid() && |marks.marks| >= |nodes|
    ensures Explored(nodes, level, d, entries, ef, visible, marks.Visited(), cand, near, {})
    ensures forall x :: x in entries && HasLevel(nodes, x, level) ==> x in marks.Visited()
  {
    hide Explored, Reachable, Beaten;
    cand, near := {}, {};
    SeedEmpty(nodes, level, d, entries, ef, visible);
    for i := 0 to |entries|
      invariant marks.Valid() && |marks.marks| >= |nodes|
      invariant Explored(nodes, level, d, entries, ef, visible, marks.Visited(), cand, near, {})
      invariant forall j :: 0 <= j < i && HasLevel(nodes, entries[j], level) ==> entries[j] in marks.Visited()
    {
      var x := entries[i];
      if HasLevel(nodes, x, level) && !marks.IsVisited(x) {
        ghost var V := marks.Visited();
        ReachEntry(nodes, level, entries, x);
        NewToResults(nodes, level, d, entries, ef, visible, V, cand, near, {}, x);
        marks.Mark(x);
        var c := Cand(d, x);
        var near' := near;
        if visible(x) {
          near' := Insert(near, ef, c);
        }
        KeptResults(near, ef, near', c, visible(x));
        VisitQueued(nodes, level, d, entries, ef, visible, V, cand, near, {}, x, near');
        cand, near := cand + {c}, near';
      }
    }
  }

  lemma SeedEmpty(nodes: seq<Node>, level: int, d: nat -> real, entries: seq<nat>, ef: nat, visible: nat -> bool)
    ensures Explored(nodes, level, d, entries, ef, visible, {}, {}, {}, {})
  {
  }

  lemma NewToResults(nodes: seq<Node>, level: int, d: nat -> real, entries: seq<nat>, ef: nat, visible: nat -> bool,
                     V: set<nat>, cand: set<Candidate>, near: set<Candidate>, done: set<nat>, x: nat)
    requires Explored(nodes, level, d, entries, ef, visible, V, cand, near, done) && x !in V
    ensures Cand(d, x) !in near && |near| <= ef && x !in done
  {
  }

  lemma KeptResults(near: set<Candidate>, ef: nat, near': set<Candidate>, c: Candidate, inserted: bool)
    requires !inserted ==> near' == near
    requires inserted ==> forall x :: x in near + {c} ==> x in near' || Beaten(near', ef, x)
    ensures forall x :: x in near || (inserted && x == c) ==> x in near' || Beaten(near', ef, x)
  {
  }

  /** Visit the neighbours of one candidate. */
  method Expand(nodes: seq<Node>, d: nat -> real, entries: seq<nat>, ef: nat, level: int, visible: nat -> bool, marks: VisitMarks,
                x: nat, cand0: set<Candidate>, near0: set<Candidate>, ghost done: set<nat>)
    returns (cand: set<Candidate>, near: set<Candidate>)
    requires marks.Valid() && |marks.marks| >= |nodes| && ef > 0
    requires Explored(nodes, level, d, entries, ef, visible, marks.Visited(), cand0, near0, done)
    requires x in done && Closed(nodes, level, marks.Visited(), done - {x})
    modifies marks
    ensures marks.Valid() && |marks.marks| >= |nodes| && old(marks.Visited()) <= marks.Visited()
    ensures Explored(nodes, level, d, entries, ef, visible, marks.Visited(), cand, near, done)
    ensures Closed(nodes, level, marks.Visited(), done)
  {
    hide Explored, Reachable, Beaten, Closed;
    cand, near := cand0, near0;
    DoneReached(nodes, level, d, entries, ef, visible, marks.Visited(), cand, near, done, x);
    var neighbors := nodes[x].neighbors[level];
    for i := 0 to |neighbors|
      invariant marks.Valid() && |marks.marks| >= |nodes| && old(marks.Visited()) <= marks.Visited()
      invariant Explored(nodes, level, d, entries, ef, visible, marks.Visited(), cand, near, done)
      invariant forall j :: 0 <= j < i && HasLevel(nodes, neighbors[j], level) ==> neighbors[j] in marks.Visited()
    {
      var y := neighbors[i];
      if HasLevel(nodes, y, level) && !marks.IsVisited(y) {
        ghost var V := marks.Visited();
        var c := Cand(d, y);
        ReachStep(nodes, level, entries, x, y);
        NewToResults(nodes, level, d, entries, ef, visible, V, cand, near, done, y);
        marks.Mark(y);
        var full := |near| >= ef;
        var w := c;
        if full {
          w := Worst(near);
        }
        if !full || Better(c, w) {
          var near' := near;
          if visible(y) {
            near' := Insert(near, ef, c);
          }
          KeptResults(near, ef, near', c, visible(y));
          VisitQueued(nodes, level, d, entries, ef, visible, V, cand, near, done, y, near');
          cand, near := cand + {c}, near';
        } else {
          WorstBeats(near, ef, w, c);
          VisitSkipped(nodes, level, d, entries, ef, visible, V, cand, near, done, y);
        }
      }
    }
    NowClosed(nodes, level, old(marks.Visited()), marks.Visited(), done, x);
  }

  lemma DoneReached(nodes: seq<Node>, level: int, d: nat -> real, entries: seq<nat>, ef: nat, visible: nat -> bool,
                    V: set<nat>, cand: set<Candidate>, near: set<Candidate>, done: set<nat>, x: nat)
    requires Explored(nodes, level, d, entries, ef, visible, V, cand, near, done) && x in done
    ensures HasLevel(nodes, x, level) && Reachable(nodes, level, entries, x)
  {
  }

  lemma WorstBeats(near: set<Candidate>, ef: nat, w: Candidate, c: Candidate)
    requires IsWorst(near, w) && |near| == ef && !Better(c, w) && c !in near
    ensures Beaten(near, ef, c)
  {
  }

  lemma NowClosed(nodes: seq<Node>, level: int, V: set<nat>, V': set<nat>, done: set<nat>, x: nat)
    requires Closed(nodes, level, V, done - {x}) && V <= V' && HasLevel(nodes, x, level)
    requires var ns := nodes[x].neighbors[level]; forall j :: 0 <= j < |ns| && HasLevel(nodes, ns[j], level) ==> ns[j] in V'
    ensures Closed(nodes, level, V', done)
  {
  }

  /** Beam search: expand the best candidate until it is farther than the worst of ef
      results. */
  method SearchLayer(nodes: seq<Node>, d: nat -> real, entries: seq<nat>, ef: nat, level: int, visible: nat -> bool, marks: VisitMarks)
    returns (r: seq<Candidate>)
    requires marks.Valid()
    modifies marks
    ensures marks.Valid() && Answers(nodes, level, d, entries, ef, visible, r)
  {
    hide Explored, Reachable, Beaten, Closed;
    if ef == 0 || level < 0 {
      NoLevel(nodes, level, d, entries, ef, visible);
      return [];
    }
    marks.Begin(|nodes|);
    var cand, near := Seed(nodes, d, entries, ef, level, visible, marks);
    ghost var done := {};
    NoneDone(nodes, level, marks.Visited());
    while cand != {}
      invariant marks.Valid() && |marks.marks| >= |nodes|
      invariant Explored(nodes, level, d, entries, ef, visible, marks.Visited(), cand, near, done)
      invariant Closed(nodes, level, marks.Visited(), done)
      invariant forall x :: x in entries && HasLevel(nodes, x, level) ==> x in marks.Visited()
      decreases Universe(nodes) - done
    {
      var c := Best(cand);
      if |near| >= ef {
        var w := Worst(near);
        if c.distance > w.distance {
          ResultsExpanded(nodes, level, d, entries, ef, visible, marks.Visited(), cand, near, done);
          r := Sort(near);
          NearBound(nodes, level, d, entries, ef, visible, marks.Visited(), cand, near, done);
          Listed(nodes, level, d, entries, ef, visible, marks.Visited(), cand, near, done, r);
          return;
        }
      }
      TakenNew(nodes, level, d, entries, ef, visible, marks.Visited(), cand, near, done, c);
      Taken(nodes, level, d, entries, ef, visible, marks.Visited(), cand, near, done, c);
      assert done + {c.id} - {c.id} == done;
      done := done + {c.id};
      cand, near := Expand(nodes, d, entries, ef, level, visible, marks, c.id, cand - {c}, near, done);
    }
    ResultsExpanded(nodes, level, d, entries, ef, visible, marks.Visited(), cand, near, done);
    r := Sort(near);
    Listed(nodes, level, d, entries, ef, visible, marks.Visited(), cand, near, done, r);
  }

  lemma NoLevel(nodes: seq<Node>, level: int, d: nat -> real, entries: seq<nat>, ef: nat, visible: nat -> bool)
    requires ef == 0 || level < 0
    ensures Answers(nodes, level, d, entries, ef, visible, [])
  {
  }

  lemma NoneDone(nodes: seq<Node>, level: int, V: set<nat>)
    ensures Closed(nodes, level, V, {})
  {
  }

  lemma NearBound(nodes: seq<Node>, level: int, d: nat -> real, entries: seq<nat>, ef: nat, visible: nat -> bool,
                  V: set<nat>, cand: set<Candidate>, near: set<Candidate>, done: set<nat>)
    requires Explored(nodes, level, d, entries, ef, visible, V, cand, near, done)
    ensures |near| <= ef
  {
  }

  lemma TakenNew(nodes: seq<Node>, level: int, d: nat -> real, entries: seq<nat>, ef: nat, visible: nat -> bool,
                 V: set<nat>, cand: set<Candidate>, near: set<Candidate>, done: set<nat>, c: Candidate)
    requires Explored(nodes, level, d, entries, ef, visible, V, cand, near, done) && c in cand
    ensures c.id !in done && c.id in V && c.id in Universe(nodes)
    ensures Universe(nodes) - (done + {c.id}) < Universe(nodes) - done
  {
    assert IsId(nodes, c.id);
  }

  /** With room for every visible reachable node, exactly those are returned. */
  lemma ExactWhenRoomy(nodes: seq<Node>, level: int, d: nat -> real, entries: seq<nat>, ef: nat, visible: nat -> bool,
                       r: seq<Candidate>, all: set<nat>)
    requires Answers(nodes, level, d, entries, ef, visible, r)
    requires forall y :: y in all <==> Reachable(nodes, level, entries, y) && visible(y)
    requires |all| <= ef
    ensures Ids(r) == all
  {
    hide Reachable, Edge, HasLevel;
    assert Ids(r) <= all;
    if |r| == ef {
      IdsSize(r);
      SubsetFull(Ids(r), all);
    }
  }

  lemma {:induction false} IdsSize(r: seq<Candidate>)
    requires forall i, j :: 0 <= i < j < |r| ==> r[i].id != r[j].id
    ensures |Ids(r)| == |r|
  {
    if r == [] {
      assert Ids(r) == {};
    } else {
      var n := |r| - 1;
      IdsSize(r[..n]);
      assert Ids(r) == Ids(r[..n]) + {r[n].id} by {
        assert forall i :: 0 <= i < n ==> r[..n][i] == r[i];
      }
    }
  }

  lemma SubsetFull(a: set<nat>, b: set<nat>)
    requires a <= b && |a| >= |b|
    ensures a == b
  {
    assert b == a + (b - a);
    assert |b| == |a| + |b - a|;
  }
}
