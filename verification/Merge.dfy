/**
 Merging sorted children through a heap of their current entries.  Taking all versions
 of the smallest key takes exactly the versions of that key from all children; the
 iterator and the compaction loop are built on that.
 */
module Merge {
  import opened Bytes
  import opened Versions
  import opened Block

  type Lists = seq<seq<Version>>

  /** All versions the children still hold. */
  ghost function Union(ls: Lists): set<Version> {
    set i, v | 0 <= i < |ls| && v in ls[i] :: v
  }

  ghost predicate AllSorted(ls: Lists) {
    forall i :: 0 <= i < |ls| ==> Sorted(ls[i])
  }

  /** The versions of one key. */
  ghost function OfKey(S: set<Version>, key: Blob): set<Version> {
    set v | v in S && v.key == key
  }

  ghost function NotOfKey(S: set<Version>, key: Blob): set<Version> {
    set v | v in S && v.key != key
  }

  /** e is not after v: smaller key, or the same key and at least as new. */
  predicate NotAfter(e: Version, v: Version) {
    Less(e.key, v.key) || (e.key == v.key && e.seqno >= v.seqno)
  }

  lemma NotAfterTransitive(a: Version, b: Version, c: Version)
    requires NotAfter(a, b) && NotAfter(b, c)
    ensures NotAfter(a, c)
  {
    Order(a.key, b.key, c.key);
  }

  lemma HeadFirst(es: seq<Version>)
    requires Sorted(es) && es != []
    ensures forall v :: v in es ==> NotAfter(es[0], v)
  {
  }

  lemma {:induction false} UnionSplit(ls: Lists, i: nat, a: seq<Version>, t: seq<Version>)
    requires i < |ls| && ls[i] == a + t
    ensures Union(ls) == Union(ls[i := t]) + Elems(a)
  {
    var ms := ls[i := t];
    forall v | v in Union(ls) ensures v in Union(ms) + Elems(a) {
      var j :| 0 <= j < |ls| && v in ls[j];
      if j != i {
        assert v in ms[j];
      } else if v in t {
        assert v in ms[i];
      }
    }
    forall v | v in Union(ms) ensures v in Union(ls) {
      var j :| 0 <= j < |ms| && v in ms[j];
      assert v in ls[j];
    }
    forall v | v in Elems(a) ensures v in Union(ls) {
      assert v in ls[i];
    }
  }

  predicate NoRepeat(h: seq<nat>) {
    forall i, j :: 0 <= i < j < |h| ==> h[i] != h[j]
  }

  /** The heap holds exactly the children that are not exhausted. */
  ghost predicate HeapOk(rest: Lists, heap: seq<nat>) {
    && NoRepeat(heap)
    && (forall q :: 0 <= q < |heap| ==> heap[q] < |rest| && rest[heap[q]] != [])
    && forall i :: 0 <= i < |rest| && rest[i] != [] ==> i in heap
  }

  lemma TopFirst(rest: Lists, heap: seq<nat>, p: nat)
    requires AllSorted(rest) && HeapOk(rest, heap) && p < |heap|
    requires forall q :: 0 <= q < |heap| ==> NotAfter(rest[heap[p]][0], rest[heap[q]][0])
    ensures forall v :: v in Union(rest) ==> NotAfter(rest[heap[p]][0], v)
  {
    forall v | v in Union(rest) ensures NotAfter(rest[heap[p]][0], v) {
      var j :| 0 <= j < |rest| && v in rest[j];
      var q :| 0 <= q < |heap| && heap[q] == j;
      HeadFirst(rest[j]);
      NotAfterTransitive(rest[heap[p]][0], rest[heap[q]][0], v);
    }
  }

  /** Where reading fails: child i cannot be moved on to where fails[i] entries remain, which
      are 0 if it fails at its end. */
  type Faults = seq<Option<nat>>

  predicate Stands(fails: Faults, i: nat, left: nat) {
    i < |fails| && fails[i].Some? ==> fails[i].value < left
  }

  /** No child has come to where it cannot be read. */
  predicate AllStand(rest: Lists, fails: Faults) {
    forall i :: 0 <= i < |rest| ==> Stands(fails, i, |rest[i]|)
  }

  predicate NoFaults(n: nat, fails: Faults) {
    forall i :: 0 <= i < n && i < |fails| ==> fails[i].None?
  }

  lemma StandAtEnd(rest: Lists, fails: Faults)
    requires forall i :: 0 <= i < |rest| ==> rest[i] == []
    ensures AllStand(rest, fails) <==> NoFaults(|rest|, fails)
  {
    if AllStand(rest, fails) {
      forall i | 0 <= i < |rest| && i < |fails| ensures fails[i].None? {
        assert Stands(fails, i, |rest[i]|);
      }
    }
  }

  lemma StandAll(rest: Lists, fails: Faults)
    requires NoFaults(|rest|, fails)
    ensures AllStand(rest, fails)
  {
  }

  lemma StandUpdate(rest: Lists, fails: Faults, i: nat, left: seq<Version>)
    requires i < |rest| && |left| <= |rest[i]|
    ensures AllStand(rest[i := left], fails) <==> AllStand(rest, fails) && Stands(fails, i, |left|)
  {
    var ms := rest[i := left];
    if AllStand(ms, fails) {
      forall j | 0 <= j < |rest| ensures Stands(fails, j, |rest[j]|) {
        assert Stands(fails, j, |ms[j]|);
      }
      assert Stands(fails, i, |ms[i]|);
    }
    if AllStand(rest, fails) && Stands(fails, i, |left|) {
      forall j | 0 <= j < |ms| ensures Stands(fails, j, |ms[j]|) {
        assert Stands(fails, j, |rest[j]|);
      }
    }
  }

  class Children {
    var rest: Lists
    var heap: seq<nat>
    var fails: Faults
    /** No child has reported an error. */
    var ok: bool

    /** rest is what the children would still show; an error is recorded as soon as one of
        them moves to where it fails. */
    ghost predicate Valid()
      reads this
    {
      AllSorted(rest) && HeapOk(rest, heap) && (ok <==> AllStand(rest, fails))
    }

    constructor (lists: Lists, faults: Faults)
      requires AllSorted(lists)
      ensures Valid() && rest == lists && fails == faults
    {
      rest, fails := lists, faults;
      heap, ok := [], true;
      new;
      Rebuild();
    }

    /** RebuildHeap */
    method Rebuild()
      requires AllSorted(rest)
      modifies this`heap, this`ok
      ensures Valid()
    {
      heap, ok := [], true;
      for i := 0 to |rest|
        invariant NoRepeat(heap) && (forall q :: 0 <= q < |heap| ==> heap[q] < i && rest[heap[q]] != [])
        invariant forall j :: 0 <= j < i && rest[j] != [] ==> j in heap
        invariant ok <==> forall j :: 0 <= j < i ==> Stands(fails, j, |rest[j]|)
      {
        if !Stands(fails, i, |rest[i]|) {
          ok := false;
        }
        if rest[i] != [] {
          heap := heap + [i];
        }
      }
    }

    /** The position of a child whose current entry comes first. */
    method Top() returns (p: nat)
      requires Valid() && heap != []
      ensures p < |heap| && rest[heap[p]] != []
      ensures forall v :: v in Union(rest) ==> NotAfter(rest[heap[p]][0], v)
    {
      p := 0;
      for q := 1 to |heap|
        invariant p < q && forall i :: 0 <= i < q ==> NotAfter(rest[heap[p]][0], rest[heap[i]][0])
      {
        var a, b := rest[heap[q]][0], rest[heap[p]][0];
        Order(a.key, b.key, a.key);
        if Less(a.key, b.key) || (a.key == b.key && a.seqno > b.seqno) {
          forall i | 0 <= i < q ensures NotAfter(a, rest[heap[i]][0]) {
            NotAfterTransitive(a, b, rest[heap[i]][0]);
          }
          p := q;
        }
      }
      TopFirst(rest, heap, p);
    }

    /** Pop a child, pass over its entries of the key, and push it again if it has more. */
    method PopPast(p: nat, key: Blob) returns (taken: seq<Version>)
      requires Valid() && p < |heap| && rest[heap[p]][0].key == key
      modifies this
      ensures Valid() && fails == old(fails) && |rest| == old(|rest|) && (ok ==> old(ok)) && Remaining(rest) < old(Remaining(rest))
      ensures old(Union(rest)) == Union(rest) + Elems(taken)
      ensures forall v :: v in taken ==> v.key == key
    {
      hide Union, Sorted, Elems, HeapOk, AllSorted, Remaining, AllStand, Stands;
      HeapAt(rest, heap, p);
      var i := heap[p];
      var list := rest[i];
      var n := KeyRun(list, key);
      taken := list[..n];
      var left := list[n..];
      assert list == taken + left;
      UnionSplit(rest, i, taken, left);
      SortedUpdate(rest, i, n);
      RemainingLess(rest, i, left);
      StandUpdate(rest, fails, i, left);
      HeapDrop(rest, heap, p, left);
      rest, heap := rest[i := left], heap[..p] + heap[p + 1..];
      ok := ok && Stands(fails, i, |left|);
      if left != [] {
        heap := heap + [i];
      }
    }

    /** Take the smallest key: all its versions, from every child. */
    method TakeKey(key: Blob) returns (versions: seq<Version>)
      requires Valid() && forall v :: v in Union(rest) ==> Leq(key, v.key)
      modifies this
      ensures Valid() && fails == old(fails) && |rest| == old(|rest|) && (ok ==> old(ok))
      ensures Elems(versions) == OfKey(old(Union(rest)), key) && Union(rest) == NotOfKey(old(Union(rest)), key)
      ensures Remaining(rest) <= old(Remaining(rest)) && (versions != [] ==> Remaining(rest) < old(Remaining(rest)))
    {
      hide Union, AllSorted, Remaining, AllStand;
      versions := [];
      ghost var all := Union(rest);
      while heap != []
        invariant Valid() && fails == old(fails) && |rest| == old(|rest|) && (ok ==> old(ok))
        invariant all == Union(rest) + Elems(versions) && forall v :: v in versions ==> v.key == key
        invariant Remaining(rest) <= old(Remaining(rest)) && (versions != [] ==> Remaining(rest) < old(Remaining(rest)))
        decreases Remaining(rest)
      {
        var p := Top();
        var first := rest[heap[p]][0];
        if first.key != key {
          HeadIn(rest, heap[p]);
          LaterKeys(Union(rest), first, key);
          SplitKey(all, Union(rest), Elems(versions), key);
          return;
        }
        var taken := PopPast(p, key);
        ElemsConcat(versions, taken);
        versions := versions + taken;
      }
      Exhausted(rest);
      SplitKey(all, Union(rest), Elems(versions), key);
    }
  }

  lemma HeadIn(ls: Lists, i: nat)
    requires i < |ls| && ls[i] != []
    ensures ls[i][0] in Union(ls)
  {
    assert ls[i][0] in ls[i];
  }

  lemma Exhausted(rest: Lists)
    requires HeapOk(rest, [])
    ensures Union(rest) == {} && forall i :: 0 <= i < |rest| ==> rest[i] == []
  {
  }

  lemma LaterKeys(S: set<Version>, first: Version, key: Blob)
    requires first in S && first.key != key && forall v :: v in S ==> NotAfter(first, v) && Leq(key, v.key)
    ensures forall v :: v in S ==> v.key != key
  {
    forall v | v in S ensures v.key != key {
      Order(key, first.key, v.key);
      Order(first.key, key, key);
    }
  }

  lemma SplitKey(all: set<Version>, left: set<Version>, taken: set<Version>, key: Blob)
    requires all == left + taken && (forall v :: v in left ==> v.key != key) && forall v :: v in taken ==> v.key == key
    ensures taken == OfKey(all, key) && left == NotOfKey(all, key)
  {
  }

  lemma ElemsConcat(a: seq<Version>, b: seq<Version>)
    ensures Elems(a + b) == Elems(a) + Elems(b)
  {
    forall v | v in Elems(a) + Elems(b) ensures v in Elems(a + b) {
      if v in a {
        var i :| 0 <= i < |a| && a[i] == v;
        assert (a + b)[i] == v;
      } else {
        var i :| 0 <= i < |b| && b[i] == v;
        assert (a + b)[|a| + i] == v;
      }
    }
  }

  lemma HeapAt(rest: Lists, heap: seq<nat>, p: nat)
    requires HeapOk(rest, heap) && p < |heap|
    ensures heap[p] < |rest| && rest[heap[p]] != []
  {
  }

  lemma SortedUpdate(ls: Lists, i: nat, n: nat)
    requires AllSorted(ls) && i < |ls| && n <= |ls[i]|
    ensures AllSorted(ls[i := ls[i][n..]])
  {
    hide Sorted;
    SortedDrop(ls[i], n);
  }

  /** How many leading entries have the key. */
  method KeyRun(list: seq<Version>, key: Blob) returns (n: nat)
    requires list != [] && list[0].key == key
    ensures 0 < n <= |list| && forall v :: v in list[..n] ==> v.key == key
  {
    n := 1;
    while n < |list| && list[n].key == key
      invariant 0 < n <= |list| && forall j :: 0 <= j < n ==> list[j].key == key
    {
      n := n + 1;
    }
  }

  lemma SortedDrop(es: seq<Version>, n: nat)
    requires Sorted(es) && n <= |es|
    ensures Sorted(es[n..])
  {
    var t := es[n..];
    assert forall i :: 0 <= i < |t| ==> t[i] == es[n + i];
  }

  function Remaining(ls: Lists): nat {
    if ls == [] then 0 else |ls[0]| + Remaining(ls[1..])
  }

  lemma {:induction false} RemainingLess(ls: Lists, i: nat, t: seq<Version>)
    requires i < |ls| && |t| < |ls[i]|
    ensures Remaining(ls[i := t]) < Remaining(ls)
  {
    var ms := ls[i := t];
    if i == 0 {
      assert ms[1..] == ls[1..];
    } else {
      assert ms[1..] == ls[1..][i - 1 := t];
      RemainingLess(ls[1..], i - 1, t);
    }
  }

  lemma HeapDrop(rest: Lists, heap: seq<nat>, p: nat, t: seq<Version>)
    requires HeapOk(rest, heap) && p < |heap|
    ensures var popped := heap[..p] + heap[p + 1..];
            HeapOk(rest[heap[p] := t], if t == [] then popped else popped + [heap[p]])
  {
    var popped, i := heap[..p] + heap[p + 1..], heap[p];
    assert forall j :: j in popped <==> j in heap && j != i by {
      forall j | j in heap && j != i ensures j in popped {
        var q :| 0 <= q < |heap| && heap[q] == j;
        if q < p {
          assert heap[..p][q] == j;
        } else {
          assert heap[p + 1..][q - p - 1] == j;
        }
      }
    }
  }
}
