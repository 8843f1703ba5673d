/**
 Multi-version data: batches of operations, the versions they write, and what a
 read at a sequence number sees.  `Fold` is the plain key-value meaning of a list
 of batches; `Newest` is the engine's meaning of a set of versions.
 */
module Versions {
  import opened Bytes

  datatype Op = Put(key: Blob, value: Blob) | Delete(key: Blob)

  /** One committed WriteBatch: operation i carries sequence number first + i. */
  datatype Batch = Batch(first: nat, ops: seq<Op>)

  datatype Version = Version(key: Blob, seqno: nat, value: Blob, deleted: bool)

  function VersionOf(op: Op, s: nat): Version {
    match op
    case Put(k, v) => Version(k, s, v, false)
    case Delete(k) => Version(k, s, [], true)
  }

  function BatchSet(b: Batch): set<Version> {
    set i | 0 <= i < |b.ops| :: VersionOf(b.ops[i], b.first + i)
  }

  function BatchLast(b: Batch): int {
    b.first + |b.ops| - 1
  }

  function History(bs: seq<Batch>): set<Version> {
    if bs == [] then {} else History(bs[..|bs| - 1]) + BatchSet(bs[|bs| - 1])
  }

  function LastSeq(bs: seq<Batch>): int {
    if bs == [] then 0 else BatchLast(bs[|bs| - 1])
  }

  /** Whole batches in strictly increasing sequence order, starting at 1. */
  predicate Ordered(bs: seq<Batch>) {
    && (forall i :: 0 <= i < |bs| ==> bs[i].first >= 1 && bs[i].ops != [])
    && (forall i, j :: 0 <= i < j < |bs| ==> BatchLast(bs[i]) < bs[j].first)
  }

  // ------------------------------------------------------------ reading a set

  predicate Visible(v: Version, k: Blob, r: nat) {
    v.key == k && v.seqno <= r
  }

  ghost predicate IsNewest(S: set<Version>, k: Blob, r: nat, v: Version) {
    && v in S && Visible(v, k, r)
    && forall w :: w in S && Visible(w, k, r) ==> w.seqno <= v.seqno
  }

  /** The newest version of k with sequence at most r, if there is one. */
  ghost function Newest(S: set<Version>, k: Blob, r: nat): Option<Version> {
    if exists v :: IsNewest(S, k, r, v) then
      var v :| IsNewest(S, k, r, v);
      Some(v)
    else
      None
  }

  function ValueOf(o: Option<Version>): Option<Blob> {
    match o
    case None => None
    case Some(v) => if v.deleted then None else Some(v.value)
  }

  /** What a user sees at read sequence r: a tombstone reads as absent. */
  ghost function Answer(S: set<Version>, k: Blob, r: nat): Option<Blob> {
    ValueOf(Newest(S, k, r))
  }

  /** Two sets of versions a reader at or above f cannot tell apart. */
  ghost predicate Agree(S: set<Version>, T: set<Version>, f: nat) {
    forall k, r :: r >= f ==> Answer(S, k, r) == Answer(T, k, r)
  }

  /** A sequence number names one version. */
  ghost predicate Unique(S: set<Version>) {
    forall v, w :: v in S && w in S && v.seqno == w.seqno ==> v == w
  }

  ghost predicate AllAbove(S: set<Version>, c: nat) {
    forall v :: v in S ==> v.seqno > c
  }

  ghost predicate AllUpTo(S: set<Version>, c: nat) {
    forall v :: v in S ==> v.seqno <= c
  }

  function After(S: set<Version>, c: nat): set<Version> {
    set v | v in S && v.seqno > c
  }

  function Slice(S: set<Version>, a: nat, b: nat): set<Version> {
    set v | v in S && a < v.seqno <= b
  }

  /** X holds, with each of its versions, every later version of H. */
  ghost predicate SuffixOf(X: set<Version>, H: set<Version>) {
    && X <= H
    && forall v, w :: v in H && w in X && v.seqno >= w.seqno ==> v in X
  }

  lemma {:induction false} NewestExists(S: set<Version>, k: Blob, r: nat, v: Version)
    requires v in S && Visible(v, k, r)
    ensures exists w :: IsNewest(S, k, r, w)
    decreases |S|
  {
    if !IsNewest(S, k, r, v) {
      var u :| u in S && Visible(u, k, r) && u.seqno > v.seqno;
      var S' := S - {v};
      NewestExists(S', k, r, u);
      var w :| IsNewest(S', k, r, w);
      assert IsNewest(S, k, r, w);
    }
  }

  lemma NewestIs(S: set<Version>, k: Blob, r: nat, v: Version)
    requires Unique(S) && IsNewest(S, k, r, v)
    ensures Newest(S, k, r) == Some(v)
  {
    var w := Newest(S, k, r).value;
    assert IsNewest(S, k, r, w);
    assert w.seqno <= v.seqno && v.seqno <= w.seqno;
  }

  /** Newest is a visible maximum, or nothing is visible. */
  lemma NewestMeaning(S: set<Version>, k: Blob, r: nat)
    ensures Newest(S, k, r).Some? ==> IsNewest(S, k, r, Newest(S, k, r).value)
    ensures Newest(S, k, r).None? ==> forall v :: v in S ==> !Visible(v, k, r)
  {
    if Newest(S, k, r).None? {
      forall v | v in S ensures !Visible(v, k, r) {
        if Visible(v, k, r) {
          NewestExists(S, k, r, v);
        }
      }
    }
  }

  /** A set holding the newest visible version of a larger set answers like it. */
  lemma NewestOfSubset(S: set<Version>, T: set<Version>, k: Blob, r: nat)
    requires S <= T && Unique(T)
    requires Newest(T, k, r).Some? ==> Newest(T, k, r).value in S
    ensures Newest(S, k, r) == Newest(T, k, r)
  {
    NewestMeaning(T, k, r);
    NewestMeaning(S, k, r);
    if Newest(T, k, r).Some? {
      assert IsNewest(S, k, r, Newest(T, k, r).value);
      NewestIs(S, k, r, Newest(T, k, r).value);
    }
  }

  // ------------------------------------------------- how agreement is preserved

  /** Adding the same strictly newer versions to both sides. */
  lemma AgreeAddNewer(S: set<Version>, T: set<Version>, L: set<Version>, f: nat, c: nat)
    requires Agree(S, T, f) && AllUpTo(S, c) && AllUpTo(T, c) && AllAbove(L, c)
    requires Unique(S + L) && Unique(T + L)
    ensures Agree(S + L, T + L, f)
  {
    forall k, r | r >= f ensures Answer(S + L, k, r) == Answer(T + L, k, r) {
      NewestMeaning(L, k, r);
      if Newest(L, k, r).Some? {
        NewestAddNewer(S, L, k, r, c);
        NewestAddNewer(T, L, k, r, c);
      } else {
        NewestAddInvisible(S, L, k, r);
        NewestAddInvisible(T, L, k, r);
        assert Answer(S, k, r) == Answer(T, k, r);
      }
    }
  }

  lemma NewestAddNewer(S: set<Version>, L: set<Version>, k: Blob, r: nat, c: nat)
    requires Unique(S + L) && AllUpTo(S, c) && AllAbove(L, c)
    requires Newest(L, k, r).Some?
    ensures Newest(S + L, k, r) == Newest(L, k, r)
  {
    NewestMeaning(L, k, r);
    var v := Newest(L, k, r).value;
    assert IsNewest(S + L, k, r, v);
    NewestIs(S + L, k, r, v);
  }

  lemma NewestAddInvisible(S: set<Version>, L: set<Version>, k: Blob, r: nat)
    requires Unique(S + L)
    requires forall v :: v in L ==> !Visible(v, k, r)
    ensures Newest(S + L, k, r) == Newest(S, k, r)
  {
    NewestMeaning(S + L, k, r);
    NewestOfSubset(S, S + L, k, r);
  }

  /** Adding a suffix of the history cannot resurrect a dropped key. */
  lemma AgreeAddSuffix(S: set<Version>, X: set<Version>, H: set<Version>, f: nat)
    requires Agree(S, H, f) && S <= H && SuffixOf(X, H) && Unique(H)
    ensures Agree(S + X, H, f)
  {
    forall k, r | r >= f ensures Answer(S + X, k, r) == Answer(H, k, r) {
      NewestMeaning(H, k, r);
      NewestMeaning(X, k, r);
      if Newest(X, k, r).Some? {
        assert Newest(H, k, r).value in X;
        NewestOfSubset(S + X, H, k, r);
      } else {
        NewestAddInvisible(S, X, k, r);
      }
    }
  }

  // ------------------------------------------------------ the history as a map

  lemma {:induction false} HistoryBounds(bs: seq<Batch>)
    requires Ordered(bs)
    ensures LastSeq(bs) >= 0
    ensures forall v :: v in History(bs) ==> 1 <= v.seqno <= LastSeq(bs)
  {
    if bs != [] {
      HistoryBounds(bs[..|bs| - 1]);
    }
  }

  lemma {:induction false} HistoryUnique(bs: seq<Batch>)
    requires Ordered(bs)
    ensures Unique(History(bs))
  {
    if bs != [] {
      var init := bs[..|bs| - 1];
      HistoryUnique(init);
      HistoryBounds(init);
      UniqueAbove(History(init), bs[|bs| - 1], LastSeq(init));
    }
  }

  lemma UniqueAbove(S: set<Version>, b: Batch, last: nat)
    requires Unique(S) && b.first > last && forall v :: v in S ==> v.seqno <= last
    ensures Unique(S + BatchSet(b))
  {
    assert forall v :: v in BatchSet(b) ==> v.seqno > last;
  }

  function Get(m: map<Blob, Blob>, k: Blob): Option<Blob> {
    if k in m then Some(m[k]) else None
  }

  function ApplyOp(m: map<Blob, Blob>, op: Op): map<Blob, Blob> {
    match op
    case Put(k, v) => m[k := v]
    case Delete(k) => m - {k}
  }

  function ApplyOps(m: map<Blob, Blob>, ops: seq<Op>): map<Blob, Blob> {
    if ops == [] then m else ApplyOp(ApplyOps(m, ops[..|ops| - 1]), ops[|ops| - 1])
  }

  /** The key-value map after whole batches are applied in sequence order. */
  function Fold(bs: seq<Batch>): map<Blob, Blob> {
    if bs == [] then map[] else ApplyOps(Fold(bs[..|bs| - 1]), bs[|bs| - 1].ops)
  }

  lemma BatchSetSnoc(S: set<Version>, b: Batch)
    requires b.ops != []
    ensures var n := |b.ops| - 1;
            S + BatchSet(b) == (S + BatchSet(Batch(b.first, b.ops[..n]))) + {VersionOf(b.ops[n], b.first + n)}
  {
    var n := |b.ops| - 1;
    var init := Batch(b.first, b.ops[..n]);
    forall v | v in BatchSet(b) ensures v in BatchSet(init) + {VersionOf(b.ops[n], b.first + n)} {
      var i :| 0 <= i < |b.ops| && v == VersionOf(b.ops[i], b.first + i);
      assert i < n ==> v == VersionOf(init.ops[i], b.first + i);
    }
    forall v | v in BatchSet(init) ensures v in BatchSet(b) {
      var i :| 0 <= i < n && v == VersionOf(init.ops[i], b.first + i);
      assert v == VersionOf(b.ops[i], b.first + i);
    }
  }

  lemma {:induction false} ApplyOpsIsNewest(S: set<Version>, m: map<Blob, Blob>, b: Batch, k: Blob)
    requires b.first >= 1 && AllUpTo(S, b.first - 1) && Unique(S)
    requires Answer(S, k, b.first - 1) == Get(m, k)
    ensures AllUpTo(S + BatchSet(b), b.first + |b.ops| - 1) && Unique(S + BatchSet(b))
    ensures Answer(S + BatchSet(b), k, b.first + |b.ops| - 1) == Get(ApplyOps(m, b.ops), k)
    decreases |b.ops|
  {
    hide Unique, Answer, BatchSet, AllUpTo, ApplyOp, Get, VersionOf;
    if b.ops == [] {
      BatchSetEmpty(S, b);
    } else {
      var n := |b.ops| - 1;
      var init := Batch(b.first, b.ops[..n]);
      ApplyOpsIsNewest(S, m, init, k);
      BatchSetSnoc(S, b);
      ApplyOpIsNewest(S + BatchSet(init), ApplyOps(m, init.ops), b.ops[n], b.first + n, k);
    }
  }

  lemma BatchSetEmpty(S: set<Version>, b: Batch)
    requires b.ops == []
    ensures S + BatchSet(b) == S
  {
    assert BatchSet(b) == {};
  }

  lemma ApplyOpIsNewest(S: set<Version>, m: map<Blob, Blob>, op: Op, s: nat, k: Blob)
    requires s >= 1 && AllUpTo(S, s - 1) && Unique(S)
    requires Answer(S, k, s - 1) == Get(m, k)
    ensures AllUpTo(S + {VersionOf(op, s)}, s) && Unique(S + {VersionOf(op, s)})
    ensures Answer(S + {VersionOf(op, s)}, k, s) == Get(ApplyOp(m, op), k)
  {
    hide Newest;
    var v := VersionOf(op, s);
    UniqueAdd(S, v, s);
    if v.key == k {
      NewestTop(S, v, s);
    } else {
      hide Unique, AllUpTo;
      NewestAddInvisible(S, {v}, k, s);
      NewestStable(S, k, s - 1, s);
    }
  }

  lemma UniqueAdd(S: set<Version>, v: Version, s: nat)
    requires s >= 1 && AllUpTo(S, s - 1) && Unique(S) && v.seqno == s
    ensures AllUpTo(S + {v}, s) && Unique(S + {v})
  {
  }

  lemma NewestTop(S: set<Version>, v: Version, s: nat)
    requires AllUpTo(S + {v}, s) && Unique(S + {v}) && v.seqno == s
    ensures Newest(S + {v}, v.key, s) == Some(v)
  {
    hide Unique;
    assert IsNewest(S + {v}, v.key, s, v);
    NewestIs(S + {v}, v.key, s, v);
  }

  /** Raising the read sequence past the last version changes nothing. */
  lemma NewestStable(S: set<Version>, k: Blob, r: nat, r': nat)
    requires AllUpTo(S, r) && r <= r' && Unique(S)
    ensures Newest(S, k, r) == Newest(S, k, r')
  {
    NewestMeaning(S, k, r);
    NewestMeaning(S, k, r');
    if Newest(S, k, r').Some? {
      assert Visible(Newest(S, k, r').value, k, r);
      NewestIs(S, k, r, Newest(S, k, r').value);
    }
  }

  /** Reading the history at its last sequence is looking up the folded map. */
  lemma {:induction false} FoldIsNewest(bs: seq<Batch>, k: Blob)
    requires Ordered(bs)
    ensures LastSeq(bs) >= 0
    ensures Answer(History(bs), k, LastSeq(bs)) == Get(Fold(bs), k)
  {
    HistoryBounds(bs);
    if bs == [] {
      NewestMeaning({}, k, 0);
    } else {
      var init, b := bs[..|bs| - 1], bs[|bs| - 1];
      FoldIsNewest(init, k);
      HistoryBounds(init);
      HistoryUnique(init);
      NewestStable(History(init), k, LastSeq(init), b.first - 1);
      ApplyOpsIsNewest(History(init), Fold(init), b, k);
    }
  }

  /** A read at a batch boundary sees exactly the batches before it, each whole. */
  lemma {:induction false} FoldAtBoundary(bs: seq<Batch>, n: nat, k: Blob)
    requires Ordered(bs) && n <= |bs|
    ensures LastSeq(bs[..n]) >= 0
    ensures Answer(History(bs), k, LastSeq(bs[..n])) == Get(Fold(bs[..n]), k)
    decreases |bs|
  {
    if n == |bs| {
      assert bs[..n] == bs;
      FoldIsNewest(bs, k);
    } else {
      var init, b := bs[..|bs| - 1], bs[|bs| - 1];
      FoldAtBoundary(init, n, k);
      assert init[..n] == bs[..n];
      hide Unique, Answer, Newest, BatchSet, Fold, Get, History, LastSeq;
      BoundaryStep(bs, n, k);
    }
  }

  /** A later batch is invisible at a boundary before it. */
  lemma BoundaryStep(bs: seq<Batch>, n: nat, k: Blob)
    requires Ordered(bs) && n < |bs| && LastSeq(bs[..n]) >= 0
    ensures Answer(History(bs), k, LastSeq(bs[..n])) == Answer(History(bs[..|bs| - 1]), k, LastSeq(bs[..n]))
  {
    hide Unique, Newest, Ordered, History, LastSeq, BatchSet;
    var init, b := bs[..|bs| - 1], bs[|bs| - 1];
    HistoryUnique(bs);
    LastBatch(bs);
    BoundaryAtMost(init, n);
    assert init[..n] == bs[..n];
    NewestAddInvisible(History(init), BatchSet(b), k, LastSeq(bs[..n]));
  }

  lemma LastBatch(bs: seq<Batch>)
    requires Ordered(bs) && bs != []
    ensures var init, b := bs[..|bs| - 1], bs[|bs| - 1];
            && Ordered(init) && History(bs) == History(init) + BatchSet(b)
            && forall v :: v in BatchSet(b) ==> v.seqno > LastSeq(init)
  {
  }

  lemma {:induction false} BoundaryAtMost(bs: seq<Batch>, n: nat)
    requires Ordered(bs) && n <= |bs|
    ensures LastSeq(bs[..n]) <= LastSeq(bs)
  {
    if n == |bs| {
      assert bs[..n] == bs;
    } else {
      BoundaryAtMost(bs[..|bs| - 1], n);
      assert bs[..|bs| - 1][..n] == bs[..n];
    }
  }
}
