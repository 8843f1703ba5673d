/** A user iterator opened on the engine: over the children that NewIterator builds it yields
    exactly the map of the committed batches at its read sequence. */
module EngineIterate {
  import opened Bytes
  import opened Versions
  import opened Store
  import opened Engine
  import opened EngineInv
  import opened EngineRead
  import opened EngineTheorems
  import EnginePublish
  import Block
  import Merge
  import MI = MergingIterator

  /** One child per table, in any order, then the immutable memtables, then the active one;
      each lists its versions in order. */
  ghost predicate ChildrenOf(s: State, ns: seq<nat>, sources: Merge.Lists) {
    && Merge.AllSorted(sources) && |sources| == |ns| + |s.imm| + 1
    && (forall n :: n in s.tables <==> n in ns)
    && (forall i :: 0 <= i < |ns| ==> ns[i] in s.tables && Block.Elems(sources[i]) == s.tables[ns[i]])
    && (forall i :: 0 <= i < |s.imm| ==> s.imm[i].mem in s.mems && Block.Elems(sources[|ns| + i]) == s.mems[s.imm[i].mem])
    && s.active in s.mems && Block.Elems(sources[|ns| + |s.imm|]) == s.mems[s.active]
  }

  lemma InElems(es: seq<Version>, v: Version)
    ensures v in es <==> v in Block.Elems(es)
  {
    if v in es {
      var i :| 0 <= i < |es| && es[i] == v;
    }
  }

  lemma ChildrenUnion(s: State, ns: seq<nat>, sources: Merge.Lists)
    requires ChildrenOf(s, ns, sources)
    ensures Merge.Union(sources) == Tables(s.tables.Keys, s.tables) + EnginePublish.MemSet(s)
  {
    hide Merge.AllSorted, Block.Elems, MemsNewestFirst;
    var T, M, n := Tables(s.tables.Keys, s.tables), EnginePublish.MemSet(s), |ns|;
    var ids := [s.active] + MemsNewestFirst(s.imm);
    MemsKnown(s.imm);
    forall v | v in Merge.Union(sources) ensures v in T + M {
      var i :| 0 <= i < |sources| && v in sources[i];
      InElems(sources[i], v);
      if i < n {
        assert ns[i] in s.tables.Keys && v in s.tables[ns[i]];
      } else {
        var j := i - n;
        var id := if j < |s.imm| then s.imm[j].mem else s.active;
        assert j < |s.imm| ==> sources[n + j] == sources[i];
        assert id == ids[if j < |s.imm| then |s.imm| - j else 0];
        assert id in ids && id in s.mems && v in s.mems[id];
      }
    }
    forall v | v in T ensures v in Merge.Union(sources) {
      var t :| t in s.tables.Keys && t in s.tables && v in s.tables[t];
      var i :| 0 <= i < n && ns[i] == t;
      InElems(sources[i], v);
    }
    forall v | v in M ensures v in Merge.Union(sources) {
      var id :| id in ids && id in s.mems && v in s.mems[id];
      var p :| 0 <= p < |ids| && ids[p] == id;
      var i := n + |s.imm| - p;
      assert p > 0 ==> id == s.imm[|s.imm| - p].mem && sources[n + (|s.imm| - p)] == sources[i];
      InElems(sources[i], v);
    }
  }

  /** All sources together answer like the history at every sequence a reader may use. */
  lemma SourcesAnswer(s: State, r: nat)
    requires Inv(s) && CanPin(s, r)
    ensures var S := Tables(s.tables.Keys, s.tables) + EnginePublish.MemSet(s);
            S <= History(s.past) && Unique(S) && forall k :: Answer(S, k, r) == Answer(History(s.past), k, r)
  {
    hide DiskInv, MemInv, WalInv, FlushInv, CompInv, TailInv, History, LastSeq, EnginePublish.MemSet, Answer, Covers, Levelled,
      AtBoundary, Unique;
    var H, S := History(s.past), Tables(s.tables.Keys, s.tables) + EnginePublish.MemSet(s);
    EnginePublish.MemSetIs(s);
    InvHistory(s);
    UniqueSubset(S, H);
    forall k ensures Answer(S, k, r) == Answer(H, k, r) {
      if r < s.floor {
        assert r == 0;
        ZeroAnswer(S, k);
        ZeroAnswer(H, k);
      }
    }
  }

  lemma InvHistory(s: State)
    requires Inv(s)
    ensures AllAbove(History(s.past), 0) && Unique(History(s.past))
  {
    hide LiveInv, TopInv, LogInv, WalsOrdered, LimboInv, ReaderInv, History, LastSeq;
    HistoryFacts(s.past);
  }

  lemma ZeroAnswer(S: set<Version>, k: Blob)
    requires AllAbove(S, 0)
    ensures Answer(S, k, 0) == None
  {
    NewestMeaning(S, k, 0);
  }

  lemma PinBoundary(s: State, r: nat) returns (n: nat)
    requires Inv(s) && CanPin(s, r)
    ensures n <= |s.past| && r == LastSeq(s.past[..n])
  {
    hide LogInv, WalsOrdered, WalInv, MemInv, TableInv, ReadInv, CompInv, FlushInv, TailInv, ReaderInv, PastInv, LastSeq, History;
    BoundaryLast(s.past);
    n :| 0 <= n <= |s.past| && r == LastSeq(s.past[..n]);
  }

  /** In any open state of a run, at the last sequence or an active snapshot: a loop over a new
      iterator from any target yields the map of the batches committed by then, from the target
      on, in strictly increasing key order; if a child cannot be read to its end, it stops with
      an error, and has yielded exactly the part of that map up to its last key. */
  method Scan(ghost states: seq<State>, ghost steps: seq<Step>, ghost i: nat, ghost ns: seq<nat>,
              sources: Merge.Lists, faults: Merge.Faults, r: nat, target: Blob)
    returns (out: seq<Version>, ok: bool, ghost n: nat)
    requires Run(states, steps) && i < |states| && NeverCut(steps, i) && CanPin(states[i], r) && ChildrenOf(states[i], ns, sources)
    ensures n <= |states[i].past| && r == LastSeq(states[i].past[..n])
    ensures MI.Increasing(out) && (ok <==> Merge.NoFaults(|sources|, faults))
    ensures forall v :: v in out ==> Leq(target, v.key) && Get(Fold(states[i].past[..n]), v.key) == Some(v.value)
    ensures forall k :: Leq(target, k) && k in Fold(states[i].past[..n]) && (ok || (out != [] && Leq(k, out[|out| - 1].key))) ==>
              MI.HasKey(out, k)
  {
    hide Run, Inv, CanPin, ChildrenOf, Answer, Newest, Fold, Get, LastSeq, History, Unique, Merge.Union, Merge.AllSorted,
      MI.Increasing, MI.HasKey, Leq, Merge.NoFaults;
    ghost var s := states[i];
    RunInv(states, steps, i);
    ChildrenUnion(s, ns, sources);
    SourcesAnswer(s, r);
    ChildrenSorted(s, ns, sources);
    n := PinBoundary(s, r);
    var it := new MI.Iterator(sources, r);
    out, ok := it.Collect(target, faults);
    forall v | v in out ensures Get(Fold(s.past[..n]), v.key) == Some(v.value) {
      AnswerOf(Merge.Union(sources), v, r);
      BoundaryFold(s, n, r, v.key);
    }
    forall k | Leq(target, k) && k in Fold(s.past[..n]) && (ok || (out != [] && Leq(k, out[|out| - 1].key))) ensures MI.HasKey(out, k) {
      InFold(Fold(s.past[..n]), k);
      BoundaryFold(s, n, r, k);
    }
  }

  lemma ChildrenSorted(s: State, ns: seq<nat>, sources: Merge.Lists)
    requires ChildrenOf(s, ns, sources)
    ensures Merge.AllSorted(sources)
  {
  }

  lemma AnswerOf(S: set<Version>, v: Version, r: nat)
    requires !v.deleted && Newest(S, v.key, r) == Some(v)
    ensures Answer(S, v.key, r) == Some(v.value)
  {
    hide Newest;
  }

  lemma InFold(m: map<Blob, Blob>, k: Blob)
    requires k in m
    ensures Get(m, k).Some?
  {
  }

  lemma BoundaryFold(s: State, n: nat, r: nat, k: Blob)
    requires Inv(s) && n <= |s.past| && r == LastSeq(s.past[..n])
    ensures Answer(History(s.past), k, r) == Get(Fold(s.past[..n]), k)
  {
    hide Inv, Answer, Fold, Get, History, LastSeq;
    InvOrdered(s);
    FoldAtBoundary(s.past, n, k);
  }
}
