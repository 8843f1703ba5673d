/**
 The merge loop of a compaction: for each key, all versions from all inputs, newest
 first, and of those the ones to retain.  The output is exactly the retained set, in
 order.
 */
module CompactionMerge {
  import opened Bytes
  import opened Versions
  import opened Block
  import opened Compaction
  import opened Merge
  import opened Store
  import IK = InternalKey

  predicate Descending(vs: seq<Version>) {
    forall i, j :: 0 <= i < j < |vs| ==> vs[i].seqno >= vs[j].seqno
  }

  lemma InsertAtPlace(s: seq<Version>, k: nat, v: Version)
    requires Descending(s) && k <= |s| && forall j :: 0 <= j < k ==> s[j].seqno >= v.seqno
    requires k < |s| ==> s[k].seqno < v.seqno
    ensures var t := s[..k] + [v] + s[k..]; Descending(t) && multiset(t) == multiset(s) + multiset{v}
  {
    InsertDescending(s, k, v);
    hide Descending;
    assert s == s[..k] + s[k..];
  }

  lemma InsertDescending(s: seq<Version>, k: nat, v: Version)
    requires Descending(s) && k <= |s| && forall j :: 0 <= j < k ==> s[j].seqno >= v.seqno
    requires k < |s| ==> s[k].seqno < v.seqno
    ensures Descending(s[..k] + [v] + s[k..])
  {
    var t := s[..k] + [v] + s[k..];
    assert t[k] == v && forall i :: 0 <= i < |t| && i != k ==> t[i] == s[if i < k then i else i - 1];
  }

  method InsertVersion(s: seq<Version>, v: Version) returns (t: seq<Version>)
    requires Descending(s)
    ensures Descending(t) && multiset(t) == multiset(s) + multiset{v}
  {
    var k := 0;
    while k < |s| && s[k].seqno >= v.seqno
      invariant k <= |s| && forall j :: 0 <= j < k ==> s[j].seqno >= v.seqno
    {
      k := k + 1;
    }
    InsertAtPlace(s, k, v);
    t := s[..k] + [v] + s[k..];
  }

  /** Newest first. */
  method SortVersions(vs: seq<Version>) returns (s: seq<Version>)
    ensures Descending(s) && multiset(s) == multiset(vs) && Elems(s) == Elems(vs)
  {
    hide Descending, Elems;
    s := [];
    SortedNone();
    for i := 0 to |vs|
      invariant Descending(s) && multiset(s) == multiset(vs[..i])
    {
      assert vs[..i + 1] == vs[..i] + [vs[i]];
      s := InsertVersion(s, vs[i]);
    }
    assert vs[..|vs|] == vs;
    SameElems(s, vs);
  }

  lemma SortedNone()
    ensures Descending([])
  {
  }

  lemma SameElems(a: seq<Version>, b: seq<Version>)
    requires multiset(a) == multiset(b)
    ensures Elems(a) == Elems(b)
  {
    forall v ensures v in Elems(a) <==> v in Elems(b) {
      assert v in Elems(a) <==> v in a;
      assert v in Elems(b) <==> v in b;
      assert v in a <==> v in multiset(a);
      assert v in b <==> v in multiset(b);
    }
  }

  lemma ElemsOne(v: Version)
    ensures Elems([v]) == {v} && Elems([]) == {}
  {
    assert [v][0] == v;
  }

  /** Only the newest version, unless it is a tombstone on its way to the last level. */
  lemma KeepNewest(vs: seq<Version>, key: Blob, target: nat)
    requires vs != [] && Descending(vs) && Unique(Elems(vs)) && forall v :: v in vs ==> v.key == key
    ensures Retain(Elems(vs), 0, target) == if !vs[0].deleted || target < 2 then {vs[0]} else {}
  {
    var In := Elems(vs);
    assert vs[0] in In;
    forall v | v in In && v != vs[0] ensures !Keep(In, v, 0, target) {
      assert vs[0].seqno > v.seqno;
    }
    assert forall w :: w in In ==> w.seqno <= vs[0].seqno;
  }

  /** Everything above the oldest snapshot, and the first version at or below it. */
  method KeepVersions(vs: seq<Version>, key: Blob, m: nat, target: nat) returns (kept: seq<Version>)
    requires vs != [] && Descending(vs) && Unique(Elems(vs)) && forall v :: v in vs ==> v.key == key
    ensures Elems(kept) == Retain(Elems(vs), m, target) && Descending(kept)
  {
    hide Retain, Unique, Elems;
    if m == 0 {
      KeepNewest(vs, key, target);
      ElemsOne(vs[0]);
      kept := if !vs[0].deleted || target < 2 then [vs[0]] else [];
      return;
    }
    kept := KeepAbove(vs, key, m, target);
  }

  method KeepAbove(vs: seq<Version>, key: Blob, m: nat, target: nat) returns (kept: seq<Version>)
    requires m > 0 && Descending(vs) && Unique(Elems(vs)) && forall v :: v in vs ==> v.key == key
    ensures Elems(kept) == Retain(Elems(vs), m, target) && Descending(kept)
  {
    hide Retain, Unique, Elems;
    kept := [];
    var boundary := false;
    ghost var n: nat := 0;
    for i := 0 to |vs|
      invariant n <= i && Descending(kept) && forall j :: 0 <= j < n ==> vs[j].seqno > m
      invariant if boundary then n < i && vs[n].seqno <= m && kept == vs[..n + 1] else n == i && kept == vs[..i]
    {
      if vs[i].seqno > m {
        kept := kept + [vs[i]];
        n := n + 1;
      } else if !boundary {
        kept := kept + [vs[i]];
        boundary := true;
      }
    }
    KeepPrefix(vs, key, m, target, n);
    assert vs[..|vs|] == vs;
  }

  /** The versions above the snapshot come first; one more is kept. */
  lemma KeepPrefix(vs: seq<Version>, key: Blob, m: nat, target: nat, n: nat)
    requires Descending(vs) && Unique(Elems(vs)) && m > 0 && forall v :: v in vs ==> v.key == key
    requires n <= |vs| && (forall j :: 0 <= j < n ==> vs[j].seqno > m) && (n < |vs| ==> vs[n].seqno <= m)
    ensures Elems(if n < |vs| then vs[..n + 1] else vs) == Retain(Elems(vs), m, target)
  {
    hide Keep, Unique, Descending;
    var In, kept := Elems(vs), if n < |vs| then vs[..n + 1] else vs;
    forall j | 0 <= j < |vs| ensures Keep(In, vs[j], m, target) <==> j < n || vs[j] == vs[n] {
      KeepAt(vs, key, m, target, n, j);
    }
    forall v | v in Retain(In, m, target) ensures v in Elems(kept) {
      var j :| 0 <= j < |vs| && vs[j] == v;
      if j < n {
        assert kept[j] == v;
      } else {
        assert kept[n] == v;
      }
    }
    forall v | v in Elems(kept) ensures v in Retain(In, m, target) {
      var j :| 0 <= j < |kept| && kept[j] == v;
      assert vs[j] == v;
    }
  }

  lemma KeepAt(vs: seq<Version>, key: Blob, m: nat, target: nat, n: nat, j: nat)
    requires Descending(vs) && Unique(Elems(vs)) && m > 0 && forall v :: v in vs ==> v.key == key
    requires j < |vs| && n <= |vs| && (forall i :: 0 <= i < n ==> vs[i].seqno > m) && (n < |vs| ==> vs[n].seqno <= m)
    ensures Keep(Elems(vs), vs[j], m, target) <==> j < n || vs[j] == vs[n]
  {
    assert vs[j] in Elems(vs) && vs[j] in vs;
    if n <= j {
      assert vs[n] in Elems(vs) && vs[n] in vs;
      forall w | w in Elems(vs) && w.seqno <= m ensures w.seqno <= vs[n].seqno {
        var i :| 0 <= i < |vs| && vs[i] == w;
      }
    }
  }

  // ---------------------------------------------------------------- the whole loop

  /** Every version is still to come, or its key is before all keys to come. */
  ghost predicate Cut(In: set<Version>, left: set<Version>) {
    left <= In && forall v, w :: v in In && v !in left && w in left ==> Less(v.key, w.key)
  }

  lemma CutNext(In: set<Version>, left: set<Version>, first: Version)
    requires Cut(In, left) && first in left && forall v :: v in left ==> Leq(first.key, v.key)
    ensures Cut(In, NotOfKey(left, first.key)) && OfKey(left, first.key) == OfKey(In, first.key)
    ensures left <= In && forall v :: v in In && v !in left ==> Less(v.key, first.key)
  {
    LessIrreflexive(first.key);
  }

  /** Retaining looks at one key at a time. */
  lemma RetainKey(In: set<Version>, key: Blob, m: nat, target: nat)
    ensures Retain(OfKey(In, key), m, target) == OfKey(Retain(In, m, target), key)
  {
    var K := OfKey(In, key);
    forall v | v in K ensures Keep(K, v, m, target) <==> Keep(In, v, m, target) {
      assert forall w :: w in In && w.key == v.key <==> w in K;
    }
  }

  /** What has been decided so far. */
  ghost function Done(In: set<Version>, left: set<Version>, m: nat, target: nat): set<Version> {
    Retain(In, m, target) - left
  }

  lemma DoneNext(In: set<Version>, left: set<Version>, key: Blob, m: nat, target: nat)
    requires left <= In && OfKey(left, key) == OfKey(In, key)
    ensures Done(In, NotOfKey(left, key), m, target) == Done(In, left, m, target) + Retain(OfKey(left, key), m, target)
  {
    hide Keep;
    RetainKey(In, key, m, target);
  }

  lemma SortedAppend(out: seq<Version>, kept: seq<Version>, key: Blob)
    requires Sorted(out) && Descending(kept) && Unique(Elems(kept))
    requires (forall v :: v in kept ==> v.key == key) && forall v :: v in out ==> Less(v.key, key)
    ensures Sorted(out + kept)
  {
    var all := out + kept;
    forall i, j | 0 <= i < j < |all|
      ensures all[i] == all[j] || IK.Before(all[i].key, all[i].seqno, all[j].key, all[j].seqno)
    {
      if i < |out| && j < |out| {
        assert all[i] == out[i] && all[j] == out[j];
      } else if i < |out| {
        assert all[i] in out && all[j] in kept;
      } else {
        assert all[i] == kept[i - |out|] && all[j] == kept[j - |out|];
        assert all[i] in kept && all[j] in kept;
        assert all[i] in Elems(kept) && all[j] in Elems(kept);
      }
    }
  }

  lemma StartCut(In: set<Version>, m: nat, target: nat)
    ensures Cut(In, In) && Done(In, In, m, target) == {} && Elems([]) == {} && Sorted([])
  {
  }

  lemma EndCut(In: set<Version>, m: nat, target: nat)
    ensures Done(In, {}, m, target) == Retain(In, m, target)
  {
  }

  /** What is known of all versions of one key. */
  lemma OneKey(In: set<Version>, vs: seq<Version>, key: Blob)
    requires Unique(In) && Elems(vs) == OfKey(In, key) != {}
    ensures vs != [] && Unique(Elems(vs)) && forall v :: v in vs ==> v.key == key && v in Elems(vs)
  {
  }

  lemma RetainedSubset(kept: seq<Version>, In: set<Version>, m: nat, target: nat)
    requires Elems(kept) == Retain(In, m, target) && Unique(In)
    ensures Unique(Elems(kept)) && forall v :: v in kept ==> v in In
  {
    assert forall v :: v in kept ==> v in Elems(kept);
  }

  /** The merge: every retained version and no other, key ascending, sequence descending; or
      nothing, exactly if an input cannot be read to its end. */
  method MergeInputs(inputs: Lists, faults: Faults, m: nat, target: nat) returns (merged: Option<seq<Version>>)
    requires AllSorted(inputs) && Unique(Union(inputs))
    ensures merged.Some? <==> NoFaults(|inputs|, faults)
    ensures merged.Some? ==> Elems(merged.value) == Retain(Union(inputs), m, target) && Sorted(merged.value)
  {
    hide AllSorted, Sorted, Union, Retain, Descending, Unique, Done, Elems, Keep, Cut, AllStand, NoFaults;
    ghost var In := Union(inputs);
    var kids := new Children(inputs, faults);
    var output := [];
    StartCut(In, m, target);
    if NoFaults(|inputs|, faults) {
      StandAll(inputs, faults);
    }
    if !kids.ok {
      return None;
    }
    while kids.heap != []
      invariant kids.Valid() && fresh(kids) && kids.fails == faults && |kids.rest| == |inputs| && kids.ok
      invariant Cut(In, Union(kids.rest))
      invariant Elems(output) == Done(In, Union(kids.rest), m, target) && Sorted(output)
      invariant forall v :: v in output ==> v in In && v !in Union(kids.rest)
      decreases Remaining(kids.rest)
    {
      var p := kids.Top();
      var first := kids.rest[kids.heap[p]][0];
      var key := first.key;
      ghost var left := Union(kids.rest);
      HeadIn(kids.rest, kids.heap[p]);
      CutNext(In, left, first);
      DoneNext(In, left, key, m, target);
      var versions := kids.TakeKey(key);
      if NoFaults(|inputs|, faults) {
        StandAll(kids.rest, faults);
      }
      if !kids.ok {
        return None;
      }
      var sorted := SortVersions(versions);
      assert first in OfKey(In, key);
      OneKey(In, sorted, key);
      var kept := KeepVersions(sorted, key, m, target);
      RetainedSubset(kept, Elems(sorted), m, target);
      SortedAppend(output, kept, key);
      ElemsConcat(output, kept);
      output := output + kept;
    }
    Exhausted(kids.rest);
    StandAtEnd(kids.rest, faults);
    EndCut(In, m, target);
    merged := Some(output);
  }

  // ----------------------------------------------------------------------- metadata

  /** Smallest and largest key of the output. */
  method MinMaxKeys(es: seq<Version>) returns (lo: Blob, hi: Blob)
    requires es != []
    ensures (exists i :: 0 <= i < |es| && es[i].key == lo) && (exists i :: 0 <= i < |es| && es[i].key == hi)
    ensures forall i :: 0 <= i < |es| ==> Leq(lo, es[i].key) && Leq(es[i].key, hi)
  {
    var a, b := 0, 0;
    for n := 1 to |es|
      invariant a < n && b < n && forall i :: 0 <= i < n ==> Leq(es[a].key, es[i].key) && Leq(es[i].key, es[b].key)
    {
      LessTotal(es[n].key, es[a].key);
      LessTotal(es[n].key, es[b].key);
      if Less(es[n].key, es[a].key) {
        forall i | 0 <= i < n ensures Leq(es[n].key, es[i].key) {
          LeqTrans(es[n].key, es[a].key, es[i].key);
        }
        a := n;
      }
      if Less(es[b].key, es[n].key) {
        forall i | 0 <= i < n ensures Leq(es[i].key, es[n].key) {
          LeqTrans(es[i].key, es[b].key, es[n].key);
        }
        b := n;
      }
    }
    lo, hi := es[a].key, es[b].key;
  }

  /** The metadata published for an output: its exact key range, empty for no entries. */
  method OutputMeta(es: seq<Version>, level: nat, size: nat) returns (m: Meta)
    requires forall i :: 0 <= i < |es| ==> es[i].key != []
    ensures MetaFor(m, level, Elems(es))
  {
    m := Meta(level, [], [], size);
    if es != [] {
      var lo, hi := MinMaxKeys(es);
      m := Meta(level, lo, hi, size);
      var i :| 0 <= i < |es| && es[i].key == lo;
      var j :| 0 <= j < |es| && es[j].key == hi;
      assert es[i] in Elems(es) && es[j] in Elems(es);
    }
  }

  /** The metadata of a flushed memtable: its entries are sorted, so first and last key. */
  method FlushMeta(es: seq<Version>, size: nat) returns (m: Meta)
    requires Sorted(es) && forall i :: 0 <= i < |es| ==> es[i].key != []
    ensures MetaFor(m, 0, Elems(es))
  {
    m := Meta(0, [], [], size);
    if es != [] {
      m := Meta(0, es[0].key, es[|es| - 1].key, size);
      assert es[0] in Elems(es) && es[|es| - 1] in Elems(es);
    }
  }
}
