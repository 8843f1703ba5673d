/**
 The user iterator: it merges the entries that memtables and tables show at its read
 sequence.  From the start or from a key it yields exactly the live keys, in strictly
 increasing order, each with its newest value.
 */
module MergingIterator {
  import opened Bytes
  import opened Versions
  import opened Block
  import opened Merge
  import opened TableIterator
  import CM = CompactionMerge
  import IK = InternalKey

  // -------------------------------------------------------- memtable iterator

  lemma {:induction false} ShownSnoc(es: seq<Version>, e: Version, target: Blob, r: nat)
    ensures Shown(es + [e], target, r) == Shown(es, target, r) + if Passed(e, target, r) then [] else [e]
  {
    hide Shown, Passed;
    if es == [] {
      assert es + [e] == [e] + [];
      ShownCons(e, [], target, r);
      ShownNone(target, r);
    } else {
      var x, t := es[0], es[1..];
      assert es + [e] == [x] + (t + [e]) && es == [x] + t;
      ShownSnoc(t, e, target, r);
      ShownCons(x, t + [e], target, r);
      ShownCons(x, t, target, r);
    }
  }

  lemma ShownNone(target: Blob, r: nat)
    ensures Shown([], target, r) == []
  {
  }

  lemma {:induction false} ShownSorted(es: seq<Version>, target: Blob, r: nat)
    requires Sorted(es)
    ensures Sorted(Shown(es, target, r)) && forall v :: v in Shown(es, target, r) <==> v in es && !Passed(v, target, r)
  {
    if es != [] {
      var tail := es[1..];
      assert Sorted(tail);
      ShownSorted(tail, target, r);
      var t := Shown(tail, target, r);
      assert forall v :: v in es <==> v == es[0] || v in tail;
      if !Passed(es[0], target, r) {
        var all := [es[0]] + t;
        forall j | 0 < j < |all| ensures all[j] == es[0] || IK.Before(es[0].key, es[0].seqno, all[j].key, all[j].seqno) {
          assert all[j] == t[j - 1] && t[j - 1] in tail;
          var k :| 0 <= k < |tail| && tail[k] == t[j - 1];
          assert tail[k] == es[k + 1];
        }
      }
    }
  }

  lemma ShownCons(e: Version, t: seq<Version>, target: Blob, r: nat)
    ensures Shown([e] + t, target, r) == if Passed(e, target, r) then Shown(t, target, r) else [e] + Shown(t, target, r)
  {
    assert ([e] + t)[1..] == t;
    assert [] + Shown(t, target, r) == Shown(t, target, r);
  }

  /** Dropping the keys before the target from what is shown without one. */
  lemma {:induction false} ShownFrom(es: seq<Version>, target: Blob, r: nat)
    ensures Shown(Shown(es, [], r), target, r) == Shown(es, target, r)
    decreases |es|, 0
  {
    if es != [] {
      ShownFromTail(es[0], es[1..], target, r);
      assert es == [es[0]] + es[1..];
    }
  }

  lemma {:induction false} ShownFromTail(e: Version, t: seq<Version>, target: Blob, r: nat)
    ensures Shown(Shown([e] + t, [], r), target, r) == Shown([e] + t, target, r)
    decreases |t|, 1
  {
    hide Shown;
    ShownCons(e, t, [], r);
    ShownCons(e, t, target, r);
    ShownCons(e, Shown(t, [], r), target, r);
    ShownFrom(t, target, r);
  }

  class MemCursor {
    const entries: seq<Version>
    var index: nat

    /** Only the entries at or below the read sequence are taken over. */
    constructor (es: seq<Version>, r: nat)
      ensures entries == Shown(es, [], r) && index == 0
    {
      var kept: seq<Version> := [];
      for i := 0 to |es|
        invariant kept == Shown(es[..i], [], r)
      {
        ShownSnoc(es[..i], es[i], [], r);
        assert es[..i + 1] == es[..i] + [es[i]];
        if es[i].seqno <= r {
          kept := kept + [es[i]];
        }
      }
      assert es[..|es|] == es;
      entries, index := kept, 0;
    }

    function Rest(): seq<Version>
      reads this
    {
      if index <= |entries| then entries[index..] else []
    }

    /** lower_bound on the key */
    method Seek(target: Blob, r: nat, ghost es: seq<Version>)
      requires Sorted(es) && entries == Shown(es, [], r)
      modifies this
      ensures Rest() == Shown(es, target, r)
    {
      hide Sorted, Shown;
      ShownSorted(es, [], r);
      var lo, hi := 0, |entries|;
      while lo < hi
        invariant 0 <= lo <= hi <= |entries|
        invariant lo > 0 ==> Less(entries[lo - 1].key, target)
        invariant hi < |entries| ==> !Less(entries[hi].key, target)
      {
        var mid := (lo + hi) / 2;
        if Less(entries[mid].key, target) {
          lo := mid + 1;
        } else {
          hi := mid;
        }
      }
      index := lo;
      ShownFrom(es, target, r);
      DropTo(entries, lo, target, r);
    }

    method Next()
      modifies this
      ensures Rest() == Tail(old(Rest()))
    {
      if index < |entries| {
        index := index + 1;
      }
    }
  }

  /** On sorted entries at or below r, a lower bound splits off what is before the target. */
  lemma DropTo(es: seq<Version>, n: nat, target: Blob, r: nat)
    requires Sorted(es) && n <= |es| && forall v :: v in es ==> v.seqno <= r
    requires n > 0 ==> Less(es[n - 1].key, target)
    requires n < |es| ==> !Less(es[n].key, target)
    ensures Shown(es, target, r) == es[n..]
  {
    hide Shown;
    var a, b := es[..n], es[n..];
    assert es == a + b;
    SortedSplit(a, b);
    forall i | 0 <= i < |a| ensures Passed(a[i], target, r) {
      assert a[i] == es[i];
      Order(es[i].key, es[n - 1].key, target);
      LessEmpty(es[n - 1].key);
    }
    ShownConcat(a, b, target, r);
    AllFrom(b, target, r);
    ShownAll(b, r);
  }

  lemma LessEmpty(a: Blob)
    ensures !Less(a, [])
  {
  }

  lemma {:induction false} ShownConcat(a: seq<Version>, b: seq<Version>, target: Blob, r: nat)
    requires forall i :: 0 <= i < |a| ==> Passed(a[i], target, r)
    ensures Shown(a + b, target, r) == Shown(b, target, r)
  {
    if a == [] {
      assert a + b == b;
    } else {
      assert (a + b)[1..] == a[1..] + b;
      ShownConcat(a[1..], b, target, r);
    }
  }

  lemma {:induction false} ShownAll(es: seq<Version>, r: nat)
    requires forall v :: v in es ==> v.seqno <= r
    ensures Shown(es, [], r) == es
  {
    if es != [] {
      assert es[0] in es;
      ShownAll(es[1..], r);
    }
  }

  // --------------------------------------------------------------- merging

  ghost function Above(V: set<Version>, key: Blob): set<Version> {
    set v | v in V && Less(key, v.key)
  }

  ghost predicate Bounded(V: set<Version>, r: nat) {
    forall v :: v in V ==> v.seqno <= r
  }

  /** Keys of the removed part read as absent. */
  ghost predicate DeadOutside(V: set<Version>, left: set<Version>, r: nat) {
    forall v :: v in V && v !in left ==> Answer(V, v.key, r) == None
  }

  /** e is the newest version of the first live key. */
  ghost predicate FirstLive(V: set<Version>, e: Version, r: nat) {
    && Newest(V, e.key, r) == Some(e) && !e.deleted
    && forall v :: v in V && Less(v.key, e.key) ==> Answer(V, v.key, r) == None
  }

  lemma TakeFirst(V: set<Version>, left: set<Version>, e: Version, r: nat)
    requires Unique(V) && Bounded(V, r) && CM.Cut(V, left) && DeadOutside(V, left, r)
    requires e in left && forall v :: v in left ==> NotAfter(e, v)
    ensures forall v :: v in left ==> Leq(e.key, v.key)
    ensures CM.Cut(V, NotOfKey(left, e.key))
    ensures e.deleted ==> DeadOutside(V, NotOfKey(left, e.key), r)
    ensures !e.deleted ==> FirstLive(V, e, r) && NotOfKey(left, e.key) == Above(V, e.key)
  {
    CM.CutNext(V, left, e);
    assert IsNewest(V, e.key, r, e) by {
      forall w | w in V && Visible(w, e.key, r) ensures w.seqno <= e.seqno {
        assert w in OfKey(V, e.key);
        LessIrreflexive(e.key);
      }
    }
    NewestIs(V, e.key, r, e);
    forall v | v in V ensures Less(v.key, e.key) ==> v !in left {
      Order(v.key, e.key, v.key);
    }
    forall v | v in V ensures Less(e.key, v.key) ==> v in left {
      Order(v.key, e.key, v.key);
    }
    LessIrreflexive(e.key);
  }

  /** What the sources show from a key on. */
  ghost function View(sources: Lists, target: Blob, r: nat): set<Version> {
    set v | v in Union(sources) && !Passed(v, target, r)
  }

  function ShownLists(sources: Lists, target: Blob, r: nat): Lists {
    seq(|sources|, i requires 0 <= i < |sources| => Shown(sources[i], target, r))
  }

  lemma ShownUnion(sources: Lists, target: Blob, r: nat)
    requires AllSorted(sources)
    ensures AllSorted(ShownLists(sources, target, r)) && Union(ShownLists(sources, target, r)) == View(sources, target, r)
  {
    hide Sorted, Shown;
    var ls := ShownLists(sources, target, r);
    forall i | 0 <= i < |ls| ensures Sorted(ls[i]) && forall v :: v in ls[i] <==> v in sources[i] && !Passed(v, target, r) {
      ShownSorted(sources[i], target, r);
    }
    forall v | v in View(sources, target, r) ensures v in Union(ls) {
      var i :| 0 <= i < |sources| && v in sources[i];
      assert v in ls[i];
    }
    forall v | v in Union(ls) ensures v in View(sources, target, r) {
      var i :| 0 <= i < |ls| && v in ls[i];
      assert v in sources[i];
    }
  }

  class Iterator {
    const sources: Lists
    const r: nat
    const kids: Children
    var current: Version
    var valid: bool
    ghost var view: set<Version>

    ghost predicate Valid()
      reads this, kids
    {
      && kids.Valid() && Unique(view) && Bounded(view, r)
      && (if valid then
            Newest(view, current.key, r) == Some(current) && !current.deleted && Union(kids.rest) == Above(view, current.key)
          else kids.ok ==> Union(kids.rest) == {})
    }

    /** Valid() of the code: there is an entry and no child has failed. */
    predicate Shows()
      reads this, kids
    {
      kids.ok && valid
    }

    constructor (sources: Lists, r: nat)
      requires AllSorted(sources) && Unique(Union(sources))
      ensures Valid() && !valid && this.sources == sources && this.r == r && fresh(kids)
    {
      this.sources, this.r := sources, r;
      valid, current, view := false, Version([], 0, [], true), {};
      kids := new Children([], []);
    }

    /** AdvanceToNextVisible: the first live key of what is left, if there is one; an error of a
        child ends the search. */
    method Advance()
      requires kids.Valid() && Unique(Union(kids.rest)) && Bounded(Union(kids.rest), r)
      modifies kids, this`valid, this`current
      ensures kids.Valid() && kids.fails == old(kids.fails) && |kids.rest| == old(|kids.rest|) && (kids.ok ==> old(kids.ok))
      ensures valid ==> FirstLive(old(Union(kids.rest)), current, r) && Union(kids.rest) == Above(old(Union(kids.rest)), current.key)
      ensures valid ==> Remaining(kids.rest) < old(Remaining(kids.rest))
      ensures !valid && kids.ok ==> DeadOutside(old(Union(kids.rest)), {}, r) && Union(kids.rest) == {}
    {
      hide Union, AllSorted, Unique, Remaining, CM.Cut, DeadOutside, FirstLive, NotOfKey, OfKey, NotAfter, Elems, AllStand;
      valid := false;
      ghost var V := Union(kids.rest);
      AtStart(V, r);
      while kids.ok && kids.heap != []
        invariant kids.Valid() && kids.fails == old(kids.fails) && |kids.rest| == old(|kids.rest|) && (kids.ok ==> old(kids.ok))
        invariant CM.Cut(V, Union(kids.rest)) && DeadOutside(V, Union(kids.rest), r) && !valid
        invariant Remaining(kids.rest) <= old(Remaining(kids.rest))
        decreases Remaining(kids.rest)
      {
        var p := kids.Top();
        var first := kids.rest[kids.heap[p]][0];
        HeadIn(kids.rest, kids.heap[p]);
        TakeFirst(V, Union(kids.rest), first, r);
        ghost var left := Union(kids.rest);
        var versions := kids.TakeKey(first.key);
        Taken(left, versions, first);
        if !first.deleted {
          current, valid := first, true;
          return;
        }
      }
      if kids.heap == [] {
        Exhausted(kids.rest);
      }
    }

    /** Every child goes to its first entry at or after the target, as far as it can be read. */
    method Seek(target: Blob, faults: Faults)
      requires AllSorted(sources) && Unique(Union(sources))
      modifies this, kids
      ensures Valid() && view == View(sources, target, r) && kids.fails == faults && |kids.rest| == |sources|
      ensures valid ==> forall v :: v in view && Less(v.key, current.key) ==> Answer(view, v.key, r) == None
      ensures !valid && kids.ok ==> forall v :: v in view ==> Answer(view, v.key, r) == None
    {
      hide Union, AllSorted, Shown, AllStand;
      ShownUnion(sources, target, r);
      kids.rest, kids.fails := ShownLists(sources, target, r), faults;
      kids.Rebuild();
      view := View(sources, target, r);
      Advance();
    }

    method SeekToFirst(faults: Faults)
      requires AllSorted(sources) && Unique(Union(sources))
      modifies this, kids
      ensures Valid() && view == View(sources, [], r)
      ensures valid ==> forall v :: v in view && Less(v.key, current.key) ==> Answer(view, v.key, r) == None
      ensures !valid && kids.ok ==> forall v :: v in view ==> Answer(view, v.key, r) == None
    {
      Seek([], faults);
    }

    /** The next live key, or the end if there is none, or an error. */
    method Next()
      requires Valid()
      modifies this, kids
      ensures Valid() && view == old(view) && kids.fails == old(kids.fails) && |kids.rest| == old(|kids.rest|)
      ensures !old(Shows()) ==> !Shows()
      ensures old(Shows()) && valid ==> Less(old(current).key, current.key) && Remaining(kids.rest) < old(Remaining(kids.rest))
      ensures old(Shows()) && (valid || kids.ok) ==>
                forall v :: v in view && Less(old(current).key, v.key) && (valid ==> Less(v.key, current.key)) ==> Answer(view, v.key, r) == None
    {
      if !kids.ok || !valid {
        return;
      }
      hide Union, AllSorted, Remaining, AllStand;
      ghost var key := current.key;
      AboveSame(view, key, r);
      Advance();
      if valid {
        NextKey(view, key, current, r);
      }
    }

    /** A loop over the iterator sees exactly the live keys from the target on, or, if a child
        fails on the way, exactly those up to the last one it saw; none is skipped or wrong. */
    method Collect(target: Blob, faults: Faults) returns (out: seq<Version>, ok: bool)
      requires AllSorted(sources) && Unique(Union(sources))
      modifies this, kids
      ensures Increasing(out) && (ok <==> NoFaults(|sources|, faults))
      ensures forall v :: v in out ==> !v.deleted && Newest(Union(sources), v.key, r) == Some(v) && Leq(target, v.key)
      ensures forall k :: Leq(target, k) && Answer(Union(sources), k, r).Some? && (ok || (out != [] && Leq(k, out[|out| - 1].key))) ==>
                HasKey(out, k)
    {
      hide Union, AllSorted, Remaining, Children.Valid, Unique, Newest, View, Collected, NoFaults, Prefixed;
      out := [];
      Seek(target, faults);
      CollectStart(view, r);
      while kids.ok && valid
        invariant Valid() && view == View(sources, target, r) && Collected(view, out, r) && Prefixed(view, out, r)
        invariant kids.fails == faults && |kids.rest| == |sources|
        invariant valid && kids.ok ==> UpTo(view, out, current.key, r)
        invariant !valid && kids.ok ==> UpToEnd(view, out, r)
        decreases Shows(), Remaining(kids.rest)
      {
        ghost var e := current;
        CollectMore(view, out, e, r);
        var was := out;
        out := out + [current];
        Next();
        if valid {
          CollectNext(view, was, e, current.key, r);
        } else if kids.ok {
          CollectEnd(view, was, e, r);
        }
      }
      ok := kids.ok;
      FaultsSeen(kids);
      CollectDone(sources, out, target, r, ok);
      CollectedOrder(view, out, r);
    }
  }

  /** An error shows before the end exactly if there is one to meet. */
  lemma FaultsSeen(kids: Children)
    requires kids.Valid()
    ensures NoFaults(|kids.rest|, kids.fails) ==> kids.ok
    ensures Union(kids.rest) == {} && kids.ok ==> NoFaults(|kids.rest|, kids.fails)
  {
    hide AllStand, NoFaults, AllSorted, HeapOk;
    if NoFaults(|kids.rest|, kids.fails) {
      StandAll(kids.rest, kids.fails);
    }
    if Union(kids.rest) == {} {
      forall i | 0 <= i < |kids.rest| ensures kids.rest[i] == [] {
        if kids.rest[i] != [] {
          HeadIn(kids.rest, i);
        }
      }
      StandAtEnd(kids.rest, kids.fails);
    }
  }

  lemma CollectedOrder(V: set<Version>, out: seq<Version>, r: nat)
    requires Collected(V, out, r)
    ensures Increasing(out)
  {
  }

  lemma AtStart(V: set<Version>, r: nat)
    ensures CM.Cut(V, V) && DeadOutside(V, V, r)
  {
  }

  lemma Taken(left: set<Version>, versions: seq<Version>, first: Version)
    requires first in left && Elems(versions) == OfKey(left, first.key)
    ensures versions != []
  {
    assert first in OfKey(left, first.key);
  }

  /** Above a key, nothing has changed. */
  lemma AboveSame(V: set<Version>, key: Blob, r: nat)
    requires Unique(V)
    ensures Unique(Above(V, key))
    ensures forall k :: Less(key, k) ==> Newest(Above(V, key), k, r) == Newest(V, k, r)
  {
    forall k | Less(key, k) ensures Newest(Above(V, key), k, r) == Newest(V, k, r) {
      NewestMeaning(V, k, r);
      NewestMeaning(Above(V, key), k, r);
      if Newest(V, k, r).Some? {
        assert IsNewest(Above(V, key), k, r, Newest(V, k, r).value);
        NewestIs(Above(V, key), k, r, Newest(V, k, r).value);
      }
    }
  }

  lemma NextKey(V: set<Version>, key: Blob, e: Version, r: nat)
    requires FirstLive(Above(V, key), e, r)
    ensures Less(key, e.key) && Above(Above(V, key), e.key) == Above(V, e.key)
  {
    NewestMeaning(Above(V, key), e.key, r);
    forall v | v in Above(V, e.key) ensures v in Above(V, key) {
      Order(key, e.key, v.key);
    }
  }

  ghost predicate HasKey(out: seq<Version>, k: Blob) {
    exists i :: 0 <= i < |out| && out[i].key == k
  }

  predicate Increasing(out: seq<Version>) {
    forall i, j :: 0 <= i < j < |out| ==> Less(out[i].key, out[j].key)
  }

  ghost predicate Collected(V: set<Version>, out: seq<Version>, r: nat) {
    Increasing(out) && forall i :: 0 <= i < |out| ==> !out[i].deleted && Newest(V, out[i].key, r) == Some(out[i])
  }

  /** All live keys below the given one, and only those, have been collected. */
  ghost predicate UpTo(V: set<Version>, out: seq<Version>, key: Blob, r: nat) {
    && (forall i :: 0 <= i < |out| ==> Less(out[i].key, key))
    && forall v :: v in V && Less(v.key, key) && Answer(V, v.key, r).Some? ==> HasKey(out, v.key)
  }

  ghost predicate UpToEnd(V: set<Version>, out: seq<Version>, r: nat) {
    forall v :: v in V && Answer(V, v.key, r).Some? ==> HasKey(out, v.key)
  }

  /** All live keys up to the last collected one have been collected. */
  ghost predicate Prefixed(V: set<Version>, out: seq<Version>, r: nat) {
    forall v :: v in V && Answer(V, v.key, r).Some? && out != [] && Leq(v.key, out[|out| - 1].key) ==> HasKey(out, v.key)
  }

  lemma CollectMore(V: set<Version>, out: seq<Version>, e: Version, r: nat)
    requires Collected(V, out, r) && UpTo(V, out, e.key, r) && Newest(V, e.key, r) == Some(e) && !e.deleted
    ensures Collected(V, out + [e], r) && Prefixed(V, out + [e], r)
  {
    forall v | v in V && Answer(V, v.key, r).Some? && Leq(v.key, e.key) ensures HasKey(out + [e], v.key) {
      Order(v.key, e.key, v.key);
      HasMore(out, e, v.key);
    }
  }

  lemma HasMore(out: seq<Version>, e: Version, k: Blob)
    requires HasKey(out, k) || k == e.key
    ensures HasKey(out + [e], k)
  {
    if HasKey(out, k) {
      var i :| 0 <= i < |out| && out[i].key == k;
      assert (out + [e])[i].key == k;
    } else {
      assert (out + [e])[|out|].key == k;
    }
  }

  lemma CollectNext(V: set<Version>, out: seq<Version>, e: Version, next: Blob, r: nat)
    requires UpTo(V, out, e.key, r) && Less(e.key, next)
    requires forall v :: v in V && Less(e.key, v.key) && Less(v.key, next) ==> Answer(V, v.key, r) == None
    ensures UpTo(V, out + [e], next, r)
  {
    forall i | 0 <= i < |out + [e]| ensures Less((out + [e])[i].key, next) {
      if i < |out| {
        Order(out[i].key, e.key, next);
      }
    }
    forall v | v in V && Less(v.key, next) && Answer(V, v.key, r).Some? ensures HasKey(out + [e], v.key) {
      Order(v.key, e.key, v.key);
      HasMore(out, e, v.key);
    }
  }

  lemma CollectEnd(V: set<Version>, out: seq<Version>, e: Version, r: nat)
    requires UpTo(V, out, e.key, r) && forall v :: v in V && Less(e.key, v.key) ==> Answer(V, v.key, r) == None
    ensures UpToEnd(V, out + [e], r)
  {
    forall v | v in V && Answer(V, v.key, r).Some? ensures HasKey(out + [e], v.key) {
      Order(v.key, e.key, v.key);
      HasMore(out, e, v.key);
    }
  }

  lemma CollectStart(V: set<Version>, r: nat)
    ensures Collected(V, [], r) && Prefixed(V, [], r)
  {
  }

  lemma NotBefore(a: Blob, b: Blob)
    ensures (b != [] && Less(a, b)) <==> !Leq(b, a)
  {
    Order(a, b, a);
    LessEmpty(a);
  }

  /** From the target on, the view answers as all sources do. */
  lemma ViewAnswer(sources: Lists, target: Blob, r: nat, k: Blob)
    requires Unique(Union(sources)) && Leq(target, k)
    ensures Newest(View(sources, target, r), k, r) == Newest(Union(sources), k, r)
  {
    hide Union;
    var V, S := View(sources, target, r), Union(sources);
    NewestMeaning(V, k, r);
    NewestMeaning(S, k, r);
    NotBefore(k, target);
    if Newest(S, k, r).Some? {
      assert IsNewest(V, k, r, Newest(S, k, r).value);
      NewestIs(V, k, r, Newest(S, k, r).value);
    }
  }

  lemma CollectDone(sources: Lists, out: seq<Version>, target: Blob, r: nat, ok: bool)
    requires Unique(Union(sources))
    requires var V := View(sources, target, r); Collected(V, out, r) && Prefixed(V, out, r) && (ok ==> UpToEnd(V, out, r))
    ensures forall v :: v in out ==> !v.deleted && Newest(Union(sources), v.key, r) == Some(v) && Leq(target, v.key)
    ensures forall k :: Leq(target, k) && Answer(Union(sources), k, r).Some? && (ok || (out != [] && Leq(k, out[|out| - 1].key))) ==>
              HasKey(out, k)
  {
    hide Union;
    var V := View(sources, target, r);
    forall v | v in out ensures !v.deleted && Newest(Union(sources), v.key, r) == Some(v) && Leq(target, v.key) {
      var i :| 0 <= i < |out| && out[i] == v;
      NewestMeaning(V, v.key, r);
      NotBefore(v.key, target);
      ViewAnswer(sources, target, r, v.key);
    }
    forall k | Leq(target, k) && Answer(Union(sources), k, r).Some? && (ok || (out != [] && Leq(k, out[|out| - 1].key)))
      ensures HasKey(out, k)
    {
      ViewAnswer(sources, target, r, k);
      NewestMeaning(V, k, r);
      assert Newest(V, k, r).value in V;
    }
  }
}
