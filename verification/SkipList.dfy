/**
 The memtable's skip list, as linked nodes.  Node 0 is the head; the link of a node at
 a level goes to the next node that is higher than that level.
 */
module SkipList {
  import opened Bytes
  import opened Versions
  import opened Block
  import IK = InternalKey

  const MAX_LEVEL: nat := 12

  class Node {
    const internalKey: Blob
    var seqno: nat
    var value: Blob
    var deleted: bool
    var next: seq<Node?>

    constructor (internalKey: Blob, seqno: nat, value: Blob, deleted: bool, level: nat)
      ensures this.internalKey == internalKey && this.seqno == seqno && this.value == value && this.deleted == deleted
      ensures next == seq(level, _ => null)
    {
      this.internalKey, this.seqno, this.value, this.deleted := internalKey, seqno, value, deleted;
      next := seq(level, _ => null);
    }
  }

  // ------------------------------------------------------------- heights and links

  /** The first node after i that is higher than level l; |h| if there is none. */
  function NextIndex(h: seq<nat>, i: nat, l: nat): (k: nat)
    requires i < |h|
    ensures i < k <= |h| && (k < |h| ==> h[k] > l) && forall m :: i < m < k ==> h[m] <= l
    decreases |h| - i
  {
    if i + 1 == |h| || h[i + 1] > l then i + 1 else NextIndex(h, i + 1, l)
  }

  lemma NextIndexIs(h: seq<nat>, i: nat, l: nat, k: nat)
    requires i < |h| && i < k <= |h| && (k < |h| ==> h[k] > l) && forall m :: i < m < k ==> h[m] <= l
    ensures NextIndex(h, i, l) == k
  {
  }

  function InsertAt<T>(s: seq<T>, p: nat, x: T): (t: seq<T>)
    requires p <= |s|
    ensures |t| == |s| + 1 && t[p] == x
  {
    s[..p] + [x] + s[p..]
  }

  /** Where index i ends up when something is inserted at p. */
  function Shift(i: nat, p: nat): nat {
    if i < p then i else i + 1
  }

  lemma Inserted<T>(s: seq<T>, p: nat, x: T, i: nat)
    requires p <= |s| && i < |s|
    ensures InsertAt(s, p, x)[Shift(i, p)] == s[i]
  {
  }

  lemma InsertedAll<T>(s: seq<T>, p: nat, x: T)
    requires p <= |s|
    ensures var t := InsertAt(s, p, x);
            && (forall i :: 0 <= i < p ==> t[i] == s[i])
            && forall i :: p < i < |t| ==> t[i] == s[i - 1]
  {
  }

  /** A link is redirected to the new node exactly when it passes over its place. */
  lemma NextInserted(h: seq<nat>, p: nat, n: nat, i: nat, l: nat)
    requires 0 < p <= |h| && i < |h|
    ensures var t := InsertAt<nat>(h, p, n);
            NextIndex(t, Shift(i, p), l) ==
              if i < p <= NextIndex(h, i, l) && n > l then p else Shift(NextIndex(h, i, l), p)
  {
    hide InsertAt;
    InsertedAll<nat>(h, p, n);
    var t, k := InsertAt<nat>(h, p, n), NextIndex(h, i, l);
    if i < p <= k && n > l {
      NextIndexIs(t, i, l, p);
    } else {
      NextIndexIs(t, Shift(i, p), l, Shift(k, p));
    }
  }

  /** The new node takes over the link that passed over its place. */
  lemma NextOfNew(h: seq<nat>, p: nat, n: nat, i: nat, l: nat)
    requires 0 < p <= |h| && i < p <= NextIndex(h, i, l)
    ensures NextIndex(InsertAt<nat>(h, p, n), p, l) == NextIndex(h, i, l) + 1
  {
    InsertedAll<nat>(h, p, n);
    NextIndexIs(InsertAt<nat>(h, p, n), p, l, NextIndex(h, i, l) + 1);
  }

  function At(ns: seq<Node>, k: nat): Node? {
    if k < |ns| then ns[k] else null
  }

  type Links = seq<seq<Node?>>

  ghost function LinksOf(ns: seq<Node>): (ls: Links)
    reads ns`next
    ensures |ls| == |ns| && forall i :: 0 <= i < |ns| ==> ls[i] == ns[i].next
  {
    if ns == [] then [] else [ns[0].next] + LinksOf(ns[1..])
  }

  predicate Shaped(ls: Links, h: seq<nat>) {
    |ls| == |h| && forall i :: 0 <= i < |ls| ==> |ls[i]| == h[i]
  }

  ghost predicate LinkOk(ls: Links, ns: seq<Node>, h: seq<nat>, i: nat, l: nat)
    requires |ls| == |h| == |ns| && i < |ns|
  {
    l < h[i] ==> l < |ls[i]| && ls[i][l] == At(ns, NextIndex(h, i, l))
  }

  /** All links of one level. */
  ghost predicate LinksOk(ls: Links, ns: seq<Node>, h: seq<nat>, l: nat) {
    |ls| == |h| == |ns| && forall i :: 0 <= i < |ns| ==> LinkOk(ls, ns, h, i, l)
  }

  lemma AtShift(ns: seq<Node>, p: nat, node: Node, k: nat)
    requires p <= |ns|
    ensures At(InsertAt(ns, p, node), Shift(k, p)) == At(ns, k)
  {
  }

  /** The link of an old node: redirected if it passed over the place and the new node is
      high enough, and the same node as before otherwise. */
  lemma OldLink(ls: Links, ns: seq<Node>, h: seq<nat>, p: nat, l: nat, i: nat, node: Node, own: seq<Node?>)
    requires |ls| == |h| == |ns| && i < |ns| && 0 < p <= |ns| && LinkOk(ls, ns, h, i, l)
    requires !(i < p <= NextIndex(h, i, l) && l < |own|)
    ensures LinkOk(InsertAt(ls, p, own), InsertAt(ns, p, node), InsertAt<nat>(h, p, |own|), Shift(i, p), l)
  {
    hide NextIndex, InsertAt;
    Inserted(ls, p, own, i);
    Inserted<nat>(h, p, |own|, i);
    NextInserted(h, p, |own|, i, l);
    AtShift(ns, p, node, NextIndex(h, i, l));
  }

  lemma NewLinks(ls: Links, ns: seq<Node>, h: seq<nat>, p: nat, l: nat, q: nat, node: Node, own: seq<Node?>)
    requires Shaped(ls, h) && |ns| == |h| && q < |ns| && LinkOk(ls, ns, h, q, l) && 0 < p && l < |own|
    requires PrevAt(ns, h, p, l, ns[q], q)
    ensures var lt := InsertAt(ls[q := ls[q][l := node]], p, own[l := ls[q][l]]);
            var nt, ht := InsertAt(ns, p, node), InsertAt<nat>(h, p, |own|);
            LinkOk(lt, nt, ht, q, l) && LinkOk(lt, nt, ht, p, l)
  {
    hide NextIndex, InsertAt;
    var ms, mine := ls[q := ls[q][l := node]], own[l := ls[q][l]];
    Inserted(ms, p, mine, q);
    Inserted<nat>(h, p, |own|, q);
    NextInserted(h, p, |own|, q, l);
    NextOfNew(h, p, |own|, q, l);
    AtShift(ns, p, node, NextIndex(h, q, l));
  }

  /** Splicing a node in at one of its levels. */
  lemma SpliceLevel(ls: Links, ns: seq<Node>, h: seq<nat>, p: nat, l: nat, q: nat, node: Node, own: seq<Node?>)
    requires Shaped(ls, h) && LinksOk(ls, ns, h, l) && q < |ns| && 0 < p && PrevAt(ns, h, p, l, ns[q], q) && l < |own|
    ensures LinksOk(InsertAt(ls[q := ls[q][l := node]], p, own[l := ls[q][l]]),
                    InsertAt(ns, p, node), InsertAt<nat>(h, p, |own|), l)
  {
    hide NextIndex, InsertAt;
    var ms, mine := ls[q := ls[q][l := node]], own[l := ls[q][l]];
    var nt, ht, lt := InsertAt(ns, p, node), InsertAt<nat>(h, p, |own|), InsertAt(ms, p, mine);
    assert LinkOk(ls, ns, h, q, l);
    NewLinks(ls, ns, h, p, l, q, node, own);
    forall j | 0 <= j < |nt| ensures LinkOk(lt, nt, ht, j, l) {
      if j != p && j != q {
        var i := if j < p then j else j - 1;
        assert LinkOk(ls, ns, h, i, l) && j == Shift(i, p);
        Inserted<nat>(h, p, |own|, i);
        if l < h[i] {
          NotPrev(h, p, l, i, q);
          OldLink(ms, ns, h, p, l, i, node, mine);
        }
      }
    }
  }

  /** Only one node's link passes over a place. */
  lemma NotPrev(h: seq<nat>, p: nat, l: nat, i: nat, q: nat)
    requires i < |h| && q < p <= |h| && h[i] > l && h[q] > l && p <= NextIndex(h, q, l) && i != q
    ensures !(i < p <= NextIndex(h, i, l))
  {
  }

  /** A level the new node does not reach keeps its links. */
  lemma SpliceAbove(ls: Links, ns: seq<Node>, h: seq<nat>, p: nat, l: nat, node: Node, own: seq<Node?>)
    requires LinksOk(ls, ns, h, l) && 0 < p <= |ns| && |own| <= l
    ensures LinksOk(InsertAt(ls, p, own), InsertAt(ns, p, node), InsertAt<nat>(h, p, |own|), l)
  {
    hide NextIndex, InsertAt;
    var nt, ht, lt := InsertAt(ns, p, node), InsertAt<nat>(h, p, |own|), InsertAt(ls, p, own);
    forall j | 0 <= j < |nt| ensures LinkOk(lt, nt, ht, j, l) {
      if j != p {
        var i := if j < p then j else j - 1;
        assert LinkOk(ls, ns, h, i, l);
        OldLink(ls, ns, h, p, l, i, node, own);
      }
    }
  }

  /** Changing other levels of a link table does not matter. */
  lemma SameLevel(ls: Links, ms: Links, ns: seq<Node>, h: seq<nat>, l: nat)
    requires LinksOk(ls, ns, h, l) && |ms| == |ls|
    requires forall i :: 0 <= i < |ls| && l < h[i] ==> l < |ls[i]| && l < |ms[i]| && ms[i][l] == ls[i][l]
    ensures LinksOk(ms, ns, h, l)
  {
    hide NextIndex;
    forall i | 0 <= i < |ns| ensures LinkOk(ms, ns, h, i, l) {
      assert LinkOk(ls, ns, h, i, l);
    }
  }

  ghost predicate Distinct(ns: seq<Node>) {
    forall i, j :: 0 <= i < j < |ns| ==> ns[i] != ns[j]
  }

  /** Strictly increasing internal keys behind the head. */
  predicate Ascending(ns: seq<Node>) {
    forall i, j :: 0 < i < j < |ns| ==> Less(ns[i].internalKey, ns[j].internalKey)
  }

  predicate HeightsOk(h: seq<nat>, level: nat) {
    |h| >= 1 && 1 <= level <= MAX_LEVEL && h[0] == MAX_LEVEL && forall i :: 0 < i < |h| ==> 1 <= h[i] <= level
  }

  /** The nodes hold these versions. */
  ghost predicate Stores(ns: seq<Node>, es: seq<Version>)
    reads ns`seqno, ns`value, ns`deleted
  {
    && |ns| == |es| + 1
    && forall i :: 0 <= i < |es| ==>
         && IK.NulFree(es[i].key) && es[i].seqno <= IK.MAX_SEQUENCE
         && ns[i + 1].internalKey == IK.Encode(es[i].key, es[i].seqno)
         && ns[i + 1].seqno == es[i].seqno && ns[i + 1].value == es[i].value && ns[i + 1].deleted == es[i].deleted
  }

  /** Nodes below p are before the key, the others are not. */
  ghost predicate Splits(ns: seq<Node>, p: nat, key: Blob) {
    && 0 < p <= |ns|
    && (forall i :: 0 < i < p ==> Less(ns[i].internalKey, key))
    && forall i :: p <= i < |ns| ==> !Less(ns[i].internalKey, key)
  }

  /** The predecessor at a level: the last node below p that is higher than it. */
  ghost predicate PrevAt(ns: seq<Node>, h: seq<nat>, p: nat, l: nat, n: Node?, i: nat) {
    && |h| == |ns| && i < p <= |ns| && n == ns[i] && l < h[i] && p <= NextIndex(h, i, l)
  }

  class List {
    const head: Node
    var level: nat
    var size: nat
    ghost var nodes: seq<Node>
    ghost var heights: seq<nat>
    ghost var entries: seq<Version>

    ghost predicate Valid()
      reads this, nodes
    {
      && |nodes| == |heights| >= 1 && nodes[0] == head && Distinct(nodes) && Ascending(nodes)
      && HeightsOk(heights, level) && Shaped(LinksOf(nodes), heights) && From(LinksOf(nodes), nodes, heights, 0)
      && Stores(nodes, entries) && size == |entries|
    }

    constructor ()
      ensures Valid() && entries == [] && fresh(nodes)
    {
      head := new Node([], 0, [], false, MAX_LEVEL);
      level, size := 1, 0;
      nodes, heights, entries := [head], [MAX_LEVEL], [];
      new;
      assert |head.next| == MAX_LEVEL && forall l :: 0 <= l < MAX_LEVEL ==> head.next[l] == null;
    }

    /** Along one level, as far as the nodes are before the key. */
    method Walk(from: Node, l: nat, key: Blob, ghost c: nat, ghost p: nat) returns (n: Node, ghost d: nat)
      requires LinksOk(LinksOf(nodes), nodes, heights, l) && Splits(nodes, p, key)
      requires c < p && nodes[c] == from && l < heights[c]
      ensures c <= d && PrevAt(nodes, heights, p, l, n, d)
    {
      hide NextIndex;
      n, d := from, c;
      while n.next[l] != null && Less(n.next[l].internalKey, key)
        invariant c <= d < p && nodes[d] == n && l < heights[d] && LinkOk(LinksOf(nodes), nodes, heights, d, l)
        decreases p - d
      {
        n, d := n.next[l], NextIndex(heights, d, l);
      }
      assert LinkOk(LinksOf(nodes), nodes, heights, d, l);
    }

    /** FindGreaterOrEqual: the first node not before the key, and its predecessors. */
    method Find(key: Blob) returns (candidate: Node?, prev: seq<Node?>, ghost p: nat, ghost at: seq<nat>)
      requires Valid()
      ensures Splits(nodes, p, key) && candidate == At(nodes, p)
      ensures |prev| == |at| == MAX_LEVEL
      ensures forall l :: 0 <= l < level ==> PrevAt(nodes, heights, p, l, prev[l], at[l])
    {
      hide Stores, NextIndex, LinksOk, Splits, Distinct, Ascending, LinksOf, Shaped;
      p := Split(nodes, key);
      SplitsHead(nodes, p, key);
      prev, at := seq(MAX_LEVEL, _ => null), seq(MAX_LEVEL, _ => 0);
      var current := head;
      ghost var c: nat := 0;
      var i := level;
      while i > 0
        invariant 0 <= i <= level && |prev| == |at| == MAX_LEVEL
        invariant c < p && nodes[c] == current && i <= heights[c]
        invariant forall l :: i <= l < level ==> PrevAt(nodes, heights, p, l, prev[l], at[l])
        invariant i < level ==> at[i] == c
      {
        i := i - 1;
        current, c := Walk(current, i, key, c, p);
        prev, at := prev[i := current], at[i := c];
      }
      NextZero(nodes, heights, level, p, c);
      candidate := current.next[0];
    }

    /** Link the node in at each of its levels. */
    method Splice(node: Node, prev: seq<Node?>, ghost p: nat, ghost at: seq<nat>)
      requires node !in nodes && Distinct(nodes) && 0 < p <= |nodes|
      requires Shaped(LinksOf(nodes), heights) && From(LinksOf(nodes), nodes, heights, 0)
      requires |node.next| <= |prev| == |at|
      requires forall l :: 0 <= l < |node.next| ==> PrevAt(nodes, heights, p, l, prev[l], at[l])
      modifies node`next, nodes`next
      ensures |node.next| == old(|node.next|) && Shaped(LinksOf(nodes), heights)
      ensures From(InsertAt(LinksOf(nodes), p, node.next), InsertAt(nodes, p, node), InsertAt<nat>(heights, p, |node.next|), 0)
    {
      hide NextIndex, InsertAt, Below, From, LinksOk;
      ghost var n := |node.next|;
      NothingBelow(InsertAt(LinksOf(nodes), p, node.next), InsertAt(nodes, p, node), InsertAt<nat>(heights, p, n));
      for l := 0 to |node.next|
        invariant |node.next| == n && Shaped(LinksOf(nodes), heights) && From(LinksOf(nodes), nodes, heights, l)
        invariant Below(InsertAt(LinksOf(nodes), p, node.next), InsertAt(nodes, p, node), InsertAt<nat>(heights, p, n), l)
      {
        ghost var ls, own, q := LinksOf(nodes), node.next, at[l];
        SpliceRound(ls, nodes, heights, p, l, q, node, own);
        node.next := node.next[l := prev[l].next[l]];
        prev[l].next := prev[l].next[l := node];
        assert LinksOf(nodes) == ls[q := ls[q][l := node]];
      }
      SpliceRest(LinksOf(nodes), nodes, heights, p, node, node.next);
    }

    /** Above the current level the head is the predecessor. */
    method Raise(prev: seq<Node?>, newLevel: nat, ghost p: nat, ghost at: seq<nat>, ghost key: Blob)
      returns (raised: seq<Node?>, ghost places: seq<nat>)
      requires Valid() && Splits(nodes, p, key) && newLevel <= MAX_LEVEL == |prev| == |at|
      requires forall l :: 0 <= l < level ==> PrevAt(nodes, heights, p, l, prev[l], at[l])
      ensures |raised| == |places| == MAX_LEVEL
      ensures forall l :: 0 <= l < newLevel ==> PrevAt(nodes, heights, p, l, raised[l], places[l])
    {
      hide LinksOf, Stores, From, Ascending, PrevAt;
      raised, places := prev, at;
      var i := level;
      while i < newLevel
        invariant level <= i <= MAX_LEVEL == |raised| == |places|
        invariant forall l :: 0 <= l < i ==> PrevAt(nodes, heights, p, l, raised[l], places[l])
      {
        HeadPrev(nodes, heights, level, p, i, key);
        raised, places := raised[i := head], places[i := 0];
        i := i + 1;
      }
    }

    /** The same key and sequence again: the value changes in place. */
    method Overwrite(node: Node, value: Blob, deleted: bool, ghost p: nat)
      requires Valid() && 0 < p < |nodes| && nodes[p] == node
      modifies node`value, node`deleted, this`entries
      ensures Valid() && entries == old(entries)[p - 1 := old(entries)[p - 1].(value := value, deleted := deleted)]
    {
      hide LinksOf, IK.Encode, From, Ascending, Shaped, HeightsOk;
      node.value, node.deleted := value, deleted;
      entries := entries[p - 1 := entries[p - 1].(value := value, deleted := deleted)];
    }

    /** Add a new node at its place. */
    method Add(node: Node, prev: seq<Node?>, ghost p: nat, ghost at: seq<nat>, ghost v: Version)
      requires Valid() && node !in nodes && 1 <= |node.next| <= MAX_LEVEL == |prev| == |at|
      requires Splits(nodes, p, node.internalKey) && (p < |nodes| ==> nodes[p].internalKey != node.internalKey)
      requires forall l :: 0 <= l < |node.next| ==> PrevAt(nodes, heights, p, l, prev[l], at[l])
      requires IK.NulFree(v.key) && v.seqno <= IK.MAX_SEQUENCE && node.internalKey == IK.Encode(v.key, v.seqno)
      requires node.seqno == v.seqno && node.value == v.value && node.deleted == v.deleted
      modifies this, nodes`next, node`next
      ensures Valid() && 0 < p <= |old(entries)| + 1
      ensures nodes == InsertAt(old(nodes), p, node) && entries == InsertAt(old(entries), p - 1, v)
    {
      hide NextIndex, InsertAt, LinksOk, From, LinksOf, Stores, Distinct, HeightsOk, Ascending, Splits, IK.Encode, PrevAt, Shaped;
      var newLevel := |node.next|;
      SplitsHead(nodes, p, node.internalKey);
      StoresSize(nodes, entries);
      Splice(node, prev, p, at);
      NodesInserted(nodes, p, node);
      LinksInserted(nodes, p, node);
      HeightsInserted(heights, level, p, newLevel);
      ShapedInserted(LinksOf(nodes), heights, p, node.next);
      StoresInserted(nodes, entries, p, node, v);
      nodes, heights, entries := InsertAt(nodes, p, node), InsertAt<nat>(heights, p, newLevel), InsertAt(entries, p - 1, v);
      level, size := if newLevel > level then newLevel else level, size + 1;
    }

    /** Insert with any choice of level: the version goes to its place, or replaces the
        one with the same key and sequence. */
    method Insert(key: Blob, seqno: nat, value: Blob, deleted: bool, newLevel: nat)
      requires Valid() && IK.NulFree(key) && seqno <= IK.MAX_SEQUENCE && 1 <= newLevel <= MAX_LEVEL
      modifies this, nodes
      ensures Valid() && forall n :: n in nodes ==> n in old(nodes) || fresh(n)
      ensures entries == Placed(old(entries), Version(key, seqno, value, deleted))
    {
      hide NextIndex, InsertAt, LinksOk, From, LinksOf, Stores, Distinct, HeightsOk, Ascending, Splits, Placed, IK.Encode, PrevAt, Shaped;
      ghost var v := Version(key, seqno, value, deleted);
      var internalKey := IK.Encode(key, seqno);
      var candidate, prev, p, at := Find(internalKey);
      PlacedHere(nodes, entries, v, p);
      if candidate != null && candidate.internalKey == internalKey {
        Overwrite(candidate, value, deleted, p);
        return;
      }
      prev, at := Raise(prev, newLevel, p, at, internalKey);
      var node := new Node(internalKey, seqno, value, deleted, newLevel);
      Add(node, prev, p, at, v);
      InsertMembers(old(nodes), p, node);
    }

    /** The entries are in key order, newest first within a key. */
    lemma EntriesSorted()
      requires Valid()
      ensures StrictlySorted(entries)
    {
      hide LinksOf, From, IK.Encode, IK.Before;
      forall i, j | 0 <= i < j < |entries| ensures IK.Before(entries[i].key, entries[i].seqno, entries[j].key, entries[j].seqno) {
        NodeOrder(nodes, entries, i, entries[j].key, entries[j].seqno);
      }
    }

    /** Get: the newest version of the key at or below the sequence. */
    method Get(key: Blob, r: nat) returns (found: Option<Version>)
      requires Valid() && IK.NulFree(key) && r <= IK.MAX_SEQUENCE
      ensures found == Block.Find(entries, key, r)
      ensures Unique(Elems(entries)) ==> found == Newest(Elems(entries), key, r)
    {
      hide LinksOf, From, IK.Encode, IK.Decode, Block.Find, Splits, Newest, Unique, IK.Before;
      var candidate, prev, p, at := Find(IK.Encode(key, r));
      EntriesSorted();
      SortedStrictly(entries);
      FoundHere(nodes, entries, p, key, r);
      if Unique(Elems(entries)) {
        FindIsNewest(entries, key, r);
      }
      if candidate == null {
        return None;
      }
      IK.DecodeEncode(entries[p - 1].key, entries[p - 1].seqno);
      var d := IK.Decode(candidate.internalKey);
      if d.NotInternal? || d.key != key || d.s > r {
        return None;
      }
      found := Some(Version(d.key, candidate.seqno, candidate.value, candidate.deleted));
    }

    /** Entries: all versions, along level 0. */
    method Entries() returns (es: seq<Version>)
      requires Valid()
      ensures es == entries
    {
      hide LinksOf, IK.Encode, IK.Decode;
      es := [];
      ghost var c: nat := 0;
      NextZero(nodes, heights, level, 1, 0);
      var node := head.next[0];
      while node != null
        invariant c <= |entries| && node == At(nodes, c + 1) && es == entries[..c]
        decreases |entries| - c
      {
        IK.DecodeEncode(entries[c].key, entries[c].seqno);
        var d := IK.Decode(node.internalKey);
        if d.Internal? {
          es := es + [Version(d.key, d.s, node.value, node.deleted)];
        }
        c := c + 1;
        NextZero(nodes, heights, level, c + 1, c);
        node := node.next[0];
      }
      assert entries[..|entries|] == entries;
    }
  }

  lemma SortedStrictly(es: seq<Version>)
    requires StrictlySorted(es)
    ensures Sorted(es)
  {
  }

  /** The first entry not before (key, r) decides a lookup. */
  lemma FoundHere(ns: seq<Node>, es: seq<Version>, p: nat, key: Blob, r: nat)
    requires Stores(ns, es) && Sorted(es) && IK.NulFree(key) && r <= IK.MAX_SEQUENCE && Splits(ns, p, IK.Encode(key, r))
    ensures 0 < p <= |ns| == |es| + 1
    ensures Block.Find(es, key, r) == if p < |ns| && Visible(es[p - 1], key, r) then Some(es[p - 1]) else None
  {
    hide Block.Find, IK.Encode, Sorted, IK.Before;
    if p > 1 {
      NodeOrder(ns, es, p - 2, key, r);
    }
    if p < |ns| {
      NodeOrder(ns, es, p - 1, key, r);
    }
    FindSplit(es, p - 1, key, r);
  }

  /** Putting a version in its place keeps the order and changes only that version. */
  lemma {:induction false} PlacedSet(es: seq<Version>, v: Version)
    requires StrictlySorted(es)
    ensures StrictlySorted(Placed(es, v))
    ensures forall w :: w in Placed(es, v) <==> w == v || (w in es && !(w.key == v.key && w.seqno == v.seqno))
  {
    if es != [] {
      var tail := es[1..];
      assert StrictlySorted(tail);
      assert forall w :: w in es <==> w == es[0] || w in tail;
      forall w | w in tail ensures IK.Before(es[0].key, es[0].seqno, w.key, w.seqno) {
        var i :| 0 <= i < |tail| && tail[i] == w;
        assert es[i + 1] == w;
      }
      BeforeAsymmetric(es[0], v);
      if IK.Before(v.key, v.seqno, es[0].key, es[0].seqno) {
        PlacedFirst(es, v);
      } else if es[0].key == v.key && es[0].seqno == v.seqno {
        PlacedOver(es, v);
      } else {
        PlacedSet(tail, v);
        PlacedRest(es[0], Placed(tail, v));
      }
    }
  }

  lemma PlacedFirst(es: seq<Version>, v: Version)
    requires StrictlySorted(es) && es != [] && IK.Before(v.key, v.seqno, es[0].key, es[0].seqno)
    ensures StrictlySorted([v] + es) && forall w :: w in es ==> !(w.key == v.key && w.seqno == v.seqno)
  {
    var t := [v] + es;
    forall i | 0 <= i < |es| ensures IK.Before(v.key, v.seqno, es[i].key, es[i].seqno) {
      Order(v.key, es[0].key, es[i].key);
    }
    forall w | w in es ensures !(w.key == v.key && w.seqno == v.seqno) {
      LessIrreflexive(v.key);
    }
  }

  lemma PlacedOver(es: seq<Version>, v: Version)
    requires StrictlySorted(es) && es != [] && es[0].key == v.key && es[0].seqno == v.seqno
    ensures StrictlySorted([v] + es[1..]) && forall w :: w in es[1..] ==> !(w.key == v.key && w.seqno == v.seqno)
  {
    LessIrreflexive(v.key);
    var t := [v] + es[1..];
    assert forall i :: 0 < i < |t| ==> t[i] == es[i];
  }

  lemma PlacedRest(e: Version, t: seq<Version>)
    requires StrictlySorted(t) && forall w :: w in t ==> IK.Before(e.key, e.seqno, w.key, w.seqno)
    ensures StrictlySorted([e] + t)
  {
  }

  /** Following the links of a level from node i. */
  function Chain(h: seq<nat>, i: nat, l: nat): seq<nat>
    requires i < |h|
    decreases |h| - i
  {
    var k := NextIndex(h, i, l);
    if k == |h| then [] else [k] + Chain(h, k, l)
  }

  /** A level visits exactly the nodes that reach it, in order; so each level is a
      sublist of the one below. */
  lemma {:induction false} ChainExact(h: seq<nat>, i: nat, l: nat)
    requires i < |h|
    ensures forall m :: m in Chain(h, i, l) <==> i < m < |h| && h[m] > l
    ensures forall a, b :: 0 <= a < b < |Chain(h, i, l)| ==> Chain(h, i, l)[a] < Chain(h, i, l)[b]
    decreases |h| - i
  {
    hide NextIndex;
    var k := NextIndex(h, i, l);
    if k < |h| {
      ChainExact(h, k, l);
      var c, all := Chain(h, k, l), Chain(h, i, l);
      forall a, b | 0 <= a < b < |all| ensures all[a] < all[b] {
        assert all[b] == c[b - 1] && c[b - 1] in c;
      }
    }
  }

  lemma StoresSize(ns: seq<Node>, es: seq<Version>)
    requires Stores(ns, es)
    ensures |ns| == |es| + 1
  {
  }

  lemma InsertMembers(ns: seq<Node>, p: nat, node: Node)
    requires p <= |ns|
    ensures forall n :: n in InsertAt(ns, p, node) ==> n in ns || n == node
  {
  }

  lemma SplitsHead(ns: seq<Node>, p: nat, key: Blob)
    requires Splits(ns, p, key)
    ensures 0 < p <= |ns|
  {
  }

  /** Every node is on level 0. */
  lemma NextZero(ns: seq<Node>, h: seq<nat>, level: nat, p: nat, c: nat)
    requires c < |ns| && HeightsOk(h, level) && LinksOk(LinksOf(ns), ns, h, 0) && PrevAt(ns, h, p, 0, ns[c], c)
    ensures |ns[c].next| > 0 && ns[c].next[0] == At(ns, p)
  {
    hide NextIndex, LinksOf;
    assert LinkOk(LinksOf(ns), ns, h, c, 0);
    NextIndexIs(h, c, 0, c + 1);
  }

  ghost predicate Below(ls: Links, ns: seq<Node>, h: seq<nat>, n: nat) {
    forall l :: 0 <= l < n ==> LinksOk(ls, ns, h, l)
  }

  ghost predicate From(ls: Links, ns: seq<Node>, h: seq<nat>, n: nat) {
    forall l :: n <= l ==> LinksOk(ls, ns, h, l)
  }

  lemma NothingBelow(ls: Links, ns: seq<Node>, h: seq<nat>)
    ensures Below(ls, ns, h, 0)
  {
  }

  lemma SpliceRest(ls: Links, ns: seq<Node>, h: seq<nat>, p: nat, node: Node, own: seq<Node?>)
    requires From(ls, ns, h, |own|) && 0 < p <= |ns| == |ls| == |h|
    requires Below(InsertAt(ls, p, own), InsertAt(ns, p, node), InsertAt<nat>(h, p, |own|), |own|)
    ensures From(InsertAt(ls, p, own), InsertAt(ns, p, node), InsertAt<nat>(h, p, |own|), 0)
  {
    hide LinksOk, InsertAt;
    forall l | 0 <= l ensures LinksOk(InsertAt(ls, p, own), InsertAt(ns, p, node), InsertAt<nat>(h, p, |own|), l) {
      if l >= |own| {
        assert LinksOk(ls, ns, h, l);
        SpliceAbove(ls, ns, h, p, l, node, own);
      }
    }
  }

  /** One round of splicing: level l is done, the others stay as they are. */
  lemma SpliceRound(ls: Links, ns: seq<Node>, h: seq<nat>, p: nat, l: nat, q: nat, node: Node, own: seq<Node?>)
    requires Shaped(ls, h) && From(ls, ns, h, l) && q < |ns| && 0 < p && PrevAt(ns, h, p, l, ns[q], q) && l < |own|
    requires Below(InsertAt(ls, p, own), InsertAt(ns, p, node), InsertAt<nat>(h, p, |own|), l)
    ensures var ms, mine := ls[q := ls[q][l := node]], own[l := ls[q][l]];
            && Shaped(ms, h) && From(ms, ns, h, l + 1)
            && Below(InsertAt(ms, p, mine), InsertAt(ns, p, node), InsertAt<nat>(h, p, |own|), l + 1)
  {
    hide NextIndex, InsertAt, LinksOk;
    var ms, mine := ls[q := ls[q][l := node]], own[l := ls[q][l]];
    var nt, ht := InsertAt(ns, p, node), InsertAt<nat>(h, p, |own|);
    assert LinksOk(ls, ns, h, l);
    SpliceLevel(ls, ns, h, p, l, q, node, own);
    forall k | l + 1 <= k ensures LinksOk(ms, ns, h, k) {
      assert LinksOk(ls, ns, h, k);
      SameLevel(ls, ms, ns, h, k);
    }
    forall k | 0 <= k < l ensures LinksOk(InsertAt(ms, p, mine), nt, ht, k) {
      assert LinksOk(InsertAt(ls, p, own), nt, ht, k);
      SameInserted(ls, ms, p, own, mine, h, k);
      SameLevel(InsertAt(ls, p, own), InsertAt(ms, p, mine), nt, ht, k);
    }
  }

  lemma SameInserted(ls: Links, ms: Links, p: nat, own: seq<Node?>, mine: seq<Node?>, h: seq<nat>, k: nat)
    requires |ls| == |ms| == |h| && p <= |ls| && |own| == |mine|
    requires forall i :: 0 <= i < |ls| && k < h[i] ==> k < |ls[i]| == |ms[i]| && ls[i][k] == ms[i][k]
    requires k < |own| ==> own[k] == mine[k]
    ensures var a, b, ht := InsertAt(ls, p, own), InsertAt(ms, p, mine), InsertAt<nat>(h, p, |own|);
            |a| == |b| && forall i :: 0 <= i < |a| && k < ht[i] ==> k < |b[i]| && k < |a[i]| && b[i][k] == a[i][k]
  {
    hide InsertAt;
    InsertedAll(ls, p, own);
    InsertedAll(ms, p, mine);
    InsertedAll<nat>(h, p, |own|);
  }

  // ------------------------------------------------------------------- the contents

  /** The sorted list with a version put in its place. */
  function Placed(es: seq<Version>, v: Version): seq<Version> {
    if es == [] || IK.Before(v.key, v.seqno, es[0].key, es[0].seqno) then [v] + es
    else if es[0].key == v.key && es[0].seqno == v.seqno then [v] + es[1..]
    else [es[0]] + Placed(es[1..], v)
  }

  predicate StrictlySorted(es: seq<Version>) {
    forall i, j :: 0 <= i < j < |es| ==> IK.Before(es[i].key, es[i].seqno, es[j].key, es[j].seqno)
  }

  lemma BeforeAsymmetric(a: Version, b: Version)
    ensures IK.Before(a.key, a.seqno, b.key, b.seqno) ==>
              !IK.Before(b.key, b.seqno, a.key, a.seqno) && !(a.key == b.key && a.seqno == b.seqno)
    ensures IK.Before(a.key, a.seqno, b.key, b.seqno) || IK.Before(b.key, b.seqno, a.key, a.seqno) || (a.key == b.key && a.seqno == b.seqno)
  {
    Order(a.key, b.key, a.key);
  }

  lemma InsertCons<T>(x: T, t: seq<T>, p: nat, v: T)
    requires p <= |t|
    ensures InsertAt([x] + t, p + 1, v) == [x] + InsertAt(t, p, v)
    ensures InsertAt(t, 0, v) == [v] + t
  {
    assert ([x] + t)[..p + 1] == [x] + t[..p] && ([x] + t)[p + 1..] == t[p..];
  }

  lemma PlacedCons(x: Version, t: seq<Version>, v: Version)
    ensures Placed([x] + t, v) ==
            if IK.Before(v.key, v.seqno, x.key, x.seqno) then [v] + ([x] + t)
            else if x.key == v.key && x.seqno == v.seqno then [v] + t
            else [x] + Placed(t, v)
  {
    assert ([x] + t)[1..] == t;
  }

  lemma {:induction false} PlacedAt(es: seq<Version>, v: Version, p: nat)
    requires p <= |es| && (forall i :: 0 <= i < p ==> IK.Before(es[i].key, es[i].seqno, v.key, v.seqno))
    requires p < |es| ==> !IK.Before(es[p].key, es[p].seqno, v.key, v.seqno)
    ensures Placed(es, v) == if p < |es| && es[p].key == v.key && es[p].seqno == v.seqno then es[p := v] else InsertAt(es, p, v)
    decreases |es|, 0
  {
    if es == [] {
      InsertCons(v, es, 0, v);
    } else {
      PlacedAtCons(es[0], es[1..], v, p);
      assert es == [es[0]] + es[1..];
    }
  }

  lemma UpdateCons<T>(x: T, t: seq<T>, p: nat, v: T)
    requires p < |t|
    ensures ([x] + t)[p + 1] == t[p] && ([x] + t)[p + 1 := v] == [x] + t[p := v]
  {
  }

  lemma {:induction false} PlacedAtCons(x: Version, t: seq<Version>, v: Version, p: nat)
    requires var es := [x] + t;
             && p <= |es| && (forall i :: 0 <= i < p ==> IK.Before(es[i].key, es[i].seqno, v.key, v.seqno))
             && (p < |es| ==> !IK.Before(es[p].key, es[p].seqno, v.key, v.seqno))
    ensures var es := [x] + t;
            Placed(es, v) == if p < |es| && es[p].key == v.key && es[p].seqno == v.seqno then es[p := v] else InsertAt(es, p, v)
    decreases |t|, 1
  {
    hide IK.Before, InsertAt, Placed;
    var es := [x] + t;
    PlacedCons(x, t, v);
    BeforeAsymmetric(x, v);
    if p > 0 {
      forall i | 0 <= i < p - 1 ensures IK.Before(t[i].key, t[i].seqno, v.key, v.seqno) {
        assert es[i + 1] == t[i];
      }
      assert es[0] == x;
      PlacedAt(t, v, p - 1);
      assert Placed(es, v) == [x] + Placed(t, v);
      InsertCons(x, t, p - 1, v);
      if p - 1 < |t| {
        UpdateCons(x, t, p - 1, v);
      }
    } else {
      assert es[0] == x;
      InsertCons(v, es, 0, v);
    }
  }

  lemma NodeOrder(ns: seq<Node>, es: seq<Version>, i: nat, key: Blob, s: nat)
    requires Stores(ns, es) && i < |es| && IK.NulFree(key) && s <= IK.MAX_SEQUENCE
    ensures Less(ns[i + 1].internalKey, IK.Encode(key, s)) <==> IK.Before(es[i].key, es[i].seqno, key, s)
    ensures ns[i + 1].internalKey == IK.Encode(key, s) <==> es[i].key == key && es[i].seqno == s
  {
    hide IK.Encode, IK.Decode, IK.Before;
    IK.OrderPreserved(es[i].key, es[i].seqno, key, s);
    IK.DecodeEncode(es[i].key, es[i].seqno);
    IK.DecodeEncode(key, s);
  }

  /** Where the nodes split is where the version goes. */
  lemma PlacedHere(ns: seq<Node>, es: seq<Version>, v: Version, p: nat)
    requires Stores(ns, es) && IK.NulFree(v.key) && v.seqno <= IK.MAX_SEQUENCE && Splits(ns, p, IK.Encode(v.key, v.seqno))
    ensures 0 < p <= |ns| == |es| + 1
    ensures Placed(es, v) == if p < |ns| && ns[p].internalKey == IK.Encode(v.key, v.seqno) then es[p - 1 := v] else InsertAt(es, p - 1, v)
    ensures p < |ns| && ns[p].internalKey == IK.Encode(v.key, v.seqno) ==> es[p - 1].key == v.key && es[p - 1].seqno == v.seqno
  {
    hide IK.Encode, IK.Before, Placed, InsertAt;
    forall i | 0 <= i < |es| ensures IK.Before(es[i].key, es[i].seqno, v.key, v.seqno) <==> i < p - 1 {
      NodeOrder(ns, es, i, v.key, v.seqno);
    }
    if p < |ns| {
      NodeOrder(ns, es, p - 1, v.key, v.seqno);
    }
    PlacedAt(es, v, p - 1);
  }

  /** Above the current level only the head has links. */
  lemma HeadPrev(ns: seq<Node>, h: seq<nat>, level: nat, p: nat, l: nat, key: Blob)
    requires |ns| == |h| && HeightsOk(h, level) && Splits(ns, p, key) && level <= l < MAX_LEVEL
    ensures PrevAt(ns, h, p, l, ns[0], 0)
  {
  }

  lemma NodesInserted(ns: seq<Node>, p: nat, node: Node)
    requires Distinct(ns) && Ascending(ns) && Splits(ns, p, node.internalKey) && node !in ns
    requires p < |ns| ==> ns[p].internalKey != node.internalKey
    ensures var t := InsertAt(ns, p, node); Distinct(t) && Ascending(t) && t[0] == ns[0]
  {
    hide InsertAt;
    var t, key := InsertAt(ns, p, node), node.internalKey;
    InsertedAll(ns, p, node);
    forall i | p <= i < |ns| ensures Less(key, ns[i].internalKey) {
      Order(ns[p].internalKey, key, key);
      Order(key, ns[p].internalKey, ns[i].internalKey);
    }
  }

  lemma LinksCons(x: Node, t: seq<Node>)
    ensures LinksOf([x] + t) == [x.next] + LinksOf(t)
  {
    assert ([x] + t)[1..] == t;
  }

  lemma {:induction false} LinksInserted(ns: seq<Node>, p: nat, node: Node)
    requires p <= |ns|
    ensures LinksOf(InsertAt(ns, p, node)) == InsertAt(LinksOf(ns), p, node.next)
  {
    hide LinksOf, InsertAt;
    if p == 0 {
      InsertCons(node, ns, 0, node);
      InsertCons(node.next, LinksOf(ns), 0, node.next);
      LinksCons(node, ns);
    } else {
      var x, t := ns[0], ns[1..];
      assert ns == [x] + t;
      LinksInserted(t, p - 1, node);
      InsertCons(x, t, p - 1, node);
      LinksCons(x, t);
      LinksCons(x, InsertAt(t, p - 1, node));
      InsertCons(x.next, LinksOf(t), p - 1, node.next);
    }
  }

  lemma HeightsInserted(h: seq<nat>, level: nat, p: nat, n: nat)
    requires HeightsOk(h, level) && 0 < p <= |h| && 1 <= n <= MAX_LEVEL
    ensures HeightsOk(InsertAt<nat>(h, p, n), if n > level then n else level)
  {
    hide InsertAt;
    InsertedAll<nat>(h, p, n);
  }

  lemma ShapedInserted(ls: Links, h: seq<nat>, p: nat, own: seq<Node?>)
    requires Shaped(ls, h) && p <= |h|
    ensures Shaped(InsertAt(ls, p, own), InsertAt<nat>(h, p, |own|))
  {
    hide InsertAt;
    InsertedAll(ls, p, own);
    InsertedAll<nat>(h, p, |own|);
  }

  lemma StoresInserted(ns: seq<Node>, es: seq<Version>, p: nat, node: Node, v: Version)
    requires Stores(ns, es) && 0 < p <= |ns| && IK.NulFree(v.key) && v.seqno <= IK.MAX_SEQUENCE
    requires node.internalKey == IK.Encode(v.key, v.seqno) && node.seqno == v.seqno && node.value == v.value && node.deleted == v.deleted
    ensures Stores(InsertAt(ns, p, node), InsertAt(es, p - 1, v))
  {
    hide InsertAt, IK.Encode;
    InsertedAll(ns, p, node);
    InsertedAll(es, p - 1, v);
  }

  /** Where a key splits the nodes. */
  ghost method Split(ns: seq<Node>, key: Blob) returns (p: nat)
    requires |ns| >= 1 && Ascending(ns)
    ensures Splits(ns, p, key)
  {
    p := 1;
    while p < |ns| && Less(ns[p].internalKey, key)
      invariant 0 < p <= |ns| && forall i :: 0 < i < p ==> Less(ns[i].internalKey, key)
    {
      p := p + 1;
    }
    forall i | p < i < |ns| ensures !Less(ns[i].internalKey, key) {
      Order(ns[p].internalKey, ns[i].internalKey, key);
    }
  }
}
