/**
 The durable side of the engine: manifest edits and their records, write-ahead
 log files, table files, and what it means for an edit to be a good place to
 recover from.
 */
module Store {
  import opened Bytes
  import opened Versions

  /** SSTableMeta: an empty bound means the table holds no key. */
  datatype Meta = Meta(level: nat, smallest: Blob, largest: Blob, size: nat)

  type Files = map<nat, Meta>
  type Data = map<nat, set<Version>>
  type Wals = map<nat, seq<Batch>>

  datatype Edit = Edit(next: nat, wal: nat, last: nat, files: Files)

  /** One manifest record: the scalars of an edit and the difference in files. */
  datatype Rec = Rec(next: nat, wal: nat, last: nat, dels: set<nat>, adds: Files)

  function Diff(persisted: Edit, e: Edit): Rec {
    Rec(e.next, e.wal, e.last, persisted.files.Keys - e.files.Keys, e.files - persisted.files.Keys)
  }

  function ApplyRec(e: Edit, r: Rec): Edit {
    Edit(r.next, r.wal, r.last, (e.files - r.dels) + r.adds)
  }

  function Replay(log: seq<Rec>): Edit {
    if log == [] then Edit(1, 1, 0, map[])
    else ApplyRec(Replay(log[..|log| - 1]), log[|log| - 1])
  }

  // ------------------------------------------------------------------ key ranges

  predicate EmptyRange(m: Meta) {
    m.smallest == [] || m.largest == []
  }

  predicate RangesOverlap(a: Meta, b: Meta) {
    EmptyRange(a) || EmptyRange(b) || (Leq(a.smallest, b.largest) && Leq(b.smallest, a.largest))
  }

  predicate InRange(m: Meta, k: Blob) {
    !EmptyRange(m) && Leq(m.smallest, k) && Leq(k, m.largest)
  }

  /** Metadata as written for a table of these contents: its exact key range. */
  ghost predicate MetaFor(m: Meta, level: nat, contents: set<Version>) {
    && m.level == level
    && (forall v :: v in contents ==> InRange(m, v.key))
    && (!EmptyRange(m) ==> exists v :: v in contents && v.key == m.smallest)
    && (!EmptyRange(m) ==> exists v :: v in contents && v.key == m.largest)
  }

  ghost predicate Covers(files: Files, data: Data) {
    forall n, v :: n in files && n in data && v in data[n] ==> InRange(files[n], v.key)
  }

  ghost predicate DisjointRanges(a: Meta, b: Meta) {
    forall k :: InRange(a, k) ==> !InRange(b, k)
  }

  /** Levels 0 to 2; from level 1 on, no key lies in two ranges of one level. */
  ghost predicate Levelled(files: Files) {
    && (forall n :: n in files ==> files[n].level <= 2)
    && (forall n, m :: n in files && m in files && n != m && files[n].level == files[m].level >= 1 ==>
          DisjointRanges(files[n], files[m]))
  }

  // --------------------------------------------------------------- version sets

  /** All versions held by the tables with these numbers. */
  function Tables(ns: set<nat>, data: Data): set<Version> {
    set n, v | n in ns && n in data && v in data[n] :: v
  }

  /** All versions in log files numbered lo or higher. */
  function WalSet(wals: Wals, lo: nat): set<Version> {
    set w, i, v | w in wals && w >= lo && 0 <= i < |wals[w]| && v in BatchSet(wals[w][i]) :: v
  }

  ghost predicate WalsOrdered(wals: Wals, last: nat) {
    && (forall w, i :: w in wals && 0 <= i < |wals[w]| ==>
          wals[w][i].first >= 1 && wals[w][i].ops != [] && BatchLast(wals[w][i]) <= last)
    && (forall w, i, w', j | w in wals && w' in wals && 0 <= i < |wals[w]| && 0 <= j < |wals[w']| ::
          w < w' || (w == w' && i < j) ==> BatchLast(wals[w][i]) < wals[w'][j].first)
  }

  /** Tables and live log files of an edit together answer like the history. */
  ghost predicate Complete(e: Edit, H: set<Version>, last: nat, wals: Wals, data: Data) {
    && SuffixOf(WalSet(wals, e.wal), H)
    && Agree(Tables(e.files.Keys, data) + WalSet(wals, e.wal), H, last)
    && (forall v :: v in H ==> v.seqno <= e.last || v in WalSet(wals, e.wal))
  }

  ghost predicate FilesIn(e: Edit, H: set<Version>, data: Data) {
    && e.files.Keys <= data.Keys
    && forall n :: n in e.files ==> data[n] <= H && AllUpTo(data[n], e.last)
  }

  /** An edit from which recovery reproduces the history. */
  ghost predicate Good(e: Edit, H: set<Version>, last: nat, wals: Wals, data: Data) {
    && 1 <= e.wal < e.next && e.last <= last
    && FilesIn(e, H, data)
    && Covers(e.files, data) && Levelled(e.files)
    && Complete(e, H, last, wals, data)
  }

  // -------------------------------------------------------------------- lemmas

  lemma ReplaySnoc(log: seq<Rec>, r: Rec)
    ensures Replay(log + [r]) == ApplyRec(Replay(log), r)
  {
    assert (log + [r])[..|log|] == log;
  }

  /** A record says only which files came and went: it leads from one edit to the other
      exactly when no file that stays changes its metadata. */
  lemma ApplyDiff(p: Edit, e: Edit)
    ensures ApplyRec(p, Diff(p, e)) == e <==> forall n :: n in p.files && n in e.files ==> p.files[n] == e.files[n]
  {
    var r := ApplyRec(p, Diff(p, e));
    assert r.files.Keys == e.files.Keys;
    forall n | n in e.files ensures r.files[n] == if n in p.files then p.files[n] else e.files[n] {
    }
  }

  lemma AgreeRaise(S: set<Version>, T: set<Version>, f: nat, g: nat)
    requires Agree(S, T, f) && f <= g
    ensures Agree(S, T, g)
  {
    forall k, r | r >= g ensures Answer(S, k, r) == Answer(T, k, r) {
      assert Answer(S, k, r) == Answer(T, k, r);
    }
  }

  lemma WalSetAppend(wals: Wals, w: nat, b: Batch, lo: nat)
    requires w in wals && lo <= w
    ensures WalSet(wals[w := wals[w] + [b]], lo) == WalSet(wals, lo) + BatchSet(b)
  {
    var wals' := wals[w := wals[w] + [b]];
    forall v | v in WalSet(wals', lo) ensures v in WalSet(wals, lo) + BatchSet(b) {
      var x, i :| x in wals' && x >= lo && 0 <= i < |wals'[x]| && v in BatchSet(wals'[x][i]);
      if !(x == w && i == |wals[w]|) {
        assert wals'[x][i] == wals[x][i];
      }
    }
    forall v | v in WalSet(wals, lo) ensures v in WalSet(wals', lo) {
      var x, i :| x in wals && x >= lo && 0 <= i < |wals[x]| && v in BatchSet(wals[x][i]);
      assert wals'[x][i] == wals[x][i];
    }
    forall v | v in BatchSet(b) ensures v in WalSet(wals', lo) {
      assert wals'[w][|wals[w]|] == b;
    }
  }

  /** Files below lo, and empty files, do not matter to WalSet. */
  lemma WalSetSame(wals: Wals, wals': Wals, lo: nat)
    requires forall w :: w >= lo && w in wals && wals[w] != [] ==> w in wals' && wals'[w] == wals[w]
    requires forall w :: w >= lo && w in wals' && wals'[w] != [] ==> w in wals && wals'[w] == wals[w]
    ensures WalSet(wals, lo) == WalSet(wals', lo)
  {
    forall v | v in WalSet(wals, lo) ensures v in WalSet(wals', lo) {
      var x, i :| x in wals && x >= lo && 0 <= i < |wals[x]| && v in BatchSet(wals[x][i]);
      assert wals'[x][i] == wals[x][i];
    }
    forall v | v in WalSet(wals', lo) ensures v in WalSet(wals, lo) {
      var x, i :| x in wals' && x >= lo && 0 <= i < |wals'[x]| && v in BatchSet(wals'[x][i]);
      assert wals'[x][i] == wals[x][i];
    }
  }

  lemma WalSetMonotone(wals: Wals, lo: nat, hi: nat)
    requires lo <= hi
    ensures WalSet(wals, hi) <= WalSet(wals, lo)
  {
  }

  lemma TablesSame(ns: set<nat>, data: Data, data': Data)
    requires forall n :: n in ns ==> (n in data <==> n in data') && (n in data ==> data[n] == data'[n])
    ensures Tables(ns, data) == Tables(ns, data')
  {
  }

  lemma TablesAdd(ns: set<nat>, n: nat, data: Data)
    requires n in data
    ensures Tables(ns + {n}, data) == Tables(ns, data) + data[n]
  {
  }

  lemma TablesSplit(ns: set<nat>, ms: set<nat>, data: Data)
    ensures Tables(ns + ms, data) == Tables(ns, data) + Tables(ms, data)
  {
  }

  /** A committed batch keeps every good edit good. */
  lemma GoodWrite(e: Edit, H: set<Version>, last: nat, wals: Wals, data: Data, w: nat, b: Batch)
    requires Good(e, H, last, wals, data) && e.wal <= w && w in wals
    requires b.first == last + 1 && b.ops != [] && AllUpTo(H, last)
    requires Unique(H + BatchSet(b))
    ensures Good(e, H + BatchSet(b), BatchLast(b), wals[w := wals[w] + [b]], data)
  {
    hide Agree, Levelled, Covers, Unique, WalSet, Tables;
    var B := BatchSet(b);
    var T, X := Tables(e.files.Keys, data), WalSet(wals, e.wal);
    WalSetAppend(wals, w, b, e.wal);
    assert AllAbove(B, last);
    TablesWithin(e, H, data);
    UniqueSubset(T + X + B, H + B);
    AgreeAddNewer(T + X, H, B, last, last);
    assert (T + X) + B == T + (X + B);
    AgreeRaise(T + (X + B), H + B, last, BatchLast(b));
    SuffixGrow(X, H, B, last);
  }

  lemma UniqueSubset(S: set<Version>, T: set<Version>)
    requires S <= T && Unique(T)
    ensures Unique(S)
  {
  }

  lemma TablesWithin(e: Edit, H: set<Version>, data: Data)
    requires FilesIn(e, H, data)
    ensures Tables(e.files.Keys, data) <= H
  {
  }

  lemma SuffixGrow(X: set<Version>, H: set<Version>, B: set<Version>, last: nat)
    requires SuffixOf(X, H) && AllUpTo(H, last) && AllAbove(B, last)
    ensures SuffixOf(X + B, H + B)
  {
  }

  /** Creating or removing a table file an edit does not name, emptying or
      removing log files below its log number. */
  lemma GoodFrame(e: Edit, H: set<Version>, last: nat, wals: Wals, data: Data, wals': Wals, data': Data)
    requires Good(e, H, last, wals, data)
    requires forall n :: n in e.files ==> n in data' && data'[n] == data[n]
    requires forall w :: w >= e.wal && w in wals && wals[w] != [] ==> w in wals' && wals'[w] == wals[w]
    requires forall w :: w >= e.wal && w in wals' && wals'[w] != [] ==> w in wals && wals'[w] == wals[w]
    ensures Good(e, H, last, wals', data')
  {
    WalSetSame(wals, wals', e.wal);
    TablesSame(e.files.Keys, data, data');
  }

  /** A record that changes scalars only, with a log number that is not newer. */
  lemma GoodScalars(e: Edit, H: set<Version>, last: nat, wals: Wals, data: Data, next: nat, wal: nat)
    requires Good(e, H, last, wals, data) && Unique(H) && AllUpTo(H, last)
    requires 1 <= wal < next && wal <= e.wal && SuffixOf(WalSet(wals, wal), H)
    ensures Good(Edit(next, wal, last, e.files), H, last, wals, data)
  {
    var T, X, Y := Tables(e.files.Keys, data), WalSet(wals, e.wal), WalSet(wals, wal);
    TablesWithin(e, H, data);
    WalSetMonotone(wals, wal, e.wal);
    AgreeAddSuffix(T + X, Y, H, last);
    assert T + X + Y == T + Y;
  }
}
