/**
 Compaction and flush as changes of an edit.  `Retain` is what the merge loop
 keeps; the lemmas say that publishing it, over whatever tables and memtables
 there are by then, changes no answer a reader may still ask for, and keeps the
 key ranges of each level disjoint.
 */
module Compaction {
  import opened Bytes
  import opened Versions
  import opened Store

  /** With no snapshot (m = 0) only the newest version of a key survives, and not
      even that one if it is a tombstone going to the last level.  With snapshots,
      everything above the oldest one and the version that one sees. */
  ghost predicate Keep(In: set<Version>, v: Version, m: nat, target: nat) {
    if m == 0 then
      && (forall w :: w in In && w.key == v.key ==> w.seqno <= v.seqno)
      && (!v.deleted || target < 2)
    else
      || v.seqno > m
      || forall w :: w in In && w.key == v.key && w.seqno <= m ==> w.seqno <= v.seqno
  }

  ghost function Retain(In: set<Version>, m: nat, target: nat): set<Version> {
    set v | v in In && Keep(In, v, m, target)
  }

  /** From this read sequence on a compaction must not change answers. */
  ghost predicate FloorFor(In: set<Version>, m: nat, f: nat) {
    if m == 0 then AllUpTo(In, f) else f >= m
  }

  /** Rest holds nothing older than a version of In unless it holds that version. */
  ghost predicate Shields(In: set<Version>, Rest: set<Version>) {
    forall t, w :: t in In && w in Rest && w.key == t.key && w.seqno < t.seqno ==> t in Rest
  }

  /** Every version of In that is not older than all of P is in P. */
  ghost predicate UpClosed(In: set<Version>, P: set<Version>) {
    forall t, w :: t in In && w in P && t.seqno >= w.seqno ==> t in P
  }

  lemma RetainNewest(In: set<Version>, m: nat, target: nat, f: nat, k: Blob, r: nat)
    requires Unique(In) && FloorFor(In, m, f) && r >= f
    ensures var a, b := Newest(Retain(In, m, target), k, r), Newest(In, k, r);
            a == b || (target >= 2 && a.None? && b.Some? && b.value.deleted)
  {
    var Out := Retain(In, m, target);
    NewestMeaning(In, k, r);
    NewestMeaning(Out, k, r);
    if Newest(In, k, r).Some? {
      var v := Newest(In, k, r).value;
      if v in Out {
        NewestOfSubset(Out, In, k, r);
      } else {
        assert m == 0 && v.deleted && target >= 2;
      }
    }
  }

  /** Replacing In by what compaction retains is invisible at and above f. */
  lemma CompactAgree(Rest: set<Version>, In: set<Version>, H: set<Version>, m: nat, target: nat, f: nat)
    requires Agree(Rest + In, H, f) && Unique(Rest + In) && FloorFor(In, m, f)
    requires target >= 2 ==> Shields(In, Rest)
    ensures Agree(Rest + Retain(In, m, target), H, f)
  {
    forall k, r | r >= f ensures Answer(Rest + Retain(In, m, target), k, r) == Answer(H, k, r) {
      CompactAnswer(Rest, In, m, target, f, k, r);
      assert Answer(Rest + In, k, r) == Answer(H, k, r);
    }
  }

  lemma CompactAnswer(Rest: set<Version>, In: set<Version>, m: nat, target: nat, f: nat, k: Blob, r: nat)
    requires Unique(Rest + In) && FloorFor(In, m, f) && r >= f
    requires target >= 2 ==> Shields(In, Rest)
    ensures Answer(Rest + Retain(In, m, target), k, r) == Answer(Rest + In, k, r)
  {
    var Out := Retain(In, m, target);
    RetainNewest(In, m, target, f, k, r);
    NewestMeaning(Rest + In, k, r);
    NewestMeaning(In, k, r);
    NewestMeaning(Out, k, r);
    NewestMeaning(Rest, k, r);
    var n := Newest(Rest + In, k, r);
    if n.Some? && n.value !in Rest + Out {
      var t := Newest(In, k, r).value;
      assert t.seqno == n.value.seqno && t == n.value;
      assert Newest(Out, k, r).None?;
      assert forall w :: w in Rest ==> !Visible(w, k, r);
      NewestMeaning(Rest + Out, k, r);
    } else {
      NewestOfSubset(Rest + Out, Rest + In, k, r);
    }
  }

  // -------------------------------------------------------------- compaction job

  /** What one compaction reads and where it writes.  [lo, hi] spans the ranges of
      the source level; inputs are all of that level and the overlapping tables of
      the target level. */
  datatype Job = Job(number: nat, inputs: set<nat>, target: nat, lo: Blob, hi: Blob,
                     minSnap: nat, floor: nat, output: set<Version>, built: bool)

  function Hull(j: Job): Meta {
    Meta(j.target, j.lo, j.hi, 0)
  }

  predicate Within(m: Meta, lo: Blob, hi: Blob) {
    !EmptyRange(m) ==> lo != [] && hi != [] && Leq(lo, m.smallest) && Leq(m.largest, hi)
  }

  /** The choice of inputs, as made under the lock from the live tables. */
  ghost predicate Selects(files: Files, j: Job) {
    && 1 <= j.target <= 2
    && (j.target == 2 ==> forall n :: n in files ==> files[n].level != 0)
    && (forall n :: n in files && files[n].level == j.target - 1 ==> Within(files[n], j.lo, j.hi))
    && (forall n :: n in j.inputs <==>
          n in files && (files[n].level == j.target - 1
                         || (files[n].level == j.target && RangesOverlap(files[n], Hull(j)))))
  }

  /** What stays true of a running job while flushes add level-0 tables. */
  ghost predicate Fits(files: Files, data: Data, j: Job) {
    && 1 <= j.target <= 2
    && j.inputs <= files.Keys
    && (forall n :: n in j.inputs ==>
          || (files[n].level == j.target - 1 && Within(files[n], j.lo, j.hi))
          || (files[n].level == j.target && RangesOverlap(files[n], Hull(j))))
    && (forall n :: n in files && n !in j.inputs ==>
          && (files[n].level == j.target ==> !RangesOverlap(files[n], Hull(j)))
          && (j.target == 2 ==> files[n].level != 1)
          && (j.target == 2 && files[n].level == 0 && n in data ==> UpClosed(Tables(j.inputs, data), data[n])))
  }

  lemma SelectsFits(files: Files, data: Data, j: Job)
    requires Selects(files, j)
    ensures Fits(files, data, j)
  {
  }

  lemma NotOverlapping(x: Meta, h: Meta, k: Blob)
    requires !RangesOverlap(x, h) && InRange(h, k)
    ensures !InRange(x, k)
  {
    if InRange(x, k) {
      LeqTrans(x.smallest, k, h.largest);
      LeqTrans(h.smallest, k, x.largest);
    }
  }

  lemma LeqTrans(a: Blob, b: Blob, c: Blob)
    requires Leq(a, b) && Leq(b, c)
    ensures Leq(a, c)
  {
    Order(a, b, c);
  }

  /** A key between an input's key and the hull is in the hull or in an input of the
      target level: the inputs leave no gap. */
  lemma NoGap(files: Files, j: Job, f: nat, a: Blob, g: nat, b: Blob, k: Blob) returns (n: nat)
    requires 1 <= j.target <= 2 && f in files && g in files && f in j.inputs && g in j.inputs
    requires forall n :: n in j.inputs && n in files ==>
               || (files[n].level == j.target - 1 && Within(files[n], j.lo, j.hi))
               || (files[n].level == j.target && RangesOverlap(files[n], Hull(j)))
    requires InRange(files[f], a) && InRange(files[g], b) && Leq(a, k) && Leq(k, b)
    requires !EmptyRange(Hull(j))
    ensures InRange(Hull(j), k) || (n in j.inputs && n in files && files[n].level == j.target && InRange(files[n], k))
  {
    n := f;
    LessTotal(j.lo, k);
    LessTotal(k, j.hi);
    if Less(k, j.lo) {
      LeqTrans(files[f].smallest, a, k);
      if Within(files[f], j.lo, j.hi) {
        LeqTrans(j.lo, files[f].smallest, k);
        Order(k, j.lo, k);
      } else {
        LeqTrans(k, j.lo, files[f].largest);
      }
    } else if Less(j.hi, k) {
      n := g;
      LeqTrans(k, b, files[g].largest);
      if Within(files[g], j.lo, j.hi) {
        LeqTrans(k, files[g].largest, j.hi);
        Order(k, j.hi, k);
      } else {
        LeqTrans(files[g].smallest, j.hi, k);
      }
    }
  }

  /** The output's range meets no other table of its level. */
  lemma OutputDisjoint(files: Files, data: Data, j: Job, meta: Meta, x: nat)
    requires Levelled(files) && Covers(files, data) && files.Keys <= data.Keys && Fits(files, data, j)
    requires j.output <= Tables(j.inputs, data) && MetaFor(meta, j.target, j.output)
    requires x in files && x !in j.inputs && files[x].level == j.target
    ensures DisjointRanges(meta, files[x]) && DisjointRanges(files[x], meta)
  {
    forall k | InRange(meta, k) ensures !InRange(files[x], k) {
      var va :| va in j.output && va.key == meta.smallest;
      var vb :| vb in j.output && vb.key == meta.largest;
      var f :| f in j.inputs && f in data && va in data[f];
      var g :| g in j.inputs && g in data && vb in data[g];
      assert InRange(files[f], va.key) && InRange(files[g], vb.key);
      var n := NoGap(files, j, f, va.key, g, vb.key, k);
      if InRange(Hull(j), k) {
        NotOverlapping(files[x], Hull(j), k);
      } else {
        assert DisjointRanges(files[n], files[x]);
      }
    }
  }

  function Published(files: Files, j: Job, meta: Meta): Files {
    (files - j.inputs)[j.number := meta]
  }

  lemma CompactLevelled(files: Files, data: Data, j: Job, meta: Meta)
    requires Levelled(files) && Covers(files, data) && files.Keys <= data.Keys && Fits(files, data, j)
    requires j.output <= Tables(j.inputs, data) && MetaFor(meta, j.target, j.output)
    ensures Levelled(Published(files, j, meta))
  {
    var files' := Published(files, j, meta);
    forall n, m | n in files' && m in files' && n != m && files'[n].level == files'[m].level >= 1
      ensures DisjointRanges(files'[n], files'[m])
    {
      if n == j.number {
        OutputDisjoint(files, data, j, meta, m);
      } else if m == j.number {
        OutputDisjoint(files, data, j, meta, n);
      }
    }
  }

  /** Tables outside the inputs do not hide older values behind a dropped tombstone. */
  lemma RestShields(files: Files, data: Data, j: Job)
    requires Levelled(files) && Covers(files, data) && files.Keys <= data.Keys && Fits(files, data, j)
    requires j.target == 2
    ensures Shields(Tables(j.inputs, data), Tables(files.Keys - j.inputs, data))
  {
    var In, Rest := Tables(j.inputs, data), Tables(files.Keys - j.inputs, data);
    forall t, w | t in In && w in Rest && w.key == t.key && w.seqno < t.seqno ensures t in Rest {
      var n :| n in files.Keys - j.inputs && n in data && w in data[n];
      var f :| f in j.inputs && f in data && t in data[f];
      TableShields(files, data, j, t, w, n, f);
    }
  }

  /** One table that holds something older than a version of an input is in level 0 and holds
      that version too. */
  lemma TableShields(files: Files, data: Data, j: Job, t: Version, w: Version, n: nat, f: nat)
    requires Levelled(files) && Covers(files, data) && files.Keys <= data.Keys && Fits(files, data, j) && j.target == 2
    requires n in files.Keys - j.inputs && w in data[n] && f in j.inputs && t in data[f]
    requires w.key == t.key && w.seqno < t.seqno
    ensures files[n].level == 0 && t in data[n]
  {
    hide Tables, Leq;
    assert InRange(files[n], w.key) && InRange(files[f], t.key);
    OnlyLevelZero(files, data, j, n, f, t.key);
    InTables(t, f, j.inputs, data);
    assert UpClosed(Tables(j.inputs, data), data[n]);
  }

  lemma InTables(t: Version, f: nat, nums: set<nat>, data: Data)
    requires f in nums && f in data && t in data[f]
    ensures t in Tables(nums, data)
  {
  }

  /** A key of an input can be in the range of another table only in level 0. */
  lemma OnlyLevelZero(files: Files, data: Data, j: Job, n: nat, f: nat, k: Blob)
    requires Levelled(files) && Fits(files, data, j) && j.target == 2 && f in j.inputs && n in files.Keys - j.inputs
    requires InRange(files[n], k) && InRange(files[f], k)
    ensures files[n].level == 0
  {
    hide UpClosed, Tables;
    if files[n].level == 2 && files[f].level != 2 {
      LeqTrans(j.lo, files[f].smallest, k);
      LeqTrans(k, files[f].largest, j.hi);
      NotOverlapping(files[n], Hull(j), k);
    }
  }

  lemma ShieldsUnion(In: set<Version>, A: set<Version>, B: set<Version>)
    requires Shields(In, A) && Shields(In, B)
    ensures Shields(In, A + B)
  {
  }

  lemma SuffixShields(In: set<Version>, X: set<Version>, H: set<Version>)
    requires In <= H && SuffixOf(X, H)
    ensures Shields(In, X)
  {
  }

  /** Publishing over live tables and any suffix of the history that the memtables
      (or the live log files) hold. */
  lemma CompactSources(files: Files, data: Data, j: Job, X: set<Version>, H: set<Version>, f: nat)
    requires Levelled(files) && Covers(files, data) && files.Keys <= data.Keys && Fits(files, data, j)
    requires forall n :: n in files ==> data[n] <= H
    requires Unique(H) && SuffixOf(X, H)
    requires var In := Tables(j.inputs, data);
             FloorFor(In, j.minSnap, f) && j.output == Retain(In, j.minSnap, j.target)
    requires Agree(Tables(files.Keys, data) + X, H, f)
    ensures Agree(Tables(files.Keys - j.inputs, data) + j.output + X, H, f)
  {
    var In, R := Tables(j.inputs, data), Tables(files.Keys - j.inputs, data);
    TablesSplit(files.Keys - j.inputs, j.inputs, data);
    assert files.Keys - j.inputs + j.inputs == files.Keys;
    assert Tables(files.Keys, data) + X == (R + X) + In;
    if j.target == 2 {
      RestShields(files, data, j);
      SuffixShields(In, X, H);
      ShieldsUnion(In, R, X);
    }
    assert (R + X) + In <= H;
    CompactAgree(R + X, In, H, j.minSnap, j.target, f);
    assert (R + X) + j.output == R + j.output + X;
  }

  /** The tables after publishing: those not compacted, and the output. */
  lemma PublishedTables(files: Files, data: Data, j: Job, meta: Meta)
    requires j.number !in files && j.number in data && data[j.number] == j.output
    ensures Tables(Published(files, j, meta).Keys, data) == Tables(files.Keys - j.inputs, data) + j.output
  {
    assert Published(files, j, meta).Keys == (files.Keys - j.inputs) + {j.number};
    TablesAdd(files.Keys - j.inputs, j.number, data);
  }

  /** A compaction record turns a good edit into a good edit. */
  lemma CompactGood(e: Edit, H: set<Version>, last: nat, wals: Wals, data: Data, j: Job, meta: Meta, next: nat, wal: nat)
    requires Good(e, H, last, wals, data) && Unique(H) && AllUpTo(H, last)
    requires 1 <= wal < next && wal <= e.wal && SuffixOf(WalSet(wals, wal), H)
    requires Fits(e.files, data, j) && j.number !in e.files && j.number in data && data[j.number] == j.output
    requires var In := Tables(j.inputs, data);
             FloorFor(In, j.minSnap, j.floor) && j.output == Retain(In, j.minSnap, j.target) && j.floor <= last
    requires MetaFor(meta, j.target, j.output)
    ensures Good(Edit(next, wal, last, Published(e.files, j, meta)), H, last, wals, data)
  {
    var X, In := WalSet(wals, wal), Tables(j.inputs, data);
    var files' := Published(e.files, j, meta);
    GoodScalars(e, H, last, wals, data, next, wal);
    assert FloorFor(In, j.minSnap, last);
    CompactSources(e.files, data, j, X, H, last);
    PublishedTables(e.files, data, j, meta);
    CompactLevelled(e.files, data, j, meta);
    assert j.output <= H;
  }

  /** A flush record adds the oldest memtable as a level-0 table and moves the log
      number past its log files. */
  lemma FlushGood(e: Edit, H: set<Version>, last: nat, wals: Wals, data: Data,
                  n: nat, meta: Meta, next: nat, wal: nat, lo: nat, hi: nat)
    requires Good(e, H, last, wals, data) && Unique(H) && AllUpTo(H, last)
    requires n !in e.files && n in data && data[n] == Slice(H, lo, hi) && MetaFor(meta, 0, data[n])
    requires WalSet(wals, e.wal) <= After(H, lo)
    requires After(H, hi) <= WalSet(wals, wal) <= After(H, lo) && SuffixOf(WalSet(wals, wal), H)
    requires 1 <= wal < next
    ensures Good(Edit(next, wal, last, e.files[n := meta]), H, last, wals, data)
  {
    var T, X, Y := Tables(e.files.Keys, data), WalSet(wals, e.wal), WalSet(wals, wal);
    TablesWithin(e, H, data);
    assert SuffixOf(After(H, lo), H);
    AgreeAddSuffix(T + X, After(H, lo), H, last);
    assert After(H, lo) == Slice(H, lo, hi) + After(H, hi);
    assert T + X + After(H, lo) == T + data[n] + Y;
    TablesAdd(e.files.Keys, n, data);
    assert e.files[n := meta].Keys == e.files.Keys + {n};
  }
}
