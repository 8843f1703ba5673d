/**
 What every reachable engine state satisfies.  Memtables are slices of the
 history, tables are subsets of it, live tables and memtables together answer like
 it, and every manifest the disk may come back with is a good place to recover.
 */
module EngineInv {
  import opened Bytes
  import opened Versions
  import opened Store
  import opened Compaction
  import opened Engine

  ghost predicate PastInv(past: seq<Batch>) {
    && Ordered(past)
    && (forall i, j :: 0 <= i < |past| && 0 <= j < |past[i].ops| ==> ValidKey(past[i].ops[j].key))
  }

  /** Every edit a crash may leave is good, names no file being deleted and no log
      file being deleted. */
  ghost predicate LogInv(log: seq<Rec>, synced: nat, H: set<Version>, last: nat, wals: Wals, ssts: Data,
                         garbage: set<nat>, obsolete: nat)
  {
    && 1 <= synced <= |log|
    && forall n :: synced <= n <= |log| ==> EntryInv(Replay(log[..n]), H, last, wals, ssts, garbage, obsolete)
  }

  ghost predicate EntryInv(e: Edit, H: set<Version>, last: nat, wals: Wals, ssts: Data,
                           garbage: set<nat>, obsolete: nat)
  {
    Good(e, H, last, wals, ssts) && e.files.Keys !! garbage && obsolete <= e.wal
  }

  ghost predicate LimboInv(disk: Disk, last: nat) {
    disk.limbo.Some? ==>
      var l := disk.limbo.value;
      && l.wal in disk.wals && l.batch.first == last + 1 && l.batch.ops != []
      && (forall i :: 0 <= i < |l.batch.ops| ==> ValidKey(l.batch.ops[i].key))
      && (forall w :: w in disk.wals && w > l.wal ==> disk.wals[w] == [])
      && LogWalsUpTo(disk, l.wal)
  }

  ghost predicate LogWalsUpTo(disk: Disk, w: nat) {
    forall n :: disk.synced <= n <= |disk.log| ==> Replay(disk.log[..n]).wal <= w
  }

  /** No edit a crash may leave names this table. */
  ghost predicate Unnamed(disk: Disk, number: nat) {
    forall n :: disk.synced <= n <= |disk.log| ==> number !in Replay(disk.log[..n]).files
  }

  ghost predicate MemInv(H: set<Version>, last: nat, mems: Data, nextMem: nat, active: nat, imm: seq<Imm>, cuts: seq<nat>) {
    && |cuts| == |imm| + 1
    && (forall i, j :: 0 <= i <= j < |cuts| ==> cuts[i] <= cuts[j])
    && cuts[|imm|] <= last
    && active in mems && mems[active] == After(H, cuts[|imm|])
    && (forall i :: 0 <= i < |imm| ==>
          imm[i].mem in mems && imm[i].mem != active && mems[imm[i].mem] == Slice(H, cuts[i], cuts[i + 1]))
  }

  ghost predicate WalInv(H: set<Version>, wals: Wals, imm: seq<Imm>, oldest: nat, activeWal: nat,
                         cuts: seq<nat>, editWal: nat, moved: bool)
    requires |cuts| == |imm| + 1
  {
    && (forall i :: 0 <= i < |imm| ==> WalSet(wals, imm[i].wal) == After(H, cuts[i]))
    && (forall i :: 0 <= i < |imm| ==> 1 <= editWal <= imm[i].wal <= oldest)
    && (forall i, j :: 0 <= i <= j < |imm| ==> imm[i].wal <= imm[j].wal)
    && 1 <= editWal <= oldest <= activeWal
    && (!moved ==> WalSet(wals, oldest) == After(H, cuts[|imm|]))
    && (moved && imm != [] ==> WalSet(wals, oldest) == After(H, cuts[|imm| - 1]))
    && (moved ==> After(H, cuts[|imm|]) == {})
    && (!moved || imm != [] ==> WalSet(wals, editWal) == After(H, cuts[0]))
    && SuffixOf(WalSet(wals, editWal), H)
    && activeWal in wals
    && (forall w :: w in wals && w > activeWal ==> wals[w] == [])
  }

  ghost predicate TableInv(H: set<Version>, files: Files, tables: Data, ssts: Data, imm: seq<Imm>, cuts: seq<nat>) {
    && tables.Keys == files.Keys
    && (forall n :: n in tables ==> n in ssts && ssts[n] == tables[n] && tables[n] <= H)
    && (imm != [] && |cuts| > 1 ==> forall n :: n in tables ==> AllUpTo(tables[n], cuts[1]))
    && Covers(files, tables) && Levelled(files)
  }

  ghost predicate ReadInv(H: set<Version>, last: nat, tables: Data, cuts: seq<nat>, floor: nat) {
    && |cuts| > 0 && floor <= last
    && Agree(Tables(tables.Keys, tables) + After(H, cuts[0]), H, floor)
  }

  /** Sequence and file numbers handed out next are unused. */
  ghost predicate NumInv(edit: Edit, persisted: Edit, last: nat, wals: Wals, ssts: Data, activeWal: nat, garbage: set<nat>, obsolete: nat) {
    && obsolete <= edit.wal
    && edit.last == last && edit.files == persisted.files
    && 1 <= edit.wal < edit.next && activeWal < edit.next
    && (forall n :: n in ssts ==> n < edit.next)
    && (forall w :: w in wals && w >= edit.next ==> wals[w] == [])
    && garbage !! edit.files.Keys && (forall n :: n in garbage ==> n < edit.next)
  }

  ghost predicate AtBoundary(past: seq<Batch>, r: nat) {
    exists n :: 0 <= n <= |past| && r == LastSeq(past[..n])
  }

  ghost predicate SnapInv(snaps: seq<Snap>, past: seq<Batch>, last: nat, floor: nat) {
    && (forall i :: 0 <= i < |snaps| && snaps[i].active ==>
          (snaps[i].seqno == 0 || snaps[i].seqno >= floor) && snaps[i].seqno <= last && AtBoundary(past, snaps[i].seqno))
    && (forall i, j :: 0 <= i <= j < |snaps| && snaps[i].active && snaps[j].active ==>
          snaps[i].seqno <= snaps[j].seqno)
  }

  ghost predicate FlushInv(flush: Option<FlushJob>, imm: seq<Imm>, mems: Data, disk: Disk, edit: Edit, garbage: set<nat>) {
    flush.Some? ==>
      var j := flush.value;
      && imm != [] && j.imm == imm[0] && j.imm.mem in mems
      && j.number < edit.next && j.number !in edit.files && j.number !in garbage && Unnamed(disk, j.number)
      && (j.built ==> j.number in disk.ssts && disk.ssts[j.number] == mems[j.imm.mem])
  }

  ghost predicate CompInv(comp: Option<Job>, tables: Data, disk: Disk, edit: Edit, garbage: set<nat>,
                          snaps: seq<Snap>, last: nat)
  {
    comp.Some? ==>
      var j := comp.value;
      && j.number < edit.next && j.number !in edit.files && j.number !in garbage && Unnamed(disk, j.number)
      && (j.built ==> j.number in disk.ssts && disk.ssts[j.number] == j.output)
      && j.floor <= last && FloorFor(Tables(j.inputs, tables), j.minSnap, j.floor)
      && j.output == Retain(Tables(j.inputs, tables), j.minSnap, j.target)
      && (forall i :: 0 <= i < |snaps| && snaps[i].active ==> snaps[i].seqno == 0 || snaps[i].seqno >= j.floor)
      && Fits(edit.files, tables, j) && Fits(Replay(disk.log).files, disk.ssts, j)
  }

  /** How the manifest on disk may differ from the one in memory. */
  ghost predicate TailInv(disk: Disk, edit: Edit, bgOk: bool, activeWal: nat, flush: Option<FlushJob>, comp: Option<Job>) {
    && (bgOk ==> Replay(disk.log).files == edit.files && Replay(disk.log).wal == edit.wal
                 && disk.limbo.None? && disk.torn.None?)
    && edit.wal <= Replay(disk.log).wal
    && LogWalsUpTo(disk, activeWal)
    && (disk.limbo.Some? ==> disk.limbo.value.wal == activeWal)
    && (flush.Some? ==> Replay(disk.log).wal == edit.wal)
    && (flush.Some? && comp.Some? ==> flush.value.number != comp.value.number)
  }

  /** First memtable with a visible version wins, otherwise the newest in any table. */
  ghost function Lookup(ids: seq<nat>, mems: Data, tables: Data, k: Blob, r: nat): Option<Version> {
    if ids == [] then Newest(Tables(tables.Keys, tables), k, r)
    else if ids[0] in mems && Newest(mems[ids[0]], k, r).Some? then Newest(mems[ids[0]], k, r)
    else Lookup(ids[1..], mems, tables, k, r)
  }

  ghost predicate ReaderOk(past: seq<Batch>, mems: Data, rd: Reader) {
    && AtBoundary(past, rd.r)
    && (forall i :: 0 <= i < |rd.mems| ==> rd.mems[i] in mems)
    && (forall k :: ValueOf(Lookup(rd.mems, mems, rd.tables, k, rd.r)) == Answer(History(past), k, rd.r))
  }

  ghost predicate ReaderInv(past: seq<Batch>, mems: Data, nextMem: nat, readers: set<Reader>) {
    && (forall m :: m in mems ==> m < nextMem)
    && forall rd :: rd in readers ==> ReaderOk(past, mems, rd)
  }

  ghost predicate DiskInv(s: State) {
    && PastInv(s.past) && LastSeq(s.past) >= 0
    && WalsOrdered(s.disk.wals, LastSeq(s.past))
    && LogInv(s.disk.log, s.disk.synced, History(s.past), LastSeq(s.past), s.disk.wals, s.disk.ssts, s.garbage, s.obsolete)
    && LimboInv(s.disk, LastSeq(s.past))
    && ReaderInv(s.past, s.mems, s.nextMem, s.readers)
  }

  ghost predicate LiveInv(s: State)
    requires LastSeq(s.past) >= 0
  {
    var H, last := History(s.past), LastSeq(s.past);
    && MemInv(H, last, s.mems, s.nextMem, s.active, s.imm, s.cuts)
    && WalInv(H, s.disk.wals, s.imm, s.oldest, s.activeWal, s.cuts, s.edit.wal, s.phase == Closing(true))
    && TableInv(H, s.edit.files, s.tables, s.disk.ssts, s.imm, s.cuts)
    && ReadInv(H, last, s.tables, s.cuts, s.floor)
    && NumInv(s.edit, s.persisted, last, s.disk.wals, s.disk.ssts, s.activeWal, s.garbage, s.obsolete)
    && SnapInv(s.snaps, s.past, last, s.floor)
    && FlushInv(s.flush, s.imm, s.mems, s.disk, s.edit, s.garbage)
    && CompInv(s.comp, s.tables, s.disk, s.edit, s.garbage, s.snaps, last)
    && TailInv(s.disk, s.edit, s.bgOk, s.activeWal, s.flush, s.comp)
  }

  /** While closed, a log number of one possible manifest is not above every log file and
      above that of a longer one. */
  ghost predicate TopInv(disk: Disk) {
    forall n, m :: disk.synced <= n <= m <= |disk.log| ==>
      Replay(disk.log[..n]).wal <= Replay(disk.log[..m]).wal || HasAtLeast(disk.wals, Replay(disk.log[..n]).wal)
  }

  ghost predicate HasAtLeast(wals: Wals, lo: nat) {
    exists w :: w in wals && w >= lo
  }

  ghost predicate Inv(s: State) {
    DiskInv(s) && (if s.phase == Down then TopInv(s.disk) else LiveInv(s))
  }

  // ------------------------------------------------------------- shared lemmas

  lemma HistoryFacts(past: seq<Batch>)
    requires PastInv(past)
    ensures LastSeq(past) >= 0
    ensures AllUpTo(History(past), LastSeq(past)) && AllAbove(History(past), 0) && Unique(History(past))
  {
    HistoryBounds(past);
    HistoryUnique(past);
  }

  lemma PastSnoc(past: seq<Batch>, b: Batch)
    requires PastInv(past) && LastSeq(past) >= 0 && b.first == LastSeq(past) + 1 && b.ops != []
    requires forall i :: 0 <= i < |b.ops| ==> ValidKey(b.ops[i].key)
    ensures PastInv(past + [b]) && LastSeq(past + [b]) == BatchLast(b)
    ensures History(past + [b]) == History(past) + BatchSet(b)
    ensures AllAbove(BatchSet(b), LastSeq(past))
  {
    hide Ordered, BatchSet, ValidKey;
    var p := past + [b];
    assert p[..|past|] == past;
    OrderedSnoc(past, b);
    forall i, j | 0 <= i < |p| && 0 <= j < |p[i].ops| ensures ValidKey(p[i].ops[j].key) {
      assert i < |past| ==> p[i] == past[i];
    }
    BatchAbove(b);
  }

  lemma BatchAbove(b: Batch)
    requires b.first >= 1
    ensures AllAbove(BatchSet(b), b.first - 1)
  {
  }

  lemma OrderedSnoc(past: seq<Batch>, b: Batch)
    requires Ordered(past) && b.first > LastSeq(past) && b.first >= 1 && b.ops != []
    ensures Ordered(past + [b])
  {
    var p := past + [b];
    forall i, j | 0 <= i < j < |p| ensures BatchLast(p[i]) < p[j].first {
      if j == |past| {
        LastIsMax(past, i);
      }
    }
  }

  lemma LastIsMax(past: seq<Batch>, i: nat)
    requires Ordered(past) && i < |past|
    ensures BatchLast(past[i]) <= LastSeq(past)
  {
    if i < |past| - 1 {
      assert BatchLast(past[i]) < past[|past| - 1].first;
    }
  }

  lemma BoundaryGrow(past: seq<Batch>, b: Batch, r: nat)
    requires AtBoundary(past, r)
    ensures AtBoundary(past + [b], r)
  {
    var n :| 0 <= n <= |past| && r == LastSeq(past[..n]);
    assert (past + [b])[..n] == past[..n];
  }

  lemma BoundaryLast(past: seq<Batch>)
    requires LastSeq(past) >= 0
    ensures AtBoundary(past, LastSeq(past))
  {
    assert past[..|past|] == past;
  }

  lemma BoundaryBelow(past: seq<Batch>, r: nat)
    requires PastInv(past) && AtBoundary(past, r)
    ensures r <= LastSeq(past)
  {
    HistoryBounds(past);
    var n :| 0 <= n <= |past| && r == LastSeq(past[..n]);
    if n > 0 {
      LastIsMax(past, n - 1);
    }
  }

  lemma SlicesGrow(H: set<Version>, B: set<Version>, last: nat)
    requires AllUpTo(H, last) && AllAbove(B, last)
    ensures forall c: nat :: c <= last ==> After(H + B, c) == After(H, c) + B
    ensures forall a: nat, b: nat :: b <= last ==> Slice(H + B, a, b) == Slice(H, a, b)
  {
  }

  lemma LogWalsMono(disk: Disk, w: nat, w': nat)
    requires LogWalsUpTo(disk, w) && w <= w'
    ensures LogWalsUpTo(disk, w')
  {
  }

  /** The whole log is one of the prefixes a crash may leave. */
  lemma TailEntry(disk: Disk, H: set<Version>, last: nat, garbage: set<nat>, obsolete: nat)
    requires LogInv(disk.log, disk.synced, H, last, disk.wals, disk.ssts, garbage, obsolete)
    ensures EntryInv(Replay(disk.log), H, last, disk.wals, disk.ssts, garbage, obsolete)
  {
    assert disk.log[..|disk.log|] == disk.log;
  }

  /** While open, the active log file is at or above every possible log number. */
  lemma LiveTop(s: State)
    requires Inv(s) && s.phase != Down
    ensures TopInv(s.disk)
  {
    hide DiskInv, MemInv, TableInv, ReadInv, SnapInv, FlushInv, CompInv, NumInv, Replay, WalSet, SuffixOf;
  }

  lemma TopFrame(d: Disk, d': Disk)
    requires TopInv(d) && d.synced <= d'.synced && d'.log <= d.log
    requires forall w :: w in d.wals ==> w in d'.wals
    ensures TopInv(d')
  {
    hide Replay;
    forall n, m | d'.synced <= n <= m <= |d'.log|
      ensures Replay(d'.log[..n]).wal <= Replay(d'.log[..m]).wal || HasAtLeast(d'.wals, Replay(d'.log[..n]).wal)
    {
      assert d'.log[..n] == d.log[..n] && d'.log[..m] == d.log[..m];
    }
  }

  // ------------------------------------------------------------- manifest saves

  function Tail(disk: Disk, persisted: Edit, e: Edit): Edit {
    ApplyRec(Replay(disk.log), Diff(persisted, e))
  }

  /** A successful save leaves one possible manifest; a failed one adds one. */
  lemma SaveLog(disk: Disk, persisted: Edit, e: Edit, save: Save, H: set<Version>, last: nat,
                g: set<nat>, o: nat, g': set<nat>, o': nat)
    requires LogInv(disk.log, disk.synced, H, last, disk.wals, disk.ssts, g, o)
    requires EntryInv(Tail(disk, persisted, e), H, last, disk.wals, disk.ssts, g', o')
    requires save != Saved ==> g' == g && o' == o
    ensures var d := LogSave(disk, persisted, e, save);
            LogInv(d.log, d.synced, H, last, d.wals, d.ssts, g', o')
  {
    hide EntryInv, Diff, Replay, Torn, Tail;
    var d := LogSave(disk, persisted, e, save);
    forall n | d.synced <= n <= |d.log| ensures EntryInv(Replay(d.log[..n]), H, last, d.wals, d.ssts, g', o') {
      SavePrefix(disk, persisted, e, save, n);
    }
  }

  /** The manifests a crash may leave after a save are those before it, and perhaps one more. */
  lemma SavePrefix(disk: Disk, persisted: Edit, e: Edit, save: Save, n: nat)
    requires 1 <= disk.synced <= |disk.log|
    requires var d := LogSave(disk, persisted, e, save); d.synced <= n <= |d.log|
    ensures var d := LogSave(disk, persisted, e, save);
            if n == |disk.log| + 1 then Replay(d.log[..n]) == Tail(disk, persisted, e)
            else n <= |disk.log| && disk.synced <= n && d.log[..n] == disk.log[..n]
  {
    hide ApplyRec, Diff, Replay, Torn;
    var d := LogSave(disk, persisted, e, save);
    ReplaySnoc(disk.log, Diff(persisted, e));
    if n == |disk.log| + 1 {
      assert d.log[..n] == disk.log + [Diff(persisted, e)];
    } else {
      assert d.log[..n] == disk.log[..n];
    }
  }

  lemma SaveFrame(disk: Disk, persisted: Edit, e: Edit, save: Save, w: nat)
    requires 1 <= disk.synced <= |disk.log|
    requires LogWalsUpTo(disk, w) && Tail(disk, persisted, e).wal <= w
    ensures var d := LogSave(disk, persisted, e, save);
            && d.wals == disk.wals && d.ssts == disk.ssts && d.limbo == disk.limbo
            && LogWalsUpTo(d, w)
            && (Replay(d.log) == Replay(disk.log) || Replay(d.log) == Tail(disk, persisted, e))
            && (save == Saved ==> Replay(d.log) == Tail(disk, persisted, e) && d.synced == |d.log|)
  {
    hide ApplyRec, Diff, Replay, Torn, Tail;
    var d := LogSave(disk, persisted, e, save);
    forall n | d.synced <= n <= |d.log| ensures Replay(d.log[..n]).wal <= w {
      SavePrefix(disk, persisted, e, save, n);
    }
    SavePrefix(disk, persisted, e, save, |d.log|);
    assert d.log[..|d.log|] == d.log && disk.log[..|disk.log|] == disk.log;
  }

  lemma SaveUnnamed(disk: Disk, persisted: Edit, e: Edit, save: Save, number: nat)
    requires 1 <= disk.synced <= |disk.log|
    requires Unnamed(disk, number) && number !in Tail(disk, persisted, e).files
    ensures Unnamed(LogSave(disk, persisted, e, save), number)
  {
    hide ApplyRec, Diff, Replay, Torn, Tail;
    var d := LogSave(disk, persisted, e, save);
    forall n | d.synced <= n <= |d.log| ensures number !in Replay(d.log[..n]).files {
      SavePrefix(disk, persisted, e, save, n);
    }
  }

  /** Changing files no possible manifest names keeps all of them good. */
  lemma LogFrame(disk: Disk, H: set<Version>, last: nat, g: set<nat>, o: nat, wals': Wals, ssts': Data)
    requires LogInv(disk.log, disk.synced, H, last, disk.wals, disk.ssts, g, o)
    requires forall n :: n in disk.ssts && n !in g && !Unnamed(disk, n) ==> n in ssts' && ssts'[n] == disk.ssts[n]
    requires forall w :: w >= o && w in disk.wals && disk.wals[w] != [] ==> w in wals' && wals'[w] == disk.wals[w]
    requires forall w :: w >= o && w in wals' && wals'[w] != [] ==> w in disk.wals && wals'[w] == disk.wals[w]
    ensures LogInv(disk.log, disk.synced, H, last, wals', ssts', g, o)
  {
    forall n | disk.synced <= n <= |disk.log| ensures EntryInv(Replay(disk.log[..n]), H, last, wals', ssts', g, o) {
      var e := Replay(disk.log[..n]);
      assert EntryInv(e, H, last, disk.wals, disk.ssts, g, o);
      forall m | m in e.files ensures m in ssts' && ssts'[m] == disk.ssts[m] {
        assert m !in g && m in disk.ssts;
        assert !Unnamed(disk, m);
      }
      GoodFrame(e, H, last, disk.wals, disk.ssts, wals', ssts');
    }
  }
}
