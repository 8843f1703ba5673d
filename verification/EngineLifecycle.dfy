/** Snapshots, file removal, Close, crash and reopen keep the engine invariant. */
module EngineLifecycle {
  import opened Bytes
  import opened Versions
  import opened Store
  import opened Compaction
  import opened Engine
  import opened EngineInv
  import opened EngineWrite
  import opened EngineFlush

  // -------------------------------------------------------------- file removal

  lemma LogWeaken(log: seq<Rec>, synced: nat, H: set<Version>, last: nat, wals: Wals, ssts: Data,
                  g: set<nat>, o: nat, g': set<nat>, o': nat)
    requires LogInv(log, synced, H, last, wals, ssts, g, o) && g' <= g && o' <= o
    ensures LogInv(log, synced, H, last, wals, ssts, g', o')
  {
    forall n | synced <= n <= |log| ensures EntryInv(Replay(log[..n]), H, last, wals, ssts, g', o') {
      assert EntryInv(Replay(log[..n]), H, last, wals, ssts, g, o);
    }
  }

  lemma RemoveFileDisk(s: State, n: nat)
    requires DiskInv(s) && n in s.garbage
    ensures DiskInv(DoRemoveFile(s, n))
  {
    hide WalsOrdered, ReaderInv, Replay, History, LastSeq, PastInv, LogInv, Unnamed, LogWalsUpTo;
    var H, last, ssts' := History(s.past), LastSeq(s.past), s.disk.ssts - {n};
    LogFrame(s.disk, H, last, s.garbage, s.obsolete, s.disk.wals, ssts');
    LogWeaken(s.disk.log, s.disk.synced, H, last, s.disk.wals, ssts', s.garbage, s.obsolete, s.garbage - {n}, s.obsolete);
    UnnamedFrame(s.disk, s.disk.(ssts := ssts'));
  }

  lemma RemoveFileComp(s: State, n: nat)
    requires Inv(s) && n in s.garbage && s.phase != Down
    ensures var s' := DoRemoveFile(s, n);
            CompInv(s'.comp, s'.tables, s'.disk, s'.edit, s'.garbage, s'.snaps, LastSeq(s.past))
  {
    hide WalsOrdered, MemInv, ReadInv, SnapInv, ReaderInv, Fits, Replay, FloorFor, Retain, History, LastSeq, PastInv, WalInv,
      LogInv, TableInv, Unnamed, LogWalsUpTo, Tables, FlushInv, TailInv;
    var ssts' := s.disk.ssts - {n};
    UnnamedFrame(s.disk, s.disk.(ssts := ssts'));
    if s.comp.Some? {
      TailKept(s, ssts');
      FitsFrame(Replay(s.disk.log).files, s.disk.ssts, ssts', s.comp.value);
    }
  }

  lemma RemoveFileInv(s: State, n: nat)
    requires Inv(s) && n in s.garbage
    ensures Inv(DoRemoveFile(s, n))
  {
    hide DiskInv, HasAtLeast, MemInv, ReadInv, SnapInv, Replay, History, LastSeq, WalInv, TableInv, Unnamed, LogWalsUpTo, CompInv;
    RemoveFileDisk(s, n);
    if s.phase != Down {
      RemoveFileComp(s, n);
      UnnamedFrame(s.disk, s.disk.(ssts := s.disk.ssts - {n}));
      TableFrame(History(s.past), s.edit.files, s.tables, s.disk.ssts, s.imm, s.cuts, n);
    }
  }

  lemma TableFrame(H: set<Version>, files: Files, tables: Data, ssts: Data, imm: seq<Imm>, cuts: seq<nat>, n: nat)
    requires TableInv(H, files, tables, ssts, imm, cuts) && n !in files
    ensures TableInv(H, files, tables, ssts - {n}, imm, cuts)
  {
    hide Covers, Levelled;
  }

  lemma UnnamedFrame(d: Disk, d': Disk)
    requires d.log == d'.log && d.synced == d'.synced
    ensures forall n :: Unnamed(d, n) ==> Unnamed(d', n)
    ensures forall w :: LogWalsUpTo(d, w) ==> LogWalsUpTo(d', w)
  {
  }

  lemma TailKept(s: State, ssts': Data)
    requires DiskInv(s) && s.garbage != {} && forall m :: m in s.disk.ssts && m !in s.garbage ==> m in ssts' && ssts'[m] == s.disk.ssts[m]
    ensures Replay(s.disk.log).files.Keys <= s.disk.ssts.Keys
    ensures forall m :: m in Replay(s.disk.log).files ==> m in ssts' && ssts'[m] == s.disk.ssts[m]
  {
    hide WalsOrdered, ReaderInv, Replay, History, LastSeq, PastInv, LogInv, LimboInv, Complete, Covers, Levelled;
    TailEntry(s.disk, History(s.past), LastSeq(s.past), s.garbage, s.obsolete);
  }

  lemma RemoveWalLive(H: set<Version>, wals: Wals, imm: seq<Imm>, oldest: nat, activeWal: nat, cuts: seq<nat>, editWal: nat,
                      moved: bool, w: nat)
    requires |cuts| == |imm| + 1 && WalInv(H, wals, imm, oldest, activeWal, cuts, editWal, moved) && w < editWal
    ensures WalInv(H, wals - {w}, imm, oldest, activeWal, cuts, editWal, moved)
  {
    forall lo: nat | lo >= editWal ensures WalSet(wals - {w}, lo) == WalSet(wals, lo) {
      WalSetSame(wals, wals - {w}, lo);
    }
  }

  lemma RemoveWalOrdered(wals: Wals, last: nat, w: nat)
    requires WalsOrdered(wals, last)
    ensures WalsOrdered(wals - {w}, last)
  {
  }

  lemma RemoveWalLimbo(s: State, w: nat)
    requires DiskInv(s) && w < s.obsolete
    ensures LimboInv(s.disk.(wals := s.disk.wals - {w}), LastSeq(s.past))
  {
    hide WalsOrdered, ReaderInv, Replay, History, LastSeq, PastInv, Good, ValidKey;
    if s.disk.limbo.Some? {
      assert EntryInv(Replay(s.disk.log[..s.disk.synced]), History(s.past), LastSeq(s.past), s.disk.wals, s.disk.ssts, s.garbage, s.obsolete);
    }
  }

  lemma RemoveWalTop(s: State, w: nat)
    requires DiskInv(s) && TopInv(s.disk) && w < s.obsolete
    ensures TopInv(s.disk.(wals := s.disk.wals - {w}))
  {
    hide WalsOrdered, ReaderInv, Replay, History, LastSeq, PastInv, Good, LimboInv;
    var d := s.disk.(wals := s.disk.wals - {w});
    forall n, m | d.synced <= n <= m <= |d.log|
      ensures Replay(d.log[..n]).wal <= Replay(d.log[..m]).wal || HasAtLeast(d.wals, Replay(d.log[..n]).wal)
    {
      var lo := Replay(d.log[..n]).wal;
      assert EntryInv(Replay(d.log[..n]), History(s.past), LastSeq(s.past), s.disk.wals, s.disk.ssts, s.garbage, s.obsolete);
      if HasAtLeast(s.disk.wals, lo) {
        var x :| x in s.disk.wals && x >= lo;
        assert x in d.wals;
      }
    }
  }

  lemma RemoveWalInv(s: State, w: nat)
    requires Inv(s) && w < s.obsolete
    ensures Inv(DoRemoveWal(s, w))
  {
    hide WalsOrdered, MemInv, ReadInv, SnapInv, TableInv, ReaderInv, Fits, Replay, FloorFor, Retain, WalSet, History, LastSeq,
      PastInv, WalInv, LogInv, Unnamed, LogWalsUpTo, LimboInv, TopInv;
    var H, last, wals' := History(s.past), LastSeq(s.past), s.disk.wals - {w};
    LogFrame(s.disk, H, last, s.garbage, s.obsolete, wals', s.disk.ssts);
    RemoveWalOrdered(s.disk.wals, last, w);
    RemoveWalLimbo(s, w);
    UnnamedFrame(s.disk, s.disk.(wals := wals'));
    if s.phase == Down {
      RemoveWalTop(s, w);
    } else {
      MemFacts(H, last, s.mems, s.nextMem, s.active, s.imm, s.cuts);
      RemoveWalLive(H, s.disk.wals, s.imm, s.oldest, s.activeWal, s.cuts, s.edit.wal, s.phase == Closing(true), w);
    }
  }

  // ------------------------------------------------------------------ snapshots

  lemma GetSnapshotInv(s: State)
    requires Inv(s) && s.phase != Down
    ensures Inv(DoGetSnapshot(s))
  {
    hide LogInv, WalsOrdered, WalInv, MemInv, TableInv, ReaderInv, PastInv, Fits, Replay, History, LastSeq, FloorFor, Retain,
      WalSet, LogWalsUpTo, Unnamed, TailInv, FlushInv, AtBoundary, Agree;
    BoundaryLast(s.past);
  }

  lemma ReleaseSnapshotInv(s: State, i: nat)
    requires Inv(s) && i < |s.snaps|
    ensures Inv(DoReleaseSnapshot(s, i))
  {
    hide LogInv, WalsOrdered, WalInv, MemInv, TableInv, ReaderInv, PastInv, Fits, Replay, History, LastSeq, FloorFor, Retain,
      WalSet, LogWalsUpTo, Unnamed, TailInv, FlushInv, AtBoundary, ReadInv;
  }

  lemma UnpinInv(s: State, reader: Reader)
    requires Inv(s)
    ensures Inv(DoUnpin(s, reader))
  {
    hide LogInv, WalsOrdered, WalInv, MemInv, TableInv, PastInv, Fits, Replay, History, LastSeq, FloorFor, Retain,
      WalSet, LogWalsUpTo, Unnamed, TailInv, FlushInv, CompInv, ReadInv, SnapInv, ReaderOk;
  }

  lemma RecordErrorInv(s: State)
    requires Inv(s) && s.phase != Down
    ensures Inv(DoRecordError(s))
  {
    hide LogInv, WalsOrdered, WalInv, MemInv, TableInv, PastInv, Fits, Replay, History, LastSeq, FloorFor, Retain,
      WalSet, LogWalsUpTo, Unnamed, FlushInv, CompInv, ReadInv, SnapInv, ReaderOk;
  }

  // ---------------------------------------------------------------------- close

  lemma CloseWalInv(H: set<Version>, last: nat, wals: Wals, imm: seq<Imm>, oldest: nat, activeWal: nat,
                    cuts: seq<nat>, editWal: nat, active: nat)
    requires |cuts| == |imm| + 1 && WalInv(H, wals, imm, oldest, activeWal, cuts, editWal, false) && AllUpTo(H, last)
    ensures WalInv(H, wals, imm + [Imm(active, oldest)], oldest, activeWal, cuts + [last], editWal, true)
  {
    hide SuffixOf, WalSet;
    assert After(H, last) == {};
  }

  lemma CloseBeginInv(s: State)
    requires Inv(s) && CanCloseBegin(s)
    ensures Inv(DoCloseBegin(s))
  {
    hide LogInv, WalsOrdered, WalInv, MemInv, ReadInv, TableInv, SnapInv, ReaderInv, PastInv, Fits, Replay, History, LastSeq,
      FloorFor, Retain, WalSet, LogWalsUpTo, Unnamed, AllUpTo, AllAbove, Unique;
    if s.mems[s.active] != {} {
      var H, last := History(s.past), LastSeq(s.past);
      HistoryFacts(s.past);
      MemFacts(H, last, s.mems, s.nextMem, s.active, s.imm, s.cuts);
      NewMemReaders(s.past, s.mems, s.nextMem, s.readers, {});
      SwitchMemInv(H, last, s.mems, s.nextMem, s.active, s.imm, s.cuts, s.oldest);
      CloseWalInv(H, last, s.disk.wals, s.imm, s.oldest, s.activeWal, s.cuts, s.edit.wal, s.active);
      SwitchTables(H, last, s.edit.files, s.tables, s.disk.ssts, s.imm, s.cuts, Imm(s.active, s.oldest));
      SwitchRead(H, last, s.tables, s.cuts, s.floor);
    }
  }

  /** After the drain the tables alone are complete. */
  lemma CloseEntry(s: State)
    requires Inv(s) && CanCloseEnd(s) && s.bgOk && s.phase.moved
    ensures var e := s.edit.(next := s.edit.next + 1, wal := s.edit.next);
            && Tail(s.disk, s.persisted, e) == Edit(e.next, e.wal, e.last, s.edit.files)
            && EntryInv(Tail(s.disk, s.persisted, e), History(s.past), LastSeq(s.past), s.disk.wals, s.disk.ssts, s.garbage, s.obsolete)
            && s.obsolete <= e.wal
  {
    hide LogInv, WalsOrdered, MemInv, SnapInv, ReaderInv, PastInv, Fits, Replay, History, LastSeq, FloorFor, Retain,
      LogWalsUpTo, Unnamed, Agree, Levelled, InRange;
    var H, last, w := History(s.past), LastSeq(s.past), s.edit.next;
    HistoryFacts(s.past);
    MemFacts(H, last, s.mems, s.nextMem, s.active, s.imm, s.cuts);
    CloseTail(s.disk, s.persisted, s.edit);
    assert WalSet(s.disk.wals, w) == {};
    TablesSame(s.edit.files.Keys, s.tables, s.disk.ssts);
    var T := Tables(s.edit.files.Keys, s.disk.ssts);
    assert T + {} == T + After(H, s.cuts[0]);
    AgreeRaise(T + After(H, s.cuts[0]), H, s.floor, last);
  }

  lemma CloseTail(disk: Disk, persisted: Edit, edit: Edit)
    requires edit.files == persisted.files && Replay(disk.log).files == edit.files
    ensures var e := edit.(next := edit.next + 1, wal := edit.next);
            Tail(disk, persisted, e) == Edit(e.next, e.wal, e.last, edit.files)
  {
    hide Replay;
    var e := edit.(next := edit.next + 1, wal := edit.next);
    assert Diff(persisted, e).dels == {} && Diff(persisted, e).adds == map[];
    assert (edit.files - {}) + map[] == edit.files;
  }

  lemma CloseTop(s: State, d: Disk, e: Edit, save: Save)
    requires Inv(s) && s.phase != Down && d == LogSave(s.disk, s.persisted, e, save)
    ensures TopInv(d)
  {
    hide DiskInv, MemInv, TableInv, ReadInv, SnapInv, FlushInv, CompInv, NumInv, Replay, WalSet, SuffixOf, Diff;
    forall n, m | d.synced <= n <= m <= |d.log|
      ensures Replay(d.log[..n]).wal <= Replay(d.log[..m]).wal || HasAtLeast(d.wals, Replay(d.log[..n]).wal)
    {
      if n < m || |d.log| == |s.disk.log| {
        assert d.log[..n] == s.disk.log[..n];
        assert Replay(s.disk.log[..n]).wal <= s.activeWal;
      }
    }
  }

  lemma CloseEndInv(s: State, save: Save)
    requires Inv(s) && CanCloseEnd(s)
    ensures Inv(DoCloseEnd(s, save))
  {
    hide LogInv, WalsOrdered, WalInv, MemInv, ReadInv, TableInv, SnapInv, ReaderInv, PastInv, Replay, History, LastSeq,
      Tail, EntryInv, Diff, FlushInv, CompInv, NumInv, LogWalsUpTo, TopInv;
    LiveTop(s);
    if s.bgOk && s.phase.moved && s.edit.next < MAX_U64 {
      var e := s.edit.(next := s.edit.next + 1, wal := s.edit.next);
      var H, last := History(s.past), LastSeq(s.past);
      CloseEntry(s);
      var o := if save == Saved then s.edit.next else s.obsolete;
      EntryObsolete(Tail(s.disk, s.persisted, e), H, last, s.disk.wals, s.disk.ssts, s.garbage, s.obsolete, o);
      SaveLog(s.disk, s.persisted, e, save, H, last, s.garbage, s.obsolete, s.garbage, o);
      CloseTop(s, LogSave(s.disk, s.persisted, e, save), e, save);
    }
  }

  // ---------------------------------------------------------------------- crash

  lemma CrashLog(disk: Disk, kept: nat, H: set<Version>, last: nat)
    requires LogInv(disk.log, disk.synced, H, last, disk.wals, disk.ssts, {}, 0) && disk.synced <= kept <= |disk.log|
    ensures LogInv(disk.log[..kept], disk.synced, H, last, disk.wals, disk.ssts, {}, 0)
    ensures forall w :: LogWalsUpTo(disk, w) ==> LogWalsUpTo(disk.(log := disk.log[..kept]), w)
  {
    hide EntryInv, Replay;
    assert forall n :: disk.synced <= n <= kept ==> disk.log[..kept][..n] == disk.log[..n];
  }

  lemma CrashInv(s: State, kept: nat, keepLimbo: bool, tear: Option<Tear>)
    requires Inv(s) && CanCrash(s, kept, tear)
    ensures Inv(DoCrash(s, kept, keepLimbo, tear))
  {
    hide WalsOrdered, PastInv, History, LastSeq, LiveInv, ValidKey, TopInv, LogInv, LogWalsUpTo, ReaderOk, TearLeft;
    var c := DoCrash(s, kept, keepLimbo, tear);
    LogWeaken(s.disk.log, s.disk.synced, History(s.past), LastSeq(s.past), s.disk.wals, s.disk.ssts, s.garbage, s.obsolete, {}, 0);
    CrashLog(s.disk, kept, History(s.past), LastSeq(s.past));
    UnnamedFrame(s.disk.(log := s.disk.log[..kept]), c.disk);
    if s.phase != Down {
      LiveTop(s);
    }
    TopFrame(s.disk, c.disk);
  }
}
