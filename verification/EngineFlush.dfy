/** Flushing the oldest memtable keeps the engine invariant, whether its manifest
    record is saved, lost, or written but not synced. */
module EngineFlush {
  import opened Versions
  import opened Store
  import opened Compaction
  import opened Engine
  import opened EngineInv
  import opened EngineWrite

  /** A newly allocated number is named nowhere. */
  lemma FreshNumber(s: State)
    requires Inv(s) && s.phase != Down
    ensures var n := s.edit.next;
            && n !in s.edit.files && n !in s.garbage && n !in s.disk.ssts && Unnamed(s.disk, n)
            && (s.flush.Some? ==> s.flush.value.number < n) && (s.comp.Some? ==> s.comp.value.number < n)
  {
    hide WalsOrdered, MemInv, ReadInv, SnapInv, ReaderInv, Fits, Replay, FloorFor, Retain, WalSet, History, LastSeq, PastInv,
      WalInv, Complete, Levelled, Covers;
    forall m | s.disk.synced <= m <= |s.disk.log| ensures s.edit.next !in Replay(s.disk.log[..m]).files {
      assert EntryInv(Replay(s.disk.log[..m]), History(s.past), LastSeq(s.past), s.disk.wals, s.disk.ssts, s.garbage, s.obsolete);
    }
  }

  lemma FlushCaptureInv(s: State)
    requires Inv(s) && CanFlushCapture(s)
    ensures Inv(DoFlushCapture(s))
  {
    hide WalsOrdered, MemInv, ReadInv, TableInv, SnapInv, ReaderInv, Fits, Replay, FloorFor, Retain, WalSet, History, LastSeq,
      PastInv, WalInv, LogInv, Unnamed, LogWalsUpTo;
    FreshNumber(s);
    FrontMem(s);
  }

  lemma FrontMem(s: State)
    requires Inv(s) && s.phase != Down && s.imm != []
    ensures |s.cuts| == |s.imm| + 1 && s.imm[0].mem in s.mems
    ensures s.mems[s.imm[0].mem] == Slice(History(s.past), s.cuts[0], s.cuts[1])
  {
    hide WalsOrdered, ReadInv, TableInv, SnapInv, ReaderInv, Fits, Replay, FloorFor, Retain, WalSet, History, LastSeq, PastInv,
      WalInv, LogInv, CompInv, FlushInv, TailInv;
  }

  lemma FitsFrame(files: Files, data: Data, data': Data, j: Job)
    requires Fits(files, data, j) && files.Keys <= data.Keys
    requires forall n :: n in files ==> n in data' && data'[n] == data[n]
    ensures Fits(files, data', j)
  {
    TablesSame(j.inputs, data, data');
  }

  /** Both views of a running compaction's inputs are unaffected by other files. */
  lemma CompFrame(s: State, ssts': Data)
    requires Inv(s) && s.phase != Down && s.comp.Some?
    requires forall n :: n in s.disk.ssts && !Unnamed(s.disk, n) ==> n in ssts' && ssts'[n] == s.disk.ssts[n]
    ensures Fits(Replay(s.disk.log).files, ssts', s.comp.value)
  {
    hide WalsOrdered, MemInv, ReadInv, TableInv, SnapInv, ReaderInv, Fits, Replay, FloorFor, Retain, WalSet, History, LastSeq,
      PastInv, WalInv, LogInv, FlushInv, Complete, Levelled, Covers;
    var T := Replay(s.disk.log);
    TailEntry(s.disk, History(s.past), LastSeq(s.past), s.garbage, s.obsolete);
    forall n | n in T.files ensures n in ssts' && ssts'[n] == s.disk.ssts[n] {
      assert s.disk.log[..|s.disk.log|] == s.disk.log;
      SyncedBound(s);
      assert !Unnamed(s.disk, n);
    }
    FitsFrame(T.files, s.disk.ssts, ssts', s.comp.value);
  }

  lemma SyncedBound(s: State)
    requires DiskInv(s)
    ensures 1 <= s.disk.synced <= |s.disk.log|
  {
    hide WalsOrdered, ReaderInv, Replay, EntryInv, PastInv, LimboInv;
  }

  /** Writing a table file that nothing names yet. */
  lemma NewTableInv(s: State, n: nat, M: set<Version>)
    requires Inv(s) && s.phase != Down
    requires n < s.edit.next && n !in s.edit.files && Unnamed(s.disk, n)
    requires s.flush.Some? && s.flush.value.number == n ==> !s.flush.value.built
    requires s.comp.Some? && s.comp.value.number == n ==> !s.comp.value.built
    ensures Inv(s.(disk := s.disk.(ssts := s.disk.ssts[n := M])))
  {
    hide WalsOrdered, MemInv, ReadInv, SnapInv, ReaderInv, Fits, Replay, FloorFor, Retain, WalSet, History, LastSeq,
      PastInv, WalInv, LogInv, Covers, Levelled;
    LogFrame(s.disk, History(s.past), LastSeq(s.past), s.garbage, s.obsolete, s.disk.wals, s.disk.ssts[n := M]);
    if s.comp.Some? {
      CompFrame(s, s.disk.ssts[n := M]);
    }
  }

  lemma FlushBuildInv(s: State)
    requires Inv(s) && CanFlushBuild(s)
    ensures Inv(DoFlushBuild(s))
  {
    hide WalsOrdered, MemInv, ReadInv, TableInv, SnapInv, ReaderInv, Fits, Replay, FloorFor, Retain, WalSet, History, LastSeq,
      PastInv, WalInv, LogInv, Unnamed, LogWalsUpTo;
    var j := s.flush.value;
    NewTableInv(s, j.number, s.mems[j.imm.mem]);
  }

  lemma FlushFailInv(s: State)
    requires Inv(s) && CanFlushFail(s)
    ensures Inv(DoFlushFail(s))
  {
    hide WalsOrdered, MemInv, ReadInv, TableInv, SnapInv, ReaderInv, Fits, Replay, FloorFor, Retain, WalSet, History, LastSeq,
      PastInv, WalInv, LogInv, Unnamed, LogWalsUpTo;
  }

  // -------------------------------------------------------------------- publish

  lemma FlushTail(disk: Disk, persisted: Edit, edit: Edit, n: nat, meta: Meta, wal: nat)
    requires edit.files == persisted.files && n !in edit.files
    ensures Tail(disk, persisted, edit.(files := edit.files[n := meta], wal := wal)) ==
            Edit(edit.next, wal, edit.last, Replay(disk.log).files[n := meta])
  {
    var e := edit.(files := edit.files[n := meta], wal := wal);
    assert Diff(persisted, e).dels == {};
    assert Diff(persisted, e).adds == map[n := meta];
    assert (Replay(disk.log).files - {}) + map[n := meta] == Replay(disk.log).files[n := meta];
  }

  lemma AfterSuffix(H: set<Version>, c: nat)
    ensures SuffixOf(After(H, c), H)
  {
  }

  /** The log files from the next memtable on. */
  lemma NextLive(H: set<Version>, wals: Wals, imm: seq<Imm>, oldest: nat, activeWal: nat,
                 cuts: seq<nat>, editWal: nat, moved: bool)
    requires |cuts| == |imm| + 1 && imm != [] && WalInv(H, wals, imm, oldest, activeWal, cuts, editWal, moved)
    requires cuts[0] <= cuts[1]
    ensures var w := if |imm| > 1 then imm[1].wal else oldest;
            && 1 <= editWal <= w <= oldest <= activeWal
            && After(H, cuts[1]) <= WalSet(wals, w) <= After(H, cuts[0]) && SuffixOf(WalSet(wals, w), H)
            && WalSet(wals, editWal) == After(H, cuts[0])
  {
    AfterSuffix(H, cuts[0]);
    AfterSuffix(H, cuts[1]);
  }

  lemma FlushEntry(s: State, meta: Meta)
    requires Inv(s) && CanFlushPublish(s, meta)
    ensures var e := s.edit.(files := s.edit.files[s.flush.value.number := meta], wal := NextLiveWal(s));
            && Tail(s.disk, s.persisted, e) ==
               Edit(e.next, e.wal, e.last, Replay(s.disk.log).files[s.flush.value.number := meta])
            && EntryInv(Tail(s.disk, s.persisted, e), History(s.past), LastSeq(s.past), s.disk.wals, s.disk.ssts, s.garbage, s.obsolete)
            && s.edit.wal <= e.wal <= s.oldest <= s.activeWal
  {
    hide WalsOrdered, ReadInv, TableInv, SnapInv, ReaderInv, Fits, Replay, FloorFor, Retain, WalSet, History, LastSeq,
      PastInv, WalInv, LogInv, Good, MetaFor, SuffixOf, Unique, AllUpTo, AllAbove, After, Slice;
    var H, last, n := History(s.past), LastSeq(s.past), s.flush.value.number;
    HistoryFacts(s.past);
    SaveFacts(s);
    FlushTail(s.disk, s.persisted, s.edit, n, meta, NextLiveWal(s));
    TailEntry(s.disk, H, last, s.garbage, s.obsolete);
    NextLive(H, s.disk.wals, s.imm, s.oldest, s.activeWal, s.cuts, s.edit.wal, s.phase == Closing(true));
    FlushGood(Replay(s.disk.log), H, last, s.disk.wals, s.disk.ssts, n, meta, s.edit.next, NextLiveWal(s), s.cuts[0], s.cuts[1]);
  }

  /** A flushed memtable shields a running compaction's inputs. */
  lemma FitsAdd(files: Files, data: Data, j: Job, n: nat, meta: Meta, data': Data)
    requires Fits(files, data, j) && files.Keys <= data.Keys && n !in files && meta.level == 0
    requires n in data' && UpClosed(Tables(j.inputs, data), data'[n])
    requires forall m :: m in files ==> m in data' && data'[m] == data[m]
    ensures Fits(files[n := meta], data', j)
  {
    TablesSame(j.inputs, data, data');
  }

  lemma FlushedUpClosed(H: set<Version>, inputs: set<nat>, tables: Data, lo: nat, hi: nat)
    requires forall n :: n in tables ==> tables[n] <= H && AllUpTo(tables[n], hi)
    ensures UpClosed(Tables(inputs, tables), Slice(H, lo, hi))
  {
  }

  lemma FlushFits(s: State, meta: Meta)
    requires Inv(s) && CanFlushPublish(s, meta) && s.comp.Some?
    ensures var n, j := s.flush.value.number, s.comp.value;
            && Fits(s.edit.files[n := meta], s.tables[n := s.mems[s.imm[0].mem]], j)
            && Fits(Replay(s.disk.log).files[n := meta], s.disk.ssts, j)
            && Tables(j.inputs, s.tables[n := s.mems[s.imm[0].mem]]) == Tables(j.inputs, s.tables)
  {
    hide WalsOrdered, MemInv, ReadInv, SnapInv, ReaderInv, Replay, FloorFor, Retain, WalSet, History, LastSeq, PastInv, WalInv,
      LogInv, Complete, Levelled, Covers, Tables, UpClosed, AllUpTo;
    var H, n, j, M := History(s.past), s.flush.value.number, s.comp.value, s.mems[s.imm[0].mem];
    FrontMem(s);
    SaveFacts(s);
    TailEntry(s.disk, H, LastSeq(s.past), s.garbage, s.obsolete);
    FlushedUpClosed(H, j.inputs, s.tables, s.cuts[0], s.cuts[1]);
    TablesSame(j.inputs, s.tables, s.disk.ssts);
    TablesSame(j.inputs, s.tables, s.tables[n := M]);
    FitsAdd(s.edit.files, s.tables, j, n, meta, s.tables[n := M]);
    FitsAdd(Replay(s.disk.log).files, s.disk.ssts, j, n, meta, s.disk.ssts);
  }

  lemma FlushFailedSave(s: State, meta: Meta, left: Left)
    requires Inv(s) && CanFlushPublish(s, meta)
    ensures Inv(DoFlushPublish(s, meta, SaveFailed(left)))
  {
    hide LogInv, WalsOrdered, WalInv, MemInv, ReadInv, TableInv, SnapInv, ReaderInv, PastInv, Fits, Replay, History, LastSeq,
      FloorFor, Retain, WalSet, Tail, EntryInv, LogWalsUpTo, Unnamed, Diff, MetaFor, AllUpTo, Tables;
    var n, save := s.flush.value.number, SaveFailed(left);
    var e := s.edit.(files := s.edit.files[n := meta], wal := NextLiveWal(s));
    SaveFacts(s);
    FlushEntry(s, meta);
    SaveLog(s.disk, s.persisted, e, save, History(s.past), LastSeq(s.past), s.garbage, s.obsolete, s.garbage, s.obsolete);
    SaveFrame(s.disk, s.persisted, e, save, s.activeWal);
    if s.comp.Some? {
      FlushFits(s, meta);
      SaveUnnamed(s.disk, s.persisted, e, save, s.comp.value.number);
    }
    LimboSave(s.disk, s.persisted, e, save, LastSeq(s.past));
  }

  lemma LimboSave(disk: Disk, persisted: Edit, e: Edit, save: Save, last: nat)
    requires LimboInv(disk, last) && 1 <= disk.synced <= |disk.log|
    requires disk.limbo.Some? ==> Tail(disk, persisted, e).wal <= disk.limbo.value.wal
    ensures LimboInv(LogSave(disk, persisted, e, save), last)
  {
    hide ApplyRec, Diff, Replay, ValidKey;
    if disk.limbo.Some? {
      SaveFrame(disk, persisted, e, save, disk.limbo.value.wal);
    }
  }

  lemma FlushMemInv(H: set<Version>, last: nat, mems: Data, nextMem: nat, active: nat, imm: seq<Imm>, cuts: seq<nat>)
    requires MemInv(H, last, mems, nextMem, active, imm, cuts) && imm != []
    ensures MemInv(H, last, mems, nextMem, active, imm[1..], cuts[1..])
  {
  }

  lemma FlushWalInv(H: set<Version>, wals: Wals, imm: seq<Imm>, oldest: nat, activeWal: nat,
                    cuts: seq<nat>, editWal: nat, moved: bool)
    requires |cuts| == |imm| + 1 && imm != [] && WalInv(H, wals, imm, oldest, activeWal, cuts, editWal, moved)
    requires cuts[0] <= cuts[1]
    ensures WalInv(H, wals, imm[1..], oldest, activeWal, cuts[1..], if |imm| > 1 then imm[1].wal else oldest, moved)
  {
    NextLive(H, wals, imm, oldest, activeWal, cuts, editWal, moved);
  }

  lemma FlushTables(H: set<Version>, files: Files, tables: Data, ssts: Data, imm: seq<Imm>, cuts: seq<nat>, n: nat, meta: Meta)
    requires TableInv(H, files, tables, ssts, imm, cuts) && imm != [] && |cuts| == |imm| + 1
    requires forall i, j :: 0 <= i <= j < |cuts| ==> cuts[i] <= cuts[j]
    requires n !in files && n in ssts && ssts[n] == Slice(H, cuts[0], cuts[1]) && MetaFor(meta, 0, ssts[n])
    ensures TableInv(H, files[n := meta], tables[n := ssts[n]], ssts, imm[1..], cuts[1..])
  {
    hide DisjointRanges, InRange;
  }

  lemma FlushRead(H: set<Version>, last: nat, tables: Data, cuts: seq<nat>, floor: nat, n: nat)
    requires ReadInv(H, last, tables, cuts, floor) && |cuts| > 1 && cuts[0] <= cuts[1] && n !in tables
    ensures ReadInv(H, last, tables[n := Slice(H, cuts[0], cuts[1])], cuts[1..], floor)
  {
    var t := Slice(H, cuts[0], cuts[1]);
    var tables' := tables[n := t];
    TablesSame(tables.Keys, tables, tables');
    TablesAdd(tables.Keys, n, tables');
    assert tables'.Keys == tables.Keys + {n};
    assert Tables(tables'.Keys, tables') + After(H, cuts[1]) == Tables(tables.Keys, tables) + After(H, cuts[0]);
  }

  lemma FlushSavedDisk(s: State, meta: Meta)
    requires Inv(s) && CanFlushPublish(s, meta)
    ensures DiskInv(DoFlushPublish(s, meta, Saved))
  {
    hide LogInv, WalsOrdered, WalInv, MemInv, ReadInv, TableInv, SnapInv, ReaderInv, PastInv, Replay, History, LastSeq,
      Tail, EntryInv, LogWalsUpTo, Diff, MetaFor, LimboInv, CompInv;
    var n := s.flush.value.number;
    var H, last := History(s.past), LastSeq(s.past);
    var e := s.edit.(files := s.edit.files[n := meta], wal := NextLiveWal(s));
    SaveFacts(s);
    FlushEntry(s, meta);
    var o := if s.obsolete < NextLiveWal(s) then NextLiveWal(s) else s.obsolete;
    EntryObsolete(Tail(s.disk, s.persisted, e), H, last, s.disk.wals, s.disk.ssts, s.garbage, s.obsolete, o);
    SaveLog(s.disk, s.persisted, e, Saved, H, last, s.garbage, s.obsolete, s.garbage, o);
    LimboSave(s.disk, s.persisted, e, Saved, last);
  }

  lemma FlushSaved(s: State, meta: Meta)
    requires Inv(s) && CanFlushPublish(s, meta)
    ensures Inv(DoFlushPublish(s, meta, Saved))
  {
    hide DiskInv, WalInv, MemInv, ReadInv, TableInv, SnapInv, Fits, Replay, History, LastSeq,
      FloorFor, Retain, WalSet, Tail, EntryInv, LogWalsUpTo, Unnamed, Diff, MetaFor, Tables, Slice, After;
    FlushSavedDisk(s, meta);
    var n := s.flush.value.number;
    var H, last := History(s.past), LastSeq(s.past);
    var e := s.edit.(files := s.edit.files[n := meta], wal := NextLiveWal(s));
    SaveFacts(s);
    FrontMem(s);
    CutsOrdered(H, last, s.mems, s.nextMem, s.active, s.imm, s.cuts);
    FlushEntry(s, meta);
    SaveFrame(s.disk, s.persisted, e, Saved, s.activeWal);
    if s.comp.Some? {
      FlushFits(s, meta);
      SaveUnnamed(s.disk, s.persisted, e, Saved, s.comp.value.number);
    }
    FlushMemInv(H, last, s.mems, s.nextMem, s.active, s.imm, s.cuts);
    FlushWalInv(H, s.disk.wals, s.imm, s.oldest, s.activeWal, s.cuts, s.edit.wal, s.phase == Closing(true));
    FlushTables(H, s.edit.files, s.tables, s.disk.ssts, s.imm, s.cuts, n, meta);
    KeysOfTables(H, s.edit.files, s.tables, s.disk.ssts, s.imm, s.cuts);
    FlushRead(H, last, s.tables, s.cuts, s.floor, n);
  }

  lemma CutsOrdered(H: set<Version>, last: nat, mems: Data, nextMem: nat, active: nat, imm: seq<Imm>, cuts: seq<nat>)
    requires MemInv(H, last, mems, nextMem, active, imm, cuts)
    ensures forall i, j :: 0 <= i <= j < |cuts| ==> cuts[i] <= cuts[j]
  {
  }

  lemma KeysOfTables(H: set<Version>, files: Files, tables: Data, ssts: Data, imm: seq<Imm>, cuts: seq<nat>)
    requires TableInv(H, files, tables, ssts, imm, cuts)
    ensures tables.Keys == files.Keys
  {
  }

  lemma EntryObsolete(e: Edit, H: set<Version>, last: nat, wals: Wals, ssts: Data, g: set<nat>, o: nat, o': nat)
    requires EntryInv(e, H, last, wals, ssts, g, o) && o' <= e.wal
    ensures EntryInv(e, H, last, wals, ssts, g, o')
  {
  }
}
