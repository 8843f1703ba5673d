/** Compaction keeps the engine invariant: whatever happened between capture and
    publish, no answer a reader may ask for changes. */
module EngineCompact {
  import opened Versions
  import opened Store
  import opened Compaction
  import opened Engine
  import opened EngineInv
  import opened EngineWrite
  import opened EngineFlush

  ghost predicate Nondecreasing(snaps: seq<Snap>) {
    forall i, j :: 0 <= i <= j < |snaps| && snaps[i].active && snaps[j].active ==> snaps[i].seqno <= snaps[j].seqno
  }

  /** 0 really means that no active snapshot sees anything; otherwise the result is
      the smallest active snapshot that does.  This rests on snapshots being listed
      in nondecreasing order. */
  lemma {:induction false} MinActiveSound(snaps: seq<Snap>)
    requires Nondecreasing(snaps)
    ensures forall i :: 0 <= i < |snaps| && snaps[i].active ==>
              snaps[i].seqno == 0 || (MinActive(snaps) > 0 && snaps[i].seqno >= MinActive(snaps))
    ensures MinActive(snaps) > 0 ==> exists i :: 0 <= i < |snaps| && snaps[i] == Snap(MinActive(snaps), true)
  {
    if snaps != [] {
      var n := |snaps| - 1;
      var init := snaps[..n];
      MinActiveSound(init);
      if MinActive(init) > 0 {
        var i :| 0 <= i < |init| && init[i] == Snap(MinActive(init), true);
        assert snaps[i] == Snap(MinActive(init), true);
      }
      assert MinActive(snaps) != MinActive(init) ==> snaps[n] == Snap(MinActive(snaps), true);
    }
  }

  /** Listed in another order, a snapshot at 0 would hide one above it. */
  lemma MinActiveNeedsOrder()
    ensures MinActive([Snap(7, true), Snap(0, true)]) == 0
  {
    var s := [Snap(7, true), Snap(0, true)];
    assert s[..1] == [Snap(7, true)] && s[..1][..0] == [];
    assert MinActive(s[..1]) == 7;
  }

  lemma CaptureFloor(H: set<Version>, last: nat, files: Files, tables: Data, ssts: Data, imm: seq<Imm>, cuts: seq<nat>,
                     snaps: seq<Snap>, past: seq<Batch>, floor: nat, inputs: set<nat>)
    requires TableInv(H, files, tables, ssts, imm, cuts) && AllUpTo(H, last) && SnapInv(snaps, past, last, floor)
    ensures var m := MinActive(snaps);
            var f := if m == 0 then last else m;
            && f <= last && FloorFor(Tables(inputs, tables), m, f)
            && forall i :: 0 <= i < |snaps| && snaps[i].active ==> snaps[i].seqno == 0 || snaps[i].seqno >= f
  {
    MinActiveSound(snaps);
  }

  lemma CompactCaptureInv(s: State, j: Job)
    requires Inv(s) && CanCompactCapture(s, j)
    ensures Inv(DoCompactCapture(s, j))
  {
    hide WalsOrdered, MemInv, ReadInv, TableInv, SnapInv, ReaderInv, Fits, Selects, Replay, FloorFor, Retain, WalSet, History,
      LastSeq, PastInv, WalInv, LogInv, Unnamed, LogWalsUpTo, Tables, MinActive, AllUpTo, Unique;
    FreshNumber(s);
    HistoryFacts(s.past);
    CaptureFloor(History(s.past), LastSeq(s.past), s.edit.files, s.tables, s.disk.ssts, s.imm, s.cuts, s.snaps, s.past, s.floor,
                 j.inputs);
    SelectsFits(s.edit.files, s.tables, j);
    SelectsFits(s.edit.files, s.disk.ssts, j);
  }

  lemma CompactBuildInv(s: State)
    requires Inv(s) && CanCompactBuild(s)
    ensures Inv(DoCompactBuild(s))
  {
    hide WalsOrdered, MemInv, ReadInv, TableInv, SnapInv, ReaderInv, Fits, Replay, FloorFor, Retain, WalSet, History, LastSeq,
      PastInv, WalInv, LogInv, Unnamed, LogWalsUpTo, Tables;
    var j := s.comp.value;
    NewTableInv(s, j.number, j.output);
    BuiltFits(s, s.disk.ssts[j.number := j.output]);
  }

  lemma BuiltFits(s: State, ssts': Data)
    requires Inv(s) && s.phase != Down && s.comp.Some?
    requires ssts' == s.disk.ssts[s.comp.value.number := s.comp.value.output]
    ensures Fits(Replay(s.disk.log).files, ssts', s.comp.value) && Fits(Replay(s.disk.log).files, ssts', s.comp.value.(built := true))
    ensures Fits(s.edit.files, s.tables, s.comp.value.(built := true))
  {
    hide WalsOrdered, MemInv, ReadInv, TableInv, SnapInv, ReaderInv, Replay, FloorFor, Retain, WalSet, History, LastSeq,
      PastInv, WalInv, LogInv, LogWalsUpTo, Tables, UpClosed, RangesOverlap, Within;
    CompFrame(s, ssts');
  }

  lemma CompactFailInv(s: State, removed: bool, fatal: bool)
    requires Inv(s) && CanCompactFail(s)
    ensures Inv(DoCompactFail(s, removed, fatal))
  {
    hide WalsOrdered, MemInv, ReadInv, SnapInv, ReaderInv, Fits, Replay, FloorFor, Retain, WalSet, History, LastSeq,
      PastInv, WalInv, LogInv, Covers, Levelled;
    var n := s.comp.value.number;
    LogFrame(s.disk, History(s.past), LastSeq(s.past), s.garbage, s.obsolete, s.disk.wals, s.disk.ssts - {n});
  }

  // -------------------------------------------------------------------- publish

  lemma CompactTail(disk: Disk, persisted: Edit, edit: Edit, j: Job, meta: Meta)
    requires edit.files == persisted.files && j.inputs <= edit.files.Keys && j.number !in edit.files
    ensures Tail(disk, persisted, edit.(files := Published(edit.files, j, meta))) ==
            Edit(edit.next, edit.wal, edit.last, Published(Replay(disk.log).files, j, meta))
  {
    var e := edit.(files := Published(edit.files, j, meta));
    assert e.files.Keys == (edit.files.Keys - j.inputs) + {j.number};
    assert Diff(persisted, e).dels == j.inputs;
    assert Diff(persisted, e).adds == map[j.number := meta];
  }

  lemma CompactEntry(s: State, meta: Meta)
    requires Inv(s) && CanCompactPublish(s, meta)
    ensures var j := s.comp.value;
            var e := s.edit.(files := Published(s.edit.files, j, meta));
            && Tail(s.disk, s.persisted, e) == Edit(e.next, e.wal, e.last, Published(Replay(s.disk.log).files, j, meta))
            && EntryInv(Tail(s.disk, s.persisted, e), History(s.past), LastSeq(s.past), s.disk.wals, s.disk.ssts, s.garbage + j.inputs, s.obsolete)
            && EntryInv(Tail(s.disk, s.persisted, e), History(s.past), LastSeq(s.past), s.disk.wals, s.disk.ssts, s.garbage, s.obsolete)
  {
    hide WalsOrdered, MemInv, ReadInv, SnapInv, ReaderInv, Fits, Replay, FloorFor, Retain, WalSet, History, LastSeq,
      PastInv, LogInv, Good, MetaFor, SuffixOf, Unique, AllUpTo, AllAbove, After, Slice, Tables, Covers, Levelled;
    var H, last, j := History(s.past), LastSeq(s.past), s.comp.value;
    HistoryFacts(s.past);
    SaveFacts(s);
    CompactTail(s.disk, s.persisted, s.edit, j, meta);
    TailEntry(s.disk, H, last, s.garbage, s.obsolete);
    TablesSame(j.inputs, s.tables, s.disk.ssts);
    CompactGood(Replay(s.disk.log), H, last, s.disk.wals, s.disk.ssts, j, meta, s.edit.next, s.edit.wal);
  }

  lemma CompactFailedSave(s: State, meta: Meta, left: Left)
    requires Inv(s) && CanCompactPublish(s, meta)
    ensures Inv(DoCompactPublish(s, meta, SaveFailed(left)))
  {
    hide LogInv, WalsOrdered, MemInv, ReadInv, TableInv, SnapInv, ReaderInv, PastInv, Fits, Replay, History, LastSeq,
      FloorFor, Retain, WalSet, Tail, EntryInv, LogWalsUpTo, Unnamed, Diff, MetaFor, AllUpTo, Tables, Published, SuffixOf;
    var j, save := s.comp.value, SaveFailed(left);
    var e := s.edit.(files := Published(s.edit.files, j, meta));
    SaveFacts(s);
    CompactEntry(s, meta);
    SaveLog(s.disk, s.persisted, e, save, History(s.past), LastSeq(s.past), s.garbage, s.obsolete, s.garbage, s.obsolete);
    SaveFrame(s.disk, s.persisted, e, save, s.activeWal);
    if s.flush.Some? {
      PublishedNames(Replay(s.disk.log).files, j, meta, s.flush.value.number);
      SaveUnnamed(s.disk, s.persisted, e, save, s.flush.value.number);
    }
    LimboSave(s.disk, s.persisted, e, save, LastSeq(s.past));
  }

  lemma PublishedNames(files: Files, j: Job, meta: Meta, n: nat)
    requires n !in files && n != j.number
    ensures n !in Published(files, j, meta)
  {
  }

  lemma CompactTables(H: set<Version>, files: Files, tables: Data, ssts: Data, imm: seq<Imm>, cuts: seq<nat>, j: Job, meta: Meta)
    requires TableInv(H, files, tables, ssts, imm, cuts) && Fits(files, tables, j)
    requires j.number !in files && j.number in ssts && ssts[j.number] == j.output
    requires j.output <= Tables(j.inputs, tables) && MetaFor(meta, j.target, j.output)
    ensures TableInv(H, Published(files, j, meta), (tables - j.inputs)[j.number := j.output], ssts, imm, cuts)
  {
    hide Levelled, Fits, InRange;
    CompactLevelled(files, tables, j, meta);
  }

  lemma CompactRead(H: set<Version>, last: nat, files: Files, tables: Data, ssts: Data, imm: seq<Imm>, cuts: seq<nat>, floor: nat, j: Job)
    requires ReadInv(H, last, tables, cuts, floor) && TableInv(H, files, tables, ssts, imm, cuts) && Fits(files, tables, j)
    requires Unique(H) && j.number !in files && j.floor <= last
    requires FloorFor(Tables(j.inputs, tables), j.minSnap, j.floor)
    requires j.output == Retain(Tables(j.inputs, tables), j.minSnap, j.target)
    ensures ReadInv(H, last, (tables - j.inputs)[j.number := j.output], cuts, if floor < j.floor then j.floor else floor)
  {
    hide Levelled, Covers, Fits, Agree, Retain, SuffixOf, Unique;
    var f := if floor < j.floor then j.floor else floor;
    var X := After(H, cuts[0]);
    var rest, tables' := files.Keys - j.inputs, (tables - j.inputs)[j.number := j.output];
    AfterSuffix(H, cuts[0]);
    AgreeRaise(Tables(tables.Keys, tables) + X, H, floor, f);
    CompactSources(files, tables, j, X, H, f);
    TablesSame(rest, tables, tables');
    TablesAdd(rest, j.number, tables');
    assert tables'.Keys == rest + {j.number};
  }

  lemma CompactSnaps(snaps: seq<Snap>, past: seq<Batch>, last: nat, floor: nat, f: nat)
    requires SnapInv(snaps, past, last, floor)
    requires forall i :: 0 <= i < |snaps| && snaps[i].active ==> snaps[i].seqno == 0 || snaps[i].seqno >= f
    ensures SnapInv(snaps, past, last, if floor < f then f else floor)
  {
    hide AtBoundary;
  }

  lemma CompactSaved(s: State, meta: Meta)
    requires Inv(s) && CanCompactPublish(s, meta)
    ensures Inv(DoCompactPublish(s, meta, Saved))
  {
    hide LogInv, WalsOrdered, WalInv, MemInv, ReadInv, TableInv, SnapInv, ReaderInv, PastInv, Fits, Replay, History, LastSeq,
      FloorFor, Retain, WalSet, Tail, EntryInv, LogWalsUpTo, Unnamed, Diff, MetaFor, AllUpTo, AllAbove, Unique, Tables;
    var j := s.comp.value;
    var H, last := History(s.past), LastSeq(s.past);
    var e := s.edit.(files := Published(s.edit.files, j, meta));
    HistoryFacts(s.past);
    SaveFacts(s);
    CompactEntry(s, meta);
    SaveLog(s.disk, s.persisted, e, Saved, H, last, s.garbage, s.obsolete, s.garbage + j.inputs, s.obsolete);
    SaveFrame(s.disk, s.persisted, e, Saved, s.activeWal);
    if s.flush.Some? {
      SaveUnnamed(s.disk, s.persisted, e, Saved, s.flush.value.number);
    }
    LimboSave(s.disk, s.persisted, e, Saved, last);
    RetainWithin(Tables(j.inputs, s.tables), j.minSnap, j.target);
    CompactTables(H, s.edit.files, s.tables, s.disk.ssts, s.imm, s.cuts, j, meta);
    CompactRead(H, last, s.edit.files, s.tables, s.disk.ssts, s.imm, s.cuts, s.floor, j);
    CompactSnaps(s.snaps, s.past, last, s.floor, j.floor);
    InputsOld(s);
  }

  lemma InputsOld(s: State)
    requires Inv(s) && s.phase != Down && s.comp.Some? && s.comp.value.inputs <= s.edit.files.Keys
    ensures forall n :: n in s.comp.value.inputs ==> n < s.edit.next
  {
    hide LogInv, WalsOrdered, WalInv, MemInv, ReadInv, SnapInv, ReaderInv, PastInv, Fits, Replay, History, LastSeq,
      FloorFor, Retain, LogWalsUpTo, Unnamed, Covers, Levelled;
  }

  lemma RetainWithin(In: set<Version>, m: nat, target: nat)
    ensures Retain(In, m, target) <= In
  {
  }
}
