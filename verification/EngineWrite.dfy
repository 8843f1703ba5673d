/** Writes and memtable switches keep the engine invariant. */
module EngineWrite {
  import opened Bytes
  import opened Versions
  import opened Store
  import opened Compaction
  import opened Engine
  import opened EngineInv

  lemma WriteLog(disk: Disk, H: set<Version>, last: nat, garbage: set<nat>, obsolete: nat, w: nat, b: Batch)
    requires LogInv(disk.log, disk.synced, H, last, disk.wals, disk.ssts, garbage, obsolete) && LogWalsUpTo(disk, w)
    requires AllUpTo(H, last) && Unique(H + BatchSet(b)) && b.first == last + 1 && b.ops != [] && w in disk.wals
    ensures LogInv(disk.log, disk.synced, H + BatchSet(b), BatchLast(b), disk.wals[w := disk.wals[w] + [b]], disk.ssts,
                   garbage, obsolete)
  {
    hide Good, Unique, AllUpTo, BatchSet;
    forall n | disk.synced <= n <= |disk.log|
      ensures EntryInv(Replay(disk.log[..n]), H + BatchSet(b), BatchLast(b), disk.wals[w := disk.wals[w] + [b]],
                       disk.ssts, garbage, obsolete)
    {
      GoodWrite(Replay(disk.log[..n]), H, last, disk.wals, disk.ssts, w, b);
    }
  }

  lemma WriteWals(wals: Wals, last: nat, w: nat, b: Batch)
    requires WalsOrdered(wals, last) && w in wals && (forall x :: x in wals && x > w ==> wals[x] == [])
    requires b.first == last + 1 && b.ops != []
    ensures WalsOrdered(wals[w := wals[w] + [b]], BatchLast(b))
  {
    var wals' := wals[w := wals[w] + [b]];
    forall x, i, y, j | x in wals' && y in wals' && 0 <= i < |wals'[x]| && 0 <= j < |wals'[y]| && (x < y || (x == y && i < j))
      ensures BatchLast(wals'[x][i]) < wals'[y][j].first
    {
      assert x <= w && y <= w;
      assert !(x == w && i == |wals[w]|);
      assert wals'[x][i] == wals[x][i];
      if !(y == w && j == |wals[w]|) {
        assert wals'[y][j] == wals[y][j];
      }
    }
  }

  lemma WriteMem(H: set<Version>, last: nat, mems: Data, nextMem: nat, active: nat, imm: seq<Imm>, cuts: seq<nat>,
                 B: set<Version>, last': nat)
    requires MemInv(H, last, mems, nextMem, active, imm, cuts) && AllUpTo(H, last) && AllAbove(B, last) && last <= last'
    ensures MemInv(H + B, last', mems[active := mems[active] + B], nextMem, active, imm, cuts)
  {
    SlicesGrow(H, B, last);
  }

  lemma WriteWalInv(H: set<Version>, last: nat, wals: Wals, imm: seq<Imm>, oldest: nat, activeWal: nat,
                    cuts: seq<nat>, editWal: nat, b: Batch)
    requires |cuts| == |imm| + 1 && WalInv(H, wals, imm, oldest, activeWal, cuts, editWal, false)
    requires AllUpTo(H, last) && b.first == last + 1
    requires forall i :: 0 <= i < |cuts| ==> cuts[i] <= last
    ensures WalInv(H + BatchSet(b), wals[activeWal := wals[activeWal] + [b]], imm, oldest, activeWal, cuts, editWal, false)
  {
    var B := BatchSet(b);
    var wals' := wals[activeWal := wals[activeWal] + [b]];
    BatchAbove(b);
    forall lo: nat | lo <= activeWal ensures WalSet(wals', lo) == WalSet(wals, lo) + B {
      WalSetAppend(wals, activeWal, b, lo);
    }
    SlicesGrow(H, B, last);
    SuffixGrow(WalSet(wals, editWal), H, B, last);
  }

  lemma WriteRead(H: set<Version>, last: nat, files: Files, tables: Data, ssts: Data, imm: seq<Imm>, cuts: seq<nat>, floor: nat,
                  B: set<Version>, last': nat)
    requires ReadInv(H, last, tables, cuts, floor) && TableInv(H, files, tables, ssts, imm, cuts)
    requires AllUpTo(H, last) && AllAbove(B, last) && last <= last' && Unique(H + B) && cuts[0] <= last
    ensures ReadInv(H + B, last', tables, cuts, floor)
  {
    var S := Tables(tables.Keys, tables) + After(H, cuts[0]);
    SlicesGrow(H, B, last);
    assert S <= H;
    UniqueSubset(S + B, H + B);
    AgreeAddNewer(S, H, B, floor, last);
    assert S + B == Tables(tables.Keys, tables) + After(H + B, cuts[0]);
  }

  lemma WriteTable(H: set<Version>, files: Files, tables: Data, ssts: Data, imm: seq<Imm>, cuts: seq<nat>, B: set<Version>)
    requires TableInv(H, files, tables, ssts, imm, cuts)
    ensures TableInv(H + B, files, tables, ssts, imm, cuts)
  {
  }

  lemma WriteSnaps(snaps: seq<Snap>, past: seq<Batch>, last: nat, floor: nat, b: Batch, last': nat)
    requires SnapInv(snaps, past, last, floor) && last <= last'
    ensures SnapInv(snaps, past + [b], last', floor)
  {
    forall i | 0 <= i < |snaps| && snaps[i].active ensures AtBoundary(past + [b], snaps[i].seqno) {
      BoundaryGrow(past, b, snaps[i].seqno);
    }
  }

  /** New versions in a pinned memtable are above the reader's sequence. */
  lemma {:induction false} LookupGrow(ids: seq<nat>, mems: Data, tables: Data, a: nat, B: set<Version>, k: Blob, r: nat)
    requires a in mems && AllAbove(B, r) && Unique(mems[a] + B)
    ensures Lookup(ids, mems[a := mems[a] + B], tables, k, r) == Lookup(ids, mems, tables, k, r)
  {
    if ids != [] {
      LookupGrow(ids[1..], mems, tables, a, B, k, r);
      if ids[0] == a {
        NewestAddInvisible(mems[a], B, k, r);
      }
    }
  }

  lemma WriteReader(past: seq<Batch>, mems: Data, rd: Reader, a: nat, b: Batch)
    requires PastInv(past) && PastInv(past + [b]) && LastSeq(past) >= 0
    requires History(past + [b]) == History(past) + BatchSet(b) && AllAbove(BatchSet(b), LastSeq(past))
    requires ReaderOk(past, mems, rd) && a in mems && mems[a] <= History(past)
    ensures ReaderOk(past + [b], mems[a := mems[a] + BatchSet(b)], rd)
  {
    var B, H := BatchSet(b), History(past);
    BoundaryGrow(past, b, rd.r);
    BoundaryBelow(past, rd.r);
    HistoryFacts(past + [b]);
    UniqueSubset(mems[a] + B, H + B);
    forall k ensures ValueOf(Lookup(rd.mems, mems[a := mems[a] + B], rd.tables, k, rd.r)) == Answer(History(past + [b]), k, rd.r) {
      LookupGrow(rd.mems, mems, rd.tables, a, B, k, rd.r);
      NewestAddInvisible(H, B, k, rd.r);
    }
  }

  lemma WriteReaders(past: seq<Batch>, mems: Data, nextMem: nat, readers: set<Reader>, a: nat, b: Batch)
    requires PastInv(past) && PastInv(past + [b]) && LastSeq(past) >= 0
    requires History(past + [b]) == History(past) + BatchSet(b) && AllAbove(BatchSet(b), LastSeq(past))
    requires ReaderInv(past, mems, nextMem, readers) && a in mems && mems[a] <= History(past)
    ensures ReaderInv(past + [b], mems[a := mems[a] + BatchSet(b)], nextMem, readers)
  {
    hide ReaderOk, PastInv;
    forall rd | rd in readers ensures ReaderOk(past + [b], mems[a := mems[a] + BatchSet(b)], rd) {
      WriteReader(past, mems, rd, a, b);
    }
  }

  lemma WriteCommitted(s: State, ops: seq<Op>)
    requires Inv(s) && CanWrite(s, ops)
    ensures Inv(DoWrite(s, ops, Appended))
  {
    hide LogInv, WalsOrdered, MemInv, ReadInv, TableInv, SnapInv, ReaderInv, PastInv, Fits, Replay,
      AllUpTo, AllAbove, Unique, History, LastSeq, BatchSet, FloorFor, Retain;
    var b, s' := NewBatch(s, ops), DoWrite(s, ops, Appended);
    var H, last := History(s.past), LastSeq(s.past);
    HistoryFacts(s.past);
    PastSnoc(s.past, b);
    HistoryFacts(s.past + [b]);
    MemFacts(H, last, s.mems, s.nextMem, s.active, s.imm, s.cuts);
    WriteLog(s.disk, H, last, s.garbage, s.obsolete, s.activeWal, b);
    WriteWals(s.disk.wals, last, s.activeWal, b);
    WriteMem(H, last, s.mems, s.nextMem, s.active, s.imm, s.cuts, BatchSet(b), BatchLast(b));
    WriteWalInv(H, last, s.disk.wals, s.imm, s.oldest, s.activeWal, s.cuts, s.edit.wal, b);
    WriteRead(H, last, s.edit.files, s.tables, s.disk.ssts, s.imm, s.cuts, s.floor, BatchSet(b), BatchLast(b));
    WriteTable(H, s.edit.files, s.tables, s.disk.ssts, s.imm, s.cuts, BatchSet(b));
    WriteSnaps(s.snaps, s.past, last, s.floor, b, BatchLast(b));
    WriteReaders(s.past, s.mems, s.nextMem, s.readers, s.active, b);
  }

  lemma MemFacts(H: set<Version>, last: nat, mems: Data, nextMem: nat, active: nat, imm: seq<Imm>, cuts: seq<nat>)
    requires MemInv(H, last, mems, nextMem, active, imm, cuts)
    ensures active in mems && mems[active] <= H
    ensures |cuts| == |imm| + 1 && forall i :: 0 <= i < |cuts| ==> cuts[i] <= last
  {
  }

  lemma WriteFailed(s: State, ops: seq<Op>, written: bool)
    requires Inv(s) && CanWrite(s, ops)
    ensures Inv(DoWrite(s, ops, AppendFailed(written)))
  {
    hide LogInv, WalsOrdered, MemInv, ReadInv, TableInv, SnapInv, ReaderInv, PastInv, Fits, Replay, WalSet,
      History, LastSeq, FloorFor, Retain;
  }

  // ------------------------------------------------------------ memtable switch

  /** The record a switch appends changes no file. */
  lemma SwitchTail(disk: Disk, persisted: Edit, edit: Edit, next: nat)
    requires edit.files == persisted.files
    ensures Tail(disk, persisted, edit.(next := next)) == Edit(next, edit.wal, edit.last, Replay(disk.log).files)
  {
    assert (Replay(disk.log).files - {}) + map[] == Replay(disk.log).files;
  }

  lemma NewWal(wals: Wals, w: nat, lo: nat)
    requires w in wals ==> wals[w] == []
    ensures WalSet(wals[w := []], lo) == WalSet(wals, lo)
  {
    WalSetSame(wals, wals[w := []], lo);
  }

  lemma SwitchWals(H: set<Version>, wals: Wals, imm: seq<Imm>, oldest: nat, activeWal: nat,
                   cuts: seq<nat>, editWal: nat, w: nat)
    requires |cuts| == |imm| + 1 && WalInv(H, wals, imm, oldest, activeWal, cuts, editWal, false)
    requires w > activeWal
    ensures WalInv(H, wals[w := []], imm, oldest, activeWal, cuts, editWal, false)
  {
    forall lo: nat ensures WalSet(wals[w := []], lo) == WalSet(wals, lo) {
      NewWal(wals, w, lo);
    }
  }

  /** State with the new, empty log file on disk. */
  function WithWal(s: State): State {
    s.(disk := s.disk.(wals := s.disk.wals[s.edit.next := []]))
  }

  lemma WithWalInv(s: State)
    requires Inv(s) && CanSwitch(s)
    ensures Inv(WithWal(s))
  {
    hide LogInv, WalsOrdered, WalInv, MemInv, ReadInv, TableInv, SnapInv, ReaderInv, PastInv, Fits, Replay, History, LastSeq,
      FloorFor, Retain, WalSet;
    var H, last := History(s.past), LastSeq(s.past);
    MemFacts(H, last, s.mems, s.nextMem, s.active, s.imm, s.cuts);
    SwitchWals(H, s.disk.wals, s.imm, s.oldest, s.activeWal, s.cuts, s.edit.wal, s.edit.next);
    EmptyWalOrdered(s.disk.wals, last, s.edit.next);
    LogFrame(s.disk, H, last, s.garbage, s.obsolete, s.disk.wals[s.edit.next := []], s.disk.ssts);
  }

  lemma EmptyWalOrdered(wals: Wals, last: nat, w: nat)
    requires WalsOrdered(wals, last)
    ensures WalsOrdered(wals[w := []], last)
  {
  }

  /** The record a switch saves is good wherever the log ends. */
  lemma SwitchEntry(s: State, next: nat)
    requires Inv(s) && s.phase != Down && next > s.edit.next
    ensures EntryInv(Tail(s.disk, s.persisted, s.edit.(next := next)), History(s.past), LastSeq(s.past), s.disk.wals, s.disk.ssts,
                     s.garbage, s.obsolete)
    ensures Tail(s.disk, s.persisted, s.edit.(next := next)) == Edit(next, s.edit.wal, s.edit.last, Replay(s.disk.log).files)
  {
    hide WalsOrdered, MemInv, ReadInv, TableInv, SnapInv, ReaderInv, Fits, Replay, FloorFor, Retain, WalSet, LogInv, History, LastSeq,
      Good, PastInv, SuffixOf, CompInv, FlushInv, LimboInv;
    var H, last := History(s.past), LastSeq(s.past);
    HistoryFacts(s.past);
    SwitchTail(s.disk, s.persisted, s.edit, next);
    TailEntry(s.disk, H, last, s.garbage, s.obsolete);
    GoodScalars(Replay(s.disk.log), H, last, s.disk.wals, s.disk.ssts, next, s.edit.wal);
  }

  lemma SwitchSaveFailed(s: State, left: Left)
    requires Inv(s) && CanSwitch(s)
    ensures Inv(DoSwitch(s, SwitchSave(left)))
  {
    hide LogInv, WalsOrdered, WalInv, MemInv, ReadInv, TableInv, SnapInv, ReaderInv, PastInv, Fits, Replay, History, LastSeq,
      FloorFor, Retain, WalSet, Tail, EntryInv, LogWalsUpTo, Unnamed, Diff;
    WithWalInv(s);
    var t, e := WithWal(s), s.edit.(next := s.edit.next + 1);
    SaveFacts(t);
    SwitchEntry(t, s.edit.next + 1);
    SaveLog(t.disk, t.persisted, e, SaveFailed(left), History(s.past), LastSeq(s.past), s.garbage, s.obsolete, s.garbage, s.obsolete);
    SaveFrame(t.disk, t.persisted, e, SaveFailed(left), s.activeWal);
    if s.flush.Some? {
      SaveUnnamed(t.disk, t.persisted, e, SaveFailed(left), s.flush.value.number);
    }
    if s.comp.Some? {
      SaveUnnamed(t.disk, t.persisted, e, SaveFailed(left), s.comp.value.number);
    }
  }

  lemma SaveFacts(s: State)
    requires Inv(s) && s.phase != Down
    ensures 1 <= s.disk.synced <= |s.disk.log|
    ensures s.edit.wal <= s.activeWal && Replay(s.disk.log).wal <= s.activeWal
    ensures s.flush.Some? ==> s.flush.value.number !in Replay(s.disk.log).files
    ensures s.comp.Some? ==> s.comp.value.number !in Replay(s.disk.log).files
  {
    hide WalsOrdered, MemInv, ReadInv, TableInv, SnapInv, ReaderInv, Fits, Replay, FloorFor, Retain, WalSet, History, LastSeq,
      PastInv, EntryInv;
    assert s.disk.log[..|s.disk.log|] == s.disk.log;
  }

  lemma SwitchRead(H: set<Version>, last: nat, tables: Data, cuts: seq<nat>, floor: nat)
    requires ReadInv(H, last, tables, cuts, floor)
    ensures ReadInv(H, last, tables, cuts + [last], floor)
  {
  }

  lemma SwitchMemInv(H: set<Version>, last: nat, mems: Data, nextMem: nat, active: nat, imm: seq<Imm>, cuts: seq<nat>, wal: nat)
    requires MemInv(H, last, mems, nextMem, active, imm, cuts) && AllUpTo(H, last)
    requires nextMem !in mems
    ensures MemInv(H, last, mems[nextMem := {}], nextMem + 1, nextMem, imm + [Imm(active, wal)], cuts + [last])
  {
  }

  lemma SwitchWalInv(H: set<Version>, last: nat, wals: Wals, imm: seq<Imm>, oldest: nat, activeWal: nat,
                     cuts: seq<nat>, editWal: nat, w: nat, active: nat)
    requires |cuts| == |imm| + 1 && WalInv(H, wals, imm, oldest, activeWal, cuts, editWal, false)
    requires AllUpTo(H, last) && w > activeWal && w in wals
    ensures WalInv(H, wals, imm + [Imm(active, oldest)], w, w, cuts + [last], editWal, false)
  {
    hide SuffixOf;
    assert WalSet(wals, w) == {};
    assert After(H, last) == {};
  }

  lemma SwitchTables(H: set<Version>, last: nat, files: Files, tables: Data, ssts: Data, imm: seq<Imm>, cuts: seq<nat>, x: Imm)
    requires TableInv(H, files, tables, ssts, imm, cuts) && |cuts| == |imm| + 1 && AllUpTo(H, last)
    ensures TableInv(H, files, tables, ssts, imm + [x], cuts + [last])
  {
    hide Covers, Levelled;
  }

  /** A memtable object no reader holds changes no reader. */
  lemma NewMemReaders(past: seq<Batch>, mems: Data, nextMem: nat, readers: set<Reader>, M: set<Version>)
    requires ReaderInv(past, mems, nextMem, readers)
    ensures ReaderInv(past, mems[nextMem := M], nextMem + 1, readers) && nextMem !in mems
  {
    forall rd | rd in readers ensures ReaderOk(past, mems[nextMem := M], rd) {
      assert ReaderOk(past, mems, rd);
      forall k ensures ValueOf(Lookup(rd.mems, mems[nextMem := M], rd.tables, k, rd.r)) == Answer(History(past), k, rd.r) {
        LookupFrame(rd.mems, mems, mems[nextMem := M], rd.tables, k, rd.r);
      }
    }
  }

  lemma {:induction false} LookupFrame(ids: seq<nat>, mems: Data, mems': Data, tables: Data, k: Blob, r: nat)
    requires forall i :: 0 <= i < |ids| ==> ids[i] in mems && ids[i] in mems' && mems[ids[i]] == mems'[ids[i]]
    ensures Lookup(ids, mems, tables, k, r) == Lookup(ids, mems', tables, k, r)
  {
    if ids != [] {
      LookupFrame(ids[1..], mems, mems', tables, k, r);
    }
  }

  lemma SwitchDone(s: State)
    requires Inv(s) && CanSwitch(s)
    ensures Inv(DoSwitch(s, Switched))
  {
    hide LogInv, WalsOrdered, WalInv, MemInv, ReadInv, TableInv, SnapInv, ReaderInv, PastInv, Fits, Replay, History, LastSeq,
      FloorFor, Retain, WalSet, Tail, EntryInv, LogWalsUpTo, Unnamed, Diff, AllUpTo, Unique, AllAbove;
    WithWalInv(s);
    var t, e := WithWal(s), s.edit.(next := s.edit.next + 1);
    var H, last := History(s.past), LastSeq(s.past);
    HistoryFacts(s.past);
    SaveFacts(t);
    SwitchEntry(t, s.edit.next + 1);
    SaveLog(t.disk, t.persisted, e, Saved, H, last, s.garbage, s.obsolete, s.garbage, s.obsolete);
    LogWalsMono(t.disk, s.activeWal, s.edit.next);
    SaveFrame(t.disk, t.persisted, e, Saved, s.edit.next);
    MemFacts(H, last, s.mems, s.nextMem, s.active, s.imm, s.cuts);
    NewMemReaders(s.past, s.mems, s.nextMem, s.readers, {});
    SwitchMemInv(H, last, s.mems, s.nextMem, s.active, s.imm, s.cuts, s.oldest);
    SwitchWalInv(H, last, t.disk.wals, s.imm, s.oldest, s.activeWal, s.cuts, s.edit.wal, s.edit.next, s.active);
    SwitchTables(H, last, s.edit.files, s.tables, s.disk.ssts, s.imm, s.cuts, Imm(s.active, s.oldest));
    SwitchRead(H, last, s.tables, s.cuts, s.floor);
    if s.flush.Some? {
      SaveUnnamed(t.disk, t.persisted, e, Saved, s.flush.value.number);
    }
    if s.comp.Some? {
      SaveUnnamed(t.disk, t.persisted, e, Saved, s.comp.value.number);
    }
  }
}
