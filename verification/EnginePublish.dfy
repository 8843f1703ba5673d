/** What publishing a flush or a compaction keeps, in every run: answers, levels, and the
    checks the code makes before it publishes. */
module EnginePublish {
  import opened Bytes
  import opened Versions
  import opened Store
  import opened Compaction
  import opened Engine
  import opened EngineInv
  import opened EngineFlush
  import opened EngineRead
  import opened EngineTheorems

  // -------------------------------------------------------- compaction changes no answer

  predicate SameJob(a: Job, b: Job) {
    a.(built := false) == b.(built := false)
  }

  /** While a compaction is under way neither it nor the floor changes. */
  lemma JobKept(s: State, step: Step)
    requires Enabled(s, step) && s.comp.Some? && Effect(s, step).comp.Some?
    ensures SameJob(Effect(s, step).comp.value, s.comp.value) && Effect(s, step).floor == s.floor
  {
    hide CanWrite, CanOpen, CanOpenCut, CanFlushPublish, CanCompactPublish, BatchSet, NewBatch, LogSave, Inactive, MemsNewestFirst,
      Selects, Retain, MinActive, Tables, NextLiveWal;
  }

  /** What a captured compaction preserves reaches down to the last sequence at capture. */
  lemma {:induction false} FloorsAtCapture(states: seq<State>, steps: seq<Step>, i: nat, j: nat)
    requires Run(states, steps) && i < j < |states| && NeverCut(steps, j) && steps[i].CompactCapture?
    requires forall m :: i < m <= j ==> states[m].comp.Some?
    ensures states[j].floor == states[i].floor && SameJob(states[j].comp.value, steps[i].job)
    ensures states[j].floor <= states[i].edit.last && states[j].comp.value.floor <= states[i].edit.last
    decreases j
  {
    hide Init, Enabled, Effect, Inv;
    if j == i + 1 {
      RunInv(states, steps, i);
      CaptureFloors(states[i], steps[i].job);
    } else {
      FloorsAtCapture(states, steps, i, j - 1);
      assert states[j] == Effect(states[j - 1], steps[j - 1]);
      JobKept(states[j - 1], steps[j - 1]);
    }
  }

  lemma CaptureFloors(s: State, job: Job)
    requires Inv(s) && Enabled(s, CompactCapture(job))
    ensures var t := Effect(s, CompactCapture(job));
            t.comp == Some(job) && t.floor == s.floor <= s.edit.last && job.floor <= s.edit.last
  {
    hide LogInv, WalsOrdered, WalInv, MemInv, TableInv, ReaderInv, PastInv, Replay, History, LastSeq, Retain, WalSet, LogWalsUpTo,
      Unnamed, TailInv, FlushInv, CompInv, Selects, Agree, AtBoundary, MinActive;
    MinActiveAtMost(s.snaps, LastSeq(s.past));
  }

  lemma {:induction false} MinActiveAtMost(snaps: seq<Snap>, last: nat)
    requires forall i :: 0 <= i < |snaps| && snaps[i].active ==> snaps[i].seqno <= last
    ensures MinActive(snaps) <= last
  {
    if snaps != [] {
      MinActiveAtMost(snaps[..|snaps| - 1], last);
    }
  }

  /** Publishing a compaction, with its save succeeding or not, changes no answer at any read
      sequence from the last one at capture on, nor at any active snapshot, whatever writes,
      flushes and snapshots came in between. */
  lemma CompactionInvisible(states: seq<State>, steps: seq<Step>, i: nat, j: nat, r: nat, k: Blob)
    requires Run(states, steps) && i < j < |steps| && NeverCut(steps, j)
    requires steps[i].CompactCapture? && steps[j].CompactPublish? && forall m :: i < m <= j ==> states[m].comp.Some?
    requires r >= states[i].edit.last || CanPin(states[j], r)
    ensures var s, t := states[j], states[j + 1];
            ValueOf(Lookup([t.active] + MemsNewestFirst(t.imm), t.mems, t.tables, k, r))
            == ValueOf(Lookup([s.active] + MemsNewestFirst(s.imm), s.mems, s.tables, k, r))
  {
    hide Inv, Init, Enabled, Lookup, Answer, MemsNewestFirst, History, Effect;
    var s, t := states[j], states[j + 1];
    RunInv(states, steps, j);
    assert Enabled(s, steps[j]) && t == Effect(s, steps[j]);
    StepInv(s, steps[j]);
    FloorsAtCapture(states, steps, i, j);
    PublishShape(s, steps[j].meta, steps[j].save, r);
    if CanPin(s, r) {
      GetRefines(s, r, k);
      GetRefines(t, r, k);
    } else {
      GetFromFloor(s, r, k);
      GetFromFloor(t, r, k);
    }
  }

  lemma PublishShape(s: State, meta: Meta, save: Save, r: nat)
    requires s.comp.Some? && Enabled(s, CompactPublish(meta, save))
    ensures var t := Effect(s, CompactPublish(meta, save));
            && t.past == s.past && t.phase == s.phase != Down && (CanPin(s, r) ==> CanPin(t, r))
            && (t.floor == s.floor || t.floor == s.comp.value.floor)
  {
    hide MetaFor, LogSave, Published;
  }

  // ---------------------------------------------------------------------- levels

  /** Everything the memtables of an open database hold. */
  function MemSet(s: State): set<Version> {
    set id, v | id in [s.active] + MemsNewestFirst(s.imm) && id in s.mems && v in s.mems[id] :: v
  }

  lemma MemSetIs(s: State)
    requires Inv(s) && s.phase != Down
    ensures |s.cuts| > 0 && MemSet(s) == After(History(s.past), s.cuts[0])
  {
    hide DiskInv, WalInv, TableInv, ReadInv, SnapInv, FlushInv, CompInv, TailInv, NumInv, History, LastSeq, MemsNewestFirst;
    var H, n, ids := History(s.past), |s.imm|, [s.active] + MemsNewestFirst(s.imm);
    MemsKnown(s.imm);
    assert forall i :: 0 <= i < |s.cuts| ==> s.cuts[0] <= s.cuts[i];
    forall v | v in MemSet(s) ensures v in After(H, s.cuts[0]) {
      var id :| id in ids && id in s.mems && v in s.mems[id];
      var i :| 0 <= i < |ids| && ids[i] == id;
      if i > 0 {
        assert id == s.imm[n - i].mem;
        assert s.mems[id] == Slice(H, s.cuts[n - i], s.cuts[n - i + 1]);
      }
    }
    forall v | v in After(H, s.cuts[0]) ensures v in MemSet(s) {
      var i := SliceOf(s.cuts, v.seqno);
      var id := if i == n then s.active else s.imm[i].mem;
      assert i < n ==> ids[n - i] == id;
      assert i == n ==> ids[0] == id;
      assert id in ids && id in s.mems && v in s.mems[id];
    }
  }

  /** The slice between cuts that a sequence above the first cut falls in. */
  lemma {:induction false} SliceOf(cuts: seq<nat>, q: nat) returns (i: nat)
    requires cuts != [] && q > cuts[0]
    ensures i < |cuts| && cuts[i] < q && (i + 1 < |cuts| ==> q <= cuts[i + 1])
  {
    i := |cuts| - 1;
    if q <= cuts[i] {
      i := SliceOf(cuts[..i], q);
    }
  }

  /** Nothing in Rest is older than a version of In of the same key. */
  ghost predicate NoOlder(In: set<Version>, Rest: set<Version>) {
    forall t, w :: t in In && w in Rest && w.key == t.key ==> w.seqno >= t.seqno
  }

  lemma SharedDecide(In: set<Version>, Rest: set<Version>)
    requires Shields(In, Rest)
    ensures NoOlder(In, Rest) <==> NoOlder(In * Rest, Rest)
  {
  }

  /** What an open database holds outside a set of tables: in the other tables, the memtables
      and the live log files. */
  ghost function Outside(s: State, inputs: set<nat>): set<Version> {
    Tables(s.tables.Keys - inputs, s.tables) + MemSet(s) + WalSet(s.disk.wals, s.edit.wal)
  }

  /** Comparisons that tell whether anything outside the inputs shares a version with them: the
      inputs end at the first memtable and before the live log files, and no level-0 table
      outside holds one of their versions. */
  ghost predicate Apart(s: State, inputs: set<nat>)
    requires |s.cuts| > 0 && s.tables.Keys <= s.edit.files.Keys
  {
    var In := Tables(inputs, s.tables);
    && AllUpTo(In, s.cuts[0])
    && (forall v, w :: v in In && w in WalSet(s.disk.wals, s.edit.wal) ==> v.seqno < w.seqno)
    && (forall n :: n in s.tables && n !in inputs && s.edit.files[n].level == 0 ==> s.tables[n] !! In)
  }

  lemma LevelsAt(s: State)
    requires Inv(s) && s.phase != Down
    ensures Levelled(s.edit.files) && Covers(s.edit.files, s.tables) && s.tables.Keys == s.edit.files.Keys
  {
    hide DiskInv, MemInv, WalInv, ReadInv, SnapInv, TailInv, FlushInv, CompInv, NumInv, Levelled, Covers;
  }

  /** In every open state of a run the ranges within level 1 and within level 2 are disjoint
      and cover their tables.  So when a compaction into level 2 publishes, whatever outside its
      inputs holds an older version of a key than one in the inputs, say than a tombstone about
      to be dropped, holds that one too; and there is no older version outside at all exactly if
      there is none below a version that is held both in the inputs and outside.  Nothing is held
      on both sides, so that nothing outside is older, exactly if the comparisons hold. */
  lemma LevelsHold(states: seq<State>, steps: seq<Step>, i: nat)
    requires Run(states, steps) && i < |states| && NeverCut(steps, i) && states[i].phase != Down
    ensures var s := states[i];
            && Levelled(s.edit.files) && Covers(s.edit.files, s.tables) && s.tables.Keys == s.edit.files.Keys && |s.cuts| > 0
            && (s.comp.Some? && s.comp.value.target == 2 ==>
                  var inputs := s.comp.value.inputs;
                  var In, Rest := Tables(inputs, s.tables), Outside(s, inputs);
                  && Shields(In, Rest) && (NoOlder(In, Rest) <==> NoOlder(In * Rest, Rest))
                  && (Apart(s, inputs) <==> In !! Rest) && (Apart(s, inputs) ==> NoOlder(In, Rest)))
  {
    hide Run, Inv, Levelled, Covers, Shields, Outside, NoOlder, Tables, Apart;
    RunInv(states, steps, i);
    LevelsAt(states[i]);
    MemCuts(states[i]);
    var s := states[i];
    if s.comp.Some? && s.comp.value.target == 2 {
      DroppedShielded(s);
      SharedDecide(Tables(s.comp.value.inputs, s.tables), Outside(s, s.comp.value.inputs));
      ApartExact(s);
      DisjointNoOlder(Tables(s.comp.value.inputs, s.tables), Outside(s, s.comp.value.inputs));
    }
  }

  lemma DisjointNoOlder(In: set<Version>, Rest: set<Version>)
    requires Shields(In, Rest)
    ensures In !! Rest ==> NoOlder(In, Rest)
  {
  }

  lemma ApartExact(s: State)
    requires Inv(s) && s.phase != Down && s.comp.Some? && s.comp.value.target == 2
    ensures |s.cuts| > 0 && s.tables.Keys <= s.edit.files.Keys
    ensures Apart(s, s.comp.value.inputs) <==> Tables(s.comp.value.inputs, s.tables) !! Outside(s, s.comp.value.inputs)
  {
    hide Inv, MemSet, WalSet, History, Tables, SuffixOf, Levelled, Covers, Fits;
    var j, H := s.comp.value, History(s.past);
    var In, W := Tables(j.inputs, s.tables), WalSet(s.disk.wals, s.edit.wal);
    LevelsAt(s);
    InputsKnown(s);
    MemSetIs(s);
    MemCuts(s);
    AfterApart(In, H, s.cuts[0]);
    SuffixApart(In, W, H);
    TablesApart(s.edit.files, s.tables, j);
  }

  lemma InputsKnown(s: State)
    requires Inv(s) && s.phase != Down && s.comp.Some?
    ensures Tables(s.comp.value.inputs, s.tables) <= History(s.past) && Fits(s.edit.files, s.tables, s.comp.value)
  {
    hide DiskInv, MemInv, WalInv, ReadInv, SnapInv, TailInv, FlushInv, NumInv, History, LastSeq, FloorFor, Retain, Unnamed, Replay,
      Levelled, Covers, Fits;
  }

  lemma AfterApart(In: set<Version>, H: set<Version>, c: nat)
    requires In <= H
    ensures In !! After(H, c) <==> AllUpTo(In, c)
  {
    if In !! After(H, c) {
      forall v | v in In ensures v.seqno <= c {
        assert v !in After(H, c);
      }
    }
  }

  lemma SuffixApart(In: set<Version>, W: set<Version>, H: set<Version>)
    requires In <= H && SuffixOf(W, H)
    ensures In !! W <==> forall v, w :: v in In && w in W ==> v.seqno < w.seqno
  {
    if forall v, w :: v in In && w in W ==> v.seqno < w.seqno {
      forall v | v in In ensures v !in W {
        assert v in W ==> v.seqno < v.seqno;
      }
    }
  }

  lemma TablesApart(files: Files, data: Data, j: Job)
    requires Levelled(files) && Covers(files, data) && files.Keys == data.Keys && Fits(files, data, j) && j.target == 2
    ensures Tables(j.inputs, data) !! Tables(data.Keys - j.inputs, data) <==>
            forall n :: n in data && n !in j.inputs && files[n].level == 0 ==> data[n] !! Tables(j.inputs, data)
  {
    hide Fits, Levelled, Leq;
    var In := Tables(j.inputs, data);
    forall n, v | n in data && n !in j.inputs && v in data[n] && v in In ensures files[n].level == 0 {
      var f :| f in j.inputs && f in data && v in data[f];
      assert InRange(files[n], v.key) && InRange(files[f], v.key);
      OnlyLevelZero(files, data, j, n, f, v.key);
    }
    if In !! Tables(data.Keys - j.inputs, data) {
      forall n | n in data && n !in j.inputs ensures data[n] !! In {
        forall v | v in data[n] ensures v !in In {
          InTables(v, n, data.Keys - j.inputs, data);
        }
      }
    }
  }

  lemma DroppedShielded(s: State)
    requires Inv(s) && s.phase != Down && s.comp.Some? && s.comp.value.target == 2
    ensures Shields(Tables(s.comp.value.inputs, s.tables), Outside(s, s.comp.value.inputs))
  {
    hide WalsOrdered, MemInv, ReadInv, SnapInv, TailInv, FlushInv, NumInv, Levelled, Covers, Shields, MemSet, WalSet, LogInv, LimboInv,
      ReaderInv, PastInv, Replay, History, LastSeq, FloorFor, Retain, Unnamed, Fits, SuffixOf;
    var j, H := s.comp.value, History(s.past);
    var In, R, W := Tables(j.inputs, s.tables), Tables(s.tables.Keys - j.inputs, s.tables), WalSet(s.disk.wals, s.edit.wal);
    RestShields(s.edit.files, s.tables, j);
    MemSetIs(s);
    AfterSuffix(H, s.cuts[0]);
    SuffixShields(In, MemSet(s), H);
    MemCuts(s);
    SuffixShields(In, W, H);
    ShieldsUnion(In, R, MemSet(s));
    ShieldsUnion(In, R + MemSet(s), W);
  }

  lemma MemCuts(s: State)
    requires Inv(s) && s.phase != Down
    ensures |s.cuts| == |s.imm| + 1 && SuffixOf(WalSet(s.disk.wals, s.edit.wal), History(s.past))
  {
    hide DiskInv, TableInv, ReadInv, SnapInv, FlushInv, CompInv, TailInv, NumInv, History, LastSeq, SuffixOf, WalSet;
  }

  // ------------------------------------------------------------- unreachable errors

  lemma ChecksAt(s: State)
    requires Inv(s) && s.phase != Down
    ensures s.flush.Some? ==> s.imm != [] && s.imm[0].wal == s.flush.value.imm.wal
    ensures s.comp.Some? ==> s.comp.value.inputs <= s.edit.files.Keys
  {
    hide DiskInv, MemInv, WalInv, TableInv, ReadInv, SnapInv, TailInv, NumInv, Unnamed, FloorFor, Retain, Replay;
  }

  /** In no run does a publish find the queue changed or an input gone, and every table that
      any manifest a crash may leave names is in the directory. */
  lemma PublishChecksHold(states: seq<State>, steps: seq<Step>, i: nat)
    requires Run(states, steps) && i < |states| && NeverCut(steps, i)
    ensures var s := states[i];
            && (s.phase != Down && s.flush.Some? ==> s.imm != [] && s.imm[0].wal == s.flush.value.imm.wal)
            && (s.phase != Down && s.comp.Some? ==> s.comp.value.inputs <= s.edit.files.Keys)
            && forall n :: s.disk.synced <= n <= |s.disk.log| ==> Replay(s.disk.log[..n]).files.Keys <= s.disk.ssts.Keys
  {
    hide Run, Inv, Replay;
    RunInv(states, steps, i);
    if states[i].phase != Down {
      ChecksAt(states[i]);
    }
    FilesPresent(states[i]);
  }

  lemma FilesPresent(s: State)
    requires Inv(s)
    ensures forall n :: s.disk.synced <= n <= |s.disk.log| ==> Replay(s.disk.log[..n]).files.Keys <= s.disk.ssts.Keys
  {
    hide LiveInv, TopInv, WalsOrdered, LimboInv, ReaderInv, PastInv, Replay, History, LastSeq, Covers, Levelled, Complete;
    forall n | s.disk.synced <= n <= |s.disk.log| ensures Replay(s.disk.log[..n]).files.Keys <= s.disk.ssts.Keys {
      assert EntryInv(Replay(s.disk.log[..n]), History(s.past), LastSeq(s.past), s.disk.wals, s.disk.ssts, s.garbage, s.obsolete);
    }
  }
}
