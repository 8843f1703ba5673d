/** What holds in every run of the engine. */
module EngineTheorems {
  import opened Bytes
  import opened Versions
  import opened Store
  import opened Compaction
  import opened Engine
  import opened EngineInv
  import opened EngineWrite
  import opened EngineFlush
  import opened EngineCompact
  import opened EngineRead
  import opened EngineLifecycle
  import opened EngineRecover

  // --------------------------------------------------------------- all of Inv

  lemma InitInv(s: State)
    requires Init(s)
    ensures Inv(s)
  {
    hide WalsOrdered, Good, PastInv, History, LastSeq;
    var r := Rec(2, 1, 0, {}, map[]);
    assert s.disk.log == [] + [r];
    ReplaySnoc([], r);
    assert s.disk.log[..1] == s.disk.log;
    InitGood();
    InitOrdered();
  }

  lemma InitOrdered()
    ensures PastInv([]) && LastSeq([]) == 0 && WalsOrdered(map[], 0)
  {
  }

  lemma InitGood()
    ensures Good(Edit(2, 1, 0, map[]), History([]), 0, map[], map[])
  {
    var e := Edit(2, 1, 0, map[]);
    assert WalSet(map[], 1) == {} && Tables(e.files.Keys, map[]) == {};
    assert Tables(e.files.Keys, map[]) + WalSet(map[], 1) == History([]);
  }

  /** Every step but the one that opens a manifest cut off at a torn record. */
  lemma StepInv(s: State, step: Step)
    requires Inv(s) && Enabled(s, step) && !step.OpenCut?
    ensures Inv(Effect(s, step))
  {
    hide Inv;
    match step
    case Write(ops, append) =>
      if append == Appended {
        WriteCommitted(s, ops);
      } else {
        WriteFailed(s, ops, append.written);
      }
    case SwitchMem(outcome) =>
      match outcome {
        case Switched => SwitchDone(s);
        case SwitchSave(left) => SwitchSaveFailed(s, left);
        case WalOpenFailed(created) => WithWalInv(s);
      }
    case FlushCapture => FlushCaptureInv(s);
    case FlushBuild => FlushBuildInv(s);
    case FlushFail => FlushFailInv(s);
    case FlushPublish(meta, save) =>
      if save == Saved {
        FlushSaved(s, meta);
      } else {
        FlushFailedSave(s, meta, save.left);
      }
    case CompactCapture(j) => CompactCaptureInv(s, j);
    case CompactBuild => CompactBuildInv(s);
    case CompactFail(removed, fatal) => CompactFailInv(s, removed, fatal);
    case CompactPublish(meta, save) =>
      if save == Saved {
        CompactSaved(s, meta);
      } else {
        CompactFailedSave(s, meta, save.left);
      }
    case RemoveFile(n) => RemoveFileInv(s, n);
    case RemoveWal(w) => RemoveWalInv(s, w);
    case GetSnapshot => GetSnapshotInv(s);
    case ReleaseSnapshot(i) => ReleaseSnapshotInv(s, i);
    case Pin(r) => PinInv(s, r);
    case Unpin(reader) => UnpinInv(s, reader);
    case RecordError => RecordErrorInv(s);
    case CloseBegin => CloseBeginInv(s);
    case CloseEnd(save) => CloseEndInv(s, save);
    case Crash(kept, keepLimbo, tear) => CrashInv(s, kept, keepLimbo, tear);
    case Open(wal, oldest, next, last, cut) => OpenInv(s, wal, oldest, next, last, cut);
  }

  /** None of the first n steps opened a manifest cut off at a torn record. */
  predicate NeverCut(steps: seq<Step>, n: nat) {
    forall j :: 0 <= j < n && j < |steps| ==> !steps[j].OpenCut?
  }

  /** Every state of every run, whatever fails and wherever it crashes, as long as no reopen
      has dropped manifest records. */
  lemma {:induction false} RunInv(states: seq<State>, steps: seq<Step>, i: nat)
    requires Run(states, steps) && i < |states| && NeverCut(steps, i)
    ensures Inv(states[i])
  {
    hide Inv, Init, Effect, Enabled;
    if i == 0 {
      InitInv(states[0]);
    } else {
      RunInv(states, steps, i - 1);
      StepInv(states[i - 1], steps[i - 1]);
    }
  }

  // -------------------------------------------------------- reads and the fold

  /** What a plain Get returns now. */
  ghost function UserGet(s: State, k: Blob): Option<Blob> {
    ValueOf(Lookup([s.active] + MemsNewestFirst(s.imm), s.mems, s.tables, k, s.edit.last))
  }

  lemma GetFold(s: State, k: Blob)
    requires Inv(s) && s.phase != Down
    ensures UserGet(s, k) == Get(Fold(s.past), k)
  {
    hide Answer, Lookup, MemInv, WalInv, TableInv, ReadInv, SnapInv, CompInv, FlushInv, TailInv, LogInv, ReaderInv, WalsOrdered,
      History, LastSeq, Fold, Get, MemsNewestFirst;
    GetRefines(s, s.edit.last, k);
    FoldIsNewest(s.past, k);
  }

  lemma SnapshotFold(s: State, i: nat, k: Blob) returns (n: nat)
    requires Inv(s) && s.phase != Down && i < |s.snaps| && s.snaps[i].active
    ensures n <= |s.past| && s.snaps[i].seqno == LastSeq(s.past[..n])
    ensures ValueOf(Lookup([s.active] + MemsNewestFirst(s.imm), s.mems, s.tables, k, s.snaps[i].seqno)) == Get(Fold(s.past[..n]), k)
  {
    hide Answer, Lookup, MemInv, WalInv, TableInv, ReadInv, CompInv, FlushInv, TailInv, LogInv, ReaderInv, WalsOrdered, History,
      LastSeq, Fold, Get, MemsNewestFirst, NumInv;
    var r := s.snaps[i].seqno;
    assert s.snaps[i] == Snap(r, true);
    GetRefines(s, r, k);
    n :| 0 <= n <= |s.past| && r == LastSeq(s.past[..n]);
    FoldAtBoundary(s.past, n, k);
  }

  ghost function ReaderGet(s: State, rd: Reader, k: Blob): Option<Blob> {
    ValueOf(Lookup(rd.mems, s.mems, rd.tables, k, rd.r))
  }

  lemma ReaderFold(s: State, rd: Reader, k: Blob) returns (n: nat)
    requires Inv(s) && rd in s.readers
    ensures n <= |s.past| && rd.r == LastSeq(s.past[..n]) && ReaderGet(s, rd, k) == Get(Fold(s.past[..n]), k)
  {
    hide LiveInv, LogInv, WalsOrdered, LimboInv, Answer, Lookup, Fold, Get, History, LastSeq;
    assert ReaderOk(s.past, s.mems, rd);
    n :| 0 <= n <= |s.past| && rd.r == LastSeq(s.past[..n]);
    FoldAtBoundary(s.past, n, k);
  }

  /** In every open state of every run the database is the fold of the committed batches. */
  lemma GetIsFold(states: seq<State>, steps: seq<Step>, i: nat, k: Blob)
    requires Run(states, steps) && i < |states| && NeverCut(steps, i) && states[i].phase != Down
    ensures UserGet(states[i], k) == Get(Fold(states[i].past), k)
  {
    hide Run, Inv, UserGet, Get, Fold;
    RunInv(states, steps, i);
    GetFold(states[i], k);
  }

  /** A read at an active snapshot sees the batches committed before it, each whole. */
  lemma SnapshotIsFold(states: seq<State>, steps: seq<Step>, i: nat, j: nat, k: Blob) returns (n: nat)
    requires Run(states, steps) && i < |states| && NeverCut(steps, i)
    requires states[i].phase != Down && j < |states[i].snaps| && states[i].snaps[j].active
    ensures n <= |states[i].past| && states[i].snaps[j].seqno == LastSeq(states[i].past[..n])
    ensures var s := states[i];
            ValueOf(Lookup([s.active] + MemsNewestFirst(s.imm), s.mems, s.tables, k, s.snaps[j].seqno)) == Get(Fold(s.past[..n]), k)
  {
    hide Run, Inv, Lookup, Get, Fold, LastSeq, MemsNewestFirst;
    RunInv(states, steps, i);
    n := SnapshotFold(states[i], j, k);
  }

  /** A pinned reader sees a prefix of the committed batches, each whole. */
  lemma ReaderIsFold(states: seq<State>, steps: seq<Step>, i: nat, rd: Reader, k: Blob) returns (n: nat)
    requires Run(states, steps) && i < |states| && NeverCut(steps, i) && rd in states[i].readers
    ensures n <= |states[i].past| && rd.r == LastSeq(states[i].past[..n])
    ensures ReaderGet(states[i], rd, k) == Get(Fold(states[i].past[..n]), k)
  {
    hide Run, Inv, ReaderGet, Get, Fold, LastSeq;
    RunInv(states, steps, i);
    n := ReaderFold(states[i], rd, k);
  }

  // ------------------------------------------------------ nothing committed is lost

  ghost predicate SamePast(s: State, t: State) {
    t.past == s.past && (t.disk.limbo == s.disk.limbo || t.disk.limbo.None?)
  }

  predicate Publishes(step: Step) {
    step.SwitchMem? || step.FlushPublish? || step.CompactPublish? || step.CloseEnd?
  }

  lemma PublishPast(s: State, step: Step)
    requires Enabled(s, step) && Publishes(step)
    ensures SamePast(s, Effect(s, step))
  {
    hide MetaFor, Published, NextLiveWal, Diff, Inactive;
  }

  lemma OtherPast(s: State, step: Step)
    requires Enabled(s, step) && !step.Write? && !step.Open? && !step.OpenCut? && !Publishes(step)
    ensures SamePast(s, Effect(s, step))
  {
    hide Selects, Retain, Tables, MinActive, Inactive, MemsNewestFirst, CanOpen, DoOpen, DoWrite, DoSwitch, DoFlushPublish,
      DoCompactPublish, DoCloseEnd, CanFlushPublish, CanCompactPublish;
  }

  /** Only a committed write or a reopen changes the committed batches. */
  lemma StepPast(s: State, step: Step)
    requires Enabled(s, step) && !step.Write? && !step.Open? && !step.OpenCut?
    ensures SamePast(s, Effect(s, step))
  {
    hide CanOpen, CanOpenCut, CanWrite, CanCompactCapture, CanFlushPublish, CanCompactPublish, SamePast;
    if Publishes(step) {
      PublishPast(s, step);
    } else {
      OtherPast(s, step);
    }
  }

  lemma StepGrows(s: State, step: Step)
    requires Enabled(s, step)
    ensures s.past <= Effect(s, step).past
  {
    hide CanOpen, CanWrite, CanCompactCapture, CanFlushPublish, CanCompactPublish;
    if step.Write? {
      WriteOrigin(s, step.ops, step.append);
    } else if !step.Open? && !step.OpenCut? {
      StepPast(s, step);
    }
  }

  lemma {:induction false} RunGrows(states: seq<State>, steps: seq<Step>, i: nat, j: nat)
    requires Run(states, steps) && i <= j < |states|
    ensures states[i].past <= states[j].past
    decreases j
  {
    hide Effect, Enabled, Init;
    if i < j {
      RunGrows(states, steps, i, j - 1);
      StepGrows(states[j - 1], steps[j - 1]);
    }
  }

  /** An acknowledged batch is part of the database in every later state of the run,
      after any number of crashes and reopens. */
  lemma AcknowledgedSurvives(states: seq<State>, steps: seq<Step>, i: nat, j: nat)
    requires Run(states, steps) && i < j < |states| && steps[i].Write? && steps[i].append == Appended && NeverCut(steps, j)
    ensures NewBatch(states[i], steps[i].ops) in states[j].past
    ensures states[j].phase != Down ==> forall k :: UserGet(states[j], k) == Get(Fold(states[j].past), k)
  {
    hide Init, UserGet, Get, Fold, Inv, CanWrite;
    RunGrows(states, steps, i + 1, j);
    var b := NewBatch(states[i], steps[i].ops);
    WriteAppends(states[i], steps[i].ops);
    assert states[i + 1].past[|states[i].past|] == b;
    RunInv(states, steps, j);
    if states[j].phase != Down {
      forall k ensures UserGet(states[j], k) == Get(Fold(states[j].past), k) {
        GetFold(states[j], k);
      }
    }
  }

  lemma WriteAppends(s: State, ops: seq<Op>)
    requires CanWrite(s, ops)
    ensures Effect(s, Write(ops, Appended)).past == s.past + [NewBatch(s, ops)]
  {
  }

  /** b was written by step i, which was acknowledged or left a whole log record. */
  ghost predicate WrittenBy(states: seq<State>, steps: seq<Step>, i: nat, b: Batch)
    requires |states| == |steps| + 1
  {
    && i < |steps| && steps[i].Write? && steps[i].append != AppendFailed(false)
    && b == NewBatch(states[i], steps[i].ops)
  }

  ghost predicate Written(states: seq<State>, steps: seq<Step>, n: nat, b: Batch)
    requires |states| == |steps| + 1
  {
    exists i :: 0 <= i < n && WrittenBy(states, steps, i, b)
  }

  /** No batch appears from nowhere, none is cut: every batch in the database was
      written whole by one Write of the run. */
  lemma {:induction false} OnlyWholeWrites(states: seq<State>, steps: seq<Step>, n: nat)
    requires Run(states, steps) && n < |states|
    ensures forall b :: b in states[n].past ==> Written(states, steps, n, b)
    ensures states[n].disk.limbo.Some? ==> Written(states, steps, n, states[n].disk.limbo.value.batch)
  {
    hide Init, NewBatch;
    if n == 0 {
      InitPast(states[0]);
    } else {
      OnlyWholeWrites(states, steps, n - 1);
      var s, s', step := states[n - 1], states[n], steps[n - 1];
      StepOrigin(s, step);
      forall b | Holds(s', b) ensures Written(states, steps, n, b) {
        if step.Write? && step.append != AppendFailed(false) && b == NewBatch(s, step.ops) {
          assert WrittenBy(states, steps, n - 1, b);
        } else {
          assert Written(states, steps, n - 1, b);
          var i :| 0 <= i < n - 1 && WrittenBy(states, steps, i, b);
          assert 0 <= i < n && WrittenBy(states, steps, i, b);
        }
      }
    }
  }

  lemma InitPast(s: State)
    requires Init(s)
    ensures s.past == [] && s.disk.limbo.None?
  {
  }

  lemma WriteOrigin(s: State, ops: seq<Op>, append: Append)
    requires CanWrite(s, ops)
    ensures var s' := DoWrite(s, ops, append);
            && s.past <= s'.past
            && (forall b :: b in s'.past ==> b in s.past || (append == Appended && b == NewBatch(s, ops)))
            && (s'.disk.limbo == s.disk.limbo || (append == AppendFailed(true) && s'.disk.limbo == Some(Limbo(s.activeWal, NewBatch(s, ops)))))
  {
    hide BatchSet;
  }

  ghost predicate Holds(s: State, b: Batch) {
    b in s.past || (s.disk.limbo.Some? && b == s.disk.limbo.value.batch)
  }

  lemma StepOrigin(s: State, step: Step)
    requires Enabled(s, step)
    ensures forall b :: Holds(Effect(s, step), b) ==>
              Holds(s, b) || (step.Write? && step.append != AppendFailed(false) && b == NewBatch(s, step.ops))
  {
    hide CanOpen, CanWrite, CanCompactCapture, CanFlushPublish, CanCompactPublish, NewBatch;
    if step.Write? {
      WriteOrigin(s, step.ops, step.append);
    } else if !step.Open? && !step.OpenCut? {
      StepPast(s, step);
    }
  }

  // ------------------------------------------------------------- crash recovery

  /** Crash anywhere, keep any part of what was not synced, reopen: the database is
      the fold of every committed batch, plus at most one whole unacknowledged batch
      whose log record survived. */
  lemma CrashRecovery(states: seq<State>, steps: seq<Step>, i: nat, k: Blob)
    requires Run(states, steps) && i + 1 < |steps| && NeverCut(steps, i)
    requires steps[i].Crash? && steps[i + 1].Open?
    ensures var s, t := states[i], states[i + 2];
            && t.past == (if steps[i].keepLimbo && s.disk.limbo.Some? then s.past + [s.disk.limbo.value.batch] else s.past)
            && UserGet(t, k) == Get(Fold(t.past), k)
  {
    hide Inv, UserGet, Get, Fold, Init, Effect, Enabled;
    assert states[i + 1] == Effect(states[i], steps[i]) && states[i + 2] == Effect(states[i + 1], steps[i + 1]);
    CrashOpen(states[i], steps[i], steps[i + 1]);
    RunInv(states, steps, i + 2);
    GetFold(states[i + 2], k);
  }

  lemma CrashOpen(s: State, crash: Step, open: Step)
    requires crash.Crash? && open.Open? && Enabled(s, crash) && Enabled(Effect(s, crash), open)
    ensures var t := Effect(Effect(s, crash), open);
            && t.past == (if crash.keepLimbo && s.disk.limbo.Some? then s.past + [s.disk.limbo.value.batch] else s.past)
            && t.phase == Up
  {
    hide CanOpen, CanCrash, Inactive;
  }

  // -------------------------------------------------------------------- readers

  /** A reader returns the same map for as long as it stays pinned. */
  lemma ReaderStable(states: seq<State>, steps: seq<Step>, i: nat, j: nat, rd: Reader, k: Blob)
    requires Run(states, steps) && i <= j < |states| && NeverCut(steps, j)
    requires rd in states[i].readers && rd in states[j].readers
    ensures ReaderGet(states[i], rd, k) == ReaderGet(states[j], rd, k)
  {
    hide Run, Inv, ReaderGet, Fold, Get, LastSeq;
    RunInv(states, steps, i);
    RunInv(states, steps, j);
    RunGrows(states, steps, i, j);
    var n := ReaderFold(states[i], rd, k);
    var m := ReaderFold(states[j], rd, k);
    assert states[i].past[..n] == states[j].past[..n];
    InvOrdered(states[j]);
    SameBoundary(states[j].past, n, m);
  }

  lemma InvOrdered(s: State)
    requires Inv(s)
    ensures Ordered(s.past)
  {
    hide LiveInv, LogInv, WalsOrdered, LimboInv, ReaderInv;
  }

  /** Batch boundaries are at different sequence numbers. */
  lemma SameBoundary(past: seq<Batch>, n: nat, m: nat)
    requires Ordered(past) && n <= |past| && m <= |past| && LastSeq(past[..n]) == LastSeq(past[..m])
    ensures past[..n] == past[..m]
  {
    if n < m {
      BoundaryIncreases(past, n, m);
    } else if m < n {
      BoundaryIncreases(past, m, n);
    }
  }

  lemma BoundaryIncreases(past: seq<Batch>, n: nat, m: nat)
    requires Ordered(past) && n < m <= |past|
    ensures LastSeq(past[..n]) < LastSeq(past[..m])
  {
    assert n > 0 ==> BatchLast(past[n - 1]) < past[m - 1].first;
  }
}
