/**
 Manifest records cut short.  A save that fails part-way leaves a torn record, and a flush or
 compaction already under way still appends its own record behind it, because publishing does
 not look at the recorded error.  Loading then stops at the torn record.  Recovery gives the
 committed batches exactly when nothing was appended behind a torn record, and it always
 does if a publish is held back once an error is recorded.
 */
module EngineTorn {
  import opened Bytes
  import opened Versions
  import opened Store
  import opened Compaction
  import opened Engine
  import opened EngineInv
  import opened EngineRecover
  import opened EngineTheorems

  /** The save a step makes, if it makes one. */
  function SaveOf(s: State, step: Step): Option<Save> {
    match step
    case SwitchMem(outcome) =>
      (match outcome
       case Switched => Some(Saved)
       case SwitchSave(left) => Some(SaveFailed(left))
       case WalOpenFailed(_) => None)
    case FlushPublish(_, save) => Some(save)
    case CompactPublish(_, save) => Some(save)
    case CloseEnd(save) => if s.bgOk && s.phase.Closing? && s.phase.moved && s.edit.next < MAX_U64 then Some(save) else None
    case _ => None
  }

  /** The step puts a record, or bytes that complete the torn one, behind a torn record. */
  predicate AppendsBehind(s: State, step: Step) {
    && s.disk.torn.Some? && SaveOf(s, step).Some?
    && match SaveOf(s, step).value
       case Saved => true
       case SaveFailed(left) => left == Whole || (left.Part? && left.spoils)
  }

  lemma TornMeansError(s: State)
    requires Inv(s) && s.phase != Down
    ensures s.disk.torn.Some? ==> !s.bgOk
  {
    hide DiskInv, MemInv, WalInv, TableInv, ReadInv, SnapInv, FlushInv, CompInv, NumInv, Replay, LogWalsUpTo;
  }

  /** Only a flush or a compaction can append behind a torn record, and only after an error was
      recorded: a publish that checked for one would not. */
  lemma BehindOnlyAfterError(s: State, step: Step)
    requires Inv(s) && Enabled(s, step) && AppendsBehind(s, step)
    ensures !s.bgOk && (step.FlushPublish? || step.CompactPublish?)
  {
    hide Inv, MetaFor, CanWrite, CanOpen, CanOpenCut, CanCompactCapture;
    TornMeansError(s);
  }

  /** What a save does to a readable manifest. */
  predicate Harmless(disk: Disk, save: Save) {
    disk.torn.None? || (save.SaveFailed? && (save.left == Nothing || (save.left.Part? && !save.left.spoils)))
  }

  /** A torn record lies within the log. */
  predicate TearWithin(disk: Disk) {
    disk.torn.Some? ==> disk.torn.value.at <= |disk.log|
  }

  lemma SaveReadable(disk: Disk, persisted: Edit, e: Edit, save: Save)
    requires TearWithin(disk)
    ensures var d := LogSave(disk, persisted, e, save);
            TearWithin(d) && (Readable(d) <==> Readable(disk) && Harmless(disk, save))
  {
    hide Diff;
  }

  /** A step keeps a readable manifest readable exactly if it appends nothing behind a torn
      record; it never repairs one except by losing what follows, in a crash. */
  ghost predicate TearRule(s: State, step: Step, t: State) {
    && TearWithin(t.disk)
    && (Readable(s.disk) ==> (Readable(t.disk) <==> !AppendsBehind(s, step)))
    && (!Readable(s.disk) && !step.Crash? && !step.OpenCut? ==> !Readable(t.disk))
  }

  lemma PublishTear(s: State, step: Step)
    requires Enabled(s, step) && Publishes(step) && TearWithin(s.disk)
    ensures TearRule(s, step, Effect(s, step))
  {
    hide MetaFor, Published, NextLiveWal, LogSave, Inactive, CanWrite, CanOpen, CanOpenCut, CanCompactCapture, DoOpen, DoOpenCut,
      DoWrite, Readable, TearWithin;
    match step
    case SwitchMem(outcome) =>
      if !outcome.WalOpenFailed? {
        var grown := s.disk.(wals := s.disk.wals[s.edit.next := []]);
        TearFrame(s.disk, grown);
        SaveReadable(grown, s.persisted, s.edit.(next := s.edit.next + 1), SaveOf(s, step).value);
      } else {
        TearFrame(s.disk, s.disk.(wals := s.disk.wals[s.edit.next := []]));
      }
    case FlushPublish(meta, save) =>
      SaveReadable(s.disk, s.persisted, s.edit.(files := s.edit.files[s.flush.value.number := meta], wal := NextLiveWal(s)), save);
    case CompactPublish(meta, save) =>
      SaveReadable(s.disk, s.persisted, s.edit.(files := Published(s.edit.files, s.comp.value, meta)), save);
    case CloseEnd(save) =>
      SaveReadable(s.disk, s.persisted, s.edit.(next := s.edit.next + 1, wal := s.edit.next), save);
  }

  lemma TearFrame(d: Disk, d': Disk)
    requires d.torn == d'.torn && d.log == d'.log
    ensures (Readable(d) <==> Readable(d')) && (TearWithin(d) <==> TearWithin(d'))
  {
  }

  lemma OtherTear(s: State, step: Step)
    requires Enabled(s, step) && !step.Open? && !step.OpenCut? && !step.Crash? && !Publishes(step) && TearWithin(s.disk)
    ensures TearRule(s, step, Effect(s, step))
  {
    hide Selects, Retain, Tables, MinActive, Inactive, MemsNewestFirst, CanOpen, CanOpenCut, DoOpen, DoOpenCut, DoSwitch,
      DoFlushPublish, DoCompactPublish, DoCloseEnd, CanFlushPublish, CanCompactPublish, Readable, TearWithin, BatchSet;
    TearFrame(s.disk, Effect(s, step).disk);
  }

  lemma StepTear(s: State, step: Step)
    requires Enabled(s, step) && TearWithin(s.disk)
    ensures TearRule(s, step, Effect(s, step))
  {
    hide CanWrite, CanSwitch, CanFlushPublish, CanCompactPublish, CanCompactCapture, CanResume, Replay, Inactive, Absorbed, WalSet;
    if Publishes(step) {
      PublishTear(s, step);
    } else if !step.Open? && !step.OpenCut? && !step.Crash? {
      OtherTear(s, step);
    }
  }

  lemma {:induction false} RunTear(states: seq<State>, steps: seq<Step>, i: nat)
    requires Run(states, steps) && i < |states|
    ensures TearWithin(states[i].disk)
  {
    hide Enabled, Effect, TearWithin;
    if i == 0 {
      InitReadable(states[0]);
    } else {
      RunTear(states, steps, i - 1);
      StepTear(states[i - 1], steps[i - 1]);
    }
  }

  lemma InitReadable(s: State)
    requires Init(s)
    ensures Readable(s.disk) && TearWithin(s.disk)
  {
  }

  /** Every state of a run has a readable manifest exactly if no step of it appended anything
      behind a torn record. */
  lemma {:induction false} ReadableExact(states: seq<State>, steps: seq<Step>, n: nat)
    requires Run(states, steps) && n < |states|
    ensures (forall i :: 0 <= i <= n ==> Readable(states[i].disk)) <==> (forall j :: 0 <= j < n ==> !AppendsBehind(states[j], steps[j]))
  {
    hide Init, Enabled, Effect, Readable, TearWithin, AppendsBehind;
    assert Run(states, steps) ==> Init(states[0]);
    InitReadable(states[0]);
    if n > 0 {
      ReadableExact(states, steps, n - 1);
      RunTear(states, steps, n - 1);
      assert states[n] == Effect(states[n - 1], steps[n - 1]);
      StepTear(states[n - 1], steps[n - 1]);
    }
  }

  // -------------------------------------------------------------------- recovery

  ghost predicate Openable(s: State) {
    exists wal: nat, oldest: nat, next: nat, last: nat, cut: nat :: CanOpen(s, wal, oldest, next, last, cut)
  }

  /** Wherever the process stops now and whatever survives, the database opens. */
  ghost predicate Recovers(s: State) {
    forall kept: nat, keepLimbo: bool, tear: Option<Tear> :: CanCrash(s, kept, tear) ==> Openable(DoCrash(s, kept, keepLimbo, tear))
  }

  lemma RecoversIff(s: State)
    requires Inv(s) && TearWithin(s.disk)
    ensures Recovers(s) <==> Readable(s.disk)
  {
    hide Inv, Replay, CanResume;
    if Readable(s.disk) {
      forall kept: nat, keepLimbo: bool, tear: Option<Tear> | CanCrash(s, kept, tear)
        ensures Openable(DoCrash(s, kept, keepLimbo, tear))
      {
        CrashOpens(s, kept, keepLimbo, tear);
      }
    } else {
      StopUnreadable(s);
    }
  }

  lemma CrashOpens(s: State, kept: nat, keepLimbo: bool, tear: Option<Tear>)
    requires Inv(s) && Readable(s.disk) && CanCrash(s, kept, tear)
    ensures Openable(DoCrash(s, kept, keepLimbo, tear))
  {
    hide Inv, CanOpen;
    CrashInvariant(s, kept, keepLimbo, tear);
    var wal, oldest, next, last, cut := RecoveryPossible(DoCrash(s, kept, keepLimbo, tear));
  }

  lemma CrashInvariant(s: State, kept: nat, keepLimbo: bool, tear: Option<Tear>)
    requires Inv(s) && CanCrash(s, kept, tear)
    ensures Inv(DoCrash(s, kept, keepLimbo, tear)) && DoCrash(s, kept, keepLimbo, tear).phase == Down
  {
    hide Inv, CanCrash;
    StepInv(s, Crash(kept, keepLimbo, tear));
  }

  /** If nothing is lost, what was unreadable stays so. */
  lemma StopUnreadable(s: State)
    requires Inv(s) && TearWithin(s.disk) && !Readable(s.disk)
    ensures !Recovers(s)
  {
    hide LiveInv, TopInv, WalsOrdered, LimboInv, ReaderInv, PastInv, EntryInv, Replay, History, LastSeq, CanResume;
    var n := |s.disk.log|;
    assert CanCrash(s, n, s.disk.torn);
    assert s.disk.log[..n] == s.disk.log;
    assert !Openable(DoCrash(s, n, false, s.disk.torn));
  }

  /** In every run: at every moment a stop, with whatever survives of it, can be recovered from,
      exactly if nothing was ever appended behind a torn manifest record. */
  lemma RecoveryExact(states: seq<State>, steps: seq<Step>, n: nat)
    requires Run(states, steps) && n < |states|
    ensures (forall i :: 0 <= i <= n ==> Recovers(states[i])) <==> (forall j :: 0 <= j < n ==> !AppendsBehind(states[j], steps[j]))
  {
    hide Run, Inv, Recovers, Readable, TearWithin, AppendsBehind;
    if NeverCut(steps, n) {
      RecoveryUncut(states, steps, n);
    } else {
      var m := FirstCut(steps, n);
      RunSteps(states, steps, m);
      UnreadableCut(states[m], steps[m]);
      RunInv(states, steps, m);
      RunTear(states, steps, m);
      RecoversIff(states[m]);
      ReadableExact(states, steps, m);
    }
  }

  lemma {:induction false} FirstCut(steps: seq<Step>, n: nat) returns (m: nat)
    requires !NeverCut(steps, n)
    ensures m < n && m < |steps| && NeverCut(steps, m) && steps[m].OpenCut?
  {
    m := n - 1;
    if !NeverCut(steps, n - 1) {
      m := FirstCut(steps, n - 1);
    }
  }

  lemma RunSteps(states: seq<State>, steps: seq<Step>, i: nat)
    requires Run(states, steps) && i < |steps|
    ensures Enabled(states[i], steps[i])
  {
    hide Init, Effect;
  }

  lemma UnreadableCut(s: State, step: Step)
    requires Enabled(s, step) && step.OpenCut?
    ensures !Readable(s.disk)
  {
    hide CanResume;
  }

  lemma RecoveryUncut(states: seq<State>, steps: seq<Step>, n: nat)
    requires Run(states, steps) && n < |states| && NeverCut(steps, n)
    ensures (forall i :: 0 <= i <= n ==> Recovers(states[i])) <==> (forall j :: 0 <= j < n ==> !AppendsBehind(states[j], steps[j]))
  {
    hide Run, Inv, Recovers, Readable, TearWithin, AppendsBehind;
    forall i | 0 <= i <= n ensures Recovers(states[i]) <==> Readable(states[i].disk) {
      RunInv(states, steps, i);
      RunTear(states, steps, i);
      RecoversIff(states[i]);
    }
    ReadableExact(states, steps, n);
  }

  /** A reopen that is possible gives the fold of the committed batches and of a batch whose
      log record survived. */
  lemma ReopenIsFold(states: seq<State>, steps: seq<Step>, i: nat, k: Blob)
    requires Run(states, steps) && i < |steps| && NeverCut(steps, i) && steps[i].Open?
    ensures states[i + 1].past == Recovered(states[i]) && UserGet(states[i + 1], k) == Get(Fold(Recovered(states[i])), k)
  {
    hide Init, Inv, CanOpen, UserGet, Get, Fold, Inactive;
    RunInv(states, steps, i + 1);
    GetFold(states[i + 1], k);
  }

  // --------------------------------------------------- holding publishes back

  /** No flush or compaction of the first n steps publishes once an error is recorded. */
  predicate Guarded(states: seq<State>, steps: seq<Step>, n: nat) {
    forall j :: 0 <= j < n && j < |steps| && j < |states| && (steps[j].FlushPublish? || steps[j].CompactPublish?) ==> states[j].bgOk
  }

  /** If they are held back, every state of the run recovers and no reopen drops a record. */
  lemma {:induction false} GuardedRecovers(states: seq<State>, steps: seq<Step>, n: nat)
    requires Run(states, steps) && n < |states| && Guarded(states, steps, n)
    ensures NeverCut(steps, n) && forall i :: 0 <= i <= n ==> Readable(states[i].disk) && Recovers(states[i])
  {
    hide Init, Effect, Inv, Recovers, Readable, TearWithin, AppendsBehind;
    if n > 0 {
      GuardedRecovers(states, steps, n - 1);
      NoCut(states[n - 1], steps[n - 1]);
    }
    forall j | 0 <= j < n ensures !AppendsBehind(states[j], steps[j]) {
      RunInv(states, steps, j);
      if AppendsBehind(states[j], steps[j]) {
        BehindOnlyAfterError(states[j], steps[j]);
      }
    }
    ReadableExact(states, steps, n);
    RecoveryExact(states, steps, n);
  }

  lemma NoCut(s: State, step: Step)
    requires Enabled(s, step) && Readable(s.disk)
    ensures !step.OpenCut?
  {
    hide CanResume;
  }

  /** If they are held back, an acknowledged batch is in the database in every later state. */
  lemma GuardedSurvives(states: seq<State>, steps: seq<Step>, i: nat, j: nat)
    requires Run(states, steps) && i < j < |states| && steps[i].Write? && steps[i].append == Appended && Guarded(states, steps, j)
    ensures NewBatch(states[i], steps[i].ops) in states[j].past && Recovers(states[j])
    ensures states[j].phase != Down ==> forall k :: UserGet(states[j], k) == Get(Fold(states[j].past), k)
  {
    hide Run, Recovers, Readable, UserGet, Get, Fold;
    GuardedRecovers(states, steps, j);
    AcknowledgedSurvives(states, steps, i, j);
  }

  // ----------------------------------------------------- a saved record that is lost

  /** A record that was saved with success lies behind a torn one. */
  predicate Lost(s: State) {
    s.disk.torn.Some? && s.disk.torn.value.at < s.disk.synced <= |s.disk.log|
  }

  lemma SavedBehind(s: State, step: Step)
    requires Inv(s) && Enabled(s, step) && TearWithin(s.disk) && s.disk.torn.Some? && SaveOf(s, step) == Some(Saved)
    ensures Lost(Effect(s, step))
  {
    hide Inv, MetaFor, CanWrite, CanOpen, CanOpenCut, CanCompactCapture, Published, NextLiveWal, Diff;
    assert AppendsBehind(s, step);
    BehindOnlyAfterError(s, step);
  }

  lemma SaveLost(s: State, disk: Disk, e: Edit, save: Save)
    requires Lost(s) && disk.log == s.disk.log && disk.torn == s.disk.torn && disk.synced == s.disk.synced
    ensures Lost(s.(disk := LogSave(disk, s.persisted, e, save)))
  {
    hide Diff;
  }

  lemma PublishLost(s: State, step: Step)
    requires Enabled(s, step) && Publishes(step) && Lost(s)
    ensures Lost(Effect(s, step))
  {
    hide MetaFor, Published, NextLiveWal, LogSave, Inactive, CanWrite, CanOpen, CanOpenCut, CanCompactCapture, DoOpen, DoOpenCut, DoWrite;
    var t := Effect(s, step);
    var grown := s.disk.(wals := s.disk.wals[s.edit.next := []]);
    if SaveOf(s, step).Some? {
      var save := SaveOf(s, step).value;
      match step
      case SwitchMem(outcome) => SaveLost(s, grown, s.edit.(next := s.edit.next + 1), save);
      case FlushPublish(meta, _) =>
        SaveLost(s, s.disk, s.edit.(files := s.edit.files[s.flush.value.number := meta], wal := NextLiveWal(s)), save);
      case CompactPublish(meta, _) => SaveLost(s, s.disk, s.edit.(files := Published(s.edit.files, s.comp.value, meta)), save);
      case CloseEnd(_) => SaveLost(s, s.disk, s.edit.(next := s.edit.next + 1, wal := s.edit.next), save);
    }
  }

  lemma OtherLost(s: State, step: Step)
    requires Enabled(s, step) && !step.OpenCut? && !Publishes(step) && Lost(s)
    ensures Lost(Effect(s, step)) && !step.Open?
  {
    hide Selects, Retain, Tables, MinActive, Inactive, MemsNewestFirst, CanResume, CanOpenCut, DoOpen, DoOpenCut, DoSwitch,
      DoFlushPublish, DoCompactPublish, DoCloseEnd, CanFlushPublish, CanCompactPublish, BatchSet;
  }

  /** From then on no step opens the database with all its records, whatever survives. */
  lemma {:induction false} LostForever(states: seq<State>, steps: seq<Step>, i: nat, j: nat)
    requires Run(states, steps) && i <= j < |states| && Lost(states[i])
    requires forall m :: i <= m < j ==> !steps[m].OpenCut?
    ensures Lost(states[j]) && (j < |steps| ==> !steps[j].Open?)
    decreases j
  {
    hide Init, Effect, Enabled, Lost;
    if i < j {
      LostForever(states, steps, i, j - 1);
      var s, step := states[j - 1], steps[j - 1];
      assert states[j] == Effect(s, step);
      if Publishes(step) {
        PublishLost(s, step);
      } else {
        OtherLost(s, step);
      }
    }
    if j < |steps| {
      LostShut(states[j], steps[j]);
    }
  }

  /** In every run: once a save behind a torn record has succeeded, the database is never again
      opened with all its records. */
  lemma SavedBehindLost(states: seq<State>, steps: seq<Step>, i: nat, j: nat)
    requires Run(states, steps) && i < j < |states| && NeverCut(steps, i)
    requires states[i].disk.torn.Some? && SaveOf(states[i], steps[i]) == Some(Saved)
    requires forall m :: i <= m < j ==> !steps[m].OpenCut?
    ensures Lost(states[j]) && (j < |steps| ==> !steps[j].Open?)
  {
    hide Init, Inv, Effect, Enabled, TearWithin, SaveOf, Lost;
    RunInv(states, steps, i);
    RunTear(states, steps, i);
    assert states[i + 1] == Effect(states[i], steps[i]);
    SavedBehind(states[i], steps[i]);
    LostForever(states, steps, i + 1, j);
  }

  lemma LostShut(s: State, step: Step)
    requires Enabled(s, step) && Lost(s)
    ensures !step.Open?
  {
    hide CanResume;
  }
}
