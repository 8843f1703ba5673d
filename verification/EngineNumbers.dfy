/** Sequence and file numbers over whole runs: what is handed out next is unused, except that
    an empty log file may carry the next file number. */
module EngineNumbers {
  import opened Versions
  import opened Store
  import opened Compaction
  import opened Engine
  import opened EngineInv
  import opened EngineFlush
  import opened EngineTheorems

  lemma FreshAt(s: State)
    requires Inv(s) && s.phase != Down
    ensures forall v :: v in History(s.past) ==> v.seqno < s.edit.last + 1
    ensures forall n, v :: n in s.tables && v in s.tables[n] ==> v in History(s.past)
    ensures forall w, i :: w in s.disk.wals && 0 <= i < |s.disk.wals[w]| ==> BatchLast(s.disk.wals[w][i]) < s.edit.last + 1
    ensures Unique(History(s.past))
    ensures forall n :: n in s.disk.ssts ==> n < s.edit.next
    ensures forall w :: w in s.disk.wals && s.disk.wals[w] != [] ==> w < s.edit.next
    ensures s.edit.next !in s.edit.files && Unnamed(s.disk, s.edit.next) && s.obsolete < s.edit.next
  {
    hide MemInv, WalInv, ReadInv, SnapInv, TailInv, FlushInv, CompInv, LogInv, LimboInv, ReaderInv, PastInv, History, LastSeq,
      Unique, Levelled, Covers;
    HistoryFacts(s.past);
    FreshNumber(s);
  }

  /** In every open state of every run the next write's sequences and the next file number are
      unused: above every version in the history, in live tables, memtables and log files, and
      above every table file and every log file that holds a record. */
  lemma Freshness(states: seq<State>, steps: seq<Step>, i: nat)
    requires Run(states, steps) && i < |states| && NeverCut(steps, i) && states[i].phase != Down
    ensures var s := states[i];
            && (forall v :: v in History(s.past) ==> v.seqno < s.edit.last + 1)
            && (forall n, v :: n in s.tables && v in s.tables[n] ==> v in History(s.past))
            && (forall w, j :: w in s.disk.wals && 0 <= j < |s.disk.wals[w]| ==> BatchLast(s.disk.wals[w][j]) < s.edit.last + 1)
            && Unique(History(s.past))
            && (forall n :: n in s.disk.ssts ==> n < s.edit.next)
            && (forall w :: w in s.disk.wals && s.disk.wals[w] != [] ==> w < s.edit.next)
            && s.edit.next !in s.edit.files && Unnamed(s.disk, s.edit.next)
  {
    hide Run, Inv, History, Unique, Unnamed;
    RunInv(states, steps, i);
    FreshAt(states[i]);
  }

  // ------------------------------------------------------------- empty log files

  /** A memtable switch that fails after creating its log file gives the number back. */
  predicate LeavesLog(step: Step) {
    step.SwitchMem? && (step.outcome == WalOpenFailed(true) || step.outcome.SwitchSave?)
  }

  /** No log file is above the next number. */
  ghost predicate LogsUpTo(s: State) {
    forall w :: w in s.disk.wals ==> w <= s.edit.next
  }

  /** After a step an open database has a log file with the next number exactly if the step
      left one, or left the number and the file as they were. */
  ghost predicate NumberRule(s: State, step: Step, t: State) {
    t.phase != Down ==>
      && LogsUpTo(t)
      && (t.edit.next in t.disk.wals <==>
            LeavesLog(step) || (s.phase != Down && t.edit.next == s.edit.next && s.edit.next in s.disk.wals))
  }

  lemma SwitchRule(s: State, outcome: Switch)
    requires CanSwitch(s) && (s.phase != Down ==> LogsUpTo(s))
    ensures NumberRule(s, SwitchMem(outcome), DoSwitch(s, outcome))
    ensures LeavesLog(SwitchMem(outcome)) ==> DoSwitch(s, outcome).edit.next == s.edit.next && DoSwitch(s, outcome).phase != Down
  {
    hide Diff, Torn;
  }

  lemma PublishRule(s: State, step: Step)
    requires Enabled(s, step) && Publishes(step) && !step.SwitchMem? && (s.phase != Down ==> LogsUpTo(s))
    ensures NumberRule(s, step, Effect(s, step))
  {
    hide MetaFor, Published, NextLiveWal, Diff, Torn, Inactive, CanWrite, CanOpen, CanOpenCut, CanCompactCapture, DoOpen, DoOpenCut,
      DoWrite, DoSwitch;
  }

  lemma OtherRule(s: State, step: Step)
    requires Enabled(s, step) && !step.Write? && !step.Open? && !step.OpenCut? && !step.RemoveWal? && !Publishes(step)
    requires s.phase != Down ==> LogsUpTo(s)
    ensures NumberRule(s, step, Effect(s, step))
  {
    hide Selects, Retain, Tables, MinActive, Inactive, MemsNewestFirst, CanOpen, CanOpenCut, DoOpen, DoOpenCut, DoWrite, DoSwitch,
      DoFlushPublish, DoCompactPublish, DoCloseEnd, CanFlushPublish, CanCompactPublish;
  }

  lemma WriteRule(s: State, ops: seq<Op>, append: Append)
    requires CanWrite(s, ops) && (s.phase != Down ==> LogsUpTo(s))
    ensures NumberRule(s, Write(ops, append), DoWrite(s, ops, append))
  {
    hide BatchSet;
  }

  lemma OpenRule(s: State, wal: nat, oldest: nat, next: nat, last: nat, cut: nat)
    requires CanOpen(s, wal, oldest, next, last, cut)
    ensures NumberRule(s, Open(wal, oldest, next, last, cut), DoOpen(s, wal, oldest, next, last, cut))
  {
    hide Replay, WalSet, History, After, AllUpTo;
  }

  lemma StepRule(s: State, step: Step)
    requires Inv(s) && Enabled(s, step) && !step.OpenCut? && (s.phase != Down ==> LogsUpTo(s))
    ensures NumberRule(s, step, Effect(s, step))
    ensures LeavesLog(step) ==> Effect(s, step).edit.next == s.edit.next && Effect(s, step).phase != Down
  {
    hide Inv, CanWrite, CanSwitch, CanOpen, CanFlushPublish, CanCompactPublish, CanCompactCapture, NumberRule;
    match step
    case Open(wal, oldest, next, last, cut) => OpenRule(s, wal, oldest, next, last, cut);
    case Write(ops, append) => WriteRule(s, ops, append);
    case SwitchMem(outcome) => SwitchRule(s, outcome);
    case RemoveWal(w) => RemoveRule(s, w);
    case _ =>
      if Publishes(step) {
        PublishRule(s, step);
      } else {
        OtherRule(s, step);
      }
  }

  lemma RemoveRule(s: State, w: nat)
    requires Inv(s) && w < s.obsolete && (s.phase != Down ==> LogsUpTo(s))
    ensures NumberRule(s, RemoveWal(w), DoRemoveWal(s, w))
  {
    hide Inv, Unnamed, Unique, History;
    if s.phase != Down {
      FreshAt(s);
    }
  }

  /** Step j left an empty log file, and the number it gave back has not been used since. */
  ghost predicate LeftOver(states: seq<State>, steps: seq<Step>, j: nat, i: nat)
    requires i < |states| == |steps| + 1
  {
    && j < i && LeavesLog(steps[j])
    && forall m :: j < m <= i ==> states[m].phase != Down && states[m].edit.next == states[j].edit.next
  }

  /** Counting empty log files too: in every open state of every run no log number is above the
      next one, the one that may be equal to it holds no record, and it is there exactly when a
      failed switch left it and neither a reopen nor a new file number came since. */
  lemma {:induction false} LogNumbers(states: seq<State>, steps: seq<Step>, i: nat)
    requires Run(states, steps) && i < |states| && NeverCut(steps, i) && states[i].phase != Down
    ensures forall w :: w in states[i].disk.wals ==>
              w < states[i].edit.next || (w == states[i].edit.next && states[i].disk.wals[w] == [])
    ensures states[i].edit.next in states[i].disk.wals <==> exists j: nat :: LeftOver(states, steps, j, i)
  {
    hide Inv, Init, Effect, Enabled, LeavesLog, Unnamed, Unique, History;
    RunInv(states, steps, i);
    FreshAt(states[i]);
    InitDown(states[0]);
    var s, t, step := states[i - 1], states[i], steps[i - 1];
    assert t == Effect(s, step);
    RunInv(states, steps, i - 1);
    if s.phase != Down {
      LogNumbers(states, steps, i - 1);
    }
    StepRule(s, step);
    if t.edit.next in t.disk.wals {
      if LeavesLog(step) {
        assert LeftOver(states, steps, i - 1, i);
      } else {
        var j: nat :| LeftOver(states, steps, j, i - 1);
        assert LeftOver(states, steps, j, i);
      }
    }
    if j: nat :| LeftOver(states, steps, j, i) {
      if j < i - 1 {
        assert LeftOver(states, steps, j, i - 1);
      }
    }
  }

  lemma InitDown(s: State)
    requires Init(s)
    ensures s.phase == Down
  {
  }
}
