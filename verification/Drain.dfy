/**
 Draining immutable memtables: writers, Close and the background worker as threads that
 interleave between lock operations.  write_mu and version_mu are explicit; each step
 that the code makes under bg_mu is one step here.
 */
module Drain {
  /** Who holds a mutex. */
  datatype Owner = Free | Writer | Closer | Worker

  /** Writer: idle; in Write with both locks; memtable queued but flag not yet set. */
  datatype WriterAt = Idle | Writing | Queued

  /** Close: not started; has both locks; flags set and version lock dropped; worker
      joined; finished with the error it reports. */
  datatype CloserAt = NotClosing | Closing | Joining | Joined | Closed(notDrained: bool)

  /** Worker: in the condition wait; at the head of the inner loop; holding the version
      lock there; building a table; about to publish; after publishing; gone. */
  datatype WorkerAt = Waiting | Looping | Inspecting | Building | Publishing | Compacting | Exited

  datatype State = State(
    writeLock: Owner, versionLock: Owner,
    queue: nat, pending: bool, stop: bool, ok: bool,
    writer: WriterAt, closer: CloserAt, worker: WorkerAt)

  datatype Step =
    | WriterEnter
    | WriterQueue
    | WriterSignal
    | WriterLeave(failed: bool)
    | CloserEnter
    | CloserSignal(moved: bool)
    | CloserJoin
    | CloserFinish
    | WorkerWake
    | WorkerLock
    | WorkerInspect(numbered: bool)
    | WorkerBuild
    | WorkerPublish(done: bool)
    | WorkerCompact(failed: bool)
    | CompactCallFails

  predicate Init(s: State) {
    s == State(Free, Free, s.queue, false, false, true, Idle, NotClosing, Waiting) && s.queue == 0
  }

  predicate Enabled(s: State, step: Step) {
    match step
    case WriterEnter => s.writer == Idle && s.writeLock == Free && s.versionLock == Free && !s.closer.Closed?
    // a write that fills the memtable queues it, unless it is refused
    case WriterQueue => s.writer == Writing && s.ok
    case WriterSignal => s.writer == Queued
    case WriterLeave(_) => s.writer == Writing
    case CloserEnter => s.closer == NotClosing && s.writeLock == Free && s.versionLock == Free
    case CloserSignal(_) => s.closer == Closing
    case CloserJoin => s.closer == Joining && s.worker == Exited
    case CloserFinish => s.closer == Joined && s.versionLock == Free
    // the wait returns when its predicate holds
    case WorkerWake => s.worker == Waiting && (s.stop || s.pending)
    case WorkerLock => s.worker == Looping && s.versionLock == Free
    case WorkerInspect(_) => s.worker == Inspecting
    case WorkerBuild => s.worker == Building
    case WorkerPublish(_) => s.worker == Publishing && s.versionLock == Free
    case WorkerCompact(_) => s.worker == Compacting && s.versionLock == Free
    // a compaction that a user started fails to save the manifest
    case CompactCallFails => s.versionLock == Free
  }

  function Next(s: State, step: Step): State
    requires Enabled(s, step)
  {
    match step
    case WriterEnter => s.(writeLock := Writer, versionLock := Writer, writer := Writing)
    case WriterQueue => s.(queue := s.queue + 1, writer := Queued)
    case WriterSignal => s.(pending := true, writer := Writing)
    case WriterLeave(failed) => s.(writeLock := Free, versionLock := Free, writer := Idle, ok := s.ok && !failed)
    case CloserEnter => s.(writeLock := Closer, versionLock := Closer, closer := Closing)
    case CloserSignal(moved) =>
      s.(queue := if moved then s.queue + 1 else s.queue, stop := true, pending := true,
         versionLock := Free, closer := Joining)
    case CloserJoin => s.(closer := Joined)
    case CloserFinish => s.(closer := Closed(s.ok && s.queue != 0), writeLock := Free)
    case WorkerWake => s.(pending := false, worker := Looping)
    case WorkerLock => s.(versionLock := Worker, worker := Inspecting)
    case WorkerInspect(numbered) =>
      var free := s.(versionLock := Free);
      if s.queue == 0 then free.(worker := if s.stop then Exited else Waiting)
      else if !s.ok then free.(worker := Exited)
      else if !numbered then free.(worker := Exited, ok := false)
      else free.(worker := Building)
    case WorkerBuild => s.(worker := Publishing)
    case WorkerPublish(done) =>
      if !done || s.queue == 0 then s.(ok := false, worker := Looping)
      else s.(queue := s.queue - 1, worker := Compacting)
    case WorkerCompact(failed) => s.(ok := s.ok && !failed, worker := Looping)
    case CompactCallFails => s.(ok := false)
  }

  ghost predicate Run(states: seq<State>, steps: seq<Step>) {
    && |states| == |steps| + 1 && Init(states[0])
    && forall i :: 0 <= i < |steps| ==> Enabled(states[i], steps[i]) && states[i + 1] == Next(states[i], steps[i])
  }

  /** Which thread holds which lock where. */
  predicate LocksOk(s: State) {
    && (s.writer != Idle <==> s.versionLock == Writer)
    && (s.writer != Idle <==> s.writeLock == Writer)
    && (s.closer == Closing <==> s.versionLock == Closer)
    && (s.closer in {Closing, Joining, Joined} <==> s.writeLock == Closer)
    && (s.worker == Inspecting <==> s.versionLock == Worker)
  }

  predicate Inv(s: State) {
    && LocksOk(s)
    && (s.stop <==> s.closer !in {NotClosing, Closing})
    // a queued memtable is never slept over
    && (s.worker == Waiting && s.queue > 0 ==> s.pending || s.stop || s.writer == Queued)
    // the memtable being flushed is still queued
    && (s.worker in {Building, Publishing} ==> s.queue > 0)
    // the worker leaves only when there is nothing to do or an error is recorded
    && (s.worker == Exited ==> !s.ok || (s.queue == 0 && s.stop))
    && (s.closer == Joined || s.closer.Closed? ==> s.worker == Exited)
    && (s.closer.Closed? ==> !s.closer.notDrained && s.writer == Idle)
  }

  lemma StepInv(s: State, step: Step)
    requires Inv(s) && Enabled(s, step)
    ensures Inv(Next(s, step))
  {
  }

  lemma {:induction false} RunInv(states: seq<State>, steps: seq<Step>)
    requires Run(states, steps)
    ensures Inv(states[|steps|])
    decreases |steps|
  {
    var n := |steps|;
    if n > 0 {
      RunInv(states[..n], steps[..n - 1]);
      StepInv(states[n - 1], steps[n - 1]);
    }
  }

  /** In every interleaving, a sleeping worker with work to do is about to be woken: the
      wait can return now, or can as soon as the writer that queued has set the flag. */
  lemma NoLostWakeup(states: seq<State>, steps: seq<Step>)
    requires Run(states, steps)
    ensures var s := states[|steps|];
            s.worker == Waiting && s.queue > 0 ==>
              || Enabled(s, WorkerWake)
              || (Enabled(s, WriterSignal) && Enabled(Next(s, WriterSignal), WorkerWake))
  {
    RunInv(states, steps);
  }

  /** The worker exits only with an empty queue after Close began, or with an error. */
  lemma ExitDrained(states: seq<State>, steps: seq<Step>)
    requires Run(states, steps)
    ensures var s := states[|steps|]; s.worker == Exited ==> !s.ok || (s.queue == 0 && s.stop)
  {
    RunInv(states, steps);
  }

  /** Close never reports that the worker did not drain the queue. */
  lemma AlwaysDrained(states: seq<State>, steps: seq<Step>)
    requires Run(states, steps)
    ensures states[|steps|].closer != Closed(true)
  {
    RunInv(states, steps);
  }

  /** The check that the queue still has the flushed memtable in front never fails. */
  lemma QueueUnchanged(states: seq<State>, steps: seq<Step>)
    requires Run(states, steps)
    ensures states[|steps|].worker == Publishing ==> states[|steps|].queue > 0
  {
    RunInv(states, steps);
  }

  // ------------------------------------------------------------------ progress

  /** How many steps the worker needs at most, left alone, to finish after Close. */
  function Work(s: State): nat {
    var rest := match s.worker
      case Waiting => 4
      case Looping => 3
      case Inspecting => 2
      case Building => 1
      case Publishing => 0
      case Compacting => 4
      case Exited => 0;
    5 * s.queue + rest
  }

  function WorkerStep(s: State): Step {
    match s.worker
    case Waiting => WorkerWake
    case Looping => WorkerLock
    case Inspecting => WorkerInspect(true)
    case Building => WorkerBuild
    case Publishing => WorkerPublish(true)
    case Compacting => WorkerCompact(false)
    case Exited => WorkerWake
  }

  /** While Close waits for the worker, the worker can always take a step, and each step
      that meets no failure brings it nearer to its exit. */
  lemma CloseWaitEnds(s: State)
    requires Inv(s) && s.closer == Joining && s.worker != Exited
    ensures Enabled(s, WorkerStep(s)) && Work(Next(s, WorkerStep(s))) < Work(s)
    ensures Next(s, WorkerStep(s)).closer == Joining && Inv(Next(s, WorkerStep(s)))
  {
    StepInv(s, WorkerStep(s));
  }
}
