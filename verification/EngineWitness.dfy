/** Runs from a new database that show what can go wrong: an acknowledged batch that a torn
    manifest record makes unreadable or loses, and an empty log file with the next number. */
module EngineWitness {
  import opened Bytes
  import opened Versions
  import opened Store
  import opened Engine
  import opened EngineInv
  import opened EngineTheorems
  import opened EngineTorn

  const KEY1: Blob := [97]
  const KEY2: Blob := [98]
  const PUT1: seq<Op> := [Put(KEY1, [1])]
  const PUT2: seq<Op> := [Put(KEY2, [2])]
  const BATCH1: Batch := Batch(1, PUT1)
  const BATCH2: Batch := Batch(2, PUT2)
  const VERSION1: Version := Version(KEY1, 1, [1], false)
  const VERSION2: Version := Version(KEY2, 2, [2], false)
  const META1: Meta := Meta(0, KEY1, KEY1, 0)
  const REC1: Rec := Rec(3, 1, 1, {}, map[])
  const REC2: Rec := Rec(4, 2, 2, {}, map[3 := META1])

  lemma Sets()
    ensures BatchSet(BATCH1) == {VERSION1} && BatchSet(BATCH2) == {VERSION2}
  {
    assert BATCH1.ops[0] == Put(KEY1, [1]) && BATCH2.ops[0] == Put(KEY2, [2]);
    assert forall v :: v in BatchSet(BATCH1) ==> v == VERSION1;
    assert VersionOf(BATCH1.ops[0], BATCH1.first + 0) == VERSION1;
    assert forall v :: v in BatchSet(BATCH2) ==> v == VERSION2;
    assert VersionOf(BATCH2.ops[0], BATCH2.first + 0) == VERSION2;
  }

  // ------------------------------------------------------------------- the states

  function New(): State {
    State(Disk([FIRST_RECORD], 1, None, map[], None, map[]), Down, true, Edit(1, 1, 0, map[]), Edit(1, 1, 0, map[]), map[],
          map[], 0, 0, [], 0, 0, [], None, None, {}, 0, {}, [], [], 0)
  }

  function Opened(): State {
    State(Disk([FIRST_RECORD], 1, None, map[1 := []], None, map[]), Up, true, Edit(2, 1, 0, map[]), Edit(2, 1, 0, map[]), map[],
          map[0 := {}], 1, 0, [], 1, 1, [], None, None, {}, 0, {}, [], [0], 0)
  }

  function Written1(): State {
    Opened().(disk := Opened().disk.(wals := map[1 := [BATCH1]]), mems := map[0 := {VERSION1}], edit := Edit(2, 1, 1, map[]),
              past := [BATCH1])
  }

  function Switched1(): State {
    Written1().(disk := Disk([FIRST_RECORD, REC1], 2, None, map[1 := [BATCH1], 2 := []], None, map[]),
                edit := Edit(3, 1, 1, map[]), persisted := Edit(3, 1, 1, map[]), imm := [Imm(0, 1)],
                mems := map[0 := {VERSION1}, 1 := {}], nextMem := 2, active := 1, activeWal := 2, oldest := 2, cuts := [0, 1])
  }

  function Captured(): State {
    Switched1().(flush := Some(FlushJob(3, Imm(0, 1), false)), edit := Edit(4, 1, 1, map[]))
  }

  function Built(): State {
    Captured().(flush := Some(FlushJob(3, Imm(0, 1), true)), disk := Captured().disk.(ssts := map[3 := {VERSION1}]))
  }

  function Written2(): State {
    Built().(disk := Built().disk.(wals := map[1 := [BATCH1], 2 := [BATCH2]]), mems := map[0 := {VERSION1}, 1 := {VERSION2}],
             edit := Edit(4, 1, 2, map[]), past := [BATCH1, BATCH2])
  }

  /** The save of the next memtable switch is cut short. */
  function Torn1(header: bool): State {
    Written2().(disk := Written2().disk.(wals := map[1 := [BATCH1], 2 := [BATCH2], 4 := []], torn := Some(Tear(2, header, false))),
                bgOk := false)
  }

  /** The flush under way publishes behind it, with success. */
  function Flushed(header: bool): State {
    var t := Torn1(header);
    t.(disk := t.disk.(log := [FIRST_RECORD, REC1, REC2], synced := 3), edit := Edit(4, 2, 2, map[3 := META1]),
       persisted := Edit(4, 2, 2, map[3 := META1]), tables := map[3 := {VERSION1}], imm := [], cuts := [1], flush := None, obsolete := 2)
  }

  function Removed(header: bool): State {
    Flushed(header).(disk := Flushed(header).disk.(wals := map[2 := [BATCH2], 4 := []]))
  }

  function Stopped(header: bool): State {
    Removed(header).(phase := Down, obsolete := 0)
  }

  // -------------------------------------------------------------------- the steps

  lemma StepOpen()
    ensures Init(New()) && Enabled(New(), Open(1, 1, 2, 0, 0)) && Effect(New(), Open(1, 1, 2, 0, 0)) == Opened()
  {
    hide History, WalSet, After;
    var s := New();
    assert s.disk.log == [] + [FIRST_RECORD];
    ReplaySnoc([], FIRST_RECORD);
    EmptySets();
    assert Opened().disk.wals == s.disk.wals[1 := []];
    assert Effect(s, Open(1, 1, 2, 0, 0)) == Opened();
  }

  lemma EmptySets()
    ensures WalSet(map[], 1) == {} && After(History([]), 0) == {}
  {
  }

  lemma StepWrite1()
    ensures Enabled(Opened(), Write(PUT1, Appended)) && Effect(Opened(), Write(PUT1, Appended)) == Written1()
  {
    hide BatchSet;
    Sets();
    var s := Opened();
    assert NewBatch(s, PUT1) == BATCH1;
    assert s.disk.wals[1] + [BATCH1] == [BATCH1] && s.mems[0] + {VERSION1} == {VERSION1} && s.past + [BATCH1] == [BATCH1];
    assert s.disk.wals[1 := [BATCH1]] == map[1 := [BATCH1]] && s.mems[0 := {VERSION1}] == map[0 := {VERSION1}];
  }

  lemma StepSwitch()
    ensures Enabled(Written1(), SwitchMem(Switched)) && Effect(Written1(), SwitchMem(Switched)) == Switched1()
  {
    var s := Written1();
    assert Diff(s.persisted, s.edit.(next := 3)) == REC1;
    assert [FIRST_RECORD] + [REC1] == [FIRST_RECORD, REC1];
    assert s.mems[1 := {}] == map[0 := {VERSION1}, 1 := {}];
  }

  lemma StepFlush()
    ensures Enabled(Switched1(), FlushCapture) && Effect(Switched1(), FlushCapture) == Captured()
    ensures Enabled(Captured(), FlushBuild) && Effect(Captured(), FlushBuild) == Built()
  {
    assert Captured().disk.ssts[3 := {VERSION1}] == map[3 := {VERSION1}];
  }

  lemma StepWrite2()
    ensures Enabled(Built(), Write(PUT2, Appended)) && Effect(Built(), Write(PUT2, Appended)) == Written2()
  {
    hide BatchSet;
    Sets();
    var s := Built();
    assert NewBatch(s, PUT2) == BATCH2;
    assert s.disk.wals[2] + [BATCH2] == [BATCH2] && s.mems[1] + {VERSION2} == {VERSION2} && s.past + [BATCH2] == [BATCH1, BATCH2];
    assert s.disk.wals[2 := [BATCH2]] == map[1 := [BATCH1], 2 := [BATCH2]];
    assert s.mems[1 := {VERSION2}] == map[0 := {VERSION1}, 1 := {VERSION2}];
  }

  lemma StepTorn(header: bool)
    ensures var step := SwitchMem(SwitchSave(Part(header, false)));
            Enabled(Written2(), step) && Effect(Written2(), step) == Torn1(header)
  {
    assert Written2().disk.wals[4 := []] == map[1 := [BATCH1], 2 := [BATCH2], 4 := []];
  }

  lemma StepPublish(header: bool)
    ensures var step := FlushPublish(META1, Saved);
            Enabled(Torn1(header), step) && Effect(Torn1(header), step) == Flushed(header)
  {
    var s := Torn1(header);
    assert VERSION1 in {VERSION1} && InRange(META1, KEY1);
    var e := s.edit.(files := s.edit.files[3 := META1], wal := 2);
    assert e.files == map[3 := META1] && e.files - {} == map[3 := META1];
    assert Diff(s.persisted, e) == REC2;
    assert [FIRST_RECORD, REC1] + [REC2] == [FIRST_RECORD, REC1, REC2];
  }

  lemma StepRemove(header: bool)
    ensures Enabled(Flushed(header), RemoveWal(1)) && Effect(Flushed(header), RemoveWal(1)) == Removed(header)
  {
    assert Flushed(header).disk.wals - {1} == map[2 := [BATCH2], 4 := []];
  }

  lemma StepStop(header: bool)
    ensures var step := Crash(3, false, Some(Tear(2, header, false)));
            Enabled(Removed(header), step) && Effect(Removed(header), step) == Stopped(header)
  {
    assert Removed(header).disk.log[..3] == Removed(header).disk.log;
  }

  /** What is on the disk at the end. */
  ghost predicate Ends(s: State, header: bool) {
    && s.phase == Down && s.past == [BATCH1, BATCH2]
    && s.disk == Disk([FIRST_RECORD, REC1, REC2], 3, Some(Tear(2, header, false)), map[2 := [BATCH2], 4 := []], None, map[3 := {VERSION1}])
  }

  lemma StoppedEnds(header: bool)
    ensures Ends(Stopped(header), header)
  {
  }

  lemma CutReplay(log: seq<Rec>)
    requires log == [FIRST_RECORD, REC1, REC2]
    ensures Replay(log[..2]) == Edit(3, 1, 1, map[])
  {
    assert log[..2] == ([] + [FIRST_RECORD]) + [REC1];
    ReplaySnoc([] + [FIRST_RECORD], REC1);
    ReplaySnoc([], FIRST_RECORD);
    assert Replay([]) == Edit(1, 1, 0, map[]);
    var none: Files := map[];
    assert (none - {}) + none == none;
  }

  /** Loading takes the flush record for the rest of the torn one and drops it. */
  lemma StepCut(s: State)
    requires Ends(s, false)
    ensures Enabled(s, OpenCut(4, 2, 5, 2))
    ensures var t := Effect(s, OpenCut(4, 2, 5, 2));
            t.phase == Up && t.past == [BATCH1, BATCH2] && t.tables == map[] && t.imm == [] && t.edit.last == 2
            && t.active in t.mems && t.mems[t.active] == {VERSION2}
  {
    hide WalSet, Inactive, Replay;
    CutReplay(s.disk.log);
    CutMem();
  }

  lemma CutMem()
    ensures WalSet(map[2 := [BATCH2], 4 := []], 1) == {VERSION2}
  {
    hide BatchSet;
    Sets();
    var wals: Wals := map[2 := [BATCH2], 4 := []];
    assert 2 in wals && wals[2][0] == BATCH2 && VERSION2 in BatchSet(wals[2][0]);
    forall v | v in WalSet(wals, 1) ensures v == VERSION2 {
      var w, i :| w in wals && w >= 1 && 0 <= i < |wals[w]| && v in BatchSet(wals[w][i]);
    }
  }

  // --------------------------------------------------------------------- the runs

  function TornStates(header: bool): seq<State> {
    [New(), Opened(), Written1(), Switched1(), Captured(), Built(), Written2(), Torn1(header), Flushed(header), Removed(header),
     Stopped(header)]
  }

  function TornSteps(header: bool): seq<Step> {
    [Open(1, 1, 2, 0, 0), Write(PUT1, Appended), SwitchMem(Switched), FlushCapture, FlushBuild, Write(PUT2, Appended),
     SwitchMem(SwitchSave(Part(header, false))), FlushPublish(META1, Saved), RemoveWal(1),
     Crash(3, false, Some(Tear(2, header, false)))]
  }

  lemma TornRun(header: bool)
    ensures Run(TornStates(header), TornSteps(header))
  {
    hide Enabled, Effect, Init, New, Opened, Written1, Switched1, Captured, Built, Written2, Torn1, Flushed, Removed, Stopped;
    StepOpen();
    StepWrite1();
    StepSwitch();
    StepFlush();
    StepWrite2();
    StepTorn(header);
    StepPublish(header);
    StepRemove(header);
    StepStop(header);
  }

  /** The first batch is acknowledged, the flush behind the torn record is reported as a
      success, its log file is removed, and then no step opens the database again. */
  lemma AcknowledgedUnreadable() returns (states: seq<State>, steps: seq<Step>)
    ensures Run(states, steps) && |steps| == 10 && steps[1] == Write(PUT1, Appended) && steps[7] == FlushPublish(META1, Saved)
    ensures AppendsBehind(states[7], steps[7]) && Lost(states[10]) && states[10].phase == Down
    ensures forall step :: Enabled(states[10], step) ==> !step.Open? && !step.OpenCut?
  {
    hide Enabled, Effect, Init, New, Opened, Written1, Switched1, Captured, Built, Written2, Torn1, Flushed, Removed, Stopped;
    states, steps := TornStates(true), TornSteps(true);
    TornRun(true);
    StoppedEnds(true);
    TornHas();
    forall step | Enabled(Stopped(true), step) ensures !step.Open? && !step.OpenCut? {
      Shut(Stopped(true), step);
    }
  }

  lemma TornHas()
    ensures Torn1(true).disk.torn.Some?
  {
  }

  lemma Shut(s: State, step: Step)
    requires Ends(s, true) && Enabled(s, step)
    ensures !step.Open? && !step.OpenCut?
  {
    hide CanResume;
  }

  /** Cut in its payload instead: the database opens, and the acknowledged batch is gone. */
  lemma AcknowledgedLost() returns (states: seq<State>, steps: seq<Step>)
    ensures Run(states, steps) && |steps| == 11 && steps[1] == Write(PUT1, Appended) && steps[10].OpenCut? && states[11].phase == Up
    ensures UserGet(states[11], KEY1) == None && Get(Fold(states[11].past), KEY1) == Some([1])
  {
    hide Enabled, Effect, Init, UserGet, Get, Fold, New, Opened, Written1, Switched1, Captured, Built, Written2, Torn1, Flushed,
      Removed, Stopped;
    var step := OpenCut(4, 2, 5, 2);
    TornRun(false);
    StoppedEnds(false);
    StepCut(Stopped(false));
    var t := Effect(Stopped(false), step);
    states, steps := TornStates(false) + [t], TornSteps(false) + [step];
    RunSnoc(TornStates(false), TornSteps(false), step);
    LostGet(t);
  }

  lemma RunSnoc(states: seq<State>, steps: seq<Step>, step: Step)
    requires Run(states, steps) && Enabled(states[|steps|], step)
    ensures Run(states + [Effect(states[|steps|], step)], steps + [step])
  {
    hide Enabled, Effect, Init;
  }

  lemma LostGet(t: State)
    requires t.past == [BATCH1, BATCH2] && t.tables == map[] && t.imm == [] && t.edit.last == 2
    requires t.active in t.mems && t.mems[t.active] == {VERSION2}
    ensures UserGet(t, KEY1) == None && Get(Fold(t.past), KEY1) == Some([1])
  {
    NewestMeaning({VERSION2}, KEY1, 2);
    NewestMeaning({}, KEY1, 2);
    assert t.tables.Keys == {};
    assert Tables(t.tables.Keys, t.tables) == {};
    assert MemsNewestFirst(t.imm) == [];
    var ids := [t.active] + MemsNewestFirst(t.imm);
    assert ids[0] == t.active && ids[1..] == [];
    assert Lookup(ids[1..], t.mems, t.tables, KEY1, 2) == None;
    FoldBoth(t.past);
  }

  lemma FoldBoth(past: seq<Batch>)
    requires past == [BATCH1, BATCH2]
    ensures Get(Fold(past), KEY1) == Some([1])
  {
    FoldOne([], BATCH1, Put(KEY1, [1]));
    FoldOne([BATCH1], BATCH2, Put(KEY2, [2]));
    assert past == [BATCH1] + [BATCH2] && [BATCH1] == [] + [BATCH1];
  }

  lemma FoldOne(past: seq<Batch>, b: Batch, op: Op)
    requires b.ops == [op]
    ensures Fold(past + [b]) == ApplyOp(Fold(past), op)
  {
    assert (past + [b])[..|past|] == past;
    assert b.ops[..0] == [] && ApplyOps(Fold(past), []) == Fold(past);
  }

  /** A switch that fails after creating its log file leaves the next number on that file. */
  lemma StaleLog() returns (states: seq<State>, steps: seq<Step>)
    ensures Run(states, steps) && |steps| == 3 && steps[2] == SwitchMem(WalOpenFailed(true))
    ensures states[3].phase == Up && states[3].edit.next in states[3].disk.wals
  {
    hide Enabled, Effect, Init;
    StepOpen();
    StepWrite1();
    var step := SwitchMem(WalOpenFailed(true));
    StepStale();
    states, steps := [New(), Opened(), Written1(), Effect(Written1(), step)], [Open(1, 1, 2, 0, 0), Write(PUT1, Appended), step];
  }

  lemma StepStale()
    ensures var step := SwitchMem(WalOpenFailed(true));
            && Enabled(Written1(), step)
            && Effect(Written1(), step).phase == Up && Effect(Written1(), step).edit.next in Effect(Written1(), step).disk.wals
  {
  }
}
