/** A run after which a compaction into level 2 drops a tombstone while a memtable holds an
    older value of its key, together with the tombstone: Close was cut off between its flush
    and its last manifest save, so the same versions are in a table and in the log. */
module EngineOverlap {
  import opened Bytes
  import opened Versions
  import opened Store
  import opened Compaction
  import opened Engine
  import opened EngineTheorems
  import opened EnginePublish

  const KEY: Blob := [97]
  const OPS: seq<Op> := [Put(KEY, [1]), Delete(KEY)]
  const BATCH: Batch := Batch(1, OPS)
  const OLD: Version := Version(KEY, 1, [1], false)
  const GONE: Version := Version(KEY, 2, [], true)
  const META0: Meta := Meta(0, KEY, KEY, 0)
  const META1: Meta := Meta(1, KEY, KEY, 0)
  const REC1: Rec := Rec(3, 1, 2, {}, map[2 := META0])
  const REC2: Rec := Rec(4, 1, 2, {2}, map[3 := META1])
  const JOB1: Job := Job(3, {2}, 1, KEY, KEY, 0, 2, {GONE}, false)
  const JOB2: Job := Job(4, {3}, 2, KEY, KEY, 0, 2, {}, false)
  const EDIT1: Edit := Edit(3, 1, 2, map[2 := META0])
  const EDIT2: Edit := Edit(4, 1, 2, map[3 := META1])

  lemma BatchIs()
    ensures BatchSet(BATCH) == {OLD, GONE}
  {
    assert BATCH.ops[0] == Put(KEY, [1]) && BATCH.ops[1] == Delete(KEY);
    assert VersionOf(BATCH.ops[0], BATCH.first + 0) == OLD && VersionOf(BATCH.ops[1], BATCH.first + 1) == GONE;
    forall v | v in BatchSet(BATCH) ensures v in {OLD, GONE} {
      var i :| 0 <= i < |BATCH.ops| && v == VersionOf(BATCH.ops[i], BATCH.first + i);
    }
  }

  // ------------------------------------------------------------------- the states

  function S0(): State {
    State(Disk([FIRST_RECORD], 1, None, map[], None, map[]), Down, true, Edit(1, 1, 0, map[]), Edit(1, 1, 0, map[]), map[],
          map[], 0, 0, [], 0, 0, [], None, None, {}, 0, {}, [], [], 0)
  }

  function S1(): State {
    State(Disk([FIRST_RECORD], 1, None, map[1 := []], None, map[]), Up, true, Edit(2, 1, 0, map[]), Edit(2, 1, 0, map[]), map[],
          map[0 := {}], 1, 0, [], 1, 1, [], None, None, {}, 0, {}, [], [0], 0)
  }

  function S2(): State {
    State(Disk([FIRST_RECORD], 1, None, map[1 := [BATCH]], None, map[]), Up, true, Edit(2, 1, 2, map[]), Edit(2, 1, 0, map[]),
          map[], map[0 := {OLD, GONE}], 1, 0, [], 1, 1, [], None, None, {}, 0, {}, [BATCH], [0], 0)
  }

  function S3(): State {
    State(Disk([FIRST_RECORD], 1, None, map[1 := [BATCH]], None, map[]), Closing(true), true, Edit(2, 1, 2, map[]),
          Edit(2, 1, 0, map[]), map[], map[0 := {OLD, GONE}, 1 := {}], 2, 1, [Imm(0, 1)], 1, 1, [], None, None, {}, 0, {}, [BATCH], [0, 2], 0)
  }

  function S4(): State {
    S3().(edit := Edit(3, 1, 2, map[]), flush := Some(FlushJob(2, Imm(0, 1), false)))
  }

  function S5(): State {
    S3().(edit := Edit(3, 1, 2, map[]), flush := Some(FlushJob(2, Imm(0, 1), true)),
          disk := S3().disk.(ssts := map[2 := {OLD, GONE}]))
  }

  function S6(): State {
    State(Disk([FIRST_RECORD, REC1], 2, None, map[1 := [BATCH]], None, map[2 := {OLD, GONE}]), Closing(true), true,
          EDIT1, EDIT1, map[2 := {OLD, GONE}], map[0 := {OLD, GONE}, 1 := {}], 2, 1, [], 1, 1, [], None, None, {}, 1, {},
          [BATCH], [2], 0)
  }

  function S7(): State {
    S6().(phase := Down, obsolete := 0)
  }

  function S8(): State {
    State(Disk([FIRST_RECORD, REC1], 2, None, map[1 := [BATCH]], None, map[2 := {OLD, GONE}]), Up, true, EDIT1, EDIT1,
          map[2 := {OLD, GONE}], map[0 := {OLD, GONE}, 1 := {}, 2 := {OLD, GONE}], 3, 2, [], 1, 1, [],
          None, None, {}, 0, {}, [BATCH], [0], 2)
  }

  function S9(): State {
    S8().(edit := EDIT1.(next := 4), comp := Some(JOB1))
  }

  function S10(): State {
    S8().(edit := EDIT1.(next := 4), comp := Some(JOB1.(built := true)),
          disk := S8().disk.(ssts := map[2 := {OLD, GONE}, 3 := {GONE}]))
  }

  function S11(): State {
    State(Disk([FIRST_RECORD, REC1, REC2], 3, None, map[1 := [BATCH]], None, map[2 := {OLD, GONE}, 3 := {GONE}]), Up, true,
          EDIT2, EDIT2, map[3 := {GONE}], map[0 := {OLD, GONE}, 1 := {}, 2 := {OLD, GONE}], 3, 2, [], 1, 1, [],
          None, None, {2}, 0, {}, [BATCH], [0], 2)
  }

  function S12(): State {
    S11().(edit := EDIT2.(next := 5), comp := Some(JOB2))
  }

  // -------------------------------------------------------------------- the steps

  lemma Step0()
    ensures Init(S0()) && Enabled(S0(), Open(1, 1, 2, 0, 0)) && Effect(S0(), Open(1, 1, 2, 0, 0)) == S1()
  {
    hide History, WalSet, After;
    var s := S0();
    assert s.disk.log == [] + [FIRST_RECORD];
    ReplaySnoc([], FIRST_RECORD);
    EmptySets();
    assert S1().disk.wals == s.disk.wals[1 := []];
    assert Effect(s, Open(1, 1, 2, 0, 0)) == S1();
  }

  lemma EmptySets()
    ensures WalSet(map[], 1) == {} && After(History([]), 0) == {}
  {
  }

  lemma Step1()
    ensures Enabled(S1(), Write(OPS, Appended)) && Effect(S1(), Write(OPS, Appended)) == S2()
  {
    hide BatchSet;
    BatchIs();
    var s := S1();
    assert NewBatch(s, OPS) == BATCH;
    assert s.disk.wals[1] + [BATCH] == [BATCH] && s.mems[0] + {OLD, GONE} == {OLD, GONE} && s.past + [BATCH] == [BATCH];
    assert s.disk.wals[1 := [BATCH]] == map[1 := [BATCH]] && s.mems[0 := {OLD, GONE}] == map[0 := {OLD, GONE}];
  }

  lemma Step2()
    ensures Enabled(S2(), CloseBegin) && Effect(S2(), CloseBegin) == S3()
  {
    var s := S2();
    assert OLD in s.mems[s.active];
    assert s.mems[1 := {}] == map[0 := {OLD, GONE}, 1 := {}];
    assert s.imm + [Imm(0, 1)] == [Imm(0, 1)] && s.cuts + [2] == [0, 2];
  }

  lemma Step34()
    ensures Enabled(S3(), FlushCapture) && Effect(S3(), FlushCapture) == S4()
    ensures Enabled(S4(), FlushBuild) && Effect(S4(), FlushBuild) == S5()
  {
    assert S4().disk.ssts[2 := {OLD, GONE}] == map[2 := {OLD, GONE}];
  }

  lemma Step5()
    ensures Enabled(S5(), FlushPublish(META0, Saved)) && Effect(S5(), FlushPublish(META0, Saved)) == S6()
  {
    var s := S5();
    assert OLD in {OLD, GONE} && InRange(META0, KEY);
    var e := s.edit.(files := s.edit.files[2 := META0], wal := 1);
    assert e == EDIT1;
    assert e.files - {} == map[2 := META0];
    assert Diff(s.persisted, e) == REC1;
    assert [FIRST_RECORD] + [REC1] == [FIRST_RECORD, REC1];
    assert s.tables[2 := {OLD, GONE}] == map[2 := {OLD, GONE}];
    assert s.imm[1..] == [] && s.cuts[1..] == [2];
  }

  lemma Step6()
    ensures Enabled(S6(), Crash(2, false, None)) && Effect(S6(), Crash(2, false, None)) == S7()
  {
    assert S6().disk.log[..2] == S6().disk.log;
  }

  lemma Replayed(log: seq<Rec>)
    requires log == [FIRST_RECORD, REC1]
    ensures Replay(log) == EDIT1
  {
    assert log == ([] + [FIRST_RECORD]) + [REC1];
    ReplaySnoc([] + [FIRST_RECORD], REC1);
    ReplaySnoc([], FIRST_RECORD);
    var none: Files := map[];
    assert (none - {}) + none == none && (none - {}) + map[2 := META0] == map[2 := META0];
  }

  lemma LogMem()
    ensures WalSet(map[1 := [BATCH]], 1) == {OLD, GONE} && After(History([BATCH]), 0) == {OLD, GONE}
  {
    hide BatchSet;
    BatchIs();
    var wals: Wals := map[1 := [BATCH]];
    assert wals[1][0] == BATCH;
    forall v | v in {OLD, GONE} ensures v in WalSet(wals, 1) {
      assert v in BatchSet(wals[1][0]);
    }
    assert [BATCH][..0] == [] && History([BATCH]) == {OLD, GONE};
  }

  lemma Step7()
    ensures Enabled(S7(), Open(1, 1, 3, 2, 0)) && Effect(S7(), Open(1, 1, 3, 2, 0)) == S8()
  {
    hide History, WalSet, After, Replay;
    var s := S7();
    Replayed(s.disk.log);
    LogMem();
    assert GONE in ReplayedMem(s.disk);
    assert s.mems[2 := {OLD, GONE}] == map[0 := {OLD, GONE}, 1 := {}, 2 := {OLD, GONE}];
    assert Effect(s, Open(1, 1, 3, 2, 0)).tables == map[2 := {OLD, GONE}];
  }

  lemma Retained()
    ensures Tables({2}, map[2 := {OLD, GONE}]) == {OLD, GONE} && Retain({OLD, GONE}, 0, 1) == {GONE}
    ensures Tables({3}, map[3 := {GONE}]) == {GONE} && Retain({GONE}, 0, 2) == {}
  {
    var a: Data, b: Data := map[2 := {OLD, GONE}], map[3 := {GONE}];
    forall v | v in {OLD, GONE} ensures v in Tables({2}, a) {
      assert 2 in a && v in a[2];
    }
    assert 3 in b && GONE in b[3];
    assert !Keep({OLD, GONE}, OLD, 0, 1);
  }

  lemma Step8()
    ensures Enabled(S8(), CompactCapture(JOB1)) && Effect(S8(), CompactCapture(JOB1)) == S9()
  {
    hide Retain, Tables;
    Retained();
    assert Leq(KEY, KEY);
    assert MinActive([]) == 0;
  }

  lemma Step9()
    ensures Enabled(S9(), CompactBuild) && Effect(S9(), CompactBuild) == S10()
  {
    assert S9().disk.ssts[3 := {GONE}] == map[2 := {OLD, GONE}, 3 := {GONE}];
  }

  lemma Step10()
    ensures Enabled(S10(), CompactPublish(META1, Saved)) && Effect(S10(), CompactPublish(META1, Saved)) == S11()
  {
    var s := S10();
    assert GONE in {GONE} && InRange(META1, KEY);
    var files := Published(s.edit.files, s.comp.value, META1);
    assert files == map[3 := META1];
    var e := s.edit.(files := files);
    assert e == EDIT2;
    assert s.persisted.files.Keys == {2} && e.files.Keys == {3};
    assert e.files - {2} == map[3 := META1];
    assert Diff(s.persisted, e) == REC2;
    assert [FIRST_RECORD, REC1] + [REC2] == [FIRST_RECORD, REC1, REC2];
    assert (s.tables - {2})[3 := {GONE}] == map[3 := {GONE}];
    assert s.garbage + {2} == {2};
  }

  lemma Step11()
    ensures Enabled(S11(), CompactCapture(JOB2)) && Effect(S11(), CompactCapture(JOB2)) == S12()
  {
    hide Retain, Tables;
    Retained();
    assert Leq(KEY, KEY);
    assert MinActive([]) == 0;
  }

  // ---------------------------------------------------------------------- the run

  /** The tombstone is about to be dropped, and a memtable holds the value below it. */
  lemma OlderOutside() returns (states: seq<State>, steps: seq<Step>)
    ensures Run(states, steps) && |steps| == 12 && NeverCut(steps, 12)
    ensures var s := states[12];
            && s.phase == Up && s.comp.Some? && s.comp.value.target == 2
            && GONE in Tables(s.comp.value.inputs, s.tables) && GONE !in s.comp.value.output
            && OLD in Outside(s, s.comp.value.inputs)
            && !NoOlder(Tables(s.comp.value.inputs, s.tables), Outside(s, s.comp.value.inputs))
  {
    hide Enabled, Effect, Init, S0, S1, S2, S3, S4, S5, S6, S7, S8, S9, S10, S11, S12, Outside, NoOlder, Tables;
    Step0();
    Step1();
    Step2();
    Step34();
    Step5();
    Step6();
    Step7();
    Step8();
    Step9();
    Step10();
    Step11();
    states := [S0(), S1(), S2(), S3(), S4(), S5(), S6(), S7(), S8(), S9(), S10(), S11(), S12()];
    steps := [Open(1, 1, 2, 0, 0), Write(OPS, Appended), CloseBegin, FlushCapture, FlushBuild,
              FlushPublish(META0, Saved), Crash(2, false, None), Open(1, 1, 3, 2, 0), CompactCapture(JOB1), CompactBuild,
              CompactPublish(META1, Saved), CompactCapture(JOB2)];
    AtEnd();
  }

  lemma AtEnd()
    ensures var s := S12();
            && s.phase == Up && s.comp == Some(JOB2)
            && GONE in Tables({3}, s.tables) && OLD in Outside(s, {3})
            && !NoOlder(Tables({3}, s.tables), Outside(s, {3}))
  {
    var s := S12();
    Retained();
    assert s.tables == map[3 := {GONE}];
    assert MemsNewestFirst(s.imm) == [];
    assert 2 in [s.active] + MemsNewestFirst(s.imm) && OLD in s.mems[2];
    assert OLD in MemSet(s);
  }
}
