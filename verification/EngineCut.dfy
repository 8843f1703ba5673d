/**
 A reopen that drops manifest records.  Once a save has left a torn record nothing more is
 written, so what such a reopen finds is the manifest before the torn record, and the log files
 of that time less those removed since.  It gives the fold of the committed batches exactly if
 every key whose newest logged version was in a removed file still reads the same.
 */
module EngineCut {
  import opened Bytes
  import opened Versions
  import opened Store
  import opened Compaction
  import opened Engine
  import opened EngineInv
  import opened EngineRecover
  import opened EngineTheorems
  import opened EngineTorn

  // ------------------------------------------------------------- since the torn record

  /** b follows a, in which a record was just cut short, and that record is still there. */
  ghost predicate Since(a: State, b: State) {
    var n := |a.disk.log|;
    && b.past == a.past && (b.phase == Down || !b.bgOk)
    && b.disk.torn.Some? && b.disk.torn.value.at == n <= |b.disk.log| && b.disk.log[..n] == a.disk.log
    && (b.disk.limbo == a.disk.limbo || b.disk.limbo == None)
    && Fewer(Replay(a.disk.log), a.disk, b.disk)
    && (b.phase != Down ==> Jobs(Replay(a.disk.log), b))
  }

  /** Log files are only removed, and tables of the edit are not rewritten. */
  ghost predicate Fewer(e: Edit, d: Disk, d': Disk) {
    && (forall w :: w in d'.wals ==> w in d.wals && d.wals[w] == d'.wals[w])
    && (forall n :: n in e.files && n in d'.ssts ==> n in d.ssts && d.ssts[n] == d'.ssts[n])
  }

  predicate Jobs(e: Edit, b: State) {
    (b.flush.Some? ==> b.flush.value.number !in e.files) && (b.comp.Some? ==> b.comp.value.number !in e.files)
  }

  /** A save leaves a first torn record. */
  lemma TearBegins(s: State, step: Step)
    requires Enabled(s, step) && s.disk.torn.None? && Effect(s, step).disk.torn.Some? && Inv(Effect(s, step))
    ensures var a := Effect(s, step);
            Since(a, a)
  {
    hide Inv, Enabled, Effect;
    var a := Effect(s, step);
    TearAtEnd(s, step);
    assert a.disk.log[..|a.disk.log|] == a.disk.log;
    if a.phase != Down {
      TornMeansError(a);
      NewJobs(a);
    }
  }

  lemma TearAtEnd(s: State, step: Step)
    requires Enabled(s, step) && s.disk.torn.None? && Effect(s, step).disk.torn.Some?
    ensures Effect(s, step).disk.torn.value.at == |Effect(s, step).disk.log|
  {
    hide LogSave, CanWrite, MetaFor, Published, NextLiveWal, Inactive, CanOpen, CanOpenCut, CanCompactCapture;
    if Publishes(step) && SaveOf(s, step).Some? {
      var save, grown := SaveOf(s, step).value, s.disk.(wals := s.disk.wals[s.edit.next := []]);
      match step
      case SwitchMem(outcome) => SaveAtEnd(grown, s.persisted, s.edit.(next := s.edit.next + 1), save);
      case FlushPublish(meta, _) =>
        SaveAtEnd(s.disk, s.persisted, s.edit.(files := s.edit.files[s.flush.value.number := meta], wal := NextLiveWal(s)), save);
      case CompactPublish(meta, _) => SaveAtEnd(s.disk, s.persisted, s.edit.(files := Published(s.edit.files, s.comp.value, meta)), save);
      case CloseEnd(_) => SaveAtEnd(s.disk, s.persisted, s.edit.(next := s.edit.next + 1, wal := s.edit.next), save);
    } else {
      NoSaveNoTear(s, step);
    }
  }

  lemma SaveAtEnd(disk: Disk, persisted: Edit, e: Edit, save: Save)
    requires disk.torn.None?
    ensures var d := LogSave(disk, persisted, e, save); d.torn.Some? ==> d.torn.value.at == |d.log|
  {
    hide Diff;
  }

  lemma NoSaveNoTear(s: State, step: Step)
    requires Enabled(s, step) && s.disk.torn.None? && SaveOf(s, step).None?
    ensures Effect(s, step).disk.torn.None?
  {
    hide LogSave, CanWrite, MetaFor, Inactive, Selects, Retain, Tables, MinActive, MemsNewestFirst, CanResume, BatchSet, Absorbed, WalSet;
  }

  lemma NewJobs(a: State)
    requires Inv(a) && a.phase != Down
    ensures Jobs(Replay(a.disk.log), a)
  {
    hide LogInv, MemInv, WalInv, TableInv, ReadInv, SnapInv, TailInv, NumInv, Replay, History, LastSeq, WalsOrdered, LimboInv, ReaderInv,
      PastInv, FloorFor, Retain, Fits;
    assert a.disk.log[..|a.disk.log|] == a.disk.log;
    LogLength(a);
  }

  lemma LogLength(s: State)
    requires Inv(s)
    ensures s.disk.synced <= |s.disk.log|
  {
    hide LiveInv, TopInv, EntryInv, WalsOrdered, LimboInv, ReaderInv, PastInv, LastSeq, History;
  }

  /** With an error recorded only what was under way goes on. */
  lemma SinceStep(a: State, b: State, step: Step)
    requires Since(a, b) && Enabled(b, step) && Effect(b, step).disk.torn.Some?
    ensures Since(a, Effect(b, step))
  {
    hide Replay, Since, Enabled, Effect;
    if step.FlushPublish? || step.CompactPublish? {
      SincePublish(a, b, step);
    } else if step.Crash? {
      SinceCrash(a, b, step);
    } else if step.FlushBuild? || step.CompactBuild? || step.CompactFail? {
      SinceBuild(a, b, step);
    } else if step.RemoveFile? || step.RemoveWal? {
      SinceRemove(a, b, step);
    } else {
      SinceOther(a, b, step);
    }
  }

  lemma SaveSince(a: State, b: State, e: Edit, save: Save)
    requires Since(a, b)
    ensures var d, n := LogSave(b.disk, b.persisted, e, save), |a.disk.log|;
            && d.torn.Some? && d.torn.value.at == n <= |d.log| && d.log[..n] == a.disk.log
            && d.wals == b.disk.wals && d.ssts == b.disk.ssts && d.limbo == b.disk.limbo
  {
    hide Diff, Fewer, Jobs, Replay;
  }

  lemma SincePublish(a: State, b: State, step: Step)
    requires Since(a, b) && Enabled(b, step) && (step.FlushPublish? || step.CompactPublish?)
    ensures Since(a, Effect(b, step))
  {
    hide Since, CanFlushPublish, CanCompactPublish;
    match step
    case FlushPublish(meta, save) => SinceFlush(a, b, meta, save);
    case CompactPublish(meta, save) => SinceCompact(a, b, meta, save);
  }

  lemma SinceFlush(a: State, b: State, meta: Meta, save: Save)
    requires Since(a, b) && CanFlushPublish(b, meta)
    ensures Since(a, DoFlushPublish(b, meta, save))
  {
    hide Replay, LogSave, NextLiveWal, MetaFor;
    SaveSince(a, b, b.edit.(files := b.edit.files[b.flush.value.number := meta], wal := NextLiveWal(b)), save);
  }

  lemma SinceCompact(a: State, b: State, meta: Meta, save: Save)
    requires Since(a, b) && CanCompactPublish(b, meta)
    ensures Since(a, DoCompactPublish(b, meta, save))
  {
    hide Replay, LogSave, Published, MetaFor;
    SaveSince(a, b, b.edit.(files := Published(b.edit.files, b.comp.value, meta)), save);
  }

  lemma SinceCrash(a: State, b: State, step: Step)
    requires Since(a, b) && Enabled(b, step) && step.Crash? && Effect(b, step).disk.torn.Some?
    ensures Since(a, Effect(b, step))
  {
    hide Replay, Inactive;
    var n := |a.disk.log|;
    assert n <= step.kept;
    assert b.disk.log[..step.kept][..n] == b.disk.log[..n];
  }

  lemma SinceBuild(a: State, b: State, step: Step)
    requires Since(a, b) && Enabled(b, step) && (step.FlushBuild? || step.CompactBuild? || step.CompactFail?)
    ensures Since(a, Effect(b, step))
  {
    hide Replay;
  }

  lemma SinceRemove(a: State, b: State, step: Step)
    requires Since(a, b) && Enabled(b, step) && (step.RemoveFile? || step.RemoveWal?)
    ensures Since(a, Effect(b, step))
  {
    hide Replay;
  }

  lemma SinceOther(a: State, b: State, step: Step)
    requires Since(a, b) && Enabled(b, step) && Effect(b, step).disk.torn.Some?
    requires !step.FlushPublish? && !step.CompactPublish? && !step.Crash?
    requires !step.FlushBuild? && !step.CompactBuild? && !step.CompactFail? && !step.RemoveFile? && !step.RemoveWal?
    ensures Since(a, Effect(b, step))
  {
    hide Replay, Fewer, Selects, Retain, Tables, MinActive, Inactive, MemsNewestFirst, CanResume, BatchSet, Absorbed, WalSet, LogSave;
  }

  /** A torn record is made at step m and still there at i. */
  ghost predicate TornFrom(states: seq<State>, steps: seq<Step>, m: nat, i: nat) {
    && Run(states, steps) && m < i < |states| && NeverCut(steps, i)
    && states[m].disk.torn.None? && forall j :: m < j <= i ==> states[j].disk.torn.Some?
  }

  lemma {:induction false} RunSince(states: seq<State>, steps: seq<Step>, m: nat, i: nat)
    requires TornFrom(states, steps, m, i)
    ensures Since(states[m + 1], states[i]) && Inv(states[m + 1]) && Inv(states[i])
    decreases i
  {
    hide Init, Inv, Enabled, Effect, Since;
    RunInv(states, steps, m + 1);
    RunInv(states, steps, i);
    assert states[i] == Effect(states[i - 1], steps[i - 1]) && Enabled(states[i - 1], steps[i - 1]);
    if i == m + 1 {
      TearBegins(states[m], steps[m]);
    } else {
      RunSince(states, steps, m, i - 1);
      SinceStep(states[m + 1], states[i - 1], steps[i - 1]);
    }
  }

  // --------------------------------------------------------------- what a reopen finds

  /** The log files of a with the record that survives in b counted in. */
  function AtTear(a: State, b: State): State {
    a.(disk := a.disk.(limbo := b.disk.limbo))
  }

  /** Everything in log files from the log number on when the record was torn. */
  ghost function Logged(a: State, b: State): set<Version> {
    WalSet(Absorbed(AtTear(a, b).disk), Replay(a.disk.log).wal)
  }

  /** What is left of it for a reopen from b. */
  ghost function Kept(a: State, b: State): set<Version> {
    WalSet(Absorbed(b.disk), Replay(a.disk.log).wal)
  }

  ghost function Stored(a: State, b: State): set<Version> {
    Tables(Replay(a.disk.log).files.Keys, b.disk.ssts)
  }

  /** The newest logged version of its key, in a log file that is gone. */
  ghost predicate Missing(a: State, b: State, v: Version) {
    v in Logged(a, b) && v !in Kept(a, b) && forall w :: w in Logged(a, b) && w.key == v.key ==> w.seqno <= v.seqno
  }

  /** The version a reopen from b finds of a key. */
  ghost function Found(a: State, b: State, k: Blob, last: nat): Option<Version> {
    if Newest(Kept(a, b), k, last).Some? then Newest(Kept(a, b), k, last) else Newest(Stored(a, b), k, last)
  }

  /** Before anything was removed a reopen would have been complete. */
  lemma AtTearGood(a: State, b: State)
    requires Inv(a) && Since(a, b)
    ensures var K := Recovered(AtTear(a, b));
            && K == Recovered(b) && PastInv(K) && LastSeq(K) >= 0
            && Good(Replay(a.disk.log), History(K), LastSeq(K), Absorbed(AtTear(a, b).disk), a.disk.ssts)
  {
    hide Inv, Replay, History, LastSeq, PastInv, Good, Fewer, Jobs;
    AtTearDisk(a, b);
    SettledInv(AtTear(a, b));
    SettledGood(Settled(AtTear(a, b)));
  }

  lemma AtTearDisk(a: State, b: State)
    requires Inv(a) && (b.disk.limbo == a.disk.limbo || b.disk.limbo == None)
    ensures DiskInv(AtTear(a, b))
  {
    hide LiveInv, TopInv, Replay, History, LastSeq, PastInv, WalsOrdered, ReaderInv, EntryInv;
  }

  lemma SettledGood(t: State)
    requires DiskInv(t)
    ensures PastInv(t.past) && LastSeq(t.past) >= 0
    ensures Good(Replay(t.disk.log), History(t.past), LastSeq(t.past), t.disk.wals, t.disk.ssts)
  {
    hide Replay, History, LastSeq, PastInv, WalsOrdered, ReaderInv, LimboInv, Good;
    assert t.disk.log[..|t.disk.log|] == t.disk.log;
  }

  lemma KeptLogged(a: State, b: State)
    requires Inv(b) && Since(a, b)
    ensures Kept(a, b) <= Logged(a, b)
    ensures (forall w :: w in a.disk.wals && w >= Replay(a.disk.log).wal ==> w in b.disk.wals) ==> Kept(a, b) == Logged(a, b)
  {
    hide Inv, Replay, BatchSet, Jobs;
    LimboKept(b);
    var e, F, G := Replay(a.disk.log), Absorbed(AtTear(a, b).disk), Absorbed(b.disk);
    assert forall w :: w in G ==> w in F && F[w] == G[w];
    assert F.Keys == a.disk.wals.Keys && G.Keys == b.disk.wals.Keys;
    SubWalSet(F, G, e.wal);
  }

  lemma LimboKept(s: State)
    requires Inv(s)
    ensures s.disk.limbo.Some? ==> s.disk.limbo.value.wal in s.disk.wals
  {
    hide LiveInv, TopInv, LogInv, WalsOrdered, ReaderInv, PastInv, LastSeq, History;
  }

  lemma SubWalSet(F: Wals, G: Wals, lo: nat)
    requires forall w :: w in G ==> w in F && F[w] == G[w]
    ensures WalSet(G, lo) <= WalSet(F, lo)
    ensures (forall w :: w in F && w >= lo ==> w in G) ==> WalSet(G, lo) == WalSet(F, lo)
  {
    hide BatchSet;
  }

  // ------------------------------------------------------------------- the answers

  /** The reopened database reads what is found. */
  lemma CutReads(a: State, b: State, step: Step, k: Blob)
    requires Since(a, b) && Enabled(b, step) && step.OpenCut?
    ensures UserGet(Effect(b, step), k) == ValueOf(Found(a, b, k, step.last))
  {
    hide Replay, Newest, Jobs, Fewer, WalSet, LiveRange, Inactive, CanResume;
    var t, e := Effect(b, step), Replay(a.disk.log);
    assert CutOff(b.disk).log == a.disk.log;
    assert Absorbed(CutOff(b.disk)) == Absorbed(b.disk);
    assert t.imm == [] && t.edit.last == step.last && t.mems[t.active] == Kept(a, b);
    LookupOne(t.active, t.mems, t.tables, k, step.last);
    assert [t.active] + MemsNewestFirst(t.imm) == [t.active];
    FilesFound(a, b, step);
    assert t.tables.Keys == e.files.Keys;
    TablesSame(e.files.Keys, b.disk.ssts, t.tables);
  }

  lemma LookupOne(id: nat, mems: Data, tables: Data, k: Blob, r: nat)
    requires id in mems
    ensures Lookup([id], mems, tables, k, r)
         == if Newest(mems[id], k, r).Some? then Newest(mems[id], k, r) else Newest(Tables(tables.Keys, tables), k, r)
  {
    hide Newest, Tables;
    assert [id][1..] == [];
  }

  lemma FilesFound(a: State, b: State, step: Step)
    requires Since(a, b) && Enabled(b, step) && step.OpenCut?
    ensures Replay(a.disk.log).files.Keys <= b.disk.ssts.Keys && step.last >= Replay(a.disk.log).last && AllUpTo(Kept(a, b), step.last)
  {
    hide Replay, Newest, Jobs, Fewer, WalSet, LiveRange, Inactive;
    assert CutOff(b.disk).log == a.disk.log;
    assert Absorbed(CutOff(b.disk)) == Absorbed(b.disk);
  }

  /** A key is answered from the history unless its newest logged version is missing. */
  lemma CutKey(a: State, b: State, k: Blob, last: nat)
    requires Inv(a) && Inv(b) && Since(a, b)
    requires Replay(a.disk.log).files.Keys <= b.disk.ssts.Keys && last >= Replay(a.disk.log).last && AllUpTo(Kept(a, b), last)
    ensures ValueOf(Found(a, b, k, last)) == Get(Fold(Recovered(b)), k) || exists v :: Missing(a, b, v) && v.key == k
    ensures forall v :: Missing(a, b, v) && v.key == k ==> Get(Fold(Recovered(b)), k) == ValueOf(Some(v))
  {
    hide Inv, Since, Replay, Newest, History, LastSeq, Fold, Get, PastInv, Logged, Kept, Stored, Recovered, Good;
    AtTearGood(a, b);
    KeptLogged(a, b);
    var K, e := Recovered(b), Replay(a.disk.log);
    var H, L := History(K), LastSeq(K);
    GoodParts(a, b);
    FoldLast(K, k);
    HistoryFacts(K);
    Decide(H, L, Stored(a, b), Logged(a, b), Kept(a, b), k, e.last, last);
    forall v | Missing(a, b, v) && v.key == k ensures Get(Fold(K), k) == ValueOf(Some(v)) {
      TopOfHistory(H, L, Logged(a, b), v);
    }
  }

  lemma FoldLast(past: seq<Batch>, k: Blob)
    requires PastInv(past) && LastSeq(past) >= 0
    ensures Get(Fold(past), k) == Answer(History(past), k, LastSeq(past))
  {
    hide Answer, Fold, Get, History, LastSeq;
    FoldIsNewest(past, k);
  }

  lemma GoodParts(a: State, b: State)
    requires Since(a, b) && Replay(a.disk.log).files.Keys <= b.disk.ssts.Keys && LastSeq(Recovered(b)) >= 0
    requires Good(Replay(a.disk.log), History(Recovered(b)), LastSeq(Recovered(b)), Absorbed(AtTear(a, b).disk), a.disk.ssts)
    ensures var H, L := History(Recovered(b)), LastSeq(Recovered(b));
            && SuffixOf(Logged(a, b), H) && Agree(Stored(a, b) + Logged(a, b), H, L) && Stored(a, b) <= H
            && AllUpTo(Stored(a, b), Replay(a.disk.log).last) && Replay(a.disk.log).last <= L
  {
    hide Replay, Agree, SuffixOf, History, LastSeq, WalSet, Covers, Levelled, Jobs, Recovered, Absorbed;
    var e := Replay(a.disk.log);
    assert forall n :: n in e.files ==> a.disk.ssts[n] == b.disk.ssts[n];
    TablesSame(e.files.Keys, a.disk.ssts, b.disk.ssts);
  }

  /** The newest of a suffix is the newest of all. */
  lemma TopOfHistory(H: set<Version>, last: nat, X: set<Version>, v: Version)
    requires Unique(H) && AllUpTo(H, last) && SuffixOf(X, H) && v in X
    requires forall w :: w in X && w.key == v.key ==> w.seqno <= v.seqno
    ensures Newest(H, v.key, last) == Some(v)
  {
    assert IsNewest(H, v.key, last, v);
    NewestIs(H, v.key, last, v);
  }

  lemma Decide(H: set<Version>, L: nat, T: set<Version>, X: set<Version>, W: set<Version>, k: Blob, low: nat, last: nat)
    requires Unique(H) && AllUpTo(H, L) && SuffixOf(X, H) && W <= X && T <= H && Agree(T + X, H, L)
    requires AllUpTo(T, low) && low <= L && low <= last && AllUpTo(W, last)
    ensures || ValueOf(if Newest(W, k, last).Some? then Newest(W, k, last) else Newest(T, k, last)) == Answer(H, k, L)
            || exists v :: v in X && v !in W && (forall w :: w in X && w.key == v.key ==> w.seqno <= v.seqno) && v.key == k
  {
    hide Newest, Unique;
    NewestMeaning(X, k, L);
    NewestMeaning(W, k, last);
    if Newest(X, k, L).Some? {
      var v := Newest(X, k, L).value;
      TopOfHistory(H, L, X, v);
      if v in W {
        UniqueSubset(W, H);
        assert IsNewest(W, k, last, v);
        NewestIs(W, k, last, v);
      }
    } else {
      UniqueSubset(T + X, H);
      NewestAddInvisible(T, X, k, L);
      UniqueSubset(T, H);
      NewestStable(T, k, low, L);
      NewestStable(T, k, low, last);
    }
  }

  /** In every run, for a reopen that drops what follows the record torn at step m: it gives the
      fold of the committed batches, and of one whose log record survived, exactly if every key
      whose newest logged version was in a log file removed since reads the same without it. */
  lemma CutIsFold(states: seq<State>, steps: seq<Step>, m: nat, i: nat)
    requires TornFrom(states, steps, m, i) && i < |steps| && steps[i].OpenCut?
    ensures var a, b, t := states[m + 1], states[i], states[i + 1];
            (forall k :: UserGet(t, k) == Get(Fold(Recovered(b)), k)) <==>
            (forall v :: Missing(a, b, v) ==> ValueOf(Some(v)) == ValueOf(Found(a, b, v.key, steps[i].last)))
  {
    hide Init, Inv, Enabled, Effect, Since, Found, Missing, UserGet, Get, Fold, Recovered, Kept, Replay;
    RunSince(states, steps, m, i);
    var a, b, t, last := states[m + 1], states[i], states[i + 1], steps[i].last;
    assert Enabled(b, steps[i]) && t == Effect(b, steps[i]);
    FilesFound(a, b, steps[i]);
    forall k
      ensures UserGet(t, k) == ValueOf(Found(a, b, k, last))
      ensures UserGet(t, k) == Get(Fold(Recovered(b)), k) || exists v :: Missing(a, b, v) && v.key == k
      ensures forall v :: Missing(a, b, v) && v.key == k ==> Get(Fold(Recovered(b)), k) == ValueOf(Some(v))
    {
      CutReads(a, b, steps[i], k);
      CutKey(a, b, k, last);
    }
  }

  // --------------------------------------------------------------- removed log files

  /** Every manifest a crash may leave, and the one in memory, is past this log file. */
  ghost predicate Superseded(s: State, w: nat) {
    && (forall n :: s.disk.synced <= n <= |s.disk.log| ==> w < Replay(s.disk.log[..n]).wal)
    && (s.phase != Down ==> w < s.edit.wal)
  }

  ghost predicate OnlySuperseded(a: State, b: State) {
    forall w :: w in a.disk.wals && w !in b.disk.wals ==> Superseded(b, w)
  }

  lemma {:induction false} RunSuperseded(states: seq<State>, steps: seq<Step>, m: nat, i: nat)
    requires TornFrom(states, steps, m, i)
    ensures OnlySuperseded(states[m + 1], states[i])
    decreases i
  {
    hide Init, Inv, Enabled, Effect, Since, Superseded;
    if i > m + 1 {
      RunSuperseded(states, steps, m, i - 1);
      RunSince(states, steps, m, i - 1);
      assert states[i] == Effect(states[i - 1], steps[i - 1]) && Enabled(states[i - 1], steps[i - 1]);
      var b, c := states[i - 1], states[i];
      forall w | w in states[m + 1].disk.wals && w !in c.disk.wals ensures Superseded(c, w) {
        SupersededStep(states[m + 1], b, steps[i - 1], w);
      }
    }
  }

  lemma SupersededStep(a: State, b: State, step: Step, w: nat)
    requires Inv(b) && Since(a, b) && Enabled(b, step) && Effect(b, step).disk.torn.Some?
    requires w in b.disk.wals || Superseded(b, w)
    requires w !in Effect(b, step).disk.wals
    ensures Superseded(Effect(b, step), w)
  {
    hide Inv, Since, Enabled, Effect, Superseded;
    if step.RemoveWal? {
      RemovedSuperseded(b, step, w);
    } else if step.FlushPublish? || step.CompactPublish? {
      PublishSuperseded(b, step, w);
    } else if step.Crash? {
      CrashSuperseded(b, step, w);
    } else {
      OtherSuperseded(a, b, step, w);
    }
  }

  lemma RemovedSuperseded(b: State, step: Step, w: nat)
    requires Inv(b) && Enabled(b, step) && step.RemoveWal?
    requires w in b.disk.wals || Superseded(b, w)
    requires w !in Effect(b, step).disk.wals
    ensures Superseded(Effect(b, step), w)
  {
    hide MemInv, WalInv, TableInv, ReadInv, SnapInv, FlushInv, CompInv, TailInv, TopInv, PastInv, WalsOrdered, LimboInv, ReaderInv,
      Good, Replay, History, LastSeq;
    forall n | b.disk.synced <= n <= |b.disk.log| ensures w < Replay(b.disk.log[..n]).wal {
      assert EntryInv(Replay(b.disk.log[..n]), History(b.past), LastSeq(b.past), b.disk.wals, b.disk.ssts, b.garbage, b.obsolete);
    }
  }

  /** One more record whose log number is past w. */
  lemma SaveSuperseded(s: State, e: Edit, save: Save, w: nat)
    requires Superseded(s, w) && s.phase != Down && w < e.wal
    ensures var d := LogSave(s.disk, s.persisted, e, save);
            forall n :: d.synced <= n <= |d.log| ==> w < Replay(d.log[..n]).wal
  {
    hide Replay;
    var d, r := LogSave(s.disk, s.persisted, e, save), Diff(s.persisted, e);
    ReplaySnoc(s.disk.log, r);
    forall n | d.synced <= n <= |d.log| ensures w < Replay(d.log[..n]).wal {
      if n <= |s.disk.log| {
        assert d.log[..n] == s.disk.log[..n];
      } else {
        assert d.log[..n] == s.disk.log + [r];
      }
    }
  }

  lemma NextWalGrows(s: State)
    requires Inv(s) && s.phase != Down && s.imm != []
    ensures s.edit.wal <= NextLiveWal(s)
  {
    hide DiskInv, MemInv, TableInv, ReadInv, SnapInv, FlushInv, CompInv, TailInv, NumInv, WalSet, After, SuffixOf;
    ImmCuts(s);
  }

  lemma ImmCuts(s: State)
    requires Inv(s) && s.phase != Down
    ensures |s.cuts| == |s.imm| + 1
  {
    hide DiskInv, TableInv, ReadInv, SnapInv, FlushInv, CompInv, TailInv, NumInv, After, Slice;
  }

  lemma FlushSuperseded(b: State, meta: Meta, save: Save, w: nat)
    requires Inv(b) && CanFlushPublish(b, meta) && Superseded(b, w)
    ensures Superseded(DoFlushPublish(b, meta, save), w)
  {
    hide Inv, Replay, LogSave, MetaFor, NextLiveWal;
    NextWalGrows(b);
    SaveSuperseded(b, b.edit.(files := b.edit.files[b.flush.value.number := meta], wal := NextLiveWal(b)), save, w);
  }

  lemma PublishSuperseded(b: State, step: Step, w: nat)
    requires Inv(b) && Enabled(b, step) && (step.FlushPublish? || step.CompactPublish?)
    requires (w in b.disk.wals || Superseded(b, w)) && w !in Effect(b, step).disk.wals
    ensures Superseded(Effect(b, step), w)
  {
    hide Inv, Superseded, Diff, MetaFor, Published, NextLiveWal;
    match step
    case FlushPublish(meta, save) => FlushSuperseded(b, meta, save, w);
    case CompactPublish(meta, save) => CompactSuperseded(b, meta, save, w);
  }

  lemma CompactSuperseded(b: State, meta: Meta, save: Save, w: nat)
    requires CanCompactPublish(b, meta) && Superseded(b, w)
    ensures Superseded(DoCompactPublish(b, meta, save), w)
  {
    hide Replay, LogSave, MetaFor, Published;
    SaveSuperseded(b, b.edit.(files := Published(b.edit.files, b.comp.value, meta)), save, w);
  }

  lemma CrashSuperseded(b: State, step: Step, w: nat)
    requires Enabled(b, step) && step.Crash? && (w in b.disk.wals || Superseded(b, w)) && w !in Effect(b, step).disk.wals
    ensures Superseded(Effect(b, step), w)
  {
    hide Replay, Inactive, TearLeft;
    var d := Effect(b, step).disk;
    forall n | d.synced <= n <= |d.log| ensures w < Replay(d.log[..n]).wal {
      assert d.log[..n] == b.disk.log[..n];
    }
  }

  lemma OtherSuperseded(a: State, b: State, step: Step, w: nat)
    requires Since(a, b) && Enabled(b, step) && Effect(b, step).disk.torn.Some?
    requires !step.RemoveWal? && !step.FlushPublish? && !step.CompactPublish? && !step.Crash?
    requires (w in b.disk.wals || Superseded(b, w)) && w !in Effect(b, step).disk.wals
    ensures Superseded(Effect(b, step), w)
  {
    hide Replay, Fewer, Selects, Retain, Tables, MinActive, Inactive, MemsNewestFirst, CanOpen, CanOpenCut, DoOpen, DoOpenCut, DoWrite,
      DoSwitch, BatchSet, Superseded, Jobs;
    if step.Open? || step.OpenCut? {
      OpenMends(b, step);
    } else {
      SameLog(b, Effect(b, step), w);
    }
  }

  lemma OpenMends(b: State, step: Step)
    requires Enabled(b, step) && (step.Open? || step.OpenCut?)
    ensures Effect(b, step).disk.torn.None?
  {
    hide CanResume, Replay, Absorbed, WalSet, Inactive;
  }

  lemma SameLog(b: State, c: State, w: nat)
    requires Superseded(b, w) && c.disk.log == b.disk.log && c.disk.synced == b.disk.synced
    requires c.phase != Down ==> b.phase != Down && c.edit.wal == b.edit.wal
    ensures Superseded(c, w)
  {
    hide Replay;
  }

  /** If every log file is still there, and so in particular if no record behind the torn one
      moved the log number, the reopen gives the fold. */
  lemma CutComplete(states: seq<State>, steps: seq<Step>, m: nat, i: nat, k: Blob)
    requires TornFrom(states, steps, m, i) && i < |steps| && steps[i].OpenCut?
    requires var a, b := states[m + 1], states[i];
             || (forall w :: w in a.disk.wals && w >= Replay(a.disk.log).wal ==> w in b.disk.wals)
             || Replay(b.disk.log).wal <= Replay(a.disk.log).wal
    ensures UserGet(states[i + 1], k) == Get(Fold(Recovered(states[i])), k)
  {
    hide Run, Inv, Since, Found, UserGet, Get, Fold, Recovered, Replay, Logged, Kept;
    var a, b := states[m + 1], states[i];
    RunSince(states, steps, m, i);
    RunSuperseded(states, steps, m, i);
    LogLength(b);
    assert b.disk.log[..|b.disk.log|] == b.disk.log;
    KeptLogged(a, b);
    CutIsFold(states, steps, m, i);
  }
}
