/**
 The engine as a state machine with one step per lock region: writes and memtable
 switches, flush and compaction (capture, build, publish), snapshots, pinned
 readers, removal of obsolete files, Close, crash and reopen.  Every step that
 touches the disk can fail, and a failed manifest save or log append may still
 have reached the disk.
 */
module Engine {
  import opened Bytes
  import opened Versions
  import opened Store
  import opened Compaction

  predicate ValidKey(k: Blob) {
    k != [] && 9 !in k && 10 !in k && 0 !in k
  }

  /** A log record that was appended but whose sync failed. */
  datatype Limbo = Limbo(wal: nat, batch: Batch)

  /** A manifest record written only in part: how many whole records are before it, whether
      the cut is in its header line, and whether later bytes made it unreadable. */
  datatype Tear = Tear(at: nat, header: bool, spoiled: bool)

  /** log lists the whole manifest records; log[..synced] is durable, and a crash may keep any
      longer prefix.  torn is the first record that was cut short, if there is one. */
  datatype Disk = Disk(log: seq<Rec>, synced: nat, torn: Option<Tear>, wals: Wals, limbo: Option<Limbo>, ssts: Data)

  /** Nothing follows a torn record, so loading cuts it off and reads every whole one. */
  predicate Readable(disk: Disk) {
    disk.torn.None? || (|disk.log| <= disk.torn.value.at && !disk.torn.value.spoiled)
  }

  datatype Imm = Imm(mem: nat, wal: nat)
  datatype FlushJob = FlushJob(number: nat, imm: Imm, built: bool)
  datatype Snap = Snap(seqno: nat, active: bool)

  /** A read in progress: pinned sequence, memtables (newest first) and tables. */
  datatype Reader = Reader(r: nat, mems: seq<nat>, tables: Data)

  datatype Phase = Down | Up | Closing(moved: bool)

  /** mems holds the memtable objects; past, cuts and floor are history: the
      committed batches, the sequence numbers at which memtables were switched, and
      the lowest read sequence compaction has preserved. */
  datatype State = State(
    disk: Disk, phase: Phase, bgOk: bool,
    edit: Edit, persisted: Edit, tables: Data,
    mems: Data, nextMem: nat, active: nat, imm: seq<Imm>, activeWal: nat, oldest: nat,
    snaps: seq<Snap>, flush: Option<FlushJob>, comp: Option<Job>,
    garbage: set<nat>, obsolete: nat, readers: set<Reader>,
    past: seq<Batch>, cuts: seq<nat>, floor: nat)

  /** What a failed save left in the file: nothing, a part of its record, or all of it.  A part
      left behind an earlier part may complete what that one announced, and spoil it. */
  datatype Left = Nothing | Part(header: bool, spoils: bool) | Whole

  /** Result of a manifest save. */
  datatype Save = Saved | SaveFailed(left: Left)

  datatype Append = Appended | AppendFailed(written: bool)

  datatype Switch = Switched | WalOpenFailed(created: bool) | SwitchSave(left: Left)

  datatype Step =
    | Write(ops: seq<Op>, append: Append)
    | SwitchMem(outcome: Switch)
    | FlushCapture
    | FlushBuild
    | FlushFail
    | FlushPublish(meta: Meta, save: Save)
    | CompactCapture(job: Job)
    | CompactBuild
    | CompactFail(removed: bool, fatal: bool)
    | CompactPublish(meta: Meta, save: Save)
    | RemoveFile(number: nat)
    | RemoveWal(number: nat)
    | GetSnapshot
    | ReleaseSnapshot(index: nat)
    | Pin(r: nat)
    | Unpin(reader: Reader)
    | RecordError
    | CloseBegin
    | CloseEnd(save: Save)
    | Crash(kept: nat, keepLimbo: bool, tear: Option<Tear>)
    | Open(wal: nat, oldest: nat, next: nat, last: nat, cut: nat)
    | OpenCut(wal: nat, oldest: nat, next: nat, last: nat)

  // -------------------------------------------------------------------- effects

  function LogSave(disk: Disk, persisted: Edit, e: Edit, save: Save): Disk {
    match save
    case Saved => disk.(log := disk.log + [Diff(persisted, e)], synced := |disk.log| + 1)
    case SaveFailed(left) =>
      match left
      case Nothing => disk
      case Part(header, spoils) => disk.(torn := Some(Torn(disk, header, spoils)))
      case Whole => disk.(log := disk.log + [Diff(persisted, e)])
  }

  /** The first torn record after one more was cut short. */
  function Torn(disk: Disk, header: bool, spoils: bool): Tear {
    match disk.torn
    case None => Tear(|disk.log|, header, false)
    case Some(t) => t.(spoiled := t.spoiled || spoils)
  }

  function NewBatch(s: State, ops: seq<Op>): Batch {
    Batch(s.edit.last + 1, ops)
  }

  predicate CanWrite(s: State, ops: seq<Op>) {
    && s.phase == Up && s.bgOk
    && ops != [] && s.edit.next < MAX_U64 && s.edit.last + |ops| <= MAX_U64
    && (forall i :: 0 <= i < |ops| ==> ValidKey(ops[i].key))
    && s.activeWal in s.disk.wals && s.active in s.mems
  }

  /** Append to the log, insert into the active memtable, advance the last sequence. */
  function DoWrite(s: State, ops: seq<Op>, append: Append): State
    requires CanWrite(s, ops)
  {
    var b := NewBatch(s, ops);
    match append
    case Appended =>
      s.(disk := s.disk.(wals := s.disk.wals[s.activeWal := s.disk.wals[s.activeWal] + [b]]),
         mems := s.mems[s.active := s.mems[s.active] + BatchSet(b)],
         edit := s.edit.(last := s.edit.last + |ops|),
         past := s.past + [b])
    case AppendFailed(written) =>
      s.(disk := if written then s.disk.(limbo := Some(Limbo(s.activeWal, b))) else s.disk,
         bgOk := false)
  }

  predicate CanSwitch(s: State) {
    && s.phase == Up && s.bgOk && s.edit.next < MAX_U64
    && s.active in s.mems && s.mems[s.active] != {}
  }

  /** Allocate a log file, save the manifest, then make the active memtable immutable.
      A failure before the switch puts the old edit back, file number included. */
  function DoSwitch(s: State, outcome: Switch): State {
    var w := s.edit.next;
    var grown := s.disk.(wals := s.disk.wals[w := []]);
    var e := s.edit.(next := w + 1);
    match outcome
    case WalOpenFailed(created) => if created then s.(disk := grown) else s
    case SwitchSave(left) =>
      s.(disk := LogSave(grown, s.persisted, e, SaveFailed(left)), bgOk := false)
    case Switched =>
      s.(disk := LogSave(grown, s.persisted, e, Saved),
         edit := e, persisted := e,
         imm := s.imm + [Imm(s.active, s.oldest)],
         mems := s.mems[s.nextMem := {}], nextMem := s.nextMem + 1, active := s.nextMem,
         activeWal := w, oldest := w,
         cuts := s.cuts + [s.edit.last])
  }

  predicate CanFlushCapture(s: State) {
    s.phase != Down && s.bgOk && s.flush.None? && s.imm != []
  }

  function DoFlushCapture(s: State): State
    requires CanFlushCapture(s)
  {
    if s.edit.next == MAX_U64 then s.(bgOk := false)
    else
      s.(flush := Some(FlushJob(s.edit.next, s.imm[0], false)),
         edit := s.edit.(next := s.edit.next + 1))
  }

  predicate CanFlushBuild(s: State) {
    s.phase != Down && s.flush.Some? && !s.flush.value.built && s.flush.value.imm.mem in s.mems
  }

  function DoFlushBuild(s: State): State
    requires CanFlushBuild(s)
  {
    var j := s.flush.value;
    s.(disk := s.disk.(ssts := s.disk.ssts[j.number := s.mems[j.imm.mem]]),
       flush := Some(j.(built := true)))
  }

  predicate CanFlushFail(s: State) {
    s.phase != Down && s.flush.Some?
  }

  function DoFlushFail(s: State): State {
    s.(flush := None, bgOk := false)
  }

  ghost predicate CanFlushPublish(s: State, meta: Meta) {
    && s.phase != Down && s.flush.Some? && s.flush.value.built
    && s.imm != [] && s.flush.value.imm == s.imm[0]
    && s.imm[0].mem in s.mems && MetaFor(meta, 0, s.mems[s.imm[0].mem])
    && |s.cuts| > 0
  }

  function NextLiveWal(s: State): nat {
    if |s.imm| > 1 then s.imm[1].wal else s.oldest
  }

  /** Add the table, move the log number, save; only then leave the queue. */
  function DoFlushPublish(s: State, meta: Meta, save: Save): State
    requires s.flush.Some? && s.imm != [] && s.imm[0].mem in s.mems && |s.cuts| > 0
  {
    var n := s.flush.value.number;
    var e := s.edit.(files := s.edit.files[n := meta], wal := NextLiveWal(s));
    var disk := LogSave(s.disk, s.persisted, e, save);
    match save
    case Saved =>
      s.(disk := disk, edit := e, persisted := e, tables := s.tables[n := s.mems[s.imm[0].mem]],
         imm := s.imm[1..], cuts := s.cuts[1..], flush := None,
         obsolete := if s.obsolete < NextLiveWal(s) then NextLiveWal(s) else s.obsolete)
    case SaveFailed(_) => s.(disk := disk, flush := None, bgOk := false)
  }

  /** The smallest active snapshot as MinActiveSnapshotSequence finds it, scanning in
      order with 0 standing for "none yet". */
  function MinActive(snaps: seq<Snap>): nat {
    if snaps == [] then 0
    else
      var m, x := MinActive(snaps[..|snaps| - 1]), snaps[|snaps| - 1];
      if x.active && (m == 0 || x.seqno < m) then x.seqno else m
  }

  ghost predicate CanCompactCapture(s: State, j: Job) {
    && s.phase != Down && s.bgOk && s.comp.None? && s.edit.next < MAX_U64
    && Selects(s.edit.files, j) && j.inputs != {} && !j.built
    && j.number == s.edit.next
    && j.minSnap == MinActive(s.snaps)
    && j.floor == (if j.minSnap == 0 then s.edit.last else j.minSnap)
    && j.output == Retain(Tables(j.inputs, s.tables), j.minSnap, j.target)
  }

  function DoCompactCapture(s: State, j: Job): State {
    s.(comp := Some(j), edit := s.edit.(next := s.edit.next + 1))
  }

  predicate CanCompactBuild(s: State) {
    s.phase != Down && s.comp.Some? && !s.comp.value.built
  }

  function DoCompactBuild(s: State): State
    requires CanCompactBuild(s)
  {
    var j := s.comp.value;
    s.(disk := s.disk.(ssts := s.disk.ssts[j.number := j.output]), comp := Some(j.(built := true)))
  }

  predicate CanCompactFail(s: State) {
    s.phase != Down && s.comp.Some?
  }

  function DoCompactFail(s: State, removed: bool, fatal: bool): State
    requires CanCompactFail(s)
  {
    s.(disk := if removed then s.disk.(ssts := s.disk.ssts - {s.comp.value.number}) else s.disk,
       comp := None, bgOk := s.bgOk && !fatal)
  }

  ghost predicate CanCompactPublish(s: State, meta: Meta) {
    && s.phase != Down && s.comp.Some? && s.comp.value.built
    && s.comp.value.inputs <= s.edit.files.Keys
    && MetaFor(meta, s.comp.value.target, s.comp.value.output)
  }

  function DoCompactPublish(s: State, meta: Meta, save: Save): State
    requires s.comp.Some?
  {
    var j := s.comp.value;
    var e := s.edit.(files := Published(s.edit.files, j, meta));
    var disk := LogSave(s.disk, s.persisted, e, save);
    match save
    case Saved =>
      s.(disk := disk, edit := e, persisted := e,
         tables := (s.tables - j.inputs)[j.number := j.output],
         comp := None, garbage := s.garbage + j.inputs,
         floor := if s.floor < j.floor then j.floor else s.floor)
    case SaveFailed(_) => s.(disk := disk, comp := None, bgOk := false)
  }

  function DoRemoveFile(s: State, n: nat): State {
    s.(disk := s.disk.(ssts := s.disk.ssts - {n}), garbage := s.garbage - {n})
  }

  function DoRemoveWal(s: State, w: nat): State {
    s.(disk := s.disk.(wals := s.disk.wals - {w}))
  }

  function DoGetSnapshot(s: State): State {
    s.(snaps := s.snaps + [Snap(s.edit.last, true)])
  }

  function DoReleaseSnapshot(s: State, i: nat): State
    requires i < |s.snaps|
  {
    s.(snaps := s.snaps[i := s.snaps[i].(active := false)])
  }

  predicate CanPin(s: State, r: nat) {
    && s.phase != Down
    && (r == s.edit.last || exists i :: 0 <= i < |s.snaps| && s.snaps[i] == Snap(r, true))
  }

  function MemsNewestFirst(imm: seq<Imm>): seq<nat> {
    if imm == [] then [] else [imm[|imm| - 1].mem] + MemsNewestFirst(imm[..|imm| - 1])
  }

  function DoPin(s: State, r: nat): State {
    s.(readers := s.readers + {Reader(r, [s.active] + MemsNewestFirst(s.imm), s.tables)})
  }

  function DoUnpin(s: State, reader: Reader): State {
    s.(readers := s.readers - {reader})
  }

  /** A failed removal or compaction is recorded and stops further work. */
  function DoRecordError(s: State): State {
    s.(bgOk := false)
  }

  predicate CanCloseBegin(s: State) {
    s.phase == Up && s.active in s.mems
  }

  /** Queue the active memtable with its own log number; no log file is opened. */
  function DoCloseBegin(s: State): State
    requires CanCloseBegin(s)
  {
    if s.mems[s.active] == {} then s.(phase := Closing(false))
    else
      s.(phase := Closing(true),
         imm := s.imm + [Imm(s.active, s.oldest)],
         mems := s.mems[s.nextMem := {}], nextMem := s.nextMem + 1, active := s.nextMem,
         cuts := s.cuts + [s.edit.last])
  }

  /** The worker has left and no compaction runs. */
  predicate CanCloseEnd(s: State) {
    s.phase.Closing? && s.flush.None? && s.comp.None? && (s.imm == [] || !s.bgOk)
  }

  function Inactive(snaps: seq<Snap>): seq<Snap> {
    seq(|snaps|, i requires 0 <= i < |snaps| => snaps[i].(active := false))
  }

  function Stop(s: State): State {
    s.(phase := Down, snaps := Inactive(s.snaps), flush := None, comp := None)
  }

  /** After a clean drain the manifest moves past every log file. */
  function DoCloseEnd(s: State, save: Save): State
    requires CanCloseEnd(s)
  {
    if s.bgOk && s.phase.moved && s.edit.next < MAX_U64 then
      var w := s.edit.next;
      var e := s.edit.(next := w + 1, wal := w);
      var disk := LogSave(s.disk, s.persisted, e, save);
      match save
      case Saved => Stop(s.(disk := disk, edit := e, persisted := e, activeWal := w, oldest := w, obsolete := w))
      case SaveFailed(_) => Stop(s.(disk := disk, edit := e, activeWal := w, oldest := w, bgOk := false))
    else
      Stop(s)
  }

  /** What may be left of a torn record when the first kept records survive: all of it if any
      later record does, otherwise any part of it and of what follows. */
  predicate TearLeft(disk: Disk, kept: nat, tear: Option<Tear>) {
    if disk.torn.None? || kept < disk.torn.value.at then tear == None
    else if disk.torn.value.at < kept then tear == disk.torn
    else tear == None || tear == disk.torn || tear == Some(disk.torn.value.(spoiled := false))
  }

  predicate CanCrash(s: State, kept: nat, tear: Option<Tear>) {
    s.disk.synced <= kept <= |s.disk.log| && TearLeft(s.disk, kept, tear)
  }

  /** Only synced manifest records and log records are sure to survive.  A record that a crash
      itself cuts short is a torn tail, which loading drops. */
  function DoCrash(s: State, kept: nat, keepLimbo: bool, tear: Option<Tear>): State
    requires CanCrash(s, kept, tear)
  {
    Stop(s).(disk := s.disk.(log := s.disk.log[..kept], torn := tear,
                             limbo := if keepLimbo then s.disk.limbo else None),
             readers := {}, garbage := {}, obsolete := 0)
  }

  // ---------------------------------------------------------------------- open

  /** The log files with a surviving unacknowledged record counted in. */
  function Absorbed(disk: Disk): Wals {
    if disk.limbo.Some? && disk.limbo.value.wal in disk.wals then
      var l := disk.limbo.value;
      disk.wals[l.wal := disk.wals[l.wal] + [l.batch]]
    else disk.wals
  }

  function Recovered(s: State): seq<Batch> {
    if s.disk.limbo.Some? then s.past + [s.disk.limbo.value.batch] else s.past
  }

  /** The replayed memtable: every record of a live log file. */
  function ReplayedMem(disk: Disk): set<Version> {
    WalSet(Absorbed(disk), Replay(disk.log).wal)
  }

  /** The newest and oldest of the log files numbered lo or higher. */
  ghost predicate LiveRange(ns: set<nat>, lo: nat, wal: nat, oldest: nat) {
    if forall w :: w in ns ==> w < lo then wal == oldest == lo
    else wal in ns && oldest in ns && lo <= oldest && forall w :: w in ns && w >= lo ==> oldest <= w <= wal
  }

  /** What Recover computes from the directory: newest and oldest live log file, a
      file number above every file seen, and the last sequence. */
  ghost predicate CanResume(s: State, wal: nat, oldest: nat, next: nat, last: nat) {
    var e, wals := Replay(s.disk.log), s.disk.wals;
    && s.phase == Down
    && LiveRange(wals.Keys, e.wal, wal, oldest)
    && next >= e.next
    && (forall n :: n in s.disk.ssts ==> n < next) && (forall w :: w in wals ==> w < next) && wal < next
    && (forall n :: n in e.files ==> n in s.disk.ssts)
    && last >= e.last && AllUpTo(ReplayedMem(s.disk), last)
    && (last == e.last || exists v :: v in ReplayedMem(s.disk) && v.seqno == last)
  }

  /** The manifest loads; cut is where the replayed memtable starts in the history. */
  ghost predicate CanOpen(s: State, wal: nat, oldest: nat, next: nat, last: nat, cut: nat) {
    && Readable(s.disk) && CanResume(s, wal, oldest, next, last)
    && After(History(Recovered(s)), cut) == ReplayedMem(s.disk) && cut <= last
  }

  function DoOpen(s: State, wal: nat, oldest: nat, next: nat, last: nat, cut: nat): State {
    var e := Replay(s.disk.log);
    var wals := Absorbed(s.disk);
    s.(disk := Disk(s.disk.log, s.disk.synced, None, if wal in wals then wals else wals[wal := []], None, s.disk.ssts),
       phase := Up, bgOk := true,
       edit := Edit(next, e.wal, last, e.files), persisted := e,
       tables := map n | n in e.files && n in s.disk.ssts :: s.disk.ssts[n],
       mems := s.mems[s.nextMem := ReplayedMem(s.disk)], nextMem := s.nextMem + 1, active := s.nextMem,
       imm := [], activeWal := wal, oldest := oldest, snaps := Inactive(s.snaps),
       flush := None, comp := None, garbage := {}, obsolete := 0,
       past := Recovered(s), cuts := [cut], floor := last)
  }

  /** The manifest cut off at a torn record, whatever follows it. */
  function CutOff(disk: Disk): Disk
    requires disk.torn.Some? && disk.torn.value.at <= |disk.log|
  {
    var n := disk.torn.value.at;
    disk.(log := disk.log[..n], synced := if disk.synced < n then disk.synced else n, torn := None)
  }

  /** Whole records follow one that was cut in its payload. */
  predicate Cuttable(disk: Disk) {
    disk.torn.Some? && disk.torn.value.at < |disk.log| && !disk.torn.value.header && !disk.torn.value.spoiled
  }

  /** They are shorter than what it announced, so loading takes them for its rest and drops
      them all. */
  ghost predicate CanOpenCut(s: State, wal: nat, oldest: nat, next: nat, last: nat) {
    && Cuttable(s.disk)
    && CanResume(s.(disk := CutOff(s.disk)), wal, oldest, next, last)
  }

  function DoOpenCut(s: State, wal: nat, oldest: nat, next: nat, last: nat): State
    requires s.disk.torn.Some? && s.disk.torn.value.at <= |s.disk.log|
  {
    DoOpen(s.(disk := CutOff(s.disk)), wal, oldest, next, last, last)
  }

  // ---------------------------------------------------------------- transitions

  ghost predicate Enabled(s: State, step: Step) {
    match step
    case Write(ops, _) => CanWrite(s, ops)
    case SwitchMem(_) => CanSwitch(s)
    case FlushCapture => CanFlushCapture(s)
    case FlushBuild => CanFlushBuild(s)
    case FlushFail => CanFlushFail(s)
    case FlushPublish(meta, _) => CanFlushPublish(s, meta)
    case CompactCapture(j) => CanCompactCapture(s, j)
    case CompactBuild => CanCompactBuild(s)
    case CompactFail(_, _) => CanCompactFail(s)
    case CompactPublish(meta, _) => CanCompactPublish(s, meta)
    case RemoveFile(n) => n in s.garbage
    case RemoveWal(w) => w < s.obsolete
    case GetSnapshot => s.phase != Down
    case ReleaseSnapshot(i) => i < |s.snaps|
    case Pin(r) => CanPin(s, r)
    case Unpin(_) => true
    case RecordError => s.phase != Down
    case CloseBegin => CanCloseBegin(s)
    case CloseEnd(_) => CanCloseEnd(s)
    case Crash(kept, _, tear) => CanCrash(s, kept, tear)
    case Open(wal, oldest, next, last, cut) => CanOpen(s, wal, oldest, next, last, cut)
    case OpenCut(wal, oldest, next, last) => CanOpenCut(s, wal, oldest, next, last)
  }

  function Effect(s: State, step: Step): State
    requires Enabled(s, step)
  {
    match step
    case Write(ops, append) => DoWrite(s, ops, append)
    case SwitchMem(outcome) => DoSwitch(s, outcome)
    case FlushCapture => DoFlushCapture(s)
    case FlushBuild => DoFlushBuild(s)
    case FlushFail => DoFlushFail(s)
    case FlushPublish(meta, save) => DoFlushPublish(s, meta, save)
    case CompactCapture(j) => DoCompactCapture(s, j)
    case CompactBuild => DoCompactBuild(s)
    case CompactFail(removed, fatal) => DoCompactFail(s, removed, fatal)
    case CompactPublish(meta, save) => DoCompactPublish(s, meta, save)
    case RemoveFile(n) => DoRemoveFile(s, n)
    case RemoveWal(w) => DoRemoveWal(s, w)
    case GetSnapshot => DoGetSnapshot(s)
    case ReleaseSnapshot(i) => DoReleaseSnapshot(s, i)
    case Pin(r) => DoPin(s, r)
    case Unpin(reader) => DoUnpin(s, reader)
    case RecordError => DoRecordError(s)
    case CloseBegin => DoCloseBegin(s)
    case CloseEnd(save) => DoCloseEnd(s, save)
    case Crash(kept, keepLimbo, tear) => DoCrash(s, kept, keepLimbo, tear)
    case Open(wal, oldest, next, last, cut) => DoOpen(s, wal, oldest, next, last, cut)
    case OpenCut(wal, oldest, next, last) => DoOpenCut(s, wal, oldest, next, last)
  }

  /** The record of a new manifest: log number 1, no tables. */
  const FIRST_RECORD: Rec := Rec(2, 1, 0, {}, map[])

  /** A directory whose manifest was just created. */
  ghost predicate Init(s: State) {
    && s.phase == Down
    && s.disk == Disk([FIRST_RECORD], 1, None, map[], None, map[])
    && s.past == [] && s.readers == {} && s.garbage == {} && s.obsolete == 0
    && (forall m :: m in s.mems ==> m < s.nextMem)
  }

  /** states[i + 1] follows from states[i] by steps[i]. */
  ghost predicate Run(states: seq<State>, steps: seq<Step>) {
    && |states| == |steps| + 1 && Init(states[0])
    && forall i :: 0 <= i < |steps| ==>
         Enabled(states[i], steps[i]) && states[i + 1] == Effect(states[i], steps[i])
  }
}
