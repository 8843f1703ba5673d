/**
 The database object.  Its methods take exactly the steps of the engine's state machine,
 so that everything proved about runs of the machine holds of the object.
 */
module Db {
  import opened Bytes
  import opened Versions
  import opened Store
  import opened Compaction
  import opened Engine
  import opened EngineInv
  import opened EngineTheorems
  import EngineRecover
  import Recovery
  import Manifest
  import Picker

  datatype Status = Ok | NotFound | NotOpen | BackgroundError | InvalidArgument | IOError | Corruption

  /** The lookup of one memtable or table: its newest version of the key. */
  method NewestIn(S: set<Version>, k: Blob, r: nat) returns (found: Option<Version>)
    requires Unique(S)
    ensures found == Newest(S, k, r)
  {
    found := None;
    var todo := S;
    while todo != {}
      invariant todo <= S
      invariant found.Some? ==> found.value in S && Visible(found.value, k, r)
      invariant forall v :: v in S && v !in todo && Visible(v, k, r) ==> found.Some? && v.seqno <= found.value.seqno
      decreases todo
    {
      var v :| v in todo;
      if Visible(v, k, r) && (found.None? || v.seqno > found.value.seqno) {
        found := Some(v);
      }
      todo := todo - {v};
    }
    NewestMeaning(S, k, r);
    if found.Some? {
      assert IsNewest(S, k, r, found.value);
      NewestIs(S, k, r, found.value);
    }
  }

  /** Over all tables, in any order: the greatest sequence wins; nothing can beat the read
      sequence itself. */
  method NewestTable(tables: Data, k: Blob, r: nat) returns (found: Option<Version>)
    requires Unique(Tables(tables.Keys, tables))
    ensures found == Newest(Tables(tables.Keys, tables), k, r)
  {
    hide Unique, Newest;
    found := None;
    var todo := tables.Keys;
    ghost var all := Tables(tables.Keys, tables);
    NothingYet(tables, k, r);
    while todo != {}
      invariant todo <= tables.Keys && BestSoFar(tables, todo, k, r, found)
      decreases todo
    {
      var n :| n in todo;
      TableUnique(tables, n);
      var candidate := NewestIn(tables[n], k, r);
      BestNext(tables, todo, n, k, r, found, candidate);
      if candidate.Some? && (found.None? || candidate.value.seqno > found.value.seqno) {
        found := candidate;
        if candidate.value.seqno == r {
          BestAtRead(tables, todo - {n}, k, r, found.value);
          return;
        }
      }
      todo := todo - {n};
    }
    BestOverall(tables, k, r, found);
  }

  ghost predicate BestSoFar(tables: Data, todo: set<nat>, k: Blob, r: nat, found: Option<Version>) {
    && (found.Some? ==> found.value in Tables(tables.Keys, tables) && Visible(found.value, k, r))
    && forall n, v :: n in tables && n !in todo && v in tables[n] && Visible(v, k, r) ==> found.Some? && v.seqno <= found.value.seqno
  }

  lemma NothingYet(tables: Data, k: Blob, r: nat)
    ensures BestSoFar(tables, tables.Keys, k, r, None)
  {
  }

  lemma TableUnique(tables: Data, n: nat)
    requires n in tables && Unique(Tables(tables.Keys, tables))
    ensures Unique(tables[n])
  {
  }

  lemma BestNext(tables: Data, todo: set<nat>, n: nat, k: Blob, r: nat, found: Option<Version>, candidate: Option<Version>)
    requires BestSoFar(tables, todo, k, r, found) && n in todo && n in tables && candidate == Newest(tables[n], k, r)
    ensures BestSoFar(tables, todo - {n}, k, r,
                      if candidate.Some? && (found.None? || candidate.value.seqno > found.value.seqno) then candidate else found)
  {
    NewestMeaning(tables[n], k, r);
  }

  lemma BestOverall(tables: Data, k: Blob, r: nat, found: Option<Version>)
    requires BestSoFar(tables, {}, k, r, found) && Unique(Tables(tables.Keys, tables))
    ensures found == Newest(Tables(tables.Keys, tables), k, r)
  {
    var S := Tables(tables.Keys, tables);
    NewestMeaning(S, k, r);
    if found.Some? {
      assert IsNewest(S, k, r, found.value);
      NewestIs(S, k, r, found.value);
    }
  }

  lemma BestAtRead(tables: Data, todo: set<nat>, k: Blob, r: nat, v: Version)
    requires BestSoFar(tables, todo, k, r, Some(v)) && v.seqno == r && Unique(Tables(tables.Keys, tables))
    ensures Newest(Tables(tables.Keys, tables), k, r) == Some(v)
  {
    var S := Tables(tables.Keys, tables);
    assert IsNewest(S, k, r, v);
    NewestIs(S, k, r, v);
  }

  /** MinActiveSnapshotSequence */
  method MinActiveSnapshot(snaps: seq<Snap>) returns (m: nat)
    ensures m == MinActive(snaps)
  {
    m := 0;
    for i := 0 to |snaps|
      invariant m == MinActive(snaps[..i])
    {
      assert snaps[..i + 1][..i] == snaps[..i];
      if snaps[i].active && (m == 0 || snaps[i].seqno < m) {
        m := snaps[i].seqno;
      }
    }
    assert snaps[..|snaps|] == snaps;
  }

  /** What the compaction thread holds of its job. */
  ghost predicate Carries(j: Job, number: nat, output: set<Version>, inputs: set<nat>) {
    j.number == number && j.output == output && j.inputs == inputs
  }

  /** The memtables and their log files. */
  datatype Memory = Memory(mems: Data, nextMem: nat, active: nat, imm: seq<Imm>, activeWal: nat, oldest: nat)

  /** The manifest in memory and the open tables. */
  datatype Live = Live(edit: Edit, persisted: Edit, tables: Data)

  datatype Control = Control(phase: Phase, bgOk: bool, snaps: seq<Snap>, flush: Option<FlushJob>, garbage: set<nat>, obsolete: nat)

  class DB {
    var disk: Disk
    var memory: Memory
    var live: Live
    var control: Control
    /** The machine state this object is in. */
    ghost var now: State

    ghost predicate Agrees()
      reads this
    {
      && disk == now.disk
      && memory == Memory(now.mems, now.nextMem, now.active, now.imm, now.activeWal, now.oldest)
      && live == Live(now.edit, now.persisted, now.tables)
      && control == Control(now.phase, now.bgOk, now.snaps, now.flush, now.garbage, now.obsolete)
    }

    /** The object is in a state that a run of the machine keeps good. */
    ghost predicate Valid()
      reads this
    {
      Agrees() && Inv(now)
    }

    // ------------------------------------------------------------------------- reads

    /** Get: memtables newest first, then all tables. */
    method GetAt(k: Blob, r: nat) returns (value: Option<Blob>)
      requires Valid() && control.phase != Down
      ensures value == ValueOf(Lookup([memory.active] + MemsNewestFirst(memory.imm), memory.mems, live.tables, k, r))
    {
      hide Newest, Unique, Inv;
      LookupFacts(now);
      var m, tables := memory, live.tables;
      var found := NewestIn(m.mems[m.active], k, r);
      ghost var ids := [m.active] + MemsNewestFirst(m.imm);
      assert ids[1..] == MemsNewestFirst(m.imm);
      if found.Some? {
        return ValueOf(found);
      }
      var i := |m.imm|;
      assert m.imm[..i] == m.imm;
      while i > 0
        invariant 0 <= i <= |m.imm|
        invariant Lookup(ids, m.mems, tables, k, r) == Lookup(MemsNewestFirst(m.imm[..i]), m.mems, tables, k, r)
      {
        i := i - 1;
        MemsNext(m.imm, i);
        found := NewestIn(m.mems[m.imm[i].mem], k, r);
        if found.Some? {
          return ValueOf(found);
        }
      }
      found := NewestTable(tables, k, r);
      value := ValueOf(found);
    }

    predicate ActiveSnapshot(handle: nat)
      reads this
    {
      handle < |control.snaps| && control.snaps[handle].active
    }

    /** Get: the fold of all committed batches, or of those before a snapshot, each whole. */
    method Get(k: Blob, snapshot: Option<nat>) returns (status: Status, value: Blob, ghost n: nat)
      requires Valid()
      ensures status in {Ok, NotFound, InvalidArgument, NotOpen}
      ensures status == InvalidArgument <==>
                !ValidKey(k) || (control.phase != Down && snapshot.Some? && !ActiveSnapshot(snapshot.value))
      ensures status == NotOpen <==> ValidKey(k) && control.phase == Down
      ensures status in {Ok, NotFound} ==>
                && n <= |now.past|
                && (snapshot.None? ==> n == |now.past|)
                && (snapshot.Some? ==> ActiveSnapshot(snapshot.value) && control.snaps[snapshot.value].seqno == LastSeq(now.past[..n]))
                && Versions.Get(Fold(now.past[..n]), k) == if status == Ok then Some(value) else None
    {
      hide Inv, Lookup, Versions.Get, Fold, LastSeq, ValidKey;
      value, n := [], |now.past|;
      if !ValidKey(k) {
        return InvalidArgument, value, n;
      }
      if control.phase == Down {
        return NotOpen, value, n;
      }
      if snapshot.Some? && !ActiveSnapshot(snapshot.value) {
        return InvalidArgument, value, n;
      }
      var found;
      if snapshot.None? {
        GetFold(now, k);
        assert now.past[..n] == now.past;
        found := GetAt(k, live.edit.last);
      } else {
        n := SnapshotFold(now, snapshot.value, k);
        found := GetAt(k, control.snaps[snapshot.value].seqno);
      }
      match found {
        case Some(x) => status, value := Ok, x;
        case None => status := NotFound;
      }
    }

    // ------------------------------------------------------------------------ writes

    /** ValidateKey for every operation. */
    method ValidateKeys(ops: seq<Op>) returns (ok: bool)
      ensures ok <==> forall i :: 0 <= i < |ops| ==> ValidKey(ops[i].key)
    {
      for i := 0 to |ops|
        invariant forall j :: 0 <= j < i ==> ValidKey(ops[j].key)
      {
        if !ValidKey(ops[i].key) {
          return false;
        }
      }
      ok := true;
    }

    /** The operations go into the memtable one by one, each raising the last sequence. */
    method InsertOps(mem0: set<Version>, ops: seq<Op>, first: nat) returns (mem: set<Version>, last: nat)
      requires first >= 1
      ensures mem == mem0 + BatchSet(Batch(first, ops)) && last == first - 1 + |ops|
    {
      hide BatchSet;
      Recovery.NoBatch(first);
      mem, last := mem0, first - 1;
      assert ops[..0] == [];
      for i := 0 to |ops|
        invariant mem == mem0 + BatchSet(Batch(first, ops[..i])) && last == first - 1 + i
      {
        Recovery.BatchPrefix(Batch(first, ops), i);
        mem := mem + {VersionOf(ops[i], first + i)};
        last := first + i;
      }
      assert ops[..|ops|] == ops;
    }

    /** Write, up to the memtable switch.  A refused batch changes nothing; a failed append
        stops all further writes; an accepted one is one step of the machine. */
    method Write(ops: seq<Op>, encodable: bool, append: Append) returns (status: Status)
      requires Valid()
      modifies this
      ensures Valid()
      ensures status == Ok && ops != [] ==> CanWrite(old(now), ops) && now == DoWrite(old(now), ops, Appended)
      ensures status == IOError ==> CanWrite(old(now), ops) && append.AppendFailed? && now == DoWrite(old(now), ops, append)
      ensures (status == Ok && ops == []) || (status != Ok && status != IOError) ==> now == old(now)
      ensures CanWrite(old(now), ops) && encodable ==> status == if append == Appended then Ok else IOError
    {
      hide Inv, BatchSet, DoWrite;
      if !control.bgOk {
        return BackgroundError;
      }
      if control.phase != Up {
        return NotOpen;
      }
      if ops == [] {
        return Ok;
      }
      if live.edit.next >= MAX_U64 || !encodable || live.edit.last + |ops| > MAX_U64 {
        return InvalidArgument;
      }
      var valid := ValidateKeys(ops);
      if !valid {
        return InvalidArgument;
      }
      OpenFacts(now);
      WriteKeeps(now, ops, append);
      status := Commit(ops, append);
    }

    /** Append to the log, then insert. */
    method Commit(ops: seq<Op>, append: Append) returns (status: Status)
      requires Agrees() && CanWrite(now, ops)
      modifies this
      ensures Agrees() && now == DoWrite(old(now), ops, append)
      ensures status == if append == Appended then Ok else IOError
    {
      hide BatchSet, ValidKey;
      var m, b := memory, Batch(live.edit.last + 1, ops);
      if append.AppendFailed? {
        if append.written {
          disk := disk.(limbo := Some(Limbo(m.activeWal, b)));
        }
        control := control.(bgOk := false);
        now := DoWrite(now, ops, append);
        return IOError;
      }
      disk := disk.(wals := disk.wals[m.activeWal := disk.wals[m.activeWal] + [b]]);
      var mem, last := InsertOps(m.mems[m.active], ops, live.edit.last + 1);
      memory := m.(mems := m.mems[m.active := mem]);
      live := live.(edit := live.edit.(last := last));
      now := DoWrite(now, ops, append);
      status := Ok;
    }

    /** SaveManifest: append the difference; a failure is a background error. */
    method SaveManifest(save: Save) returns (ok: bool)
      modifies this`disk, this`live, this`control
      ensures ok <==> save == Saved
      ensures disk == LogSave(old(disk), old(live).persisted, old(live).edit, save)
      ensures live == if ok then old(live).(persisted := old(live).edit) else old(live)
      ensures control == old(control).(bgOk := old(control).bgOk && ok)
    {
      var record := Diff(live.persisted, live.edit);
      match save
      case Saved =>
        disk := disk.(log := disk.log + [record], synced := |disk.log| + 1);
        live := live.(persisted := live.edit);
        ok := true;
      case SaveFailed(left) =>
        match left {
          case Nothing =>
          case Part(header, spoils) => disk := disk.(torn := Some(Torn(disk, header, spoils)));
          case Whole => disk := disk.(log := disk.log + [record]);
        }
        control := control.(bgOk := false);
        ok := false;
    }

    /** FlushMemTable: a new log file, a saved manifest, and only then the switch; a failure
        puts the old edit back. */
    method FlushMemTable(outcome: Switch) returns (status: Status)
      requires Valid() && control.phase == Up && control.bgOk
      modifies this
      ensures Valid()
      ensures CanSwitch(old(now)) ==> now == DoSwitch(old(now), outcome) && status == if outcome == Switched then Ok else IOError
      ensures !CanSwitch(old(now)) ==> now == old(now)
      ensures !CanSwitch(old(now)) ==> (status == Ok <==> old(memory.active in memory.mems && memory.mems[memory.active] == {}))
    {
      hide Inv, LogSave;
      LookupFacts(now);
      if memory.mems[memory.active] == {} {
        return Ok;
      }
      if live.edit.next >= MAX_U64 {
        return IOError;
      }
      SwitchKeeps(now, outcome);
      var oldEdit, m, w := live.edit, memory, live.edit.next;
      if outcome.WalOpenFailed? {
        if outcome.created {
          disk := disk.(wals := disk.wals[w := []]);
        }
        now := DoSwitch(now, outcome);
        return IOError;
      }
      live := live.(edit := oldEdit.(next := w + 1));
      disk := disk.(wals := disk.wals[w := []]);
      var ok := SaveManifest(if outcome == Switched then Saved else SaveFailed(outcome.left));
      if ok {
        memory := Memory(m.mems[m.nextMem := {}], m.nextMem + 1, m.nextMem, m.imm + [Imm(m.active, m.oldest)], w, w);
      } else {
        live := live.(edit := oldEdit);
      }
      status := if ok then Ok else IOError;
      now := DoSwitch(now, outcome);
    }

    // ------------------------------------------------------------------------- flush

    /** Take the oldest immutable memtable and a file number. */
    method CaptureFlush()
      requires Valid() && CanFlushCapture(now)
      modifies this
      ensures Valid() && now == DoFlushCapture(old(now))
    {
      hide Inv;
      FlushCaptureKeeps(now);
      var next := live.edit.next;
      if next == MAX_U64 {
        control := control.(bgOk := false);
      } else {
        control := control.(flush := Some(FlushJob(next, memory.imm[0], false)));
        live := live.(edit := live.edit.(next := next + 1));
      }
      now := DoFlushCapture(now);
    }

    /** The publish region of the worker: table, metadata, log number, save; rolled back if
        the save fails. */
    method PublishFlush(meta: Meta, save: Save) returns (ok: bool)
      requires Valid() && CanFlushPublish(now, meta)
      modifies this
      ensures Valid() && now == DoFlushPublish(old(now), meta, save)
      ensures ok <==> save == Saved
    {
      hide Inv, LogSave, MetaFor;
      FlushPublishKeeps(now, meta, save);
      var n, was, m := control.flush.value.number, live, memory;
      var liveWal := if |m.imm| > 1 then m.imm[1].wal else m.oldest;
      live := Live(was.edit.(files := was.edit.files[n := meta], wal := liveWal), was.persisted, was.tables[n := m.mems[m.imm[0].mem]]);
      ok := SaveManifest(save);
      if ok {
        memory := m.(imm := m.imm[1..]);
        control := control.(flush := None, obsolete := if control.obsolete < liveWal then liveWal else control.obsolete);
      } else {
        live := was;
        control := control.(flush := None);
      }
      now := DoFlushPublish(now, meta, save);
    }

    // -------------------------------------------------------------------- compaction

    /** Choose inputs, the oldest snapshot to respect and a file number. */
    method CaptureCompaction(metas: seq<Manifest.FileEntry>)
      returns (status: Status, inputs: seq<Manifest.FileEntry>, target: nat, minSnap: nat)
      requires Valid() && control.phase != Down && now.comp.None?
      requires Manifest.Distinct(metas) && Manifest.FileMap(metas) == live.edit.files
      modifies this
      ensures Valid()
      ensures status == Ok && inputs != [] ==>
                && now.comp.Some? && CanCompactCapture(old(now), now.comp.value) && now == DoCompactCapture(old(now), now.comp.value)
                && now.comp.value.inputs == Picker.NumberSet(inputs)
                && now.comp.value.target == target && now.comp.value.minSnap == minSnap
      ensures status != Ok || inputs == [] ==> now == old(now)
    {
      hide Inv, Selects, Retain, MinActive, Manifest.FileMap, Picker.NumberSet;
      inputs, target, minSnap := [], 1, 0;
      if !control.bgOk {
        return BackgroundError, inputs, target, minSnap;
      }
      var lo, hi;
      inputs, target, lo, hi := Picker.PickInputs(metas);
      if inputs == [] {
        return Ok, inputs, target, minSnap;
      }
      minSnap := MinActiveSnapshot(control.snaps);
      var e := live.edit;
      if e.next >= MAX_U64 {
        return IOError, inputs, target, minSnap;
      }
      ghost var numbers := Picker.NumberSet(inputs);
      ghost var job := Job(e.next, numbers, target, lo, hi, minSnap, if minSnap == 0 then e.last else minSnap,
                           Retain(Tables(numbers, live.tables), minSnap, target), false);
      SelectsAlike(e.files, Picker.JobFor(inputs, target, lo, hi), job);
      SomeInput(inputs);
      CompactCaptureKeeps(now, job);
      live := live.(edit := e.(next := e.next + 1));
      now := DoCompactCapture(now, job);
      status := Ok;
    }

    /** The publish region of a compaction: replace the inputs by the output; rolled back if
        the save fails. */
    method PublishCompaction(number: nat, meta: Meta, output: set<Version>, inputs: set<nat>, save: Save) returns (ok: bool)
      requires Valid() && CanCompactPublish(now, meta) && Carries(now.comp.value, number, output, inputs)
      modifies this
      ensures Valid() && now == DoCompactPublish(old(now), meta, save)
      ensures ok <==> save == Saved
    {
      hide Inv, LogSave, MetaFor;
      CompactPublishKeeps(now, meta, save);
      var was := live;
      live := Live(was.edit.(files := (was.edit.files - inputs)[number := meta]), was.persisted, (was.tables - inputs)[number := output]);
      ok := SaveManifest(save);
      if ok {
        control := control.(garbage := control.garbage + inputs);
      } else {
        live := was;
      }
      now := DoCompactPublish(now, meta, save);
    }

    // -------------------------------------------------------------- snapshots, lifecycle

    method GetSnapshot() returns (handle: Option<nat>)
      requires Valid()
      modifies this
      ensures Valid()
      ensures handle.None? <==> old(control).phase == Down
      ensures handle.None? ==> now == old(now)
      ensures handle.Some? ==>
                && now == DoGetSnapshot(old(now)) && handle.value == |old(control).snaps|
                && ActiveSnapshot(handle.value) && control.snaps[handle.value].seqno == live.edit.last
    {
      hide Inv;
      if control.phase == Down {
        return None;
      }
      SnapshotKeeps(now);
      handle := Some(|control.snaps|);
      control := control.(snaps := control.snaps + [Snap(live.edit.last, true)]);
      now := DoGetSnapshot(now);
    }

    method ReleaseSnapshot(handle: nat)
      requires Valid()
      modifies this
      ensures Valid() && now == if handle < |old(control).snaps| then DoReleaseSnapshot(old(now), handle) else old(now)
    {
      hide Inv;
      if handle < |control.snaps| {
        ReleaseKeeps(now, handle);
        control := control.(snaps := control.snaps[handle := control.snaps[handle].(active := false)]);
        now := DoReleaseSnapshot(now, handle);
      }
    }

    /** The first part of Close: the active memtable joins the queue with its own log. */
    method BeginClose() returns (moved: bool)
      requires Valid() && CanCloseBegin(now)
      modifies this
      ensures Valid() && now == DoCloseBegin(old(now)) && control.phase == Closing(moved)
    {
      hide Inv;
      CloseBeginKeeps(now);
      var m := memory;
      moved := m.mems[m.active] != {};
      if moved {
        memory := m.(imm := m.imm + [Imm(m.active, m.oldest)], mems := m.mems[m.nextMem := {}], active := m.nextMem, nextMem := m.nextMem + 1);
      }
      control := control.(phase := Closing(moved));
      now := DoCloseBegin(now);
    }

    /** The last part of Close, after the worker has gone. */
    method EndClose(moved: bool, save: Save)
      requires Valid() && CanCloseEnd(now) && control.phase == Closing(moved)
      modifies this
      ensures Valid() && now == DoCloseEnd(old(now), save) && control.phase == Down
    {
      hide Inv, LogSave, Inactive;
      CloseEndKeeps(now, save);
      if control.bgOk && moved && live.edit.next < MAX_U64 {
        var w := live.edit.next;
        live := live.(edit := live.edit.(next := w + 1, wal := w));
        memory := memory.(activeWal := w, oldest := w);
        var saved := SaveManifest(save);
        if saved {
          control := control.(obsolete := w);
        }
      }
      control := control.(snaps := Inactive(control.snaps), phase := Down, flush := None);
      now := DoCloseEnd(now, save);
    }

    /** Open: manifest and logs as the disk has them.  When nothing follows a torn manifest
        record it succeeds, unless file numbers are used up, and the database is the fold of
        every committed batch and at most the one whose log record survived.  Otherwise it is
        refused, except that what follows a record cut in its payload is dropped with it if it
        is `short` of the bytes that one announced. */
    method Open(short: bool) returns (status: Status)
      requires Valid() && control.phase == Down
      modifies this
      ensures status != Ok ==> Valid() && now == old(now)
      ensures status == Ok && Readable(old(disk)) ==> Valid() && control.phase == Up && now.past == Recovered(old(now))
      ensures Readable(old(disk)) && (forall n :: n in old(disk).ssts.Keys + old(disk).wals.Keys ==> n < MAX_U64) ==> status == Ok
      ensures !Readable(old(disk)) && (!short || old(disk).torn.value.header || old(disk).torn.value.spoiled) ==> status == Corruption
      ensures status == Ok && !Readable(old(disk)) ==>
                Agrees() && exists wal, oldest, next, last :: Cuttable(old(disk)) && now == DoOpenCut(old(now), wal, oldest, next, last)
    {
      hide Inv, Replay, CanOpen, Absorbed, Recovered, WalSet, Inactive, Recovery.LogsReadable, LiveRange, AllUpTo, Readable;
      if Readable(disk) {
        LogsReplay(now);
        var r := Recovery.Recover(Absorbed(disk), disk.ssts.Keys, Replay(disk.log));
        if r.None? {
          return IOError;
        }
        ghost var wal0, oldest0, next0, last0, cut := EngineRecover.RecoveryPossible(now);
        OpenFits(now, r.value, wal0, oldest0, next0, last0, cut);
        OpenKeeps(now, r.value.wal, r.value.oldest, r.value.next, r.value.last, cut);
        Resume(r.value, cut);
        return Ok;
      }
      if !short || !Cuttable(disk) {
        return Corruption;
      }
      status := OpenCutOff();
    }

    /** The manifest without a torn record and what follows it; no replay check is sure to
        pass on it. */
    method OpenCutOff() returns (status: Status)
      requires Agrees() && Cuttable(disk)
      modifies this
      ensures status != Ok ==> Agrees() && now == old(now)
      ensures status == Ok ==>
                Agrees() && exists wal, oldest, next, last :: now == DoOpenCut(old(now), wal, oldest, next, last)
    {
      hide Replay, Absorbed, Recovered, WalSet, Inactive, LiveRange, AllUpTo, DoOpen;
      var d := CutOff(disk);
      var e := Replay(d.log);
      if !(e.files.Keys <= d.ssts.Keys) {
        return IOError;
      }
      var r := Recovery.Recover(Absorbed(d), d.ssts.Keys, e);
      if r.None? {
        return IOError;
      }
      ghost var before := now;
      disk := d;
      now := now.(disk := d);
      Resume(r.value, r.value.last);
      assert now == DoOpenCut(before, r.value.wal, r.value.oldest, r.value.next, r.value.last);
      status := Ok;
    }

    /** The fields after a successful replay. */
    method Resume(x: Recovery.Restored, ghost cut: nat)
      requires Agrees() && x.mem == ReplayedMem(disk)
      modifies this
      ensures Agrees() && now == DoOpen(old(now), x.wal, x.oldest, x.next, x.last, cut)
    {
      hide Replay, Absorbed, Recovered, Inactive, ReplayedMem;
      var e, wals, m := Replay(disk.log), Absorbed(disk), memory;
      live := Live(Edit(x.next, e.wal, x.last, e.files), e, map n | n in e.files && n in disk.ssts :: disk.ssts[n]);
      disk := Disk(disk.log, disk.synced, None, if x.wal in wals then wals else wals[x.wal := []], None, disk.ssts);
      memory := Memory(m.mems[m.nextMem := x.mem], m.nextMem + 1, m.nextMem, [], x.wal, x.oldest);
      control := Control(Up, true, Inactive(control.snaps), None, {}, 0);
      now := DoOpen(now, x.wal, x.oldest, x.next, x.last, cut);
    }
  }

  /** The logs of a closed database replay without complaint. */
  lemma LogsReplay(s: State)
    requires Inv(s) && s.phase == Down
    ensures Recovery.LogsReadable(Absorbed(s.disk), Replay(s.disk.log).wal)
    ensures forall n :: n in Replay(s.disk.log).files ==> n in s.disk.ssts
    ensures Absorbed(s.disk).Keys == s.disk.wals.Keys
  {
    hide ReaderInv, Replay, LimboInv, Absorbed, Recovered, WalsOrdered, History, WalSet, ValidKey, Levelled, Covers, Agree, LogWalsUpTo;
    EngineRecover.SettledInv(s);
    var t, e := EngineRecover.Settled(s), Replay(s.disk.log);
    TailEntry(t.disk, History(t.past), LastSeq(t.past), t.garbage, t.obsolete);
    EngineRecover.AbsorbedKeys(s.disk);
    WalsOrderedSome(t.disk.wals, LastSeq(t.past));
    forall w, i, j | w in t.disk.wals && w >= e.wal && 0 <= i < |t.disk.wals[w]| && 0 <= j < |t.disk.wals[w][i].ops|
      ensures ValidKey(t.disk.wals[w][i].ops[j].key)
    {
      InWal(t.disk.wals, e.wal, w, i, j);
      HistoryKey(t.past, VersionOf(t.disk.wals[w][i].ops[j], t.disk.wals[w][i].first + j));
    }
  }

  lemma WalsOrderedSome(wals: Wals, last: int)
    requires last >= 0 && WalsOrdered(wals, last)
    ensures exists l :: WalsOrdered(wals, l)
  {
  }

  lemma InWal(wals: Wals, lo: nat, w: nat, i: nat, j: nat)
    requires w in wals && w >= lo && i < |wals[w]| && j < |wals[w][i].ops|
    ensures VersionOf(wals[w][i].ops[j], wals[w][i].first + j) in WalSet(wals, lo)
  {
    assert VersionOf(wals[w][i].ops[j], wals[w][i].first + j) in BatchSet(wals[w][i]);
  }

  lemma HistoryKey(past: seq<Batch>, v: Version)
    requires PastInv(past) && v in History(past)
    ensures ValidKey(v.key)
  {
    hide ValidKey, BatchSet;
    Recovery.InHistory(past, v);
    var k :| 0 <= k < |past| && v in BatchSet(past[k]);
    BatchKey(past[k], v);
  }

  lemma BatchKey(b: Batch, v: Version)
    requires v in BatchSet(b) && forall j :: 0 <= j < |b.ops| ==> ValidKey(b.ops[j].key)
    ensures ValidKey(v.key)
  {
  }

  /** What Recover computes is the machine's open step. */
  lemma OpenFits(s: State, x: Recovery.Restored, wal: nat, oldest: nat, next: nat, last: nat, cut: nat)
    requires Inv(s) && CanOpen(s, wal, oldest, next, last, cut)
    requires var e, wals := Replay(s.disk.log), Absorbed(s.disk);
             && LiveRange(wals.Keys, e.wal, x.wal, x.oldest) && x.next >= e.next
             && (forall n :: n in s.disk.ssts ==> n < x.next) && (forall n :: n in wals ==> n < x.next)
             && x.mem == WalSet(wals, e.wal) && x.last >= e.last && AllUpTo(x.mem, x.last)
             && (x.last == e.last || exists v :: v in x.mem && v.seqno == x.last)
    ensures CanOpen(s, x.wal, x.oldest, x.next, x.last, cut) && x.mem == ReplayedMem(s.disk)
  {
    hide Inv, Replay, WalSet, After, History, Recovered, Absorbed;
    EngineRecover.AbsorbedKeys(s.disk);
    WalBelow(s);
    SameLast(x.mem, Replay(s.disk.log).last, x.last, last);
  }

  lemma SameLast(mem: set<Version>, start: nat, a: nat, b: nat)
    requires a >= start && b >= start && AllUpTo(mem, a) && AllUpTo(mem, b)
    requires (a == start || exists v :: v in mem && v.seqno == a) && (b == start || exists v :: v in mem && v.seqno == b)
    ensures a == b
  {
  }

  lemma WalBelow(s: State)
    requires Inv(s)
    ensures Replay(s.disk.log).wal < Replay(s.disk.log).next
  {
    hide ReaderInv, Replay, LimboInv, WalsOrdered, LiveInv, PastInv;
    TailEntry(s.disk, History(s.past), LastSeq(s.past), s.garbage, s.obsolete);
  }

  lemma MemsNext(imm: seq<Imm>, i: nat)
    requires i < |imm|
    ensures MemsNewestFirst(imm[..i + 1]) == [imm[i].mem] + MemsNewestFirst(imm[..i])
    ensures MemsNewestFirst(imm[..i + 1])[1..] == MemsNewestFirst(imm[..i])
  {
    assert imm[..i + 1][..i] == imm[..i];
  }

  /** What a lookup relies on. */
  lemma LookupFacts(s: State)
    requires Inv(s) && s.phase != Down
    ensures s.active in s.mems && Unique(s.mems[s.active])
    ensures forall i :: 0 <= i < |s.imm| ==> s.imm[i].mem in s.mems && Unique(s.mems[s.imm[i].mem])
    ensures Unique(Tables(s.tables.Keys, s.tables))
  {
    hide WalInv, ReadInv, SnapInv, TailInv, FlushInv, CompInv, LogInv, LimboInv, ReaderInv, PastInv, History, LastSeq, Levelled,
      Covers, NumInv, WalsOrdered;
    HistoryFacts(s.past);
    forall i | 0 <= i < |s.imm| ensures s.imm[i].mem in s.mems && Unique(s.mems[s.imm[i].mem]) {
      assert s.mems[s.imm[i].mem] == Slice(History(s.past), s.cuts[i], s.cuts[i + 1]);
      UniqueSubset(s.mems[s.imm[i].mem], History(s.past));
    }
    forall v | v in Tables(s.tables.Keys, s.tables) ensures v in History(s.past) {
    }
  }

  lemma OpenFacts(s: State)
    requires Inv(s) && s.phase == Up
    ensures s.active in s.mems && s.activeWal in s.disk.wals
  {
    hide DiskInv, ReadInv, SnapInv, TailInv, FlushInv, CompInv, NumInv, TableInv;
  }

  lemma SelectsAlike(files: Files, a: Job, b: Job)
    requires Selects(files, a) && a.inputs == b.inputs && a.target == b.target && a.lo == b.lo && a.hi == b.hi
    ensures Selects(files, b)
  {
  }

  lemma SomeInput(inputs: seq<Manifest.FileEntry>)
    requires inputs != []
    ensures Picker.NumberSet(inputs) != {}
  {
    assert inputs[0].number in Picker.NumberSet(inputs);
  }

  // Each step keeps the invariant.

  lemma WriteKeeps(s: State, ops: seq<Op>, append: Append)
    requires Inv(s) && CanWrite(s, ops)
    ensures Inv(DoWrite(s, ops, append))
  {
    hide Inv, CanWrite, DoWrite;
    StepInv(s, Step.Write(ops, append));
  }

  lemma SwitchKeeps(s: State, outcome: Switch)
    requires Inv(s) && CanSwitch(s)
    ensures Inv(DoSwitch(s, outcome))
  {
    hide Inv, CanSwitch, DoSwitch;
    StepInv(s, SwitchMem(outcome));
  }

  lemma FlushCaptureKeeps(s: State)
    requires Inv(s) && CanFlushCapture(s)
    ensures Inv(DoFlushCapture(s))
  {
    hide Inv, CanFlushCapture, DoFlushCapture;
    StepInv(s, FlushCapture);
  }

  lemma FlushPublishKeeps(s: State, meta: Meta, save: Save)
    requires Inv(s) && CanFlushPublish(s, meta)
    ensures Inv(DoFlushPublish(s, meta, save))
  {
    hide Inv, DoFlushPublish;
    StepInv(s, FlushPublish(meta, save));
  }

  lemma CompactCaptureKeeps(s: State, j: Job)
    requires Inv(s) && CanCompactCapture(s, j)
    ensures Inv(DoCompactCapture(s, j))
  {
    hide Inv, CanCompactCapture, DoCompactCapture;
    StepInv(s, CompactCapture(j));
  }

  lemma CompactPublishKeeps(s: State, meta: Meta, save: Save)
    requires Inv(s) && CanCompactPublish(s, meta)
    ensures Inv(DoCompactPublish(s, meta, save))
  {
    hide Inv, DoCompactPublish;
    StepInv(s, CompactPublish(meta, save));
  }

  lemma SnapshotKeeps(s: State)
    requires Inv(s) && s.phase != Down
    ensures Inv(DoGetSnapshot(s))
  {
    hide Inv;
    StepInv(s, Step.GetSnapshot);
  }

  lemma ReleaseKeeps(s: State, i: nat)
    requires Inv(s) && i < |s.snaps|
    ensures Inv(DoReleaseSnapshot(s, i))
  {
    hide Inv;
    StepInv(s, Step.ReleaseSnapshot(i));
  }

  lemma CloseBeginKeeps(s: State)
    requires Inv(s) && CanCloseBegin(s)
    ensures Inv(DoCloseBegin(s))
  {
    hide Inv, DoCloseBegin;
    StepInv(s, CloseBegin);
  }

  lemma CloseEndKeeps(s: State, save: Save)
    requires Inv(s) && CanCloseEnd(s)
    ensures Inv(DoCloseEnd(s, save))
  {
    hide Inv, DoCloseEnd;
    StepInv(s, CloseEnd(save));
  }

  lemma OpenKeeps(s: State, wal: nat, oldest: nat, next: nat, last: nat, cut: nat)
    requires Inv(s) && CanOpen(s, wal, oldest, next, last, cut)
    ensures Inv(DoOpen(s, wal, oldest, next, last, cut))
  {
    hide Inv, CanOpen, DoOpen;
    StepInv(s, Step.Open(wal, oldest, next, last, cut));
  }
}
