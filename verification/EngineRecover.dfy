/**
 Reopening.  Replaying the manifest and the live log files gives a state that
 answers exactly like the committed batches, and replay never meets a condition
 that Recover reports as corruption.
 */
module EngineRecover {
  import opened Bytes
  import opened Versions
  import opened Store
  import opened Engine
  import opened EngineInv
  import opened EngineWrite
  import opened EngineLifecycle

  lemma LastVersion(past: seq<Batch>)
    requires PastInv(past) && past != []
    ensures exists v :: v in History(past) && v.seqno == LastSeq(past)
  {
    var b := past[|past| - 1];
    var v := VersionOf(b.ops[|b.ops| - 1], b.first + (|b.ops| - 1));
    assert v in BatchSet(b);
  }

  /** Batches with greater sequence numbers do not change what a reader sees. */
  lemma GrowReaders(past: seq<Batch>, mems: Data, nextMem: nat, readers: set<Reader>, b: Batch)
    requires PastInv(past) && PastInv(past + [b]) && LastSeq(past) >= 0
    requires History(past + [b]) == History(past) + BatchSet(b) && AllAbove(BatchSet(b), LastSeq(past))
    requires ReaderInv(past, mems, nextMem, readers)
    ensures ReaderInv(past + [b], mems, nextMem, readers)
  {
    hide PastInv, Lookup, Answer;
    HistoryFacts(past + [b]);
    forall rd | rd in readers ensures ReaderOk(past + [b], mems, rd) {
      assert ReaderOk(past, mems, rd);
      BoundaryGrow(past, b, rd.r);
      BoundaryBelow(past, rd.r);
      forall k ensures ValueOf(Lookup(rd.mems, mems, rd.tables, k, rd.r)) == Answer(History(past + [b]), k, rd.r) {
        AnswerBelow(History(past), BatchSet(b), LastSeq(past), k, rd.r);
      }
    }
  }

  lemma AnswerBelow(H: set<Version>, B: set<Version>, last: nat, k: Blob, r: nat)
    requires Unique(H + B) && AllAbove(B, last) && r <= last
    ensures Answer(H + B, k, r) == Answer(H, k, r)
  {
    NewestAddInvisible(H, B, k, r);
  }

  /** The disk with a surviving unacknowledged record counted as committed. */
  function Settled(s: State): State {
    s.(disk := s.disk.(wals := Absorbed(s.disk), limbo := None),
       past := Recovered(s), garbage := {}, obsolete := 0)
  }

  lemma SettledInv(s: State)
    requires DiskInv(s)
    ensures DiskInv(Settled(s))
  {
    hide WalsOrdered, ReaderInv, Replay, History, LastSeq, PastInv, Good, AllUpTo, AllAbove, Unique, BatchSet, LogInv;
    var H, last := History(s.past), LastSeq(s.past);
    HistoryFacts(s.past);
    LogWeaken(s.disk.log, s.disk.synced, H, last, s.disk.wals, s.disk.ssts, s.garbage, s.obsolete, {}, 0);
    if s.disk.limbo.Some? {
      var l := s.disk.limbo.value;
      PastSnoc(s.past, l.batch);
      HistoryFacts(s.past + [l.batch]);
      WriteLog(s.disk, H, last, {}, 0, l.wal, l.batch);
      WriteWals(s.disk.wals, last, l.wal, l.batch);
      GrowReaders(s.past, s.mems, s.nextMem, s.readers, l.batch);
    }
  }

  /** Recover's last sequence is the last committed one. */
  lemma OpenLast(e: Edit, past: seq<Batch>, wals: Wals, ssts: Data, last: nat)
    requires PastInv(past) && LastSeq(past) >= 0 && Good(e, History(past), LastSeq(past), wals, ssts)
    requires last >= e.last && AllUpTo(WalSet(wals, e.wal), last)
    requires last == e.last || exists v :: v in WalSet(wals, e.wal) && v.seqno == last
    ensures last == LastSeq(past)
  {
    hide History, LastSeq, Agree, Levelled, Covers, WalSet, PastInv, FilesIn;
    HistoryFacts(past);
    if past != [] {
      LastVersion(past);
    } else {
      EmptyPast();
    }
  }

  lemma EmptyPast()
    ensures LastSeq([]) == 0
  {
  }

  lemma OpenWals(wals: Wals, e: Edit, H: set<Version>, wal: nat, oldest: nat, cut: nat)
    requires LiveRange(wals.Keys, e.wal, wal, oldest)
    requires 1 <= e.wal && SuffixOf(WalSet(wals, e.wal), H) && After(H, cut) == WalSet(wals, e.wal)
    ensures WalInv(H, if wal in wals then wals else wals[wal := []], [], oldest, wal, [cut], e.wal, false)
  {
    hide SuffixOf;
    var wals' := if wal in wals then wals else wals[wal := []];
    WalSetSame(wals, wals', e.wal);
    WalSetSame(wals', wals', oldest);
    OldestSame(wals', e.wal, oldest);
  }

  lemma OldestSame(wals: Wals, lo: nat, oldest: nat)
    requires lo <= oldest && forall w :: w in wals && w >= lo ==> w >= oldest
    ensures WalSet(wals, lo) == WalSet(wals, oldest)
  {
  }

  lemma OpenTables(e: Edit, H: set<Version>, last: nat, wals: Wals, ssts: Data, cut: nat)
    requires Good(e, H, last, wals, ssts) && After(H, cut) == WalSet(wals, e.wal)
    ensures var tables: Data := map n | n in e.files && n in ssts :: ssts[n];
            TableInv(H, e.files, tables, ssts, [], [cut]) && ReadInv(H, last, tables, [cut], last)
  {
    hide Agree, Levelled, WalSet, SuffixOf;
    var tables: Data := map n | n in e.files && n in ssts :: ssts[n];
    assert tables.Keys == e.files.Keys;
    TablesSame(e.files.Keys, ssts, tables);
  }

  lemma OpenSnaps(snaps: seq<Snap>, past: seq<Batch>, last: nat)
    ensures SnapInv(Inactive(snaps), past, last, last)
  {
  }

  lemma OpenInv(s: State, wal: nat, oldest: nat, next: nat, last: nat, cut: nat)
    requires Inv(s) && CanOpen(s, wal, oldest, next, last, cut)
    ensures Inv(DoOpen(s, wal, oldest, next, last, cut))
  {
    hide WalsOrdered, ReaderInv, Replay, History, LastSeq, PastInv, Good, AllUpTo, AllAbove, Unique, WalInv, TableInv, ReadInv, After,
      Absorbed, Recovered, SnapInv, WalSet, LogInv, LiveRange, LogWalsUpTo, TopInv, Unnamed;
    SettledInv(s);
    var t, s', e := Settled(s), DoOpen(s, wal, oldest, next, last, cut), Replay(s.disk.log);
    var H := History(t.past);
    AbsorbedKeys(s.disk);
    SettledEntry(t, e, wal, oldest, cut, last);
    NewMemReaders(t.past, t.mems, t.nextMem, t.readers, ReplayedMem(s.disk));
    OpenDisk(t, wal);
    OpenSnaps(s.snaps, t.past, last);
    OpenMem(H, last, s.mems, s.nextMem, cut, ReplayedMem(s.disk));
    OpenTop(s.disk, wal, oldest);
    UnnamedFrame(s.disk, s'.disk);
    OpenRest(t, s', e, wal);
  }

  lemma OpenMem(H: set<Version>, last: nat, mems: Data, nextMem: nat, cut: nat, X: set<Version>)
    requires After(H, cut) == X && cut <= last
    ensures MemInv(H, last, mems[nextMem := X], nextMem + 1, nextMem, [], [cut])
  {
  }

  lemma AbsorbedKeys(disk: Disk)
    ensures Absorbed(disk).Keys == disk.wals.Keys
  {
  }

  lemma SettledEntry(t: State, e: Edit, wal: nat, oldest: nat, cut: nat, last: nat)
    requires DiskInv(t) && e == Replay(t.disk.log)
    requires LiveRange(t.disk.wals.Keys, e.wal, wal, oldest)
    requires last >= e.last && AllUpTo(WalSet(t.disk.wals, e.wal), last)
    requires last == e.last || exists v :: v in WalSet(t.disk.wals, e.wal) && v.seqno == last
    requires After(History(t.past), cut) == WalSet(t.disk.wals, e.wal) && cut <= last
    ensures var H := History(t.past);
            var tables: Data := map n | n in e.files && n in t.disk.ssts :: t.disk.ssts[n];
            && last == LastSeq(t.past) && 1 <= e.wal < e.next && e.wal <= wal
            && WalInv(H, if wal in t.disk.wals then t.disk.wals else t.disk.wals[wal := []], [], oldest, wal, [cut], e.wal, false)
            && TableInv(H, e.files, tables, t.disk.ssts, [], [cut]) && ReadInv(H, last, tables, [cut], last)
  {
    hide WalsOrdered, ReaderInv, Replay, History, LastSeq, PastInv, AllUpTo, AllAbove, Unique, WalInv, TableInv, ReadInv, After,
      WalSet, LogInv, Levelled, Covers, Agree, FilesIn;
    TailEntry(t.disk, History(t.past), LastSeq(t.past), t.garbage, t.obsolete);
    OpenLast(e, t.past, t.disk.wals, t.disk.ssts, last);
    OpenWals(t.disk.wals, e, History(t.past), wal, oldest, cut);
    OpenTables(e, History(t.past), last, t.disk.wals, t.disk.ssts, cut);
  }

  /** Creating the active log file if it is missing. */
  lemma OpenDisk(t: State, wal: nat)
    requires DiskInv(t) && t.garbage == {} && t.obsolete == 0
    ensures var wals := if wal in t.disk.wals then t.disk.wals else t.disk.wals[wal := []];
            && LogInv(t.disk.log, t.disk.synced, History(t.past), LastSeq(t.past), wals, t.disk.ssts, {}, 0)
            && WalsOrdered(wals, LastSeq(t.past))
  {
    hide WalsOrdered, ReaderInv, Replay, History, LastSeq, PastInv, LogInv, LimboInv, Unnamed;
    if wal !in t.disk.wals {
      EmptyWalOrdered(t.disk.wals, LastSeq(t.past), wal);
      LogFrame(t.disk, History(t.past), LastSeq(t.past), {}, 0, t.disk.wals[wal := []], t.disk.ssts);
    }
  }

  /** The manifest on disk is the one in memory, up to the file number. */
  lemma OpenRest(t: State, s': State, e: Edit, wal: nat)
    requires t.disk.log == s'.disk.log && e == Replay(t.disk.log) && LogWalsUpTo(s'.disk, wal)
    requires s'.disk.limbo.None? && s'.disk.torn.None? && s'.flush.None? && s'.comp.None? && s'.edit.files == e.files && s'.edit.wal == e.wal
    ensures TailInv(s'.disk, s'.edit, true, wal, None, None)
  {
    hide Replay, LogWalsUpTo;
  }

  /** The newest log file is at or above every possible log number. */
  lemma OpenTop(d: Disk, wal: nat, oldest: nat)
    requires TopInv(d) && LiveRange(d.wals.Keys, Replay(d.log).wal, wal, oldest)
    ensures LogWalsUpTo(d, wal)
  {
    hide Replay;
    forall n | d.synced <= n <= |d.log| ensures Replay(d.log[..n]).wal <= wal {
      assert d.log[..|d.log|] == d.log;
      assert d.synced <= n <= |d.log| <= |d.log|;
    }
  }

  // ------------------------------------------------------ recovery is not refused

  lemma {:induction false} MaxOf(ns: set<nat>) returns (m: nat)
    requires ns != {}
    ensures m in ns && forall n :: n in ns ==> n <= m
    decreases |ns|
  {
    var x :| x in ns;
    var rest := ns - {x};
    m := x;
    if rest != {} {
      var y := MaxOf(rest);
      m := if x < y then y else x;
    }
    forall n | n in ns ensures n <= m {
      assert n == x || n in rest;
    }
  }

  lemma {:induction false} MinOf(ns: set<nat>) returns (m: nat)
    requires ns != {}
    ensures m in ns && forall n :: n in ns ==> m <= n
    decreases |ns|
  {
    var x :| x in ns;
    var rest := ns - {x};
    m := x;
    if rest != {} {
      var y := MinOf(rest);
      m := if y < x then y else x;
    }
    forall n | n in ns ensures m <= n {
      assert n == x || n in rest;
    }
  }

  /** A suffix of the history starts at some sequence number. */
  lemma CutOf(X: set<Version>, H: set<Version>, last: nat) returns (c: nat)
    requires SuffixOf(X, H) && AllUpTo(H, last) && AllAbove(H, 0)
    ensures c <= last && After(H, c) == X
  {
    if X == {} {
      c := last;
    } else {
      var seqs := set v | v in X :: v.seqno;
      var w :| w in X;
      assert w.seqno in seqs;
      var m := MinOf(seqs);
      c := m - 1;
      var u :| u in X && u.seqno == m;
      forall v | v in X ensures v in After(H, c) {
        assert v.seqno in seqs;
      }
    }
  }

  lemma LastOf(X: set<Version>, l: nat) returns (last: nat)
    ensures last >= l && AllUpTo(X, last) && (last == l || exists v :: v in X && v.seqno == last)
  {
    last := l;
    var above := set v | v in X && v.seqno > l :: v.seqno;
    if above != {} {
      last := MaxOf(above);
    }
    forall v | v in X ensures v.seqno <= last {
      assert v.seqno > l ==> v.seqno in above;
    }
  }

  lemma RangeOf(ns: set<nat>, lo: nat) returns (wal: nat, oldest: nat)
    ensures LiveRange(ns, lo, wal, oldest)
  {
    var live := set w | w in ns && w >= lo;
    wal, oldest := lo, lo;
    if live != {} {
      wal := MaxOf(live);
      oldest := MinOf(live);
      assert wal in ns && oldest in ns;
      forall w | w in ns && w >= lo ensures oldest <= w <= wal {
        assert w in live;
      }
    } else {
      forall w | w in ns ensures w < lo {
        assert w !in live;
      }
    }
  }

  /** Reopening is not refused when nothing follows a torn manifest record. */
  lemma RecoveryPossible(s: State) returns (wal: nat, oldest: nat, next: nat, last: nat, cut: nat)
    requires Inv(s) && s.phase == Down && Readable(s.disk)
    ensures CanOpen(s, wal, oldest, next, last, cut)
  {
    hide WalsOrdered, ReaderInv, Replay, History, LastSeq, PastInv, AllUpTo, AllAbove, Unique, After, LiveRange, Absorbed, Recovered,
      WalSet, LogInv, Levelled, Covers, Agree, SuffixOf, LimboInv;
    SettledInv(s);
    var t, e := Settled(s), Replay(s.disk.log);
    HistoryFacts(t.past);
    TailEntry(t.disk, History(t.past), LastSeq(t.past), t.garbage, t.obsolete);
    wal, oldest := RangeOf(s.disk.wals.Keys, e.wal);
    var seen := s.disk.ssts.Keys + s.disk.wals.Keys + {e.next, wal};
    next := MaxOf(seen);
    next := next + 1;
    last := LastOf(ReplayedMem(s.disk), e.last);
    OpenLast(e, t.past, t.disk.wals, t.disk.ssts, last);
    cut := CutOf(ReplayedMem(s.disk), History(t.past), last);
  }
}
