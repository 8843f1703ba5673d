/** Reading: the memtable-first lookup is the newest version over all sources, and a
    pinned reader keeps that answer. */
module EngineRead {
  import opened Bytes
  import opened Versions
  import opened Store
  import opened Compaction
  import opened Engine
  import opened EngineInv

  /** A source that holds everything newer than its oldest version decides alone. */
  lemma NewestFirst(Rest: set<Version>, M: set<Version>, k: Blob, r: nat)
    requires UpClosed(Rest, M) && Unique(Rest + M)
    ensures Newest(Rest + M, k, r) == (if Newest(M, k, r).Some? then Newest(M, k, r) else Newest(Rest, k, r))
  {
    NewestMeaning(M, k, r);
    if Newest(M, k, r).Some? {
      assert IsNewest(Rest + M, k, r, Newest(M, k, r).value);
      NewestIs(Rest + M, k, r, Newest(M, k, r).value);
    } else {
      NewestAddInvisible(Rest, M, k, r);
    }
  }

  lemma EmptySlice(H: set<Version>, c: nat)
    ensures Slice(H, c, c) == {}
  {
  }

  lemma SliceUpClosed(H: set<Version>, tables: Data, a: nat, b: nat, c: nat)
    requires a <= b <= c && Unique(H)
    requires forall t :: t in tables ==> tables[t] <= H && AllUpTo(tables[t], c)
    ensures var T := Tables(tables.Keys, tables);
            var Rest, M := T + Slice(H, a, b), Slice(H, b, c);
            UpClosed(Rest, M) && Unique(Rest + M) && Rest + M == T + Slice(H, a, c)
  {
    var T := Tables(tables.Keys, tables);
    UniqueSubset(T + Slice(H, a, b) + Slice(H, b, c), H);
  }

  /** Looking through the immutable memtables, newest first, then the tables. */
  lemma {:induction false} LookupImm(H: set<Version>, last: nat, mems: Data, nextMem: nat, active: nat, imm: seq<Imm>, cuts: seq<nat>,
                                     tables: Data, n: nat, k: Blob, r: nat)
    requires MemInv(H, last, mems, nextMem, active, imm, cuts) && n <= |imm| && Unique(H)
    requires forall t :: t in tables ==> tables[t] <= H && (imm != [] ==> AllUpTo(tables[t], cuts[1]))
    ensures Lookup(MemsNewestFirst(imm[..n]), mems, tables, k, r)
         == Newest(Tables(tables.Keys, tables) + Slice(H, cuts[0], cuts[n]), k, r)
  {
    hide Newest, UpClosed, Unique, Slice, After;
    var T := Tables(tables.Keys, tables);
    if n == 0 {
      EmptySlice(H, cuts[0]);
      assert T + Slice(H, cuts[0], cuts[0]) == T;
    } else {
      LookupImm(H, last, mems, nextMem, active, imm, cuts, tables, n - 1, k, r);
      assert imm[..n][..n - 1] == imm[..n - 1];
      var Rest, M := T + Slice(H, cuts[0], cuts[n - 1]), Slice(H, cuts[n - 1], cuts[n]);
      SliceUpClosed(H, tables, cuts[0], cuts[n - 1], cuts[n]);
      NewestFirst(Rest, M, k, r);
      assert MemsNewestFirst(imm[..n]) == [imm[n - 1].mem] + MemsNewestFirst(imm[..n - 1]);
      assert ([imm[n - 1].mem] + MemsNewestFirst(imm[..n - 1]))[1..] == MemsNewestFirst(imm[..n - 1]);
    }
  }

  /** Get over all sources equals the newest version in tables and memtables. */
  lemma LookupIsNewest(H: set<Version>, last: nat, mems: Data, nextMem: nat, active: nat, imm: seq<Imm>, cuts: seq<nat>,
                       files: Files, tables: Data, ssts: Data, k: Blob, r: nat)
    requires MemInv(H, last, mems, nextMem, active, imm, cuts) && Unique(H)
    requires TableInv(H, files, tables, ssts, imm, cuts)
    ensures Lookup([active] + MemsNewestFirst(imm), mems, tables, k, r)
         == Newest(Tables(tables.Keys, tables) + After(H, cuts[0]), k, r)
  {
    hide Covers, Levelled;
    var T, n := Tables(tables.Keys, tables), |imm|;
    LookupImm(H, last, mems, nextMem, active, imm, cuts, tables, n, k, r);
    assert imm[..n] == imm;
    var Rest, M := T + Slice(H, cuts[0], cuts[n]), After(H, cuts[n]);
    assert UpClosed(Rest, M) && Rest + M <= H;
    UniqueSubset(Rest + M, H);
    NewestFirst(Rest, M, k, r);
    assert Rest + M == T + After(H, cuts[0]);
    assert ([active] + MemsNewestFirst(imm))[1..] == MemsNewestFirst(imm);
  }

  /** Nothing is visible at sequence 0. */
  lemma {:induction false} LookupZero(ids: seq<nat>, mems: Data, tables: Data, k: Blob)
    requires forall i :: 0 <= i < |ids| ==> ids[i] in mems && AllAbove(mems[ids[i]], 0)
    requires AllAbove(Tables(tables.Keys, tables), 0)
    ensures Lookup(ids, mems, tables, k, 0).None?
  {
    if ids == [] {
      NewestMeaning(Tables(tables.Keys, tables), k, 0);
    } else {
      NewestMeaning(mems[ids[0]], k, 0);
      LookupZero(ids[1..], mems, tables, k);
    }
  }

  lemma {:induction false} MemsKnown(imm: seq<Imm>)
    ensures |MemsNewestFirst(imm)| == |imm|
    ensures forall i :: 0 <= i < |imm| ==> MemsNewestFirst(imm)[i] == imm[|imm| - 1 - i].mem
  {
    if imm != [] {
      var init, m := imm[..|imm| - 1], imm[|imm| - 1].mem;
      MemsKnown(init);
      var ms, rest := MemsNewestFirst(imm), MemsNewestFirst(init);
      assert ms == [m] + rest;
      hide MemsNewestFirst;
      forall i | 0 <= i < |imm| ensures ms[i] == imm[|imm| - 1 - i].mem {
        if i > 0 {
          assert ms[i] == rest[i - 1] == init[|imm| - 1 - i].mem;
        }
      }
    }
  }

  /** From the floor on, the lookup answers like the history. */
  lemma GetFromFloor(s: State, r: nat, k: Blob)
    requires Inv(s) && s.phase != Down && r >= s.floor
    ensures ValueOf(Lookup([s.active] + MemsNewestFirst(s.imm), s.mems, s.tables, k, r)) == Answer(History(s.past), k, r)
  {
    hide LogInv, WalsOrdered, WalInv, ReaderInv, PastInv, Fits, Replay, History, LastSeq, FloorFor, Retain, WalSet, LogWalsUpTo,
      Unnamed, Unique, TailInv, FlushInv, CompInv, NumInv, Newest, MemsNewestFirst, Lookup, Tables, After, Slice, Covers, Levelled,
      AtBoundary;
    var H, last := History(s.past), LastSeq(s.past);
    HistoryFacts(s.past);
    LookupIsNewest(H, last, s.mems, s.nextMem, s.active, s.imm, s.cuts, s.edit.files, s.tables, s.disk.ssts, k, r);
    assert Answer(Tables(s.tables.Keys, s.tables) + After(H, s.cuts[0]), k, r) == Answer(H, k, r);
  }

  /** Get refines the history: at the last sequence or any active snapshot. */
  lemma GetRefines(s: State, r: nat, k: Blob)
    requires Inv(s) && CanPin(s, r)
    ensures ValueOf(Lookup([s.active] + MemsNewestFirst(s.imm), s.mems, s.tables, k, r)) == Answer(History(s.past), k, r)
  {
    hide Inv, Lookup, Answer, MemsNewestFirst, History;
    if r >= s.floor {
      GetFromFloor(s, r, k);
    } else {
      PinZero(s, r, k);
    }
  }

  lemma PinZero(s: State, r: nat, k: Blob)
    requires Inv(s) && CanPin(s, r) && r < s.floor
    ensures ValueOf(Lookup([s.active] + MemsNewestFirst(s.imm), s.mems, s.tables, k, r)) == Answer(History(s.past), k, r)
  {
    hide LogInv, WalsOrdered, WalInv, ReaderInv, PastInv, Fits, Replay, History, LastSeq, FloorFor, Retain, WalSet, LogWalsUpTo,
      Unnamed, Unique, TailInv, FlushInv, CompInv, Newest, MemsNewestFirst, Lookup, Covers, Levelled, AtBoundary, Agree;
    var ids := [s.active] + MemsNewestFirst(s.imm);
    var H := History(s.past);
    HistoryFacts(s.past);
    assert r == 0;
    MemsKnown(s.imm);
    forall i | 0 <= i < |ids| ensures ids[i] in s.mems && AllAbove(s.mems[ids[i]], 0) {
      var j := |s.imm| - i;
      if i > 0 {
        assert ids[i] == s.imm[j].mem;
        assert s.mems[ids[i]] == Slice(H, s.cuts[j], s.cuts[j + 1]);
      }
    }
    LookupZero(ids, s.mems, s.tables, k);
    NewestMeaning(H, k, 0);
  }

  lemma PinInv(s: State, r: nat)
    requires Inv(s) && CanPin(s, r)
    ensures Inv(DoPin(s, r))
  {
    hide LogInv, WalsOrdered, WalInv, MemInv, ReadInv, TableInv, SnapInv, PastInv, Fits, Replay, History, LastSeq, FloorFor, Retain,
      WalSet, LogWalsUpTo, Unnamed, TailInv, FlushInv, CompInv, NumInv, ReaderOk, MemsNewestFirst;
    PinReader(s, r);
  }

  lemma PinReader(s: State, r: nat)
    requires Inv(s) && CanPin(s, r)
    ensures ReaderOk(s.past, s.mems, Reader(r, [s.active] + MemsNewestFirst(s.imm), s.tables))
  {
    hide LogInv, WalsOrdered, WalInv, ReadInv, TableInv, PastInv, Fits, Replay, History, LastSeq, FloorFor, Retain,
      WalSet, LogWalsUpTo, Unnamed, TailInv, FlushInv, CompInv, Lookup, Answer, ReaderInv, AtBoundary, MemsNewestFirst;
    var ids := [s.active] + MemsNewestFirst(s.imm);
    BoundaryLast(s.past);
    MemsKnown(s.imm);
    forall i | 0 <= i < |ids| ensures ids[i] in s.mems {
      assert i > 0 ==> ids[i] == s.imm[|s.imm| - i].mem;
    }
    forall k ensures ValueOf(Lookup(ids, s.mems, s.tables, k, r)) == Answer(History(s.past), k, r) {
      GetRefines(s, r, k);
    }
  }
}
