/** Get over the objects themselves: skip lists of linked nodes and table files read through the
    shared block cache give the fold of the committed batches. */
module EngineGet {
  import opened Bytes
  import opened Versions
  import opened Store
  import opened Engine
  import opened EngineInv
  import opened EngineTheorems
  import opened Cache
  import Block
  import IK = InternalKey
  import SL = SkipList
  import SST = SSTable
  import Table
  import Bloom
  import Db
  import EngineIterate
  import EngineRead

  /** What the open tables were built from: file number, entries and blocks of each. */
  datatype Built = Built(number: nat, entries: seq<Version>, blocks: Table.Groups)

  /** The skip lists hold the memtables. */
  ghost predicate ListsHold(s: State, active: seq<Version>, imms: seq<seq<Version>>) {
    && s.active in s.mems && Block.Elems(active) == s.mems[s.active] && |imms| == |s.imm|
    && forall i :: 0 <= i < |imms| ==> s.imm[i].mem in s.mems && Block.Elems(imms[i]) == s.mems[s.imm[i].mem]
  }

  ghost predicate TableHolds(t: SST.Reader, b: Built) {
    t.number == b.number && t.Holds(b.entries, b.blocks)
  }

  /** Every table file has its own number. */
  ghost predicate Apart(tables: seq<SST.Reader>, built: seq<Built>) {
    && |tables| == |built| && (forall i :: 0 <= i < |tables| ==> TableHolds(tables[i], built[i]))
    && (forall i, j :: 0 <= i < j < |built| ==> built[i].number != built[j].number)
  }

  /** The open tables are all tables, each once. */
  ghost predicate TablesHold(s: State, tables: seq<SST.Reader>, built: seq<Built>) {
    && Apart(tables, built)
    && (forall i :: 0 <= i < |built| ==> built[i].number in s.tables && Block.Elems(built[i].entries) == s.tables[built[i].number])
    && s.tables.Keys == Numbers(built)
  }

  ghost function Numbers(built: seq<Built>): set<nat> {
    set i | 0 <= i < |built| :: built[i].number
  }

  ghost predicate AllOpen(tables: seq<SST.Reader>, cache: BlockCache?)
    reads cache
  {
    forall i :: 0 <= i < |tables| ==> tables[i].cache == cache && tables[i].Valid()
  }

  /** No block in the cache differs from its file. */
  ghost predicate AllFaithful(tables: seq<SST.Reader>, cache: BlockCache?)
    requires AllOpen(tables, cache)
    reads cache
  {
    forall i :: 0 <= i < |tables| ==> tables[i].Faithful()
  }

  lemma FewerNumbers(built: seq<Built>, j: nat)
    requires j < |built| && forall i, k :: 0 <= i < k < |built| ==> built[i].number != built[k].number
    ensures Numbers(built[..j]) == Numbers(built[..j + 1]) - {built[j].number} && built[j].number in Numbers(built[..j + 1])
  {
    assert built[..j + 1][j] == built[j];
    forall n | n in Numbers(built[..j]) ensures n in Numbers(built[..j + 1]) && n != built[j].number {
      var i :| 0 <= i < j && built[..j][i].number == n;
      assert built[..j + 1][i].number == n;
    }
    forall n | n in Numbers(built[..j + 1]) && n != built[j].number ensures n in Numbers(built[..j]) {
      var i :| 0 <= i <= j && built[..j + 1][i].number == n;
      assert built[..j][i].number == n;
    }
  }

  /** The newest version in any table, the last one first; a table that cannot be read ends it. */
  method FromTables(ghost s: State, tables: seq<SST.Reader>, cache: BlockCache?, k: Blob, r: nat, ghost built: seq<Built>)
    returns (found: Block.Lookup)
    requires IK.NulFree(k) && r <= IK.MAX_SEQUENCE && AllOpen(tables, cache)
    modifies cache
    ensures AllOpen(tables, cache) && (Apart(tables, built) && old(AllFaithful(tables, cache)) ==> AllFaithful(tables, cache))
    ensures TablesHold(s, tables, built) && Unique(Tables(s.tables.Keys, s.tables)) && old(AllFaithful(tables, cache)) ==>
              found == Block.AsLookup(Newest(Tables(s.tables.Keys, s.tables), k, r))
  {
    hide Newest, Unique, Tables, Db.BestSoFar, Numbers, TableHolds, Block.Elems;
    ghost var sound := Apart(tables, built) && AllFaithful(tables, cache);
    ghost var good := sound && TablesHold(s, tables, built) && Unique(Tables(s.tables.Keys, s.tables));
    var best: Option<Version> := None;
    if good {
      Db.NothingYet(s.tables, k, r);
      assert built[..|built|] == built;
    }
    var j := |tables|;
    while j > 0
      invariant 0 <= j <= |tables| && AllOpen(tables, cache)
      invariant sound ==> AllFaithful(tables, cache)
      invariant good ==> Db.BestSoFar(s.tables, Numbers(built[..j]), k, r, best)
    {
      j := j - 1;
      var got := OneTable(tables, cache, j, k, r, built);
      if got.Corrupt? {
        return got;
      }
      if good {
        FewerNumbers(built, j);
        TableNewest(s, tables, built, j, k, r);
        Db.BestNext(s.tables, Numbers(built[..j + 1]), built[j].number, k, r, best, if got.Found? then Some(got.entry) else None);
      }
      if got.Found? && (best.None? || got.entry.seqno > best.value.seqno) {
        best := Some(got.entry);
        if got.entry.seqno == r {
          if good {
            Db.BestAtRead(s.tables, Numbers(built[..j]), k, r, got.entry);
          }
          return got;
        }
      }
    }
    if good {
      NoNumbers();
      assert built[..0] == [];
      Db.BestOverall(s.tables, k, r, best);
    }
    found := Block.AsLookup(best);
  }

  lemma NoNumbers()
    ensures Numbers([]) == {}
  {
  }

  /** One lookup leaves every cached block as its file has it. */
  method OneTable(tables: seq<SST.Reader>, cache: BlockCache?, j: nat, k: Blob, r: nat, ghost built: seq<Built>)
    returns (got: Block.Lookup)
    requires IK.NulFree(k) && r <= IK.MAX_SEQUENCE && AllOpen(tables, cache) && j < |tables|
    modifies cache
    ensures AllOpen(tables, cache)
    ensures old(AllFaithful(tables, cache)) && Apart(tables, built) ==>
              AllFaithful(tables, cache) && got == Block.AsLookup(Block.Find(built[j].entries, k, r))
  {
    hide Block.Find, Table.Within, Bloom.Sized, TableHolds;
    ghost var good := AllFaithful(tables, cache) && Apart(tables, built);
    ghost var b := if good then built[j] else Built(0, [], []);
    var t := tables[j];
    if good {
      HeldTable(t, b);
    }
    ghost var cached: map<Key, Blob> := if cache != null then cache.index else map[];
    got := t.Get(k, r, b.entries, b.blocks);
    if good {
      forall i | 0 <= i < |tables| ensures tables[i].Faithful() {
        if i != j {
          OtherNumber(tables, built, i, j);
          if cache != null {
            FaithfulKept(tables[i], cached, cache.index, t.number);
          }
        }
      }
    }
  }

  lemma HeldTable(t: SST.Reader, b: Built)
    requires TableHolds(t, b)
    ensures t.Holds(b.entries, b.blocks)
  {
  }

  lemma OtherNumber(tables: seq<SST.Reader>, built: seq<Built>, i: nat, j: nat)
    requires Apart(tables, built) && i < |tables| && j < |tables| && i != j
    ensures tables[i].number != tables[j].number
  {
    assert TableHolds(tables[i], built[i]) && TableHolds(tables[j], built[j]);
  }

  /** Blocks of this file among the cached ones are its bytes. */
  ghost predicate FaithfulTo(t: SST.Reader, cached: map<Key, Blob>)
    requires Table.Within(t.index, |t.file|)
  {
    forall i :: 0 <= i < |t.index| ==>
      ((t.number, t.index[i].offset) in cached ==> cached[(t.number, t.index[i].offset)] == t.BlockBytes(i))
  }

  /** Blocks of other files are only evicted. */
  lemma FaithfulKept(t: SST.Reader, cached: map<Key, Blob>, now: map<Key, Blob>, number: nat)
    requires t.number != number && Table.Within(t.index, |t.file|) && FaithfulTo(t, cached)
    requires forall k :: k in now && k.0 != number ==> (k in cached && now[k] == cached[k])
    ensures FaithfulTo(t, now)
  {
    forall i | 0 <= i < |t.index| && (t.number, t.index[i].offset) in now
      ensures now[(t.number, t.index[i].offset)] == t.BlockBytes(i)
    {
      assert (t.number, t.index[i].offset).0 == t.number;
    }
  }

  lemma TableNewest(s: State, tables: seq<SST.Reader>, built: seq<Built>, j: nat, k: Blob, r: nat)
    requires TablesHold(s, tables, built) && Unique(Tables(s.tables.Keys, s.tables)) && j < |tables|
    ensures Block.Find(built[j].entries, k, r) == Newest(s.tables[built[j].number], k, r)
  {
    hide Newest, Unique, Tables, Block.Find, Block.Elems, Numbers;
    assert TableHolds(tables[j], built[j]);
    Db.TableUnique(s.tables, built[j].number);
    Block.FindIsNewest(built[j].entries, k, r);
  }

  /** The active skip list, then the immutable ones, newest first. */
  method FromLists(ghost s: State, active: SL.List, imms: seq<SL.List>, k: Blob, r: nat, ghost lists: seq<seq<Version>>)
    returns (found: Option<Version>)
    requires IK.NulFree(k) && r <= IK.MAX_SEQUENCE
    requires active.Valid() && forall i :: 0 <= i < |imms| ==> imms[i].Valid()
    requires |lists| == |imms| && forall i :: 0 <= i < |imms| ==> imms[i].entries == lists[i]
    ensures Inv(s) && s.phase != Down && ListsHold(s, active.entries, lists) ==>
              Lookup([s.active] + MemsNewestFirst(s.imm), s.mems, s.tables, k, r)
              == if found.Some? then found else Newest(Tables(s.tables.Keys, s.tables), k, r)
  {
    hide Newest, Unique, Inv, Block.Elems, Block.Find, MemsNewestFirst, Tables;
    ghost var good := Inv(s) && s.phase != Down && ListsHold(s, active.entries, lists);
    ghost var ids := [s.active] + MemsNewestFirst(s.imm);
    if good {
      Db.LookupFacts(s);
      assert ids[1..] == MemsNewestFirst(s.imm);
    }
    found := active.Get(k, r);
    if found.Some? {
      return;
    }
    var i := |imms|;
    assert good ==> s.imm[..i] == s.imm;
    while i > 0
      invariant 0 <= i <= |imms| && found.None?
      invariant good ==> Lookup(ids, s.mems, s.tables, k, r) == Lookup(MemsNewestFirst(s.imm[..i]), s.mems, s.tables, k, r)
    {
      i := i - 1;
      if good {
        Db.MemsNext(s.imm, i);
      }
      found := imms[i].Get(k, r);
      if found.Some? {
        return;
      }
    }
    if good {
      NoMems(s.imm);
    }
  }

  /** Get: memtables, then tables. */
  method GetAt(ghost s: State, active: SL.List, imms: seq<SL.List>, tables: seq<SST.Reader>, cache: BlockCache?, k: Blob, r: nat,
               ghost lists: seq<seq<Version>>, ghost built: seq<Built>)
    returns (found: Block.Lookup)
    requires ValidKey(k) && r <= IK.MAX_SEQUENCE && AllOpen(tables, cache)
    requires active.Valid() && forall i :: 0 <= i < |imms| ==> imms[i].Valid()
    requires |lists| == |imms| && forall i :: 0 <= i < |imms| ==> imms[i].entries == lists[i]
    modifies cache
    ensures AllOpen(tables, cache) && (Apart(tables, built) && old(AllFaithful(tables, cache)) ==> AllFaithful(tables, cache))
    ensures Inv(s) && s.phase != Down && ListsHold(s, old(active.entries), lists) && TablesHold(s, tables, built)
            && old(AllFaithful(tables, cache)) ==>
              found == Block.AsLookup(Lookup([s.active] + MemsNewestFirst(s.imm), s.mems, s.tables, k, r))
  {
    hide Newest, Unique, Inv, TablesHold, Apart, ListsHold, Lookup, MemsNewestFirst, Tables;
    if Inv(s) && s.phase != Down {
      Db.LookupFacts(s);
    }
    var got := FromLists(s, active, imms, k, r, lists);
    if got.Some? {
      return Block.Found(got.value);
    }
    found := FromTables(s, tables, cache, k, r, built);
  }

  lemma NoMems(imm: seq<Imm>)
    ensures MemsNewestFirst(imm[..0]) == []
  {
  }

  /** In any open state of a run, at the last sequence or an active snapshot: if the skip lists
      hold the memtables, the table files were built from the tables, and cached blocks are those
      of the files, Get finds the value that the batches committed by then leave, or none. */
  method Get(ghost states: seq<State>, ghost steps: seq<Step>, ghost i: nat, active: SL.List, imms: seq<SL.List>,
             tables: seq<SST.Reader>, cache: BlockCache?, k: Blob, r: nat, ghost lists: seq<seq<Version>>, ghost built: seq<Built>)
    returns (found: Block.Lookup, ghost n: nat)
    requires Run(states, steps) && i < |states| && NeverCut(steps, i) && CanPin(states[i], r)
    requires ValidKey(k) && r <= IK.MAX_SEQUENCE && AllOpen(tables, cache)
    requires active.Valid() && forall j :: 0 <= j < |imms| ==> imms[j].Valid()
    requires |lists| == |imms| && forall j :: 0 <= j < |imms| ==> imms[j].entries == lists[j]
    modifies cache
    ensures AllOpen(tables, cache) && (Apart(tables, built) && old(AllFaithful(tables, cache)) ==> AllFaithful(tables, cache))
    ensures n <= |states[i].past| && r == LastSeq(states[i].past[..n])
    ensures ListsHold(states[i], old(active.entries), lists) && TablesHold(states[i], tables, built) && old(AllFaithful(tables, cache)) ==>
              !found.Corrupt? && ValueOf(if found.Found? then Some(found.entry) else None) == Versions.Get(Fold(states[i].past[..n]), k)
  {
    hide Run, Inv, ListsHold, TablesHold, Apart, Lookup, Fold, Versions.Get, LastSeq, MemsNewestFirst, Answer, History,
      CanPin, ValidKey;
    ghost var s := states[i];
    RunInv(states, steps, i);
    n := EngineIterate.PinBoundary(s, r);
    PinOpen(s, r);
    EngineRead.GetRefines(s, r, k);
    EngineIterate.BoundaryFold(s, n, r, k);
    found := GetAt(s, active, imms, tables, cache, k, r, lists, built);
  }

  lemma PinOpen(s: State, r: nat)
    requires CanPin(s, r)
    ensures s.phase != Down
  {
  }
}
