/**
 The iterator over one table: it loads a block at a time and skips entries above its
 read sequence.  It yields exactly the visible entries, from the start or from a key.
 */
module TableIterator {
  import opened Bytes
  import opened Versions
  import opened Block
  import opened Table
  import opened SSTable
  import IK = InternalKey

  /** What SkipUntilVisible passes over; an empty target passes over no key. */
  predicate Passed(e: Version, target: Blob, r: nat) {
    (target != [] && Less(e.key, target)) || e.seqno > r
  }

  function Tail(es: seq<Version>): seq<Version> {
    if es == [] then [] else es[1..]
  }

  function Skip(es: seq<Version>, target: Blob, r: nat): seq<Version> {
    if es == [] || !Passed(es[0], target, r) then es else Skip(es[1..], target, r)
  }

  /** The entries at or below the read sequence, from a key on. */
  function Shown(es: seq<Version>, target: Blob, r: nat): seq<Version> {
    if es == [] then []
    else (if Passed(es[0], target, r) then [] else [es[0]]) + Shown(es[1..], target, r)
  }

  lemma {:induction false} SkipShown(es: seq<Version>, target: Blob, r: nat)
    requires Sorted(es)
    ensures Shown(Skip(es, target, r), [], r) == Shown(es, target, r)
    ensures Skip(es, target, r) == [] || !Passed(Skip(es, target, r)[0], target, r)
  {
    if es != [] {
      var tail := es[1..];
      assert Sorted(tail);
      if Passed(es[0], target, r) {
        SkipShown(tail, target, r);
      } else {
        AllFrom(es, target, r);
      }
    }
  }

  /** Behind a key that is not before the target, no key is. */
  lemma {:induction false} AllFrom(es: seq<Version>, target: Blob, r: nat)
    requires Sorted(es) && (es != [] && target != [] ==> !Less(es[0].key, target))
    ensures Shown(es, target, r) == Shown(es, [], r)
  {
    if es != [] {
      var tail := es[1..];
      assert Sorted(tail);
      if tail != [] && target != [] {
        assert tail[0] == es[1];
        Order(es[0].key, es[1].key, target);
        Order(target, es[0].key, es[1].key);
      }
      AllFrom(tail, target, r);
    }
  }

  lemma {:induction false} SkipConcat(a: seq<Version>, b: seq<Version>, target: Blob, r: nat)
    requires forall i :: 0 <= i < |a| ==> Passed(a[i], target, r)
    ensures Skip(a + b, target, r) == Skip(b, target, r)
  {
    if a == [] {
      assert a + b == b;
    } else {
      assert (a + b)[1..] == a[1..] + b;
      SkipConcat(a[1..], b, target, r);
    }
  }

  /** Blocks that end before (target, r) hold nothing to show. */
  lemma SkipBlocks(gs: Groups, i: nat, target: Blob, r: nat)
    requires GroupsOk(gs) && Sorted(Flatten(gs)) && i <= |gs|
    requires i > 0 ==> IK.Before(Last(gs[i - 1]).key, Last(gs[i - 1]).seqno, target, r)
    ensures Sorted(Flatten(gs[i..])) && Skip(Flatten(gs), target, r) == Skip(Flatten(gs[i..]), target, r)
  {
    hide Sorted, Flatten, AllWellFormed, Skip;
    var head, tail := Flatten(gs[..i]), Flatten(gs[i..]);
    FlattenConcat(gs[..i], gs[i..]);
    assert gs == gs[..i] + gs[i..];
    SortedSplit(head, tail);
    if i == 0 {
      assert gs[0..] == gs;
    } else {
      FlattenSnoc(gs[..i - 1], gs[i - 1]);
      assert gs[..i] == gs[..i - 1] + [gs[i - 1]];
      PassedBefore(head, target, r);
      SkipConcat(head, tail, target, r);
    }
  }

  /** A block before the lower bound ends before the target, whatever bytes the target has. */
  lemma PassedBlock(crc: Checksum, gs: Groups, i: nat, target: Blob, r: nat)
    requires GroupsOk(gs) && i <= |gs| && r <= IK.MAX_SEQUENCE
    requires i > 0 ==> Less(IndexOf(crc, gs)[i - 1].lastKey, IK.Encode(target, r))
    ensures i > 0 ==> IK.Before(Last(gs[i - 1]).key, Last(gs[i - 1]).seqno, target, r)
  {
    hide IK.Encode, IK.Before, IndexOf, EncodeBlock, Blocks;
    if i > 0 {
      IndexInside(crc, gs, i - 1);
      IK.BeforeTarget(Last(gs[i - 1]).key, Last(gs[i - 1]).seqno, target, r);
    }
  }

  lemma PassedBefore(es: seq<Version>, target: Blob, r: nat)
    requires Sorted(es) && es != [] && IK.Before(Last(es).key, Last(es).seqno, target, r)
    ensures forall i :: 0 <= i < |es| ==> Passed(es[i], target, r)
  {
    forall i | 0 <= i < |es| ensures Passed(es[i], target, r) {
      assert es[i] == Last(es) || IK.Before(es[i].key, es[i].seqno, Last(es).key, Last(es).seqno);
      Order(es[i].key, Last(es).key, target);
    }
  }

  class Cursor {
    const table: Reader
    const r: nat
    var blockIndex: nat
    var entryIndex: nat
    var loaded: bool
    var block: seq<Version>
    var ok: bool

    constructor (table: Reader, r: nat)
      ensures this.table == table && this.r == r && !loaded && ok && blockIndex == 0 && Inv()
    {
      this.table, this.r := table, r;
      blockIndex, entryIndex, loaded, block, ok := 0, 0, false, [], true;
    }

    ghost predicate Inv()
      reads this
    {
      loaded ==> blockIndex < |table.index| && entryIndex < |block|
    }

    predicate AtEntry()
      reads this
    {
      ok && loaded && entryIndex < |block|
    }

    /** The entries not passed yet. */
    ghost function Rest(gs: Groups): seq<Version>
      reads this
    {
      if loaded && entryIndex <= |block| && blockIndex < |gs| then block[entryIndex..] + Flatten(gs[blockIndex + 1..])
      else if blockIndex < |gs| then Flatten(gs[blockIndex..])
      else []
    }

    /** What it will show. */
    ghost function Yield(gs: Groups): seq<Version>
      reads this
    {
      Shown(Rest(gs), [], r)
    }

    /** It stands on the first entry to show, or at the end. */
    ghost predicate Settled(gs: Groups)
      reads this
    {
      && (AtEntry() <==> Rest(gs) != [])
      && (AtEntry() ==> block[entryIndex] == Rest(gs)[0] && block[entryIndex].seqno <= r)
    }

    /** The cursor runs over an intact table without having met an error. */
    ghost predicate Tracks(es: seq<Version>, gs: Groups)
      reads this, table.cache
    {
      && table.Valid() && table.Holds(es, gs) && table.Faithful() && ok && Sorted(Rest(gs))
      && (loaded ==> blockIndex < |gs| && block == gs[blockIndex])
    }

    lemma LoadRest(es: seq<Version>, gs: Groups)
      requires !loaded && blockIndex < |table.index| && table.Holds(es, gs)
      ensures |table.index| == |gs| && gs[blockIndex] != []
      ensures Rest(gs) == gs[blockIndex] + Flatten(gs[blockIndex + 1..])
    {
      hide Intact, Sorted, IndexOf, AllWellFormed;
      assert gs[blockIndex..] == [gs[blockIndex]] + gs[blockIndex + 1..];
      FlattenConcat([gs[blockIndex]], gs[blockIndex + 1..]);
      FlattenOne(gs[blockIndex]);
    }

    /** EnsureBlockLoaded */
    method Ensure(ghost es: seq<Version>, ghost gs: Groups) returns (more: bool)
      requires Inv() && table.Valid() && ok
      modifies this, table.cache
      ensures Inv() && table.Valid() && (more ==> AtEntry())
      ensures blockIndex >= old(blockIndex) && (old(loaded) ==> loaded && more && block == old(block) && entryIndex == old(entryIndex))
      ensures old(Tracks(es, gs)) ==> Tracks(es, gs) && Rest(gs) == old(Rest(gs)) && (more <==> Rest(gs) != [])
    {
      hide Sorted, IndexOf, Intact, Represents, Flatten, Reader.Faithful;
      ghost var good := Tracks(es, gs);
      ghost var rest := Rest(gs);
      while !loaded
        invariant Inv() && table.Valid() && ok && blockIndex >= old(blockIndex)
        invariant old(loaded) ==> loaded && block == old(block) && entryIndex == old(entryIndex)
        invariant good ==> Tracks(es, gs) && Rest(gs) == rest
        decreases !loaded, |table.index| - blockIndex
      {
        if blockIndex >= |table.index| {
          return false;
        }
        if good {
          LoadRest(es, gs);
        }
        var entries := table.ReadBlock(blockIndex, es, gs);
        if entries.None? {
          ok := false;
          return false;
        }
        block, loaded, entryIndex := entries.value, true, 0;
        assert block[0..] == block;
        if block == [] {
          loaded := false;
          blockIndex := blockIndex + 1;
        }
      }
      more := true;
    }

    /** AdvanceRaw: one entry further. */
    method Advance(ghost es: seq<Version>, ghost gs: Groups)
      requires Inv() && table.Valid() && AtEntry()
      modifies this
      ensures Inv() && ok
      ensures if loaded then blockIndex == old(blockIndex) && block == old(block) && entryIndex == old(entryIndex) + 1
              else blockIndex > old(blockIndex)
      ensures old(Tracks(es, gs)) ==> Tracks(es, gs) && Rest(gs) == Tail(old(Rest(gs)))
    {
      hide IndexOf, Intact, Represents, Flatten, Reader.Faithful, Sorted;
      ghost var good, rest := Tracks(es, gs), Rest(gs);
      if good {
        assert rest == rest[..1] + rest[1..];
        SortedSplit(rest[..1], rest[1..]);
      }
      entryIndex := entryIndex + 1;
      if good {
        assert rest[1..] == block[entryIndex..] + Flatten(gs[blockIndex + 1..]);
      }
      if entryIndex >= |block| {
        loaded, block, entryIndex := false, [], 0;
        blockIndex := blockIndex + 1;
        if good {
          FlattenNone();
          assert gs[|gs|..] == [];
          assert rest[1..] == Flatten(gs[blockIndex..]);
        }
      }
    }

    /** SkipUntilVisible */
    method SkipTo(target: Blob, ghost es: seq<Version>, ghost gs: Groups)
      requires Inv() && table.Valid() && ok
      modifies this, table.cache
      ensures Inv() && table.Valid()
      ensures old(Tracks(es, gs)) ==>
                Tracks(es, gs) && Rest(gs) == Skip(old(Rest(gs)), target, r) && Settled(gs)
    {
      hide IndexOf, Intact, Represents, Flatten, Reader.Faithful, Sorted, Less;
      ghost var good, rest := Tracks(es, gs), Rest(gs);
      var more := Ensure(es, gs);
      while more && Passed(block[entryIndex], target, r)
        invariant Inv() && table.Valid() && (more ==> AtEntry())
        invariant good ==> Tracks(es, gs) && Skip(Rest(gs), target, r) == Skip(rest, target, r) && (more <==> Rest(gs) != [])
        decreases |table.index| - blockIndex, |block| - entryIndex
      {
        Advance(es, gs);
        more := Ensure(es, gs);
      }
    }

    /** From the start: all entries at or below the read sequence. */
    method SeekToFirst(ghost es: seq<Version>, ghost gs: Groups)
      requires table.Valid()
      modifies this, table.cache
      ensures Inv() && table.Valid()
      ensures old(table.Faithful()) && table.Holds(es, gs) ==>
                Tracks(es, gs) && Yield(gs) == Shown(es, [], r) && Settled(gs)
    {
      hide IndexOf, Intact, Flatten, Reader.Faithful, Sorted, Knows, Cuts, GroupsOk;
      ok, blockIndex, entryIndex, block, loaded := true, 0, 0, [], false;
      assert gs[0..] == gs;
      FlattenNone();
      SkipTo([], es, gs);
      if Tracks(es, gs) {
        SkipShown(es, [], r);
      }
    }

    /** From a key: the entries of that key and later ones. */
    method Seek(target: Blob, ghost es: seq<Version>, ghost gs: Groups)
      requires table.Valid() && r <= IK.MAX_SEQUENCE
      modifies this, table.cache
      ensures Inv() && table.Valid()
      ensures old(table.Faithful()) && table.Holds(es, gs) ==>
                Tracks(es, gs) && Yield(gs) == Shown(es, target, r) && Settled(gs)
    {
      hide IndexOf, Intact, Flatten, Reader.Faithful, Sorted, Knows, Cuts, Bound, IK.Encode, Less, AllWellFormed, Skip, Shown;
      ghost var good := table.Faithful() && table.Holds(es, gs);
      ok, block, loaded, entryIndex := true, [], false, 0;
      blockIndex := LowerBound(table.index, IK.Encode(target, r));
      if good {
        PassedBlock(table.crc, gs, blockIndex, target, r);
        SkipBlocks(gs, blockIndex, target, r);
        FlattenNone();
        assert gs[|gs|..] == [];
      }
      SkipTo(target, es, gs);
      if good {
        SkipShown(es, target, r);
      }
    }

    /** The current entry is the first one to show. */
    lemma Current(gs: Groups)
      requires Settled(gs)
      ensures AtEntry() <==> Yield(gs) != []
      ensures AtEntry() ==> block[entryIndex] == Yield(gs)[0]
    {
    }

    /** Next: the rest of what was to be shown. */
    method Next(ghost es: seq<Version>, ghost gs: Groups)
      requires Inv() && table.Valid()
      modifies this, table.cache
      ensures Inv() && table.Valid()
      ensures old(Tracks(es, gs) && Settled(gs) && AtEntry()) ==>
                Tracks(es, gs) && Settled(gs) && Yield(gs) == Tail(old(Yield(gs)))
      ensures !old(AtEntry()) ==> Yield(gs) == old(Yield(gs))
    {
      hide IndexOf, Intact, Represents, Flatten, Reader.Faithful, Sorted;
      if !AtEntry() {
        return;
      }
      ghost var good := Tracks(es, gs) && Settled(gs);
      Advance(es, gs);
      ghost var rest := Rest(gs);
      SkipTo([], es, gs);
      if good {
        SkipShown(rest, [], r);
      }
    }
  }
}
