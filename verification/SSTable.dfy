/**
 Building, opening and reading SSTables.  On a built table a lookup (Bloom filter,
 index lower bound, block cache, restart search, prefix decoding) is the linear scan
 of the entries it was built from.
 */
module SSTable {
  import opened Bytes
  import opened Codec
  import opened Versions
  import opened Block
  import opened Cache
  import opened Table
  import Bloom
  import IK = InternalKey

  // --------------------------------------------------------------------- building

  /** The running size estimate of a block. */
  function Approx(es: seq<Version>): nat {
    if es == [] then 8
    else Approx(es[..|es| - 1]) + 17 + |es[|es| - 1].key| + |es[|es| - 1].value|
  }

  /** Up to end, the estimate exceeds the limit only inside the versions of one key. */
  ghost predicate Small(es: seq<Version>, begin: nat, end: nat, blockSize: nat)
    requires begin <= end <= |es|
  {
    forall m :: begin < m < end && es[m].key != es[m - 1].key ==> Approx(es[begin..m]) < blockSize
  }

  lemma SmallOne(es: seq<Version>, begin: nat, blockSize: nat)
    requires begin < |es|
    ensures Small(es, begin, begin + 1, blockSize)
  {
  }

  lemma SmallNext(es: seq<Version>, begin: nat, end: nat, blockSize: nat)
    requires begin < end < |es| && Small(es, begin, end, blockSize)
    requires es[end].key == es[end - 1].key || Approx(es[begin..end]) < blockSize
    ensures Small(es, begin, end + 1, blockSize)
  {
    hide Approx;
  }

  /** Where the block starting at begin ends: no key continues in the next block, and the
      block reaches the limit and passes it only to keep one key together. */
  method NextCut(es: seq<Version>, begin: nat, blockSize: nat) returns (end: nat)
    requires begin < |es|
    ensures begin < end <= |es|
    ensures end < |es| ==> es[end].key != es[end - 1].key && Approx(es[begin..end]) >= blockSize
    ensures Small(es, begin, end, blockSize)
  {
    hide Approx, Small;
    ApproxNext(es, begin, begin);
    SmallOne(es, begin, blockSize);
    var size := 8 + 17 + |es[begin].key| + |es[begin].value|;
    end := begin + 1;
    while end < |es| && size < blockSize
      invariant begin < end <= |es| && size == Approx(es[begin..end]) && Small(es, begin, end, blockSize)
    {
      ApproxNext(es, begin, end);
      SmallNext(es, begin, end, blockSize);
      size := size + 17 + |es[end].key| + |es[end].value|;
      end := end + 1;
    }
    while end < |es| && es[end].key == es[end - 1].key
      invariant begin < end <= |es| && size == Approx(es[begin..end]) && Small(es, begin, end, blockSize)
      invariant end < |es| ==> size >= blockSize
    {
      ApproxNext(es, begin, end);
      SmallNext(es, begin, end, blockSize);
      size := size + 17 + |es[end].key| + |es[end].value|;
      end := end + 1;
    }
  }

  lemma ApproxNext(es: seq<Version>, begin: nat, end: nat)
    requires begin <= end < |es|
    ensures Approx(es[begin..end + 1]) == Approx(es[begin..end]) + 17 + |es[end].key| + |es[end].value|
    ensures Approx(es[begin..begin]) == 8
  {
    var g := es[begin..end + 1];
    assert g[..|g| - 1] == es[begin..end];
  }

  /** Adjacent blocks never share a key. */
  ghost predicate Cuts(gs: Groups)
  {
    && (forall i :: 0 <= i < |gs| ==> gs[i] != [])
    && forall i :: 0 < i < |gs| ==> gs[i][0].key != Last(gs[i - 1]).key
  }

  function KeySet(es: seq<Version>): set<Blob> {
    set i | 0 <= i < |es| :: es[i].key
  }

  /** The distinct keys, each once. */
  method UniqueKeys(es: seq<Version>) returns (keys: seq<Blob>)
    ensures |keys| == |KeySet(es)|
    ensures forall i :: 0 <= i < |es| ==> es[i].key in keys
  {
    keys := [];
    ghost var found: set<Blob> := {};
    for i := 0 to |es|
      invariant found == KeySet(es[..i]) && |keys| == |found| && forall k :: k in keys <==> k in found
    {
      assert KeySet(es[..i + 1]) == KeySet(es[..i]) + {es[i].key} by {
        KeySetNext(es, i);
      }
      if es[i].key !in keys {
        keys := keys + [es[i].key];
      }
      found := found + {es[i].key};
    }
    assert es[..|es|] == es;
    forall i | 0 <= i < |es| ensures es[i].key in keys {
      assert es[i].key in KeySet(es);
    }
  }

  lemma KeySetNext(es: seq<Version>, i: nat)
    requires i < |es|
    ensures KeySet(es[..i + 1]) == KeySet(es[..i]) + {es[i].key}
  {
    var a, b := es[..i], es[..i + 1];
    assert b[i] == es[i] && forall j :: 0 <= j < i ==> b[j] == a[j];
    assert forall k :: k in KeySet(a) ==> k in KeySet(b) by {
      forall k | k in KeySet(a) ensures k in KeySet(b) {
        var j :| 0 <= j < |a| && a[j].key == k;
        assert b[j].key == k;
      }
    }
    assert es[i].key in KeySet(b) by {
      assert b[i].key == es[i].key;
    }
  }

  /** The filter knows every key. */
  ghost predicate Knows(hash: Bloom.Hash, f: Bloom.Filter, es: seq<Version>) {
    Bloom.Sized(f) && forall i :: 0 <= i < |es| ==> Bloom.HasKey(hash, f, es[i].key, f.hashCount)
  }

  /** What a table is built from: groups that make up the entries and a filter that
      knows every key. */
  ghost predicate Represents(hash: Bloom.Hash, es: seq<Version>, gs: Groups, f: Bloom.Filter) {
    Flatten(gs) == es && GroupsOk(gs) && Cuts(gs) && FilterOk(f) && Knows(hash, f, es)
  }

  ghost predicate BadFilter(es: seq<Version>, bitsPerKey: nat) {
    bitsPerKey == 0 || bitsPerKey > 64 || |KeySet(es)| > (Bloom.WRAP - 1 - 7) / bitsPerKey
  }

  lemma FilterRoom(n: nat, bits: nat)
    requires 0 < bits && n <= (Bloom.WRAP - 1 - 7) / bits
    ensures n * Bloom.Max(1, bits) + 7 < Bloom.WRAP
  {
    var q := (Bloom.WRAP - 1 - 7) / bits;
    assert n * bits <= q * bits <= Bloom.WRAP - 8;
  }

  /** The data blocks of the file. */
  method WriteBlocks(crc: Checksum, es: seq<Version>, blockSize: nat)
    returns (data: Blob, index: seq<IndexEntry>, ghost gs: Groups)
    requires AllWellFormed(es)
    ensures Flatten(gs) == es && GroupsOk(gs) && Cuts(gs)
    ensures data == Blocks(crc, gs) && index == IndexOf(crc, gs)
  {
    hide EncodeBlock, Approx, IK.Encode, Cuts, GroupsOk, Flatten, Small, Blocks, IndexOf;
    data, index, gs := [], [], [];
    NoGroups(crc);
    var begin := 0;
    while begin < |es|
      invariant begin <= |es| && Flatten(gs) == es[..begin] && GroupsOk(gs) && Cuts(gs)
      invariant begin > 0 ==> gs != [] && gs[|gs| - 1] != [] && Last(gs[|gs| - 1]) == es[begin - 1]
      invariant 0 < begin < |es| ==> es[begin].key != es[begin - 1].key
      invariant begin == 0 ==> gs == []
      invariant data == Blocks(crc, gs) && index == IndexOf(crc, gs)
    {
      var end := NextCut(es, begin, blockSize);
      var block := BuildBlock(crc, es, begin, end);
      ghost var g := es[begin..end];
      index := index + [IndexEntry(IK.Encode(es[end - 1].key, es[end - 1].seqno), |data|, |block|)];
      data := data + block;
      AddGroup(gs, g);
      AddBlock(crc, gs, g);
      assert es[..begin] + g == es[..end];
      gs := gs + [g];
      begin := end;
    }
    assert es[..|es|] == es;
  }

  lemma AddGroup(gs: Groups, g: seq<Version>)
    requires GroupsOk(gs) && Cuts(gs) && g != [] && AllWellFormed(g)
    requires gs != [] ==> g[0].key != Last(gs[|gs| - 1]).key
    ensures GroupsOk(gs + [g]) && Cuts(gs + [g]) && Flatten(gs + [g]) == Flatten(gs) + g
  {
    hide AllWellFormed, Flatten;
    FlattenSnoc(gs, g);
  }

  lemma FlattenSnoc(gs: Groups, g: seq<Version>)
    ensures Flatten(gs + [g]) == Flatten(gs) + g
  {
    assert (gs + [g])[..|gs|] == gs;
  }

  lemma AddBlock(crc: Checksum, gs: Groups, g: seq<Version>)
    requires GroupsOk(gs) && g != [] && AllWellFormed(g)
    ensures GroupsOk(gs + [g]) && Blocks(crc, gs + [g]) == Blocks(crc, gs) + EncodeBlock(crc, g)
    ensures IndexOf(crc, gs + [g]) == IndexOf(crc, gs) + [IndexEntry(LastKey(g), |Blocks(crc, gs)|, |EncodeBlock(crc, g)|)]
  {
    hide EncodeBlock, AllWellFormed, LastKey;
    assert (gs + [g])[..|gs|] == gs;
  }

  lemma NoGroups(crc: Checksum)
    ensures Flatten([]) == [] && GroupsOk([]) && Cuts([]) && Blocks(crc, []) == [] && IndexOf(crc, []) == []
  {
  }

  method WriteIndex(index: seq<IndexEntry>) returns (b: Blob)
    ensures b == IndexBlock(index)
  {
    hide Item, Fixed;
    b := Fixed(|index|, 8);
    for i := 0 to |index|
      invariant b == Fixed(|index|, 8) + Items(index, i)
    {
      b := b + Item(index[i]);
    }
  }

  /** CreateFromEntries: rejects exactly the filters it cannot size. */
  method Create(crc: Checksum, hash: Bloom.Hash, es: seq<Version>, blockSize: nat, bitsPerKey: nat)
    returns (file: Option<Blob>, ghost gs: Groups, ghost f: Bloom.Filter)
    requires AllWellFormed(es)
    ensures file.None? <==> BadFilter(es, bitsPerKey)
    ensures file.Some? ==> Represents(hash, es, gs, f) && file.value == FileOf(crc, gs, f)
  {
    hide Blocks, IndexOf, IndexBlock, Footer, Bloom.Encode, Flatten, Cuts, GroupsOk, KeySet, Bloom.HasKey;
    var keys := UniqueKeys(es);
    if bitsPerKey == 0 || bitsPerKey > 64 || |keys| > (Bloom.WRAP - 1 - 7) / bitsPerKey {
      return None, [], Bloom.Filter(0, 0, []);
    }
    var data, index;
    data, index, gs := WriteBlocks(crc, es, blockSize);
    var indexBlock := WriteIndex(index);
    FilterRoom(|keys|, bitsPerKey);
    var filter := Bloom.Build(hash, keys, bitsPerKey);
    f := filter;
    var filterBlock := Bloom.Encode(filter);
    file := Some(data + indexBlock + filterBlock
                 + Footer(|data|, |indexBlock|, |data| + |indexBlock|, |filterBlock|));
  }

  // ---------------------------------------------------------------------- reading

  lemma {:induction false} FlattenConcat(a: Groups, b: Groups)
    ensures Flatten(a + b) == Flatten(a) + Flatten(b)
  {
    if b == [] {
      assert a + b == a;
    } else {
      var init := b[..|b| - 1];
      assert (a + b)[..|a + b| - 1] == a + init;
      FlattenConcat(a, init);
    }
  }

  lemma FlattenSplit(gs: Groups, i: nat)
    requires i < |gs|
    ensures Flatten(gs) == Flatten(gs[..i]) + gs[i] + Flatten(gs[i + 1..])
  {
    hide Flatten;
    var a, b, c := gs[..i], [gs[i]], gs[i + 1..];
    FlattenConcat(a, b + c);
    FlattenConcat(b, c);
    FlattenOne(gs[i]);
    SplitAround(gs, i);
    ConcatAssociative(Flatten(a), gs[i], Flatten(c));
  }

  lemma SplitAround<T>(s: seq<T>, i: nat)
    requires i < |s|
    ensures s == s[..i] + ([s[i]] + s[i + 1..])
  {
  }

  lemma ConcatAssociative<T>(x: seq<T>, y: seq<T>, z: seq<T>)
    ensures x + (y + z) == x + y + z
  {
  }

  lemma FlattenOne(g: seq<Version>)
    ensures Flatten([g]) == g
  {
    assert [g][..0] == [];
  }

  /** Where a lower bound over last keys points: group i - 1 ends before the target and
      group i does not. */
  ghost predicate Bound(gs: Groups, i: nat, key: Blob, r: nat)
    requires i <= |gs| && forall k :: 0 <= k < |gs| ==> gs[k] != []
  {
    && (i > 0 ==> IK.Before(Last(gs[i - 1]).key, Last(gs[i - 1]).seqno, key, r))
    && (i < |gs| ==> !IK.Before(Last(gs[i]).key, Last(gs[i]).seqno, key, r))
  }

  lemma BeforeBound(gs: Groups, i: nat, key: Blob, r: nat)
    requires GroupsOk(gs) && Sorted(Flatten(gs)) && i <= |gs| && Bound(gs, i, key, r)
    ensures Find(Flatten(gs[..i]), key, r).None?
  {
    hide Find, Sorted, IK.Before, Flatten, AllWellFormed;
    if i == 0 {
      FlattenNone();
      FindNone([], key, r);
    } else {
      var head, tail := Flatten(gs[..i]), Flatten(gs[i..]);
      FlattenConcat(gs[..i], gs[i..]);
      assert gs == gs[..i] + gs[i..];
      SortedSplit(head, tail);
      FlattenSnoc(gs[..i - 1], gs[i - 1]);
      assert gs[..i] == gs[..i - 1] + [gs[i - 1]];
      AllBefore(head, key, r);
    }
  }

  lemma FlattenNone()
    ensures Flatten([]) == []
  {
  }

  /** Looking only into the group at the lower bound is a scan of all entries. */
  lemma OneGroup(gs: Groups, i: nat, key: Blob, r: nat)
    requires GroupsOk(gs) && Sorted(Flatten(gs)) && i <= |gs| && Bound(gs, i, key, r)
    ensures Find(Flatten(gs), key, r) == if i < |gs| then Find(gs[i], key, r) else None
  {
    hide Find, Sorted, IK.Before, Flatten;
    BeforeBound(gs, i, key, r);
    if i == |gs| {
      assert gs[..i] == gs;
    } else {
      var a, g, c := Flatten(gs[..i]), gs[i], Flatten(gs[i + 1..]);
      FlattenSplit(gs, i);
      assert a + g + c == a + (g + c);
      FindConcat(a, g + c, key, r);
      FindConcat(g, c, key, r);
      if Find(g, key, r).None? {
        var z := Last(g);
        if Visible(z, key, r) {
          FindHits(g, |g| - 1, key, r);
        } else {
          var init := g[..|g| - 1];
          assert g == init + [z];
          assert a + g + c == (a + init) + [z] + c;
          SortedPart(a + init, [z], c);
          AllAfter(z, c, key, r);
        }
      }
    }
  }

  lemma FilterMiss(hash: Bloom.Hash, f: Bloom.Filter, es: seq<Version>, key: Blob, r: nat)
    requires Knows(hash, f, es) && !Bloom.HasKey(hash, f, key, f.hashCount)
    ensures Find(es, key, r).None?
  {
    NothingBehind(es, key, r);
  }

  /** lower_bound over the last keys. */
  method LowerBound(index: seq<IndexEntry>, target: Blob) returns (i: nat)
    ensures i <= |index|
    ensures i > 0 ==> Less(index[i - 1].lastKey, target)
    ensures i < |index| ==> !Less(index[i].lastKey, target)
  {
    var lo, hi := 0, |index|;
    while lo < hi
      invariant 0 <= lo <= hi <= |index|
      invariant lo > 0 ==> Less(index[lo - 1].lastKey, target)
      invariant hi < |index| ==> !Less(index[hi].lastKey, target)
    {
      var mid := (lo + hi) / 2;
      if Less(index[mid].lastKey, target) {
        lo := mid + 1;
      } else {
        hi := mid;
      }
    }
    i := lo;
  }

  lemma BoundOf(crc: Checksum, gs: Groups, i: nat, key: Blob, r: nat)
    requires GroupsOk(gs) && i <= |gs| && IK.NulFree(key) && r <= IK.MAX_SEQUENCE
    requires i > 0 ==> Less(IndexOf(crc, gs)[i - 1].lastKey, IK.Encode(key, r))
    requires i < |gs| ==> !Less(IndexOf(crc, gs)[i].lastKey, IK.Encode(key, r))
    ensures Bound(gs, i, key, r)
  {
    hide IK.Encode, IK.Before, IndexOf, GroupsOk;
    GroupsNotEmpty(gs);
    if i > 0 {
      LastKeyOrder(crc, gs, i - 1, key, r);
    }
    if i < |gs| {
      LastKeyOrder(crc, gs, i, key, r);
    }
  }

  lemma GroupsNotEmpty(gs: Groups)
    requires GroupsOk(gs)
    ensures forall k :: 0 <= k < |gs| ==> gs[k] != []
  {
  }

  /** The index key of a block compares like its last entry. */
  lemma LastKeyOrder(crc: Checksum, gs: Groups, i: nat, key: Blob, r: nat)
    requires GroupsOk(gs) && i < |gs| && IK.NulFree(key) && r <= IK.MAX_SEQUENCE
    ensures Less(IndexOf(crc, gs)[i].lastKey, IK.Encode(key, r)) <==> IK.Before(Last(gs[i]).key, Last(gs[i]).seqno, key, r)
  {
    hide IK.Encode, IK.Before, IndexOf, EncodeBlock, Blocks;
    IndexInside(crc, gs, i);
    IK.OrderPreserved(Last(gs[i]).key, Last(gs[i]).seqno, key, r);
  }

  predicate DistinctOffsets(index: seq<IndexEntry>) {
    forall i, j :: 0 <= i < j < |index| ==> index[i].offset != index[j].offset
  }

  class Reader {
    const crc: Checksum
    const hash: Bloom.Hash
    const number: nat
    const file: Blob
    const index: seq<IndexEntry>
    const filter: Bloom.Filter
    const cache: BlockCache?

    constructor (crc: Checksum, hash: Bloom.Hash, number: nat, file: Blob, loaded: Loaded, cache: BlockCache?)
      ensures this.crc == crc && this.hash == hash && this.number == number && this.file == file
      ensures index == loaded.index && filter == loaded.filter && this.cache == cache
    {
      this.crc, this.hash, this.number, this.file := crc, hash, number, file;
      this.index, this.filter, this.cache := loaded.index, loaded.filter, cache;
    }

    /** What opening established. */
    ghost predicate Valid()
      reads cache
    {
      Within(index, |file|) && Bloom.Sized(filter) && (cache != null ==> cache.Valid())
    }

    function BlockBytes(i: nat): Blob
      requires Within(index, |file|) && i < |index|
    {
      file[index[i].offset..index[i].offset + index[i].size]
    }

    /** Cached blocks of this file are the bytes of the file. */
    ghost predicate Faithful()
      requires Within(index, |file|)
      reads cache
    {
      cache != null ==> forall i :: 0 <= i < |index| ==>
        ((number, index[i].offset) in cache.index ==> cache.index[(number, index[i].offset)] == BlockBytes(i))
    }

    /** The file was built from these entries and opened. */
    ghost predicate Holds(es: seq<Version>, gs: Groups) {
      Sorted(es) && Represents(hash, es, gs, filter) && Intact(crc, file, gs, filter) && index == IndexOf(crc, gs)
    }

    lemma BlockIs(es: seq<Version>, gs: Groups, i: nat)
      requires Holds(es, gs) && Within(index, |file|) && i < |gs|
      ensures BlockBytes(i) == EncodeBlock(crc, gs[i]) && BlockOf(Payload(gs[i]), gs[i]) && Sorted(gs[i])
    {
      hide Blocks, IndexOf, EncodeBlock, Payload, LastKey, BlockOf, Flatten, Sorted, IndexBlock, Bloom.Encode, Footer, Get64, Cuts, Knows;
      IndexInside(crc, gs, i);
      FileParts(crc, file, gs, filter);
      var data, e := Blocks(crc, gs), index[i];
      SubSlice(file, 0, |data|, e.offset, e.offset + e.size);
      assert file[0..|data|] == data;
      FlattenSplit(gs, i);
      SortedPart(Flatten(gs[..i]), gs[i], Flatten(gs[i + 1..]));
    }

    lemma Apart(es: seq<Version>, gs: Groups)
      requires Holds(es, gs)
      ensures DistinctOffsets(index)
    {
      hide Blocks, IndexOf, FileOf, BlockOf, Payload, LastKey;
      forall i, j | 0 <= i < j < |index| ensures index[i].offset != index[j].offset {
        OffsetsApart(crc, gs, i, j);
      }
    }

    /** ReadRawBlock: with or without a cache, the bytes of the block. */
    method ReadRaw(i: nat) returns (b: Blob)
      requires Valid() && i < |index|
      modifies cache
      ensures Valid()
      ensures DistinctOffsets(index) && old(Faithful()) ==> b == BlockBytes(i) && Faithful()
      ensures cache != null ==> forall k :: k in cache.index && k.0 != number ==>
                (k in old(cache.index) && cache.index[k] == old(cache.index)[k])
    {
      hide Distinct, Touch, Take, Without;
      var k := (number, index[i].offset);
      if cache != null {
        var hit := cache.Get(k);
        if hit.Some? {
          return hit.value;
        }
      }
      b := BlockBytes(i);
      if cache != null {
        cache.Put(k, b);
      }
    }

    /** Get: the first visible entry of the key, as in a scan of all entries. */
    method Get(key: Blob, r: nat, ghost es: seq<Version>, ghost gs: Groups) returns (found: Lookup)
      requires Valid() && IK.NulFree(key) && r <= IK.MAX_SEQUENCE
      modifies cache
      ensures Valid()
      ensures old(Faithful()) && Holds(es, gs) ==> found == AsLookup(Find(es, key, r)) && Faithful()
      ensures cache != null ==> forall k :: k in cache.index && k.0 != number ==>
                (k in old(cache.index) && cache.index[k] == old(cache.index)[k])
    {
      hide Find, Sorted, IK.Encode, Flatten, IndexOf, EncodeBlock, FileOf, Bound, BlockOf, Bloom.HasKey, Payload, LastKey, Cuts;
      ghost var good := Faithful() && Holds(es, gs);
      var may := Bloom.MayContain(hash, filter, key);
      if !may {
        if good {
          FilterMiss(hash, filter, es, key, r);
        }
        return NotFound;
      }
      var target := IK.Encode(key, r);
      var i := LowerBound(index, target);
      if good {
        BoundOf(crc, gs, i, key, r);
        OneGroup(gs, i, key, r);
        Apart(es, gs);
      }
      if i == |index| {
        return NotFound;
      }
      var b := ReadRaw(i);
      if good {
        BlockIs(es, gs, i);
      }
      found := GetFromBlock(crc, b, key, r, if good then gs[i] else []);
    }

    /** ReadBlock: the entries of one block. */
    method ReadBlock(i: nat, ghost es: seq<Version>, ghost gs: Groups) returns (block: Option<seq<Version>>)
      requires Valid() && i < |index|
      modifies cache
      ensures Valid()
      ensures old(Faithful()) && Holds(es, gs) ==> i < |gs| && block == Some(gs[i]) && Faithful()
    {
      hide Sorted, IndexOf, EncodeBlock, FileOf, BlockOf, Payload, LastKey, Cuts, Bloom.HasKey;
      ghost var good := Faithful() && Holds(es, gs);
      if good {
        Apart(es, gs);
        BlockIs(es, gs, i);
      }
      var b := ReadRaw(i);
      block := DecodeBlock(crc, b, if good then gs[i] else []);
    }

    /** Entries: every entry, in order. */
    method Entries(ghost es: seq<Version>, ghost gs: Groups) returns (all: Option<seq<Version>>)
      requires Valid()
      modifies cache
      ensures Valid()
      ensures old(Faithful()) && Holds(es, gs) ==> all == Some(es) && Faithful()
    {
      hide Sorted, IndexOf, Intact, Cuts, Knows;
      ghost var good := Faithful() && Holds(es, gs);
      var entries: seq<Version> := [];
      for i := 0 to |index|
        invariant Valid()
        invariant good ==> Faithful() && entries == Flatten(gs[..i])
      {
        if good {
          assert gs[..i + 1][..i] == gs[..i];
        }
        var block := ReadBlock(i, es, gs);
        if block.None? {
          return None;
        }
        entries := entries + block.value;
      }
      if good {
        assert gs[..|gs|] == gs;
      }
      all := Some(entries);
    }
  }

  /** Open: a built file is accepted, whatever cache is used. */
  method Open(crc: Checksum, hash: Bloom.Hash, number: nat, file: Blob, cache: BlockCache?,
              ghost gs: Groups, ghost f: Bloom.Filter)
    returns (t: Reader?)
    requires cache != null ==> cache.Valid()
    ensures t != null ==> t.Valid() && t.crc == crc && t.hash == hash && t.number == number && t.file == file && t.cache == cache
    ensures Intact(crc, file, gs, f) ==> t != null && t.index == IndexOf(crc, gs) && t.filter == f
  {
    hide IndexOf, Intact, Distinct;
    var loaded := Load(file, crc, gs, f);
    if loaded.None? {
      return null;
    }
    t := new Reader(crc, hash, number, file, loaded.value, cache);
  }

  /** The sizes of one block stay within their 32-bit fields. */
  ghost predicate GroupFits(g: seq<Version>) {
    g != [] && AllWellFormed(g) && |Payload(g)| < LIMIT && |LastKey(g)| < LIMIT
  }

  /** All sizes stay within their fields. */
  ghost predicate FieldsFit(file: Blob, gs: Groups) {
    |file| < LIMIT64 && |gs| < LIMIT64 && forall i :: 0 <= i < |gs| ==> GroupFits(gs[i])
  }

  lemma BuiltIntact(crc: Checksum, hash: Bloom.Hash, es: seq<Version>, gs: Groups, f: Bloom.Filter)
    requires Represents(hash, es, gs, f) && FieldsFit(FileOf(crc, gs, f), gs)
    ensures Intact(crc, FileOf(crc, gs, f), gs, f)
  {
    hide FileOf, Payload, LastKey, Knows, Cuts;
    assert forall i :: 0 <= i < |gs| ==> GroupFits(gs[i]);
  }

  /** Build, open, look up: the newest version of the key at or below the sequence, with any
      cache that holds nothing under the new file's number, or none. */
  method BuildOpenGet(crc: Checksum, hash: Bloom.Hash, es: seq<Version>, blockSize: nat, bitsPerKey: nat,
                      number: nat, cache: BlockCache?, key: Blob, r: nat)
    returns (file: Option<Blob>, found: Lookup, ghost gs: Groups)
    requires AllWellFormed(es) && Sorted(es) && Unique(Elems(es)) && IK.NulFree(key) && r <= IK.MAX_SEQUENCE
    requires cache != null ==> cache.Valid() && forall k :: k in cache.index ==> k.0 != number
    modifies cache
    ensures file.None? <==> BadFilter(es, bitsPerKey)
    ensures file.Some? && FieldsFit(file.value, gs) ==> found == AsLookup(Newest(Elems(es), key, r))
  {
    hide Sorted, Intact, IndexOf, FileOf, Find, Newest, Unique, AllWellFormed, FieldsFit, Knows, Cuts, BadFilter, Elems;
    found := NotFound;
    ghost var f;
    file, gs, f := Create(crc, hash, es, blockSize, bitsPerKey);
    if file.Some? {
      ghost var fits := FieldsFit(file.value, gs);
      if fits {
        BuiltIntact(crc, hash, es, gs, f);
      }
      var t := Open(crc, hash, number, file.value, cache, gs, f);
      if t != null {
        found := t.Get(key, r, es, gs);
      }
      FindIsNewest(es, key, r);
    }
  }
}
