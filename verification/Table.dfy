/**
 SSTable files: data blocks, an index of the last internal key of each block, a Bloom
 filter and a footer.  Opening a built file gives back its index and filter, and a
 lookup through filter, index, cache and block is a linear scan of the entries.
 */
module Table {
  import opened Bytes
  import opened Codec
  import opened Versions
  import opened Block
  import Bloom
  import IK = InternalKey

  const TABLE_MAGIC: nat := 0x4b565354424c4b33
  const FOOTER: nat := 40
  const LIMIT64: nat := 0x1_0000_0000_0000_0000

  type Groups = seq<seq<Version>>

  datatype IndexEntry = IndexEntry(lastKey: Blob, offset: nat, size: nat)

  /** Groups of entries, one per data block. */
  predicate GroupsOk(gs: Groups) {
    forall i :: 0 <= i < |gs| ==> gs[i] != [] && AllWellFormed(gs[i])
  }

  function Flatten(gs: Groups): seq<Version> {
    if gs == [] then [] else Flatten(gs[..|gs| - 1]) + gs[|gs| - 1]
  }

  function Blocks(crc: Checksum, gs: Groups): Blob {
    if gs == [] then [] else Blocks(crc, gs[..|gs| - 1]) + EncodeBlock(crc, gs[|gs| - 1])
  }

  function LastKey(g: seq<Version>): Blob
    requires g != [] && AllWellFormed(g)
  {
    IK.Encode(Last(g).key, Last(g).seqno)
  }

  function IndexOf(crc: Checksum, gs: Groups): (ix: seq<IndexEntry>)
    requires GroupsOk(gs)
    ensures |ix| == |gs|
  {
    if gs == [] then []
    else
      var init, g := gs[..|gs| - 1], gs[|gs| - 1];
      IndexOf(crc, init) + [IndexEntry(LastKey(g), |Blocks(crc, init)|, |EncodeBlock(crc, g)|)]
  }

  // -------------------------------------------------------------- the index block

  function Item(e: IndexEntry): Blob {
    Fixed(|e.lastKey|, 4) + e.lastKey + Fixed(e.offset, 8) + Fixed(e.size, 8)
  }

  function Items(ix: seq<IndexEntry>, n: nat): Blob
    requires n <= |ix|
  {
    if n == 0 then [] else Items(ix, n - 1) + Item(ix[n - 1])
  }

  function IndexBlock(ix: seq<IndexEntry>): Blob {
    Fixed(|ix|, 8) + Items(ix, |ix|)
  }

  predicate Fits(e: IndexEntry) {
    |e.lastKey| < LIMIT && e.offset < LIMIT64 && e.size < LIMIT64
  }

  /** One index entry at ptr, within data of the given size. */
  function ItemAt(b: Blob, ptr: nat, dataEnd: nat): (r: Option<(IndexEntry, nat)>)
    ensures r.Some? ==> ptr < r.value.1 <= |b| && r.value.0.offset + r.value.0.size <= dataEnd
  {
    if ptr > |b| || |b| - ptr < 4 then None
    else
      var size, at := Get32(b, ptr), ptr + 4;
      if |b| - at < size + 16 then None
      else
        var e := IndexEntry(b[at..at + size], Get64(b, at + size), Get64(b, at + size + 8));
        if e.offset > dataEnd || e.size > dataEnd - e.offset then None
        else Some((e, at + size + 16))
  }

  lemma ItemDecodes(p: Blob, e: IndexEntry, q: Blob, dataEnd: nat)
    requires Fits(e) && e.offset + e.size <= dataEnd
    ensures ItemAt(p + Item(e) + q, |p|, dataEnd) == Some((e, |p| + |Item(e)|))
  {
    hide Fixed, Get32, Get64;
    var a, b, c, d := Fixed(|e.lastKey|, 4), e.lastKey, Fixed(e.offset, 8), Fixed(e.size, 8);
    var f, n := p + Item(e) + q, |p|;
    Parts(p, Item(e), q, []);
    assert f == p + Item(e) + q + [];
    var m := |Item(e)|;
    assert f[n..n + m] == Item(e);
    Parts(a, b, c, d);
    assert Item(e)[0..4] == Item(e)[..4];
    assert Item(e)[m - 8..m] == Item(e)[m - 8..];
    SubSlice(f, n, n + m, 0, 4);
    SubSlice(f, n, n + m, 4, 4 + |b|);
    SubSlice(f, n, n + m, 4 + |b|, 12 + |b|);
    SubSlice(f, n, n + m, 12 + |b|, m);
    Slice32(f, n, |b|);
    Slice64(f, n + 4 + |b|, e.offset);
    Slice64(f, n + 12 + |b|, e.size);
  }

  lemma {:induction false} ItemsPrefix(ix: seq<IndexEntry>, i: nat, n: nat)
    requires i <= n <= |ix|
    ensures Items(ix, i) <= Items(ix, n)
  {
    hide Item;
    if i < n {
      ItemsPrefix(ix, i, n - 1);
    }
  }

  lemma ItemOf(ix: seq<IndexEntry>, i: nat, dataEnd: nat)
    requires i < |ix| && Fits(ix[i]) && ix[i].offset + ix[i].size <= dataEnd
    ensures ItemAt(IndexBlock(ix), 8 + |Items(ix, i)|, dataEnd) == Some((ix[i], 8 + |Items(ix, i + 1)|))
  {
    hide ItemAt, Item, Fixed;
    ItemsPrefix(ix, i + 1, |ix|);
    var all := Items(ix, |ix|);
    var q := all[|Items(ix, i + 1)|..];
    assert all == Items(ix, i + 1) + q;
    assert IndexBlock(ix) == (Fixed(|ix|, 8) + Items(ix, i)) + Item(ix[i]) + q;
    ItemDecodes(Fixed(|ix|, 8) + Items(ix, i), ix[i], q, dataEnd);
  }

  predicate Within(ix: seq<IndexEntry>, dataEnd: nat) {
    forall i :: 0 <= i < |ix| ==> ix[i].offset + ix[i].size <= dataEnd
  }

  ghost predicate IndexFits(ix: seq<IndexEntry>, dataEnd: nat) {
    |ix| < LIMIT64 && Within(ix, dataEnd) && forall i :: 0 <= i < |ix| ==> Fits(ix[i])
  }

  lemma IndexCount(ix: seq<IndexEntry>)
    requires |ix| < LIMIT64
    ensures |IndexBlock(ix)| >= 8 && Get64(IndexBlock(ix), 0) == |ix|
    ensures Items(ix, 0) == []
  {
    hide Get64;
    var b := IndexBlock(ix);
    assert b[0..8] == Fixed(|ix|, 8);
    Slice64(b, 0, |ix|);
  }

  /** LoadIndex, the index block. */
  method ReadIndex(b: Blob, dataEnd: nat, ghost ix: seq<IndexEntry>) returns (r: Option<seq<IndexEntry>>)
    ensures b == IndexBlock(ix) && IndexFits(ix, dataEnd) ==> r == Some(ix)
    ensures r.Some? ==> Within(r.value, dataEnd)
  {
    hide ItemAt, Items, Fixed, Get64, IndexBlock;
    ghost var good := b == IndexBlock(ix) && IndexFits(ix, dataEnd);
    if good {
      IndexCount(ix);
    }
    if |b| < 8 {
      return None;
    }
    var count, ptr, index := Get64(b, 0), 8, [];
    for i := 0 to count
      invariant good ==> count == |ix| && index == ix[..i] && ptr == 8 + |Items(ix, i)|
      invariant Within(index, dataEnd)
    {
      if good {
        ItemOf(ix, i, dataEnd);
      }
      var d := ItemAt(b, ptr, dataEnd);
      if d.None? {
        return None;
      }
      index, ptr := index + [d.value.0], d.value.1;
    }
    if good {
      assert ix[..|ix|] == ix;
      IndexSize(ix);
    }
    if ptr != |b| {
      return None;
    }
    r := Some(index);
  }

  lemma IndexSize(ix: seq<IndexEntry>)
    ensures |IndexBlock(ix)| == 8 + |Items(ix, |ix|)|
  {
  }

  // ------------------------------------------------------------------ whole files

  function Footer(io: nat, isz: nat, fo: nat, fsz: nat): (b: Blob)
    ensures |b| == FOOTER
  {
    Fixed(io, 8) + Fixed(isz, 8) + Fixed(fo, 8) + (Fixed(fsz, 8) + Fixed(TABLE_MAGIC, 8))
  }

  lemma FooterFields(io: nat, isz: nat, fo: nat, fsz: nat)
    requires io < LIMIT64 && isz < LIMIT64 && fo < LIMIT64 && fsz < LIMIT64
    ensures var b := Footer(io, isz, fo, fsz);
            Get64(b, 0) == io && Get64(b, 8) == isz && Get64(b, 16) == fo && Get64(b, 24) == fsz && Get64(b, 32) == TABLE_MAGIC
  {
    hide Fixed, Get64;
    var b := Footer(io, isz, fo, fsz);
    var t := Fixed(fsz, 8) + Fixed(TABLE_MAGIC, 8);
    Parts(Fixed(io, 8), Fixed(isz, 8), Fixed(fo, 8), t);
    assert b[0..8] == b[..8] && b[24..40] == b[24..];
    SubSlice(b, 24, 40, 0, 8);
    SubSlice(b, 24, 40, 8, 16);
    assert t[0..8] == Fixed(fsz, 8) && t[8..16] == Fixed(TABLE_MAGIC, 8);
    Slice64(b, 0, io);
    Slice64(b, 8, isz);
    Slice64(b, 16, fo);
    Slice64(b, 24, fsz);
    Slice64(b, 32, TABLE_MAGIC);
  }

  function FileOf(crc: Checksum, gs: Groups, f: Bloom.Filter): Blob
    requires GroupsOk(gs)
  {
    var data, ix, fb := Blocks(crc, gs), IndexBlock(IndexOf(crc, gs)), Bloom.Encode(f);
    data + ix + fb + Footer(|data|, |ix|, |data| + |ix|, |fb|)
  }

  predicate FilterOk(f: Bloom.Filter) {
    Bloom.Sized(f) && f.bitCount < Bloom.WRAP && 1 <= f.hashCount <= 30
  }

  /** The file is the encoding of these groups, and every size fits its field. */
  ghost predicate Intact(crc: Checksum, file: Blob, gs: Groups, f: Bloom.Filter) {
    && GroupsOk(gs) && FilterOk(f) && file == FileOf(crc, gs, f) && |file| < LIMIT64 && |gs| < LIMIT64
    && forall i :: 0 <= i < |gs| ==> BlockOf(Payload(gs[i]), gs[i]) && |LastKey(gs[i])| < LIMIT
  }

  lemma {:induction false} IndexInside(crc: Checksum, gs: Groups, i: nat)
    requires GroupsOk(gs) && i < |gs|
    ensures var e := IndexOf(crc, gs)[i];
            && e == IndexEntry(LastKey(gs[i]), |Blocks(crc, gs[..i])|, |EncodeBlock(crc, gs[i])|)
            && e.size > 0 && e.offset + e.size <= |Blocks(crc, gs)|
            && Blocks(crc, gs)[e.offset..e.offset + e.size] == EncodeBlock(crc, gs[i])
  {
    hide EncodeBlock, LastKey, AllWellFormed;
    var init, g := gs[..|gs| - 1], gs[|gs| - 1];
    if i < |init| {
      IndexInside(crc, init, i);
      assert init[..i] == gs[..i];
      var e := IndexOf(crc, init)[i];
      assert Blocks(crc, gs)[e.offset..e.offset + e.size] == Blocks(crc, init)[e.offset..e.offset + e.size];
    } else {
      assert gs[..i] == init;
      BlockSize(crc, g);
    }
  }

  lemma BlockSize(crc: Checksum, g: seq<Version>)
    ensures |EncodeBlock(crc, g)| > 0
  {
  }

  /** Two entries of the index never share an offset. */
  lemma {:induction false} OffsetsApart(crc: Checksum, gs: Groups, i: nat, j: nat)
    requires GroupsOk(gs) && i < j < |gs|
    ensures var ix := IndexOf(crc, gs); ix[i].offset < ix[j].offset
  {
    hide EncodeBlock, LastKey, AllWellFormed;
    IndexInside(crc, gs, i);
    IndexInside(crc, gs, j);
    var pre := gs[..j];
    assert GroupsOk(pre);
    IndexInside(crc, pre, i);
    assert pre[..i] == gs[..i] && pre[i] == gs[i];
  }

  lemma IndexOfFits(crc: Checksum, file: Blob, gs: Groups, f: Bloom.Filter)
    requires Intact(crc, file, gs, f)
    ensures IndexFits(IndexOf(crc, gs), |Blocks(crc, gs)|)
  {
    hide EncodeBlock, LastKey, AllWellFormed, IndexOf, Payload, BlockOf, IndexBlock, Footer, Bloom.Encode;
    var ix := IndexOf(crc, gs);
    forall i | 0 <= i < |ix| ensures ix[i].offset + ix[i].size <= |Blocks(crc, gs)| && Fits(ix[i]) {
      IndexInside(crc, gs, i);
    }
  }

  datatype Loaded = Loaded(index: seq<IndexEntry>, filter: Bloom.Filter)

  lemma FileParts(crc: Checksum, file: Blob, gs: Groups, f: Bloom.Filter)
    requires Intact(crc, file, gs, f)
    ensures var d, ix, fb := Blocks(crc, gs), IndexBlock(IndexOf(crc, gs)), Bloom.Encode(f);
            && |file| == |d| + |ix| + |fb| + FOOTER
            && file[..|d|] == d && file[|d|..|d| + |ix|] == ix && file[|d| + |ix|..|file| - FOOTER] == fb
            && Get64(file[|file| - FOOTER..], 0) == |d| && Get64(file[|file| - FOOTER..], 8) == |ix|
            && Get64(file[|file| - FOOTER..], 16) == |d| + |ix| && Get64(file[|file| - FOOTER..], 24) == |fb|
            && Get64(file[|file| - FOOTER..], 32) == TABLE_MAGIC
  {
    hide Blocks, IndexOf, IndexBlock, Bloom.Encode, Footer, Get64, BlockOf, Payload, LastKey;
    var d, ix, fb := Blocks(crc, gs), IndexBlock(IndexOf(crc, gs)), Bloom.Encode(f);
    var foot := Footer(|d|, |ix|, |d| + |ix|, |fb|);
    Parts(d, ix, fb, foot);
    FooterFields(|d|, |ix|, |d| + |ix|, |fb|);
    assert file[|file| - FOOTER..] == foot;
  }

  /** LoadIndex: a built file is accepted, and its index and filter come back. */
  method Load(file: Blob, ghost crc: Checksum, ghost gs: Groups, ghost f: Bloom.Filter) returns (r: Option<Loaded>)
    ensures Intact(crc, file, gs, f) ==> r == Some(Loaded(IndexOf(crc, gs), f))
    ensures r.Some? ==> Within(r.value.index, |file|) && Bloom.Sized(r.value.filter)
  {
    hide Blocks, IndexOf, IndexBlock, IndexFits, Bloom.Encode, Bloom.Decode, FileOf, Get64, BlockOf, Payload, LastKey;
    ghost var good := Intact(crc, file, gs, f);
    if good {
      FileParts(crc, file, gs, f);
      IndexOfFits(crc, file, gs, f);
      Bloom.DecodeEncode(f);
    }
    if |file| < FOOTER {
      return None;
    }
    var dataEnd := |file| - FOOTER;
    var footer := file[dataEnd..];
    var io, isz, fo, fsz := Get64(footer, 0), Get64(footer, 8), Get64(footer, 16), Get64(footer, 24);
    if Get64(footer, 32) != TABLE_MAGIC {
      return None;
    }
    if io > fo || isz != fo - io || fo > dataEnd || fsz != dataEnd - fo {
      return None;
    }
    var index := ReadIndex(file[io..fo], io, if good then IndexOf(crc, gs) else []);
    if index.None? {
      return None;
    }
    var filter := Bloom.Decode(file[fo..dataEnd]);
    if filter.None? {
      return None;
    }
    FilterSized(file[fo..dataEnd]);
    r := Some(Loaded(index.value, filter.value));
  }

  lemma FilterSized(b: Blob)
    ensures Bloom.Decode(b).Some? ==> Bloom.Sized(Bloom.Decode(b).value)
  {
  }
}
