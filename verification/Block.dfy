/**
 SSTable data blocks: prefix-compressed records with a restart every 16 entries, an
 array of restart offsets, and a lookup that binary-searches the restarts and then
 scans.  Decoding a block gives back its entries; looking up in its bytes is a linear
 scan of its entries.
 */
module Block {
  import opened Bytes
  import opened Codec
  import opened Versions
  import IK = InternalKey

  const MAGIC: nat := 0x344b4c42
  const INTERVAL: nat := 16
  const RECORD: nat := 21
  const LIMIT: nat := 0x1_0000_0000

  predicate WellFormed(e: Version) {
    && IK.NulFree(e.key) && e.seqno <= IK.MAX_SEQUENCE
    && |e.key| < LIMIT && |e.value| < LIMIT && (e.deleted ==> e.value == [])
  }

  predicate AllWellFormed(es: seq<Version>) {
    forall i :: 0 <= i < |es| ==> WellFormed(es[i])
  }

  /** Key ascending, sequence descending; the same entry may appear twice. */
  ghost predicate Sorted(es: seq<Version>) {
    forall i, j :: 0 <= i < j < |es| ==> es[i] == es[j] || IK.Before(es[i].key, es[i].seqno, es[j].key, es[j].seqno)
  }

  // ------------------------------------------------------------------ the encoding

  function Shared(a: Blob, b: Blob): (n: nat)
    ensures n <= |a| && n <= |b| && a[..n] == b[..n]
  {
    if a == [] || b == [] || a[0] != b[0] then 0
    else
      var n := 1 + Shared(a[1..], b[1..]);
      assert a[..n] == [a[0]] + a[1..][..n - 1] && b[..n] == [b[0]] + b[1..][..n - 1];
      n
  }

  function SharedAt(es: seq<Version>, i: nat): nat
    requires i < |es|
  {
    if i % INTERVAL == 0 then 0 else Shared(es[i - 1].key, es[i].key)
  }

  function TypeByte(e: Version): Byte {
    if e.deleted then 2 else 1
  }

  function RecHead(shared: nat, e: Version): Blob
    requires shared <= |e.key|
  {
    Fixed(shared, 4) + Fixed(|e.key| - shared, 4) + Fixed(|e.value|, 4) + ([TypeByte(e)] + Fixed(e.seqno, 8))
  }

  function RecBytes(shared: nat, e: Version): Blob
    requires shared <= |e.key|
  {
    RecHead(shared, e) + e.key[shared..] + e.value
  }

  /** The records of the first n entries. */
  function Recs(es: seq<Version>, n: nat): Blob
    requires n <= |es|
  {
    if n == 0 then [] else Recs(es, n - 1) + RecBytes(SharedAt(es, n - 1), es[n - 1])
  }

  function RestartCount(n: nat): nat {
    n / INTERVAL + if n % INTERVAL != 0 then 1 else 0
  }

  /** Offset of restart j in the payload. */
  function Offset(es: seq<Version>, j: nat): nat
    requires INTERVAL * j <= |es|
  {
    16 + |Recs(es, INTERVAL * j)|
  }

  function Offsets(es: seq<Version>, r: nat): Blob
    requires r <= RestartCount(|es|)
  {
    if r == 0 then [] else Offsets(es, r - 1) + Fixed(Offset(es, r - 1), 4)
  }

  function Header(n: nat): (b: Blob)
    ensures |b| == 16
  {
    Fixed(MAGIC, 4) + Fixed(INTERVAL, 4) + Fixed(n, 8)
  }

  function Payload(es: seq<Version>): Blob {
    var r := RestartCount(|es|);
    Header(|es|) + Recs(es, |es|) + Offsets(es, r) + Fixed(r, 4)
  }

  // ------------------------------------------------------------------- one record

  /** DecodePrefixRecordAt: the record at ptr and the position behind it. */
  function DecodeAt(recs: Blob, ptr: nat, prev: Blob): (r: Option<(Version, nat)>)
    ensures r.Some? ==> ptr < r.value.1 <= |recs|
  {
    if ptr > |recs| || |recs| - ptr < RECORD then None
    else
      var shared, unshared, size := Get32(recs, ptr), Get32(recs, ptr + 4), Get32(recs, ptr + 8);
      var kind, seqno, at := recs[ptr + 12], Get64(recs, ptr + 13), ptr + RECORD;
      if shared > |prev| || |recs| - at < unshared + size then None
      else
        var key := prev[..shared] + recs[at..at + unshared];
        var value := recs[at + unshared..at + unshared + size];
        if kind == 1 then Some((Version(key, seqno, value, false), at + unshared + size))
        else if kind == 2 then Some((Version(key, seqno, [], true), at + unshared + size))
        else None
  }

  lemma HeadFields(shared: nat, e: Version)
    requires shared <= |e.key|
    ensures var h := RecHead(shared, e);
            && |h| == RECORD && h[0..4] == Fixed(shared, 4) && h[4..8] == Fixed(|e.key| - shared, 4)
            && h[8..12] == Fixed(|e.value|, 4) && h[12] == TypeByte(e) && h[13..21] == Fixed(e.seqno, 8)
  {
    hide Fixed;
    var h, t := RecHead(shared, e), [TypeByte(e)] + Fixed(e.seqno, 8);
    Parts(Fixed(shared, 4), Fixed(|e.key| - shared, 4), Fixed(|e.value|, 4), t);
    assert h[0..4] == h[..4] && h[12..] == t;
    assert h[12] == h[12..][0];
    assert h[13..21] == h[12..][1..];
  }

  lemma DecodeRec(p: Blob, shared: nat, e: Version, q: Blob, prev: Blob)
    requires WellFormed(e) && shared <= |e.key| && shared <= |prev| && prev[..shared] == e.key[..shared]
    ensures DecodeAt(p + RecBytes(shared, e) + q, |p|, prev) == Some((e, |p| + |RecBytes(shared, e)|))
  {
    hide Fixed, Get32, Get64, RecHead;
    var h, u, n := RecHead(shared, e), e.key[shared..], |p|;
    var f := p + RecBytes(shared, e) + q;
    HeadFields(shared, e);
    assert f == p + h + (u + e.value) + q;
    Parts(p, h, u + e.value, q);
    assert f[n..n + RECORD] == h;
    SubSlice(f, n, n + RECORD, 0, 4);
    SubSlice(f, n, n + RECORD, 4, 8);
    SubSlice(f, n, n + RECORD, 8, 12);
    SubSlice(f, n, n + RECORD, 13, 21);
    assert f[n + 12] == f[n..n + RECORD][12];
    Slice32(f, n, shared);
    Slice32(f, n + 4, |u|);
    Slice32(f, n + 8, |e.value|);
    Slice64(f, n + 13, e.seqno);
    assert f == (p + h) + u + e.value + q;
    Parts(p + h, u, e.value, q);
    assert e.key == e.key[..shared] + u;
  }

  lemma {:induction false} RecsPrefix(es: seq<Version>, i: nat, n: nat)
    requires i <= n <= |es|
    ensures Recs(es, i) <= Recs(es, n)
  {
    hide RecBytes;
    if i < n {
      RecsPrefix(es, i, n - 1);
    }
  }

  /** The record of entry i decodes to entry i, after its predecessor's key or, at a
      restart, after any key. */
  lemma DecodeIndex(es: seq<Version>, i: nat, prev: Blob)
    requires AllWellFormed(es) && i < |es| && (i % INTERVAL == 0 || prev == es[i - 1].key)
    ensures DecodeAt(Recs(es, |es|), |Recs(es, i)|, prev) == Some((es[i], |Recs(es, i + 1)|))
  {
    hide DecodeAt, RecBytes;
    var all, s := Recs(es, |es|), SharedAt(es, i);
    RecsPrefix(es, i + 1, |es|);
    var q := all[|Recs(es, i + 1)|..];
    assert all == Recs(es, i + 1) + q;
    assert all == Recs(es, i) + RecBytes(s, es[i]) + q;
    DecodeRec(Recs(es, i), s, es[i], q, prev);
  }

  lemma {:induction false} RecsSize(es: seq<Version>, i: nat, n: nat)
    requires i <= n <= |es|
    ensures |Recs(es, n)| >= |Recs(es, i)| + RECORD * (n - i)
  {
    hide Fixed, Shared;
    if i < n {
      RecsSize(es, i, n - 1);
      HeadFields(SharedAt(es, n - 1), es[n - 1]);
    }
  }

  // -------------------------------------------------------------------- restarts

  lemma {:induction false} OffsetsAt(es: seq<Version>, r: nat, j: nat)
    requires r <= RestartCount(|es|) && j < r && 16 + |Recs(es, |es|)| < LIMIT
    ensures |Offsets(es, r)| == 4 * r && Get32(Offsets(es, r), 4 * j) == Offset(es, j)
  {
    hide Fixed, Get32, Recs;
    var init, last := Offsets(es, r - 1), Fixed(Offset(es, r - 1), 4);
    OffsetsSize(es, r - 1);
    if j == r - 1 {
      assert Offsets(es, r)[4 * j..4 * j + 4] == last;
      RecsPrefix(es, INTERVAL * j, |es|);
      Slice32(Offsets(es, r), 4 * j, Offset(es, j));
    } else {
      OffsetsAt(es, r - 1, j);
      SameSlice32(init, last, 4 * j);
    }
  }

  lemma {:induction false} OffsetsSize(es: seq<Version>, r: nat)
    requires r <= RestartCount(|es|)
    ensures |Offsets(es, r)| == 4 * r
  {
    hide Recs;
    if r > 0 {
      OffsetsSize(es, r - 1);
    }
  }

  lemma SameSlice32(a: Blob, b: Blob, at: nat)
    requires at + 4 <= |a|
    ensures Get32(a + b, at) == Get32(a, at)
  {
    assert (a + b)[at..at + 4] == a[at..at + 4];
  }

  datatype Layout = Layout(recs: Blob, restarts: Blob, restartCount: nat, recordCount: nat)

  /** The bytes are the payload of these entries, and small enough for their offsets. */
  ghost predicate BlockOf(p: Blob, es: seq<Version>) {
    es != [] && AllWellFormed(es) && p == Payload(es) && |p| < LIMIT
  }

  function LayoutOf(es: seq<Version>): Layout {
    Layout(Recs(es, |es|), Offsets(es, RestartCount(|es|)), RestartCount(|es|), |es|)
  }

  lemma PayloadParts(p: Blob, es: seq<Version>)
    requires BlockOf(p, es)
    ensures var l := LayoutOf(es);
            && |p| == 20 + |l.recs| + |l.restarts| && |l.restarts| == 4 * l.restartCount && l.restartCount >= 1
            && Get32(p, 0) == MAGIC && Get32(p, 4) == INTERVAL && Get64(p, 8) == |es| && Get32(p, |p| - 4) == l.restartCount
            && p[16..16 + |l.recs|] == l.recs && p[16 + |l.recs|..|p| - 4] == l.restarts
            && RECORD * |es| <= |l.recs|
  {
    hide Fixed, Get32, Get64, Recs, Offsets, AllWellFormed;
    var l, h := LayoutOf(es), Header(|es|);
    OffsetsSize(es, l.restartCount);
    RecsSize(es, 0, |es|);
    EmptyRecs(es);
    Parts(h, l.recs, l.restarts, Fixed(l.restartCount, 4));
    Parts(Fixed(MAGIC, 4), Fixed(INTERVAL, 4), Fixed(|es|, 8), []);
    assert h == Fixed(MAGIC, 4) + Fixed(INTERVAL, 4) + Fixed(|es|, 8) + [];
    assert p[..16] == h;
    HeaderSlices(p, h);
    assert p[|p| - 4..|p| - 4 + 4] == p[|p| - 4..];
    Slice32(p, 0, MAGIC);
    Slice32(p, 4, INTERVAL);
    Slice64(p, 8, |es|);
    Slice32(p, |p| - 4, l.restartCount);
  }

  lemma EmptyRecs(es: seq<Version>)
    ensures Recs(es, 0) == []
  {
  }

  lemma HeaderSlices(p: Blob, h: Blob)
    requires |h| == 16 && |p| >= 16 && p[..16] == h
    ensures p[0..4] == h[..4] && p[4..8] == h[4..8] && p[8..16] == h[8..16] && h[8..16] == h[8..]
  {
    SubSlice(p, 0, 16, 0, 4);
    SubSlice(p, 0, 16, 4, 8);
    SubSlice(p, 0, 16, 8, 16);
    assert p[0..16] == h;
  }

  lemma RestartBelow(n: nat, j: nat)
    requires j < RestartCount(n)
    ensures INTERVAL * j < n
  {
  }

  /** Restart j starts with a zero prefix length. */
  lemma RestartShared(es: seq<Version>, j: nat)
    requires AllWellFormed(es) && j < RestartCount(|es|)
    ensures INTERVAL * j < |es| && |Recs(es, INTERVAL * j)| + RECORD <= |Recs(es, |es|)|
    ensures Get32(Recs(es, |es|), |Recs(es, INTERVAL * j)|) == 0
  {
    hide Get32, RecBytes;
    RestartBelow(|es|, j);
    var i := INTERVAL * j;
    var all, p := Recs(es, |es|), Recs(es, i);
    RecsPrefix(es, i + 1, |es|);
    var q := all[|Recs(es, i + 1)|..];
    assert all == Recs(es, i + 1) + q;
    assert all == p + RecBytes(0, es[i]) + q;
    FirstField(p, 0, es[i], q);
  }

  lemma FirstField(p: Blob, shared: nat, e: Version, q: Blob)
    requires shared <= |e.key| && shared < LIMIT
    ensures |RecBytes(shared, e)| >= RECORD && Get32(p + RecBytes(shared, e) + q, |p|) == shared
  {
    hide Fixed, Get32, RecHead;
    HeadFields(shared, e);
    var h, f := RecHead(shared, e), p + RecBytes(shared, e) + q;
    assert f == p + h + (e.key[shared..] + e.value) + q;
    Parts(p, h, e.key[shared..] + e.value, q);
    SubSlice(f, |p|, |p| + RECORD, 0, 4);
    Slice32(f, |p|, shared);
  }

  /** ParsePrefixBlockLayout: accepts every encoded block and finds its parts. */
  method ParseLayout(p: Blob, ghost es: seq<Version>) returns (r: Option<Layout>)
    ensures BlockOf(p, es) ==> r == Some(LayoutOf(es))
    ensures r.Some? ==> |r.value.restarts| == 4 * r.value.restartCount && r.value.restartCount >= 1
    ensures r.Some? ==> forall j :: 0 <= j < r.value.restartCount ==>
              16 <= Get32(r.value.restarts, 4 * j) <= 16 + |r.value.recs|
  {
    hide Payload, Recs, Offsets, Get32, Get64, AllWellFormed;
    if BlockOf(p, es) {
      PayloadParts(p, es);
    }
    if |p| < 20 || Get32(p, 0) != MAGIC {
      return None;
    }
    var interval, count, restarts := Get32(p, 4), Get64(p, 8), Get32(p, |p| - 4);
    if interval == 0 || count == 0 {
      return None;
    }
    var expected := count / interval + if count % interval != 0 then 1 else 0;
    if restarts == 0 || restarts != expected || |p| < 16 + restarts * 4 + 4 {
      return None;
    }
    var end := |p| - (restarts * 4 + 4);
    var recs, area := p[16..end], p[end..|p| - 4];
    if count > |recs| / RECORD {
      return None;
    }
    var previous := 0;
    for j := 0 to restarts
      invariant forall k :: 0 <= k < j ==> 16 <= Get32(area, 4 * k) <= 16 + |recs|
      invariant j > 0 ==> previous == Get32(area, 4 * (j - 1))
    {
      var offset := Get32(area, 4 * j);
      if BlockOf(p, es) {
        RestartGood(p, es, j);
      }
      if offset < 16 || offset - 16 > |recs| - RECORD || (j == 0 && offset != 16) || (j > 0 && offset <= previous)
         || Get32(recs, offset - 16) != 0 {
        return None;
      }
      previous := offset;
    }
    r := Some(Layout(recs, area, restarts, count));
  }

  lemma RestartGood(p: Blob, es: seq<Version>, j: nat)
    requires BlockOf(p, es) && j < RestartCount(|es|)
    ensures var l := LayoutOf(es);
            && |l.restarts| == 4 * l.restartCount && RECORD <= |l.recs|
            && Get32(l.restarts, 4 * j) == Offset(es, j) >= 16
            && Offset(es, j) - 16 <= |l.recs| - RECORD && Get32(l.recs, Offset(es, j) - 16) == 0
            && (j == 0 ==> Offset(es, j) == 16) && (j > 0 ==> Offset(es, j) > Get32(l.restarts, 4 * (j - 1)))
  {
    hide Payload, Recs, Offsets, Get32, Get64, AllWellFormed;
    PayloadParts(p, es);
    EmptyRecs(es);
    OffsetsAt(es, RestartCount(|es|), j);
    RestartShared(es, j);
    if j > 0 {
      OffsetsAt(es, RestartCount(|es|), j - 1);
      RestartBelow(|es|, j);
      RecsSize(es, INTERVAL * (j - 1), INTERVAL * j);
    }
  }

  /** Decode every record in turn. */
  method DecodeEntries(l: Layout, ghost es: seq<Version>) returns (r: Option<seq<Version>>)
    ensures AllWellFormed(es) && l == LayoutOf(es) ==> r == Some(es)
  {
    hide DecodeAt, Recs, Offsets;
    var entries: seq<Version> := [];
    var ptr, prev := 0, [];
    EmptyRecs(es);
    for i := 0 to l.recordCount
      invariant AllWellFormed(es) && l == LayoutOf(es) ==>
                  entries == es[..i] && ptr == |Recs(es, i)| && (i > 0 ==> prev == es[i - 1].key)
    {
      if AllWellFormed(es) && l == LayoutOf(es) {
        DecodeIndex(es, i, prev);
      }
      var d := DecodeAt(l.recs, ptr, prev);
      if d.None? {
        return None;
      }
      entries := entries + [d.value.0];
      prev, ptr := d.value.0.key, d.value.1;
    }
    assert es[..|es|] == es;
    if ptr != |l.recs| {
      return None;
    }
    r := Some(entries);
  }

  // ----------------------------------------------------------------------- lookup

  /** What a lookup means: the first entry of the key at or below the sequence. */
  function Find(es: seq<Version>, key: Blob, r: nat): Option<Version> {
    if es == [] then None
    else if Visible(es[0], key, r) then Some(es[0])
    else Find(es[1..], key, r)
  }

  /** The scan stops at the first greater key. */
  function ScanFrom(es: seq<Version>, i: nat, key: Blob, r: nat): Option<Version>
    requires i <= |es|
    decreases |es| - i
  {
    if i == |es| then None
    else if Visible(es[i], key, r) then Some(es[i])
    else if Less(key, es[i].key) then None
    else ScanFrom(es, i + 1, key, r)
  }

  lemma {:induction false} NothingBehind(es: seq<Version>, key: Blob, r: nat)
    requires forall i :: 0 <= i < |es| ==> es[i].key != key
    ensures Find(es, key, r).None?
  {
    if es != [] {
      NothingBehind(es[1..], key, r);
    }
  }

  lemma {:induction false} ScanFinds(es: seq<Version>, i: nat, key: Blob, r: nat)
    requires Sorted(es) && i <= |es|
    ensures ScanFrom(es, i, key, r) == Find(es[i..], key, r)
    decreases |es| - i
  {
    if i < |es| {
      assert es[i..][0] == es[i] && es[i..][1..] == es[i + 1..];
      if Visible(es[i], key, r) {
      } else if Less(key, es[i].key) {
        var rest := es[i + 1..];
        forall j | 0 <= j < |rest| ensures rest[j].key != key {
          assert rest[j] == es[i + 1 + j];
          Order(key, es[i].key, rest[j].key);
          Order(es[i].key, key, key);
        }
        NothingBehind(rest, key, r);
      } else {
        ScanFinds(es, i + 1, key, r);
      }
    }
  }

  /** Starting at a restart that is not after the target misses nothing. */
  lemma {:induction false} StartAt(es: seq<Version>, i: nat, key: Blob, r: nat)
    requires Sorted(es) && i < |es| && !IK.Before(key, r, es[i].key, es[i].seqno)
    ensures Find(es, key, r) == Find(es[i..], key, r)
    decreases i
  {
    if i > 0 {
      var tail := es[1..];
      assert Sorted(tail);
      assert tail[i - 1] == es[i] && tail[i - 1..] == es[i..];
      StartAt(tail, i - 1, key, r);
      if Visible(es[0], key, r) {
        Order(es[0].key, es[i].key, es[0].key);
        assert es[0] == es[i];
        assert Find(es[i..], key, r) == Some(es[i]);
      }
    }
  }

  function Elems(es: seq<Version>): set<Version> {
    set i | 0 <= i < |es| :: es[i]
  }

  /** On sorted entries the first visible one is the newest. */
  lemma {:induction false} FindIsNewest(es: seq<Version>, key: Blob, r: nat)
    requires Sorted(es) && Unique(Elems(es))
    ensures Find(es, key, r) == Newest(Elems(es), key, r)
  {
    if es == [] {
      NewestMeaning(Elems(es), key, r);
      assert Elems(es) == {};
    } else {
      var tail := es[1..];
      assert Elems(es) == {es[0]} + Elems(tail) by {
        assert forall i :: 0 <= i < |tail| ==> tail[i] == es[i + 1];
        assert forall i :: 1 <= i < |es| ==> es[i] == tail[i - 1];
      }
      if Visible(es[0], key, r) {
        forall w | w in Elems(es) && Visible(w, key, r) ensures w.seqno <= es[0].seqno {
          var i :| 0 <= i < |es| && es[i] == w;
          LessIrreflexive(key);
        }
        assert IsNewest(Elems(es), key, r, es[0]);
        NewestIs(Elems(es), key, r, es[0]);
      } else {
        assert Sorted(tail);
        assert Unique(Elems(tail));
        FindIsNewest(tail, key, r);
        assert Elems(es) == Elems(tail) + {es[0]};
        NewestAddInvisible(Elems(tail), {es[0]}, key, r);
      }
    }
  }

  function Last(g: seq<Version>): Version
    requires g != []
  {
    g[|g| - 1]
  }

  lemma {:induction false} FindConcat(a: seq<Version>, b: seq<Version>, key: Blob, r: nat)
    ensures Find(a + b, key, r) == if Find(a, key, r).Some? then Find(a, key, r) else Find(b, key, r)
  {
    if a == [] {
      assert a + b == b;
    } else {
      assert (a + b)[1..] == a[1..] + b;
      FindConcat(a[1..], b, key, r);
    }
  }

  lemma {:induction false} FindNone(es: seq<Version>, key: Blob, r: nat)
    requires forall i :: 0 <= i < |es| ==> !Visible(es[i], key, r)
    ensures Find(es, key, r).None?
  {
    if es != [] {
      FindNone(es[1..], key, r);
    }
  }

  lemma {:induction false} FindHits(es: seq<Version>, i: nat, key: Blob, r: nat)
    requires i < |es| && Visible(es[i], key, r)
    ensures Find(es, key, r).Some?
  {
    if i > 0 {
      FindHits(es[1..], i - 1, key, r);
    }
  }

  /** Entries whose last one is before the target hold nothing visible. */
  lemma AllBefore(es: seq<Version>, key: Blob, r: nat)
    requires Sorted(es) && es != [] && IK.Before(Last(es).key, Last(es).seqno, key, r)
    ensures Find(es, key, r).None?
  {
    hide Find;
    forall i | 0 <= i < |es| ensures !Visible(es[i], key, r) {
      Order(es[i].key, Last(es).key, key);
      LessIrreflexive(key);
      assert es[i] == Last(es) || IK.Before(es[i].key, es[i].seqno, Last(es).key, Last(es).seqno);
    }
    FindNone(es, key, r);
  }

  /** Behind an entry that is at or after the target and not visible, nothing is visible. */
  lemma AllAfter(z: Version, es: seq<Version>, key: Blob, r: nat)
    requires Sorted([z] + es) && !IK.Before(z.key, z.seqno, key, r) && !Visible(z, key, r)
    ensures Find(es, key, r).None?
  {
    hide Find;
    var all := [z] + es;
    assert Less(key, z.key) by {
      Order(z.key, key, z.key);
    }
    forall i | 0 <= i < |es| ensures !Visible(es[i], key, r) {
      assert all[i + 1] == es[i] && all[0] == z;
      Order(key, z.key, es[i].key);
      LessIrreflexive(key);
    }
    FindNone(es, key, r);
  }

  lemma SortedSplit(a: seq<Version>, b: seq<Version>)
    requires Sorted(a + b)
    ensures Sorted(a) && Sorted(b)
  {
    assert forall i :: 0 <= i < |a| ==> a[i] == (a + b)[i];
    assert forall i :: 0 <= i < |b| ==> b[i] == (a + b)[|a| + i];
  }

  lemma SortedPart(a: seq<Version>, b: seq<Version>, c: seq<Version>)
    requires Sorted(a + b + c)
    ensures Sorted(a + b) && Sorted(b + c) && Sorted(b)
  {
    var all := a + b + c;
    assert forall i :: 0 <= i < |a + b| ==> (a + b)[i] == all[i];
    assert forall i :: 0 <= i < |b + c| ==> (b + c)[i] == all[|a| + i];
    assert forall i :: 0 <= i < |b| ==> b[i] == all[|a| + i];
  }

  lemma FindOne(z: Version, key: Blob, r: nat)
    ensures Find([z], key, r) == if Visible(z, key, r) then Some(z) else None
  {
  }

  lemma FindHeadNone(es: seq<Version>, n: nat, key: Blob, r: nat)
    requires Sorted(es) && n <= |es| && (n > 0 ==> IK.Before(es[n - 1].key, es[n - 1].seqno, key, r))
    ensures Find(es, key, r) == Find(es[n..], key, r)
  {
    hide Find, Sorted, IK.Before;
    var a, b := es[..n], es[n..];
    assert es == a + b;
    FindConcat(a, b, key, r);
    if n == 0 {
      FindNone(a, key, r);
    } else {
      SortedSplit(a, b);
      AllBefore(a, key, r);
    }
  }

  lemma FindFirst(z: Version, c: seq<Version>, key: Blob, r: nat)
    requires Sorted([z] + c) && !IK.Before(z.key, z.seqno, key, r)
    ensures Find([z] + c, key, r) == if Visible(z, key, r) then Some(z) else None
  {
    hide Find, Sorted, IK.Before;
    FindConcat([z], c, key, r);
    FindOne(z, key, r);
    if !Visible(z, key, r) {
      AllAfter(z, c, key, r);
    }
  }

  /** The first entry not before (key, r) decides a lookup. */
  lemma FindSplit(es: seq<Version>, n: nat, key: Blob, r: nat)
    requires Sorted(es) && n <= |es| && (n > 0 ==> IK.Before(es[n - 1].key, es[n - 1].seqno, key, r))
    requires n < |es| ==> !IK.Before(es[n].key, es[n].seqno, key, r)
    ensures Find(es, key, r) == if n < |es| && Visible(es[n], key, r) then Some(es[n]) else None
  {
    hide Find, Sorted, IK.Before;
    FindHeadNone(es, n, key, r);
    if n == |es| {
      FindNone(es[n..], key, r);
    } else {
      var z, c := es[n], es[n + 1..];
      assert es[n..] == [z] + c;
      assert es == es[..n] + es[n..];
      SortedSplit(es[..n], es[n..]);
      FindFirst(z, c, key, r);
    }
  }

  /** Internal key of the restart: RestartKey. */
  method RestartKey(l: Layout, j: nat, ghost es: seq<Version>) returns (r: Option<Blob>)
    requires j < l.restartCount && |l.restarts| == 4 * l.restartCount && 16 <= Get32(l.restarts, 4 * j)
    ensures AllWellFormed(es) && l == LayoutOf(es) && 16 + |l.recs| < LIMIT ==>
              INTERVAL * j < |es| && r == Some(IK.Encode(es[INTERVAL * j].key, es[INTERVAL * j].seqno))
  {
    hide DecodeAt, Recs, Offsets, Get32;
    if AllWellFormed(es) && l == LayoutOf(es) && 16 + |l.recs| < LIMIT {
      OffsetsAt(es, l.restartCount, j);
      RestartBelow(|es|, j);
      DecodeIndex(es, INTERVAL * j, []);
    }
    var d := DecodeAt(l.recs, Get32(l.restarts, 4 * j) - 16, []);
    if d.None? {
      return None;
    }
    SeqBound(l.recs, Get32(l.restarts, 4 * j) - 16, []);
    r := Some(IK.Encode(d.value.0.key, d.value.0.seqno));
  }

  lemma SeqBound(recs: Blob, ptr: nat, prev: Blob)
    ensures DecodeAt(recs, ptr, prev).Some? ==> DecodeAt(recs, ptr, prev).value.0.seqno <= IK.MAX_SEQUENCE
  {
  }

  datatype Lookup = Found(entry: Version) | NotFound | Corrupt

  function AsLookup(o: Option<Version>): Lookup {
    match o
    case None => NotFound
    case Some(e) => Found(e)
  }

  /** restart_key <= target, as positions in (key, sequence) order. */
  lemma RestartOrder(e: Version, key: Blob, r: nat)
    requires WellFormed(e) && IK.NulFree(key) && r <= IK.MAX_SEQUENCE
    ensures Leq(IK.Encode(e.key, e.seqno), IK.Encode(key, r)) <==> !IK.Before(key, r, e.key, e.seqno)
  {
    var a, b := IK.Encode(e.key, e.seqno), IK.Encode(key, r);
    IK.OrderPreserved(e.key, e.seqno, key, r);
    IK.OrderPreserved(key, r, e.key, e.seqno);
    Order(a, b, a);
    Order(e.key, key, e.key);
  }

  /** The last restart whose key is not after the target, or the first restart. */
  method SeekRestart(l: Layout, target: Blob, key: Blob, r: nat, ghost es: seq<Version>) returns (found: Option<nat>)
    requires |l.restarts| == 4 * l.restartCount && l.restartCount >= 1
    requires forall j :: 0 <= j < l.restartCount ==> 16 <= Get32(l.restarts, 4 * j)
    requires IK.NulFree(key) && r <= IK.MAX_SEQUENCE && target == IK.Encode(key, r)
    ensures found.Some? ==> found.value < l.restartCount
    ensures AllWellFormed(es) && l == LayoutOf(es) && 16 + |l.recs| < LIMIT ==>
              && found.Some? && INTERVAL * found.value < |es|
              && (found.value == 0 || !IK.Before(key, r, es[INTERVAL * found.value].key, es[INTERVAL * found.value].seqno))
  {
    hide Recs, Offsets, Get32, IK.Encode, IK.Before;
    ghost var good := AllWellFormed(es) && l == LayoutOf(es) && 16 + |l.recs| < LIMIT;
    var left, right := 0, l.restartCount;
    while left < right
      invariant 0 <= left <= right <= l.restartCount
      invariant good && left > 0 ==>
                  var i := INTERVAL * (left - 1); i < |es| && !IK.Before(key, r, es[i].key, es[i].seqno)
    {
      var mid := left + (right - left) / 2;
      var k := RestartKey(l, mid, es);
      if k.None? {
        return None;
      }
      if good {
        RestartOrder(es[INTERVAL * mid], key, r);
      }
      if Leq(k.value, target) {
        left := mid + 1;
      } else {
        right := mid;
      }
    }
    found := Some(if left == 0 then 0 else left - 1);
    if good {
      RestartBelow(|es|, found.value);
    }
  }

  /** Decode from a restart until the key is found or passed. */
  method Scan(l: Layout, start: nat, key: Blob, r: nat, ghost es: seq<Version>) returns (found: Lookup)
    requires start < l.restartCount && |l.restarts| == 4 * l.restartCount && 16 <= Get32(l.restarts, 4 * start)
    ensures AllWellFormed(es) && l == LayoutOf(es) && 16 + |l.recs| < LIMIT ==>
              INTERVAL * start < |es| && found == AsLookup(ScanFrom(es, INTERVAL * start, key, r))
  {
    hide DecodeAt, Recs, Offsets, Get32;
    ghost var good := AllWellFormed(es) && l == LayoutOf(es) && 16 + |l.recs| < LIMIT;
    ghost var i := INTERVAL * start;
    var ptr, prev := Get32(l.restarts, 4 * start) - 16, [];
    if good {
      OffsetsAt(es, l.restartCount, start);
      RestartBelow(|es|, start);
      RecsPrefix(es, i, |es|);
    }
    while ptr < |l.recs|
      invariant good ==> INTERVAL * start <= i <= |es| && ptr == |Recs(es, i)| <= |l.recs|
      invariant good ==> i % INTERVAL == 0 || (i > 0 && prev == es[i - 1].key)
      invariant good ==> ScanFrom(es, INTERVAL * start, key, r) == ScanFrom(es, i, key, r)
      decreases |l.recs| - ptr
    {
      if good {
        NotAtEnd(es, i);
        DecodeIndex(es, i, prev);
      }
      var d := DecodeAt(l.recs, ptr, prev);
      if d.None? {
        return Corrupt;
      }
      var e := d.value.0;
      prev, ptr := e.key, d.value.1;
      if Visible(e, key, r) {
        return Found(e);
      }
      if Less(key, e.key) {
        return NotFound;
      }
      i := i + 1;
      if good {
        RecsPrefix(es, i, |es|);
      }
    }
    if good {
      AtEnd(es, i);
    }
    found := NotFound;
  }

  lemma NotAtEnd(es: seq<Version>, i: nat)
    requires i <= |es| && |Recs(es, i)| < |Recs(es, |es|)|
    ensures i < |es|
  {
  }

  lemma AtEnd(es: seq<Version>, i: nat)
    requires i <= |es| && |Recs(es, i)| >= |Recs(es, |es|)|
    ensures i == |es|
  {
    RecsSize(es, i, |es|);
  }

  // ---------------------------------------------------------------- whole blocks

  type Checksum = Blob -> U32

  function EncodeBlock(crc: Checksum, es: seq<Version>): Blob {
    var p := Payload(es) + [0];
    p + Fixed(crc(p), 4)
  }

  /** Length of the longest common prefix. */
  method CommonPrefix(a: Blob, b: Blob) returns (n: nat)
    ensures n == Shared(a, b)
  {
    n := 0;
    assert a[0..] == a && b[0..] == b;
    while n < |a| && n < |b| && a[n] == b[n]
      invariant n <= |a| && n <= |b| && Shared(a, b) == n + Shared(a[n..], b[n..])
    {
      assert a[n..][1..] == a[n + 1..] && b[n..][1..] == b[n + 1..];
      n := n + 1;
    }
  }

  ghost predicate Noted(es: seq<Version>, n: nat, restarts: seq<nat>) {
    |restarts| == RestartCount(n) && forall j :: 0 <= j < |restarts| ==> INTERVAL * j <= |es| && restarts[j] == Offset(es, j)
  }

  lemma NoteRestart(es: seq<Version>, n: nat, restarts: seq<nat>)
    requires Noted(es, n, restarts) && n < |es|
    ensures n % INTERVAL == 0 ==> Noted(es, n + 1, restarts + [16 + |Recs(es, n)|])
    ensures n % INTERVAL != 0 ==> Noted(es, n + 1, restarts)
  {
    hide Recs;
    if n % INTERVAL == 0 {
      assert n == INTERVAL * |restarts|;
    }
  }

  /** One pass over the records, noting where the restarts are. */
  method BuildRecords(entries: seq<Version>, begin: nat, end: nat) returns (payload: Blob, restarts: seq<nat>)
    requires begin <= end <= |entries|
    ensures var es := entries[begin..end]; payload == Header(|es|) + Recs(es, |es|) && Noted(es, |es|, restarts)
  {
    hide RecBytes, Header, Shared, Noted, Fixed;
    ghost var es := entries[begin..end];
    payload, restarts := Header(end - begin), [];
    var previous := [];
    NoteNone(es);
    for i := begin to end
      invariant payload == Header(|es|) + Recs(es, i - begin) && Noted(es, i - begin, restarts)
      invariant i > begin ==> previous == es[i - begin - 1].key
    {
      var entry, shared := entries[i], 0;
      assert entry == es[i - begin];
      NoteRestart(es, i - begin, restarts);
      if (i - begin) % INTERVAL == 0 {
        restarts := restarts + [|payload|];
      } else {
        shared := CommonPrefix(previous, entry.key);
      }
      payload := payload + RecBytes(shared, entry);
      previous := entry.key;
    }
  }

  lemma NoteNone(es: seq<Version>)
    ensures Noted(es, 0, [])
  {
  }

  /** The records, then the restart offsets, then the trailer. */
  method BuildBlock(crc: Checksum, entries: seq<Version>, begin: nat, end: nat) returns (b: Blob)
    requires begin <= end <= |entries|
    ensures b == EncodeBlock(crc, entries[begin..end])
  {
    hide Recs, Fixed;
    ghost var es := entries[begin..end];
    var payload, restarts := BuildRecords(entries, begin, end);
    ghost var body := payload;
    for j := 0 to |restarts|
      invariant payload == body + Offsets(es, j)
    {
      payload := payload + Fixed(restarts[j], 4);
    }
    payload := payload + Fixed(|restarts|, 4) + [0];
    b := payload + Fixed(crc(payload), 4);
  }

  function BlockPayload(crc: Checksum, b: Blob): Option<Blob> {
    var n := |b|;
    if n < 21 || Get32(b, 0) != MAGIC || b[n - 5] != 0 || crc(b[..n - 4]) != Get32(b, n - 4) then None
    else Some(b[..n - 5])
  }

  lemma PayloadOfBlock(crc: Checksum, es: seq<Version>)
    requires BlockOf(Payload(es), es)
    ensures BlockPayload(crc, EncodeBlock(crc, es)) == Some(Payload(es))
  {
    hide Payload, Fixed, Get32;
    var p, b := Payload(es), EncodeBlock(crc, es);
    var sum := crc(p + [0]);
    PayloadParts(p, es);
    assert b[..|b| - 4] == p + [0] && b[|b| - 4..|b| - 4 + 4] == Fixed(sum, 4);
    assert b[..|b| - 5] == p;
    Slice32(b, |b| - 4, sum);
    assert b == p + ([0] + Fixed(sum, 4));
    SameSlice32(p, [0] + Fixed(sum, 4), 0);
  }

  /** GetFromBlock: on the bytes of sorted entries it is the linear scan of them. */
  method GetFromBlock(crc: Checksum, b: Blob, key: Blob, r: nat, ghost es: seq<Version>) returns (found: Lookup)
    requires IK.NulFree(key) && r <= IK.MAX_SEQUENCE
    ensures BlockOf(Payload(es), es) && Sorted(es) && b == EncodeBlock(crc, es) ==> found == AsLookup(Find(es, key, r))
  {
    hide Payload, Recs, Offsets, Get32, EncodeBlock, BlockPayload, IK.Encode, IK.Before, Sorted;
    ghost var good := BlockOf(Payload(es), es) && Sorted(es) && b == EncodeBlock(crc, es);
    if good {
      PayloadOfBlock(crc, es);
      PayloadParts(Payload(es), es);
    }
    var p := BlockPayload(crc, b);
    if p.None? {
      return Corrupt;
    }
    var layout := ParseLayout(p.value, es);
    if layout.None? {
      return Corrupt;
    }
    var l := layout.value;
    var start := SeekRestart(l, IK.Encode(key, r), key, r, es);
    if start.None? {
      return Corrupt;
    }
    found := Scan(l, start.value, key, r, es);
    if good {
      var i := INTERVAL * start.value;
      ScanFinds(es, i, key, r);
      if start.value == 0 {
        assert es[0..] == es;
      } else {
        StartAt(es, i, key, r);
      }
    }
  }

  /** DecodeBlock: all entries of a block. */
  method DecodeBlock(crc: Checksum, b: Blob, ghost es: seq<Version>) returns (r: Option<seq<Version>>)
    ensures BlockOf(Payload(es), es) && b == EncodeBlock(crc, es) ==> r == Some(es)
  {
    hide Payload, Recs, Offsets, EncodeBlock, BlockPayload;
    if BlockOf(Payload(es), es) && b == EncodeBlock(crc, es) {
      PayloadOfBlock(crc, es);
    }
    var p := BlockPayload(crc, b);
    if p.None? {
      return None;
    }
    var layout := ParseLayout(p.value, es);
    if layout.None? {
      return None;
    }
    r := DecodeEntries(layout.value, es);
  }
}
