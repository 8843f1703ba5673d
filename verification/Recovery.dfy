/**
 Replaying the write-ahead logs on open.  On any disk the engine can leave behind, the
 order and key checks never fire, and the replayed memtable, the sequence and the file
 numbers are those of the state machine's open step.
 */
module Recovery {
  import opened Bytes
  import opened Versions
  import opened Store
  import opened Engine
  import Manifest

  /** The records of some log files, one file after another. */
  function Flat(wals: Wals, ns: seq<nat>): seq<Batch> {
    if ns == [] then []
    else
      var n := ns[|ns| - 1];
      Flat(wals, ns[..|ns| - 1]) + if n in wals then wals[n] else []
  }

  ghost predicate Increasing(bs: seq<Batch>) {
    && (forall i :: 0 <= i < |bs| ==> bs[i].first >= 1 && bs[i].ops != [])
    && forall i, j :: 0 <= i < j < |bs| ==> BatchLast(bs[i]) < bs[j].first
  }

  ghost predicate KeysValid(bs: seq<Batch>) {
    forall i, j :: 0 <= i < |bs| && 0 <= j < |bs[i].ops| ==> ValidKey(bs[i].ops[j].key)
  }

  predicate Ascending(ns: seq<nat>) {
    forall i, j :: 0 <= i < j < |ns| ==> ns[i] < ns[j]
  }

  /** The numbers at or above lo, in order. */
  method LiveNumbers(numbers: set<nat>, lo: nat) returns (ns: seq<nat>)
    ensures Ascending(ns) && forall n :: n in ns <==> n in numbers && n >= lo
  {
    ns := [];
    var todo := numbers;
    while todo != {}
      invariant todo <= numbers && Ascending(ns) && forall n :: n in ns <==> n in numbers && n !in todo && n >= lo
      decreases todo
    {
      var n :| n in todo;
      if n >= lo {
        ns := Manifest.InsertNumber(ns, n);
      }
      todo := todo - {n};
    }
  }

  /** max_seen_file_number */
  method MaxNumber(numbers: set<nat>, start: nat) returns (m: nat)
    ensures m >= start && (forall n :: n in numbers ==> n <= m) && (m == start || m in numbers)
  {
    m := start;
    var todo := numbers;
    while todo != {}
      invariant todo <= numbers && m >= start && (forall n :: n in numbers && n !in todo ==> n <= m) && (m == start || m in numbers)
      decreases todo
    {
      var n :| n in todo;
      if n > m {
        m := n;
      }
      todo := todo - {n};
    }
  }

  // ------------------------------------------------------------------ one record

  lemma BatchPrefix(b: Batch, i: nat)
    requires i < |b.ops|
    ensures BatchSet(Batch(b.first, b.ops[..i + 1])) == BatchSet(Batch(b.first, b.ops[..i])) + {VersionOf(b.ops[i], b.first + i)}
  {
    var c := Batch(b.first, b.ops[..i + 1]);
    BatchSetSnoc({}, c);
    assert c.ops[..i] == b.ops[..i];
    assert {} + BatchSet(c) == BatchSet(c) && {} + BatchSet(Batch(b.first, c.ops[..i])) == BatchSet(Batch(b.first, c.ops[..i]));
  }

  lemma NoBatch(first: nat)
    ensures BatchSet(Batch(first, [])) == {}
  {
  }

  /** Each operation goes into the memtable and raises the last sequence. */
  method ReplayRecord(b: Batch, mem0: set<Version>, last0: nat) returns (ok: bool, mem: set<Version>, last: nat)
    ensures ok <==> forall j :: 0 <= j < |b.ops| ==> ValidKey(b.ops[j].key)
    ensures ok ==> mem == mem0 + BatchSet(b)
    ensures ok && b.ops != [] ==> last == if BatchLast(b) > last0 then BatchLast(b) else last0
    ensures ok && b.ops == [] ==> last == last0
  {
    hide BatchSet, ValidKey;
    mem, last := mem0, last0;
    NoBatch(b.first);
    assert b.ops[..0] == [];
    for i := 0 to |b.ops|
      invariant mem == mem0 + BatchSet(Batch(b.first, b.ops[..i]))
      invariant forall j :: 0 <= j < i ==> ValidKey(b.ops[j].key)
      invariant last == if i > 0 && b.first + i - 1 > last0 then b.first + i - 1 else last0
    {
      if !ValidKey(b.ops[i].key) {
        return false, mem, last;
      }
      BatchPrefix(b, i);
      mem := mem + {VersionOf(b.ops[i], b.first + i)};
      if b.first + i > last {
        last := b.first + i;
      }
    }
    assert Batch(b.first, b.ops[..|b.ops|]) == b;
    ok := true;
  }

  // ------------------------------------------------------------------- all records

  /** The state of the replay after some records. */
  ghost predicate Replayed(bs: seq<Batch>, start: nat, mem: set<Version>, last: nat, replayed: nat) {
    && mem == History(bs) && last >= start && AllUpTo(mem, last) && (last == start || exists v :: v in mem && v.seqno == last)
    && (bs != [] ==> replayed == BatchLast(bs[|bs| - 1]))
  }

  lemma RecordSnoc(bs: seq<Batch>, b: Batch)
    ensures History(bs + [b]) == History(bs) + BatchSet(b)
  {
    assert (bs + [b])[..|bs|] == bs;
  }

  lemma ReplayedNext(bs: seq<Batch>, b: Batch, start: nat, mem: set<Version>, last: nat, replayed: nat)
    requires Replayed(bs, start, mem, last, replayed) && b.ops != [] && b.first >= 1
    ensures Replayed(bs + [b], start, mem + BatchSet(b), if BatchLast(b) > last then BatchLast(b) else last, BatchLast(b))
  {
    RecordSnoc(bs, b);
    BatchTop(b);
  }

  lemma BatchTop(b: Batch)
    requires b.ops != [] && b.first >= 1
    ensures AllUpTo(BatchSet(b), BatchLast(b)) && exists v :: v in BatchSet(b) && v.seqno == BatchLast(b)
  {
    var i := |b.ops| - 1;
    assert VersionOf(b.ops[i], b.first + i) in BatchSet(b);
  }

  datatype Restored = Restored(wal: nat, oldest: nat, next: nat, last: nat, mem: set<Version>)

  /** One log file; refuses a record whose sequences do not come after the last one. */
  method ReplayFile(file: seq<Batch>, start: nat, mem0: set<Version>, last0: nat, replayed0: nat, ghost done: seq<Batch>)
    returns (ok: bool, mem: set<Version>, last: nat, replayed: nat)
    requires Replayed(done, start, mem0, last0, replayed0) && (done == [] ==> replayed0 == 0) && KeysValid(done)
    ensures Increasing(done + file) && KeysValid(done + file) ==> ok
    ensures ok ==> Replayed(done + file, start, mem, last, replayed) && (done + file == [] ==> replayed == 0) && KeysValid(done + file)
  {
    hide Replayed, KeysValid, Increasing, ValidKey, BatchSet;
    mem, last, replayed := mem0, last0, replayed0;
    ghost var bs, all := done, done + file;
    assert done + file[..0] == done;
    for j := 0 to |file|
      invariant bs == done + file[..j] && Replayed(bs, start, mem, last, replayed) && (bs == [] ==> replayed == 0) && KeysValid(bs)
    {
      var b := file[j];
      assert done + file[..j + 1] == bs + [b];
      assert all[|bs|] == b && bs == all[..|bs|];
      if Increasing(all) {
        NextRecord(all, bs, b, start, mem, last, replayed);
      }
      if b.ops == [] || b.first == 0 || b.first <= replayed {
        return false, mem, last, replayed;
      }
      ghost var before, prev := mem, last;
      var good;
      good, mem, last := ReplayRecord(b, mem, last);
      if !good {
        if KeysValid(all) {
          KeysAt(all, |bs|);
        }
        return false, mem, last, replayed;
      }
      ReplayedNext(bs, b, start, before, prev, replayed);
      KeysMore(bs, b);
      replayed := b.first + |b.ops| - 1;
      bs := bs + [b];
    }
    assert file[..|file|] == file;
    ok := true;
  }

  /** The replay loop over the files. */
  method ReplayFiles(wals: Wals, ns: seq<nat>, start: nat) returns (ok: bool, mem: set<Version>, last: nat)
    requires forall n :: n in ns ==> n in wals
    ensures Increasing(Flat(wals, ns)) && KeysValid(Flat(wals, ns)) ==> ok
    ensures ok ==> mem == History(Flat(wals, ns)) && last >= start && AllUpTo(mem, last)
                   && (last == start || exists v :: v in mem && v.seqno == last)
  {
    hide History, BatchSet, ValidKey, AllUpTo, Increasing, KeysValid, Replayed, Flat;
    mem, last := {}, start;
    var replayed: nat := 0;
    StartReplay(start);
    NoFiles(wals);
    for i := 0 to |ns|
      invariant Replayed(Flat(wals, ns[..i]), start, mem, last, replayed)
      invariant (Flat(wals, ns[..i]) == [] ==> replayed == 0) && KeysValid(Flat(wals, ns[..i]))
    {
      FlatNext(wals, ns, i);
      ghost var done, all := Flat(wals, ns[..i]), Flat(wals, ns);
      if Increasing(all) && KeysValid(all) {
        PrefixReadable(all, done + wals[ns[i]]);
      }
      ok, mem, last, replayed := ReplayFile(wals[ns[i]], start, mem, last, replayed, done);
      if !ok {
        return false, mem, last;
      }
    }
    assert ns[..|ns|] == ns;
    ReplayedMeans(Flat(wals, ns), start, mem, last, replayed);
    ok := true;
  }

  lemma PrefixReadable(all: seq<Batch>, p: seq<Batch>)
    requires p <= all && Increasing(all) && KeysValid(all)
    ensures Increasing(p) && KeysValid(p)
  {
    hide ValidKey;
    assert forall i :: 0 <= i < |p| ==> p[i] == all[i];
  }

  lemma ReplayedMeans(bs: seq<Batch>, start: nat, mem: set<Version>, last: nat, replayed: nat)
    requires Replayed(bs, start, mem, last, replayed)
    ensures mem == History(bs) && last >= start && AllUpTo(mem, last) && (last == start || exists v :: v in mem && v.seqno == last)
  {
  }

  lemma NoFiles(wals: Wals)
    ensures Flat(wals, []) == []
  {
  }

  lemma StartReplay(start: nat)
    ensures Replayed([], start, {}, start, 0) && KeysValid([])
  {
  }

  lemma KeysAt(bs: seq<Batch>, i: nat)
    requires KeysValid(bs) && i < |bs|
    ensures forall j :: 0 <= j < |bs[i].ops| ==> ValidKey(bs[i].ops[j].key)
  {
  }

  lemma KeysMore(bs: seq<Batch>, b: Batch)
    requires KeysValid(bs) && forall j :: 0 <= j < |b.ops| ==> ValidKey(b.ops[j].key)
    ensures KeysValid(bs + [b])
  {
    hide ValidKey;
  }

  lemma NextRecord(all: seq<Batch>, bs: seq<Batch>, b: Batch, start: nat, mem: set<Version>, last: nat, replayed: nat)
    requires Increasing(all) && bs < all && all[|bs|] == b
    requires Replayed(bs, start, mem, last, replayed) && (bs == [] ==> replayed == 0)
    ensures b.ops != [] && b.first >= 1 && b.first > replayed
  {
    if bs != [] {
      assert all[|bs| - 1] == bs[|bs| - 1];
    }
  }

  lemma {:induction false} FlatPrefix(wals: Wals, ns: seq<nat>, i: nat)
    requires i <= |ns|
    ensures Flat(wals, ns[..i]) <= Flat(wals, ns)
  {
    if i == |ns| {
      assert ns[..i] == ns;
    } else {
      var init := ns[..|ns| - 1];
      FlatPrefix(wals, init, i);
      assert init[..i] == ns[..i];
    }
  }

  lemma FlatNext(wals: Wals, ns: seq<nat>, i: nat)
    requires i < |ns| && ns[i] in wals
    ensures Flat(wals, ns[..i + 1]) == Flat(wals, ns[..i]) + wals[ns[i]]
    ensures Flat(wals, ns[..i]) + wals[ns[i]] <= Flat(wals, ns)
  {
    assert ns[..i + 1][..i] == ns[..i];
    FlatPrefix(wals, ns, i + 1);
  }

  /** Recover: what the directory holds, and the replay. */
  method Recover(wals: Wals, ssts: set<nat>, e: Edit) returns (r: Option<Restored>)
    ensures r.Some? ==>
              && LiveRange(wals.Keys, e.wal, r.value.wal, r.value.oldest)
              && r.value.next >= e.next && (forall n :: n in ssts ==> n < r.value.next) && (forall n :: n in wals ==> n < r.value.next)
              && r.value.mem == WalSet(wals, e.wal)
              && r.value.last >= e.last && AllUpTo(r.value.mem, r.value.last)
              && (r.value.last == e.last || exists v :: v in r.value.mem && v.seqno == r.value.last)
    ensures LogsReadable(wals, e.wal) && (forall n :: n in ssts + wals.Keys + e.files.Keys ==> n < MAX_U64) ==> r.Some?
  {
    hide Flat, History, WalSet, AllUpTo, Increasing, KeysValid;
    var ns := LiveNumbers(wals.Keys, e.wal);
    var seen := MaxNumber(ssts + wals.Keys + e.files.Keys, 0);
    var wal := if ns == [] then e.wal else ns[|ns| - 1];
    var oldest := if ns == [] then e.wal else ns[0];
    if seen == MAX_U64 {
      return None;
    }
    if seen > MAX_U64 {
      return None;
    }
    var next := if e.next <= seen then seen + 1 else e.next;
    if LogsReadable(wals, e.wal) {
      FilesReplay(wals, e.wal, ns);
    }
    var ok, mem, last := ReplayFiles(wals, ns, e.last);
    if !ok {
      return None;
    }
    FlatIsWalSet(wals, e.wal, ns);
    RangeIs(wals.Keys, e.wal, ns);
    r := Some(Restored(wal, oldest, next, last, mem));
  }

  /** Live log files hold records in sequence order with valid keys. */
  ghost predicate LogsReadable(wals: Wals, lo: nat) {
    && (exists last :: WalsOrdered(wals, last))
    && forall w, i, j :: w in wals && w >= lo && 0 <= i < |wals[w]| && 0 <= j < |wals[w][i].ops| ==> ValidKey(wals[w][i].ops[j].key)
  }

  lemma RangeIs(numbers: set<nat>, lo: nat, ns: seq<nat>)
    requires Ascending(ns) && forall n :: n in ns <==> n in numbers && n >= lo
    ensures LiveRange(numbers, lo, if ns == [] then lo else ns[|ns| - 1], if ns == [] then lo else ns[0])
  {
    if ns != [] {
      assert ns[0] in ns && ns[|ns| - 1] in ns;
      forall w | w in numbers && w >= lo ensures ns[0] <= w <= ns[|ns| - 1] {
        var i :| 0 <= i < |ns| && ns[i] == w;
      }
    }
  }

  /** Where record k of the flat list comes from. */
  lemma {:induction false} FlatFrom(wals: Wals, ns: seq<nat>, k: nat) returns (a: nat, i: nat)
    requires k < |Flat(wals, ns)|
    ensures a < |ns| && ns[a] in wals && i < |wals[ns[a]]| && Flat(wals, ns)[k] == wals[ns[a]][i]
    ensures k == |Flat(wals, ns[..a])| + i
  {
    var init, n := ns[..|ns| - 1], ns[|ns| - 1];
    if k < |Flat(wals, init)| {
      a, i := FlatFrom(wals, init, k);
      assert init[..a] == ns[..a];
    } else {
      a, i := |ns| - 1, k - |Flat(wals, init)|;
    }
  }

  lemma FilesReplay(wals: Wals, lo: nat, ns: seq<nat>)
    requires LogsReadable(wals, lo) && Ascending(ns) && forall n :: n in ns <==> n in wals && n >= lo
    ensures Increasing(Flat(wals, ns)) && KeysValid(Flat(wals, ns))
  {
    hide Flat, ValidKey;
    var bs := Flat(wals, ns);
    var last :| WalsOrdered(wals, last);
    forall k | 0 <= k < |bs| ensures bs[k].first >= 1 && bs[k].ops != [] && forall j :: 0 <= j < |bs[k].ops| ==> ValidKey(bs[k].ops[j].key) {
      var a, i := FlatFrom(wals, ns, k);
      assert ns[a] in ns;
    }
    forall k, m | 0 <= k < m < |bs| ensures BatchLast(bs[k]) < bs[m].first {
      var a, i := FlatFrom(wals, ns, k);
      var b, j := FlatFrom(wals, ns, m);
      FlatOrder(wals, ns, a, i, b, j);
    }
  }

  lemma FlatLonger(wals: Wals, ns: seq<nat>, b: nat, a: nat)
    requires b < a < |ns| && ns[b] in wals
    ensures |Flat(wals, ns[..b])| + |wals[ns[b]]| <= |Flat(wals, ns[..a])|
  {
    FlatNext(wals, ns[..a], b);
    assert ns[..a][..b] == ns[..b] && ns[..a][b] == ns[b];
  }

  /** Later in the list means a later file, or later in the same file. */
  lemma FlatOrder(wals: Wals, ns: seq<nat>, a: nat, i: nat, b: nat, j: nat)
    requires Ascending(ns) && a < |ns| && b < |ns| && ns[a] in wals && ns[b] in wals && i < |wals[ns[a]]| && j < |wals[ns[b]]|
    requires |Flat(wals, ns[..a])| + i < |Flat(wals, ns[..b])| + j
    ensures ns[a] < ns[b] || (ns[a] == ns[b] && i < j)
  {
    if b < a {
      FlatLonger(wals, ns, b, a);
    }
  }

  lemma {:induction false} InHistory(bs: seq<Batch>, v: Version)
    ensures v in History(bs) <==> exists k :: 0 <= k < |bs| && v in BatchSet(bs[k])
  {
    hide BatchSet;
    if bs != [] {
      var init := bs[..|bs| - 1];
      InHistory(init, v);
      if v in History(init) {
        var k :| 0 <= k < |init| && v in BatchSet(init[k]);
        assert v in BatchSet(bs[k]);
      } else if k :| 0 <= k < |bs| && v in BatchSet(bs[k]) {
        if k < |init| {
          assert v in BatchSet(init[k]);
        }
      }
    }
  }

  lemma FlatIsWalSet(wals: Wals, lo: nat, ns: seq<nat>)
    requires forall n :: n in ns <==> n in wals && n >= lo
    ensures History(Flat(wals, ns)) == WalSet(wals, lo)
  {
    hide Flat, History, BatchSet;
    var bs := Flat(wals, ns);
    forall v | v in History(bs) ensures v in WalSet(wals, lo) {
      InHistory(bs, v);
      var k :| 0 <= k < |bs| && v in BatchSet(bs[k]);
      var a, i := FlatFrom(wals, ns, k);
      assert ns[a] in ns;
    }
    forall v | v in WalSet(wals, lo) ensures v in History(bs) {
      var w, i :| w in wals && w >= lo && 0 <= i < |wals[w]| && v in BatchSet(wals[w][i]);
      assert w in ns;
      var a :| 0 <= a < |ns| && ns[a] == w;
      FlatNext(wals, ns, a);
      var k := |Flat(wals, ns[..a])| + i;
      assert (Flat(wals, ns[..a]) + wals[w])[k] == wals[w][i];
      assert bs[k] == wals[w][i];
      InHistory(bs, v);
    }
  }
}
