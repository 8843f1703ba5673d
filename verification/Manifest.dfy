/**
 The manifest: a log of edit records.  A record lists what changed since the last saved
 edit; loading replays the records.  The text of a line is left abstract, the framing of
 records is not.
 */
module Manifest {
  import opened Bytes
  import opened Store
  import FN = FileNames

  datatype FileEntry = FileEntry(number: nat, meta: Meta)

  /** VersionEdit as the code holds it, with the files in a list. */
  datatype VersionEdit = VersionEdit(next: nat, wal: nat, last: nat, files: seq<FileEntry>)

  datatype Line =
    | VersionLine
    | NextLine(n: nat)
    | WalLine(n: nat)
    | LastLine(n: nat)
    | DeleteLine(n: nat)
    | AddLine(file: FileEntry, name: Blob)

  /** Later entries win. */
  function FileMap(fs: seq<FileEntry>): Files {
    if fs == [] then map[]
    else FileMap(fs[..|fs| - 1])[fs[|fs| - 1].number := fs[|fs| - 1].meta]
  }

  function Abs(v: VersionEdit): Edit {
    Edit(v.next, v.wal, v.last, FileMap(v.files))
  }

  predicate Ascending(fs: seq<FileEntry>) {
    forall i, j :: 0 <= i < j < |fs| ==> fs[i].number < fs[j].number
  }

  predicate Distinct(fs: seq<FileEntry>) {
    forall i, j :: 0 <= i < j < |fs| ==> fs[i].number != fs[j].number
  }

  // ------------------------------------------------------------------ file lists

  lemma {:induction false} FileMapKeys(fs: seq<FileEntry>)
    ensures forall n :: n in FileMap(fs) <==> exists i :: 0 <= i < |fs| && fs[i].number == n
  {
    if fs != [] {
      var init := fs[..|fs| - 1];
      FileMapKeys(init);
      forall n ensures n in FileMap(fs) <==> exists i :: 0 <= i < |fs| && fs[i].number == n {
        if n in FileMap(init) {
          var i :| 0 <= i < |init| && init[i].number == n;
          assert fs[i].number == n;
        }
        if i :| 0 <= i < |fs| && fs[i].number == n {
          if i < |init| {
            assert init[i].number == n;
          }
        }
      }
    }
  }

  /** Without repetition, each entry is in the map as it stands. */
  lemma {:induction false} FileMapAt(fs: seq<FileEntry>, i: nat)
    requires Distinct(fs) && i < |fs|
    ensures fs[i].number in FileMap(fs) && FileMap(fs)[fs[i].number] == fs[i].meta
  {
    var init := fs[..|fs| - 1];
    if i < |init| {
      FileMapAt(init, i);
      assert init[i] == fs[i];
    }
  }

  function Without(fs: seq<FileEntry>, n: nat): (r: seq<FileEntry>)
    ensures |r| <= |fs| && forall f :: f in r <==> f in fs && f.number != n
  {
    if fs == [] then []
    else Without(fs[..|fs| - 1], n) + if fs[|fs| - 1].number == n then [] else [fs[|fs| - 1]]
  }

  lemma FileMapSnoc(fs: seq<FileEntry>, f: FileEntry)
    ensures FileMap(fs + [f]) == FileMap(fs)[f.number := f.meta]
  {
    assert (fs + [f])[..|fs|] == fs;
  }

  lemma WithoutSnoc(fs: seq<FileEntry>, f: FileEntry, n: nat)
    ensures Without(fs + [f], n) == if f.number == n then Without(fs, n) else Without(fs, n) + [f]
  {
    assert (fs + [f])[..|fs|] == fs;
    assert Without(fs, n) + [] == Without(fs, n);
  }

  lemma {:induction false} WithoutMap(fs: seq<FileEntry>, n: nat)
    requires Distinct(fs)
    ensures Distinct(Without(fs, n)) && FileMap(Without(fs, n)) == FileMap(fs) - {n}
    decreases |fs|, 0
  {
    if fs != [] {
      WithoutMapSnoc(fs[..|fs| - 1], fs[|fs| - 1], n);
      assert fs == fs[..|fs| - 1] + [fs[|fs| - 1]];
    }
  }

  lemma {:induction false} WithoutMapSnoc(init: seq<FileEntry>, f: FileEntry, n: nat)
    requires Distinct(init + [f])
    ensures Distinct(Without(init + [f], n)) && FileMap(Without(init + [f], n)) == FileMap(init + [f]) - {n}
    decreases |init|, 1
  {
    hide FileMap, Without;
    var all := init + [f];
    assert forall i :: 0 <= i < |init| ==> init[i] == all[i] && all[i].number != all[|init|].number;
    assert Distinct(init);
    WithoutMap(init, n);
    WithoutSnoc(init, f, n);
    FileMapSnoc(init, f);
    if f.number == n {
      NotIn(init, n);
    } else {
      FileMapSnoc(Without(init, n), f);
    }
  }

  lemma NotIn(fs: seq<FileEntry>, n: nat)
    requires forall i :: 0 <= i < |fs| ==> fs[i].number != n
    ensures n !in FileMap(fs)
  {
    FileMapKeys(fs);
  }

  /** erase(remove_if(...)) */
  method Erase(fs: seq<FileEntry>, n: nat) returns (r: seq<FileEntry>)
    ensures r == Without(fs, n)
  {
    r := [];
    for i := 0 to |fs|
      invariant r == Without(fs[..i], n)
    {
      assert fs[..i + 1][..i] == fs[..i];
      if fs[i].number != n {
        r := r + [fs[i]];
      }
    }
    assert fs[..|fs|] == fs;
  }

  lemma AppendMap(fs: seq<FileEntry>, f: FileEntry)
    requires Distinct(fs) && forall g :: g in fs ==> g.number != f.number
    ensures Distinct(fs + [f]) && FileMap(fs + [f]) == FileMap(fs)[f.number := f.meta]
  {
    assert (fs + [f])[..|fs|] == fs;
  }

  /** The map does not depend on the order of distinct entries. */
  lemma SameFiles(a: seq<FileEntry>, b: seq<FileEntry>)
    requires Distinct(a) && Distinct(b) && multiset(a) == multiset(b)
    ensures FileMap(a) == FileMap(b)
  {
    FileMapKeys(a);
    FileMapKeys(b);
    assert forall f :: f in a <==> f in multiset(a);
    assert forall f :: f in b <==> f in multiset(b);
    forall n | n in FileMap(a) ensures n in FileMap(b) && FileMap(a)[n] == FileMap(b)[n] {
      var i :| 0 <= i < |a| && a[i].number == n;
      assert a[i] in b;
      var j :| 0 <= j < |b| && b[j] == a[i];
      FileMapAt(a, i);
      FileMapAt(b, j);
    }
    forall n | n in FileMap(b) ensures n in FileMap(a) {
      var i :| 0 <= i < |b| && b[i].number == n;
      assert b[i] in a;
      var j :| 0 <= j < |a| && a[j] == b[i];
      FileMapAt(a, j);
    }
  }

  method InsertFile(fs: seq<FileEntry>, f: FileEntry) returns (r: seq<FileEntry>)
    requires Ascending(fs) && forall i :: 0 <= i < |fs| ==> fs[i].number != f.number
    ensures Ascending(r) && multiset(r) == multiset(fs) + multiset{f}
  {
    var k := 0;
    while k < |fs| && fs[k].number < f.number
      invariant k <= |fs| && forall j :: 0 <= j < k ==> fs[j].number < f.number
    {
      k := k + 1;
    }
    FilePlaced(fs, k, f);
    r := fs[..k] + [f] + fs[k..];
  }

  lemma FilePlaced(fs: seq<FileEntry>, k: nat, f: FileEntry)
    requires Ascending(fs) && k <= |fs| && (forall i :: 0 <= i < k ==> fs[i].number < f.number)
    requires k < |fs| ==> f.number < fs[k].number
    ensures var r := fs[..k] + [f] + fs[k..]; Ascending(r) && multiset(r) == multiset(fs) + multiset{f}
  {
    hide Ascending;
    var a, b := fs[..k], fs[k..];
    assert fs == a + b;
    AscendingInsert(a, f, b);
  }

  lemma AscendingInsert(a: seq<FileEntry>, f: FileEntry, b: seq<FileEntry>)
    requires Ascending(a + b) && (forall i :: 0 <= i < |a| ==> a[i].number < f.number) && (b != [] ==> f.number < b[0].number)
    ensures Ascending(a + [f] + b)
  {
    var s, r := a + b, a + [f] + b;
    forall i, j | 0 <= i < j < |r| ensures r[i].number < r[j].number {
      assert r[i] == if i < |a| then s[i] else if i == |a| then f else s[i - 1];
      assert r[j] == if j < |a| then s[j] else if j == |a| then f else s[j - 1];
      assert b != [] ==> s[|a|] == b[0];
    }
  }

  /** Sort by file number. */
  method SortFiles(fs: seq<FileEntry>) returns (r: seq<FileEntry>)
    requires Distinct(fs)
    ensures Ascending(r) && multiset(r) == multiset(fs) && FileMap(r) == FileMap(fs)
  {
    hide FileMap;
    r := [];
    for i := 0 to |fs|
      invariant Ascending(r) && multiset(r) == multiset(fs[..i])
    {
      assert fs[..i + 1] == fs[..i] + [fs[i]];
      forall k | 0 <= k < |r| ensures r[k].number != fs[i].number {
        assert r[k] in multiset(r);
        assert r[k] in fs[..i];
      }
      r := InsertFile(r, fs[i]);
    }
    assert fs[..|fs|] == fs;
    SameFiles(r, fs);
  }

  // -------------------------------------------------------------------- records

  function ApplyLine(e: Edit, l: Line): Edit {
    match l
    case VersionLine => e
    case NextLine(n) => e.(next := n)
    case WalLine(n) => e.(wal := n)
    case LastLine(n) => e.(last := n)
    case DeleteLine(n) => e.(files := e.files - {n})
    case AddLine(f, _) => e.(files := e.files[f.number := f.meta])
  }

  function ApplyLines(e: Edit, lines: seq<Line>): Edit {
    if lines == [] then e else ApplyLine(ApplyLines(e, lines[..|lines| - 1]), lines[|lines| - 1])
  }

  lemma ApplySnoc(e: Edit, lines: seq<Line>, l: Line)
    ensures ApplyLines(e, lines + [l]) == ApplyLine(ApplyLines(e, lines), l)
  {
    assert (lines + [l])[..|lines|] == lines;
  }

  predicate MetaOk(m: Meta) {
    m.level <= 2 && (m.smallest != [] && m.largest != [] ==> !Less(m.largest, m.smallest))
  }

  /** "sst_" and ".data" */
  const TABLE_PREFIX: Blob := [115, 115, 116, 95]
  const TABLE_SUFFIX: Blob := [46, 100, 97, 116, 97]

  function TableName(n: nat): Blob {
    FN.NumberedName(TABLE_PREFIX, n, TABLE_SUFFIX)
  }

  /** A local name that denotes the table's number. */
  predicate NameOk(name: Blob, n: nat) {
    47 !in name && 92 !in name && FN.Denotes(TABLE_PREFIX, TABLE_SUFFIX, name) == Some(n)
  }

  lemma TableNameOk(n: nat)
    requires 0 < n <= MAX_U64
    ensures NameOk(TableName(n), n)
  {
    hide FN.Padded, FN.Denotes;
    FN.ParseName(TABLE_PREFIX, n, TABLE_SUFFIX);
    assert forall i :: 0 <= i < |FN.Padded(n)| ==> FN.IsDigit(FN.Padded(n)[i]);
  }

  predicate AddOk(l: Line) {
    l.AddLine? ==> MetaOk(l.file.meta) && NameOk(l.name, l.file.number)
  }

  predicate HasHead(lines: seq<Line>) {
    && (exists i :: 0 <= i < |lines| && lines[i].VersionLine?)
    && (exists i :: 0 <= i < |lines| && lines[i].NextLine?)
    && (exists i :: 0 <= i < |lines| && lines[i].WalLine?)
    && (exists i :: 0 <= i < |lines| && lines[i].LastLine?)
  }

  /** What ParseEditPayload accepts. */
  predicate Accepts(e: Edit, lines: seq<Line>) {
    && HasHead(lines) && (forall i :: 0 <= i < |lines| ==> AddOk(lines[i]))
    && ApplyLines(e, lines).next != 0 && ApplyLines(e, lines).wal != 0
  }

  /** Numbers of a list of files in ascending order, each once: the keys of its map. */
  method Numbers(fs: seq<FileEntry>) returns (ns: seq<nat>)
    ensures forall i, j :: 0 <= i < j < |ns| ==> ns[i] < ns[j]
    ensures forall n :: n in ns <==> n in FileMap(fs)
  {
    hide FileMap;
    ns := [];
    NoFiles();
    for i := 0 to |fs|
      invariant forall a, b :: 0 <= a < b < |ns| ==> ns[a] < ns[b]
      invariant forall n :: n in ns <==> n in FileMap(fs[..i])
    {
      MapNext(fs, i);
      ns := InsertNumber(ns, fs[i].number);
    }
    assert fs[..|fs|] == fs;
  }

  lemma NoFiles()
    ensures FileMap([]) == map[]
  {
  }

  lemma MapNext(fs: seq<FileEntry>, i: nat)
    requires i < |fs|
    ensures FileMap(fs[..i + 1]) == FileMap(fs[..i])[fs[i].number := fs[i].meta]
  {
    assert fs[..i + 1][..i] == fs[..i];
  }

  method InsertNumber(ns: seq<nat>, n: nat) returns (r: seq<nat>)
    requires forall i, j :: 0 <= i < j < |ns| ==> ns[i] < ns[j]
    ensures forall i, j :: 0 <= i < j < |r| ==> r[i] < r[j]
    ensures forall m :: m in r <==> m in ns || m == n
  {
    var k := 0;
    while k < |ns| && ns[k] < n
      invariant k <= |ns| && forall j :: 0 <= j < k ==> ns[j] < n
    {
      k := k + 1;
    }
    if k < |ns| && ns[k] == n {
      return ns;
    }
    InsertedNumber(ns, k, n);
    r := ns[..k] + [n] + ns[k..];
  }

  lemma InsertedNumber(ns: seq<nat>, k: nat, n: nat)
    requires forall i, j :: 0 <= i < j < |ns| ==> ns[i] < ns[j]
    requires k <= |ns| && (forall j :: 0 <= j < k ==> ns[j] < n) && (k < |ns| ==> n < ns[k])
    ensures var r := ns[..k] + [n] + ns[k..];
            && (forall i, j :: 0 <= i < j < |r| ==> r[i] < r[j])
            && forall m :: m in r <==> m in ns || m == n
  {
    var r := ns[..k] + [n] + ns[k..];
    assert ns == ns[..k] + ns[k..];
    assert forall i :: 0 <= i < |r| ==> r[i] == if i < k then ns[i] else if i == k then n else ns[i - 1];
  }

  /** These lines set the scalars of next, drop the files in D and put those in A. */
  ghost predicate Means(lines: seq<Line>, next: VersionEdit, D: set<nat>, A: Files) {
    forall e :: ApplyLines(e, lines) == Target(e, next, D, A)
  }

  ghost function Target(e: Edit, next: VersionEdit, D: set<nat>, A: Files): Edit {
    Edit(next.next, next.wal, next.last, (e.files - D) + A)
  }

  lemma TargetDelete(e: Edit, next: VersionEdit, D: set<nat>, n: nat)
    ensures ApplyLine(Target(e, next, D, map[]), DeleteLine(n)) == Target(e, next, D + {n}, map[])
  {
    assert ((e.files - D) + map[]) - {n} == (e.files - (D + {n})) + map[];
  }

  lemma TargetAdd(e: Edit, next: VersionEdit, D: set<nat>, A: Files, f: FileEntry)
    ensures ApplyLine(Target(e, next, D, A), AddLine(f, TableName(f.number))) == Target(e, next, D, A[f.number := f.meta])
  {
    assert ((e.files - D) + A)[f.number := f.meta] == (e.files - D) + A[f.number := f.meta];
  }

  lemma MeansDelete(lines: seq<Line>, next: VersionEdit, D: set<nat>, n: nat)
    requires Means(lines, next, D, map[])
    ensures Means(lines + [DeleteLine(n)], next, D + {n}, map[])
  {
    hide ApplyLines, Target, ApplyLine;
    forall e ensures ApplyLines(e, lines + [DeleteLine(n)]) == Target(e, next, D + {n}, map[]) {
      ApplySnoc(e, lines, DeleteLine(n));
      TargetDelete(e, next, D, n);
    }
  }

  lemma MeansAdd(lines: seq<Line>, next: VersionEdit, D: set<nat>, A: Files, f: FileEntry)
    requires Means(lines, next, D, A)
    ensures Means(lines + [AddLine(f, TableName(f.number))], next, D, A[f.number := f.meta])
  {
    hide ApplyLines, Target, ApplyLine, TableName;
    forall e ensures ApplyLines(e, lines + [AddLine(f, TableName(f.number))]) == Target(e, next, D, A[f.number := f.meta]) {
      ApplySnoc(e, lines, AddLine(f, TableName(f.number)));
      TargetAdd(e, next, D, A, f);
    }
  }

  function Head(next: VersionEdit): seq<Line> {
    [VersionLine] + [NextLine(next.next)] + [WalLine(next.wal)] + [LastLine(next.last)]
  }

  lemma MeansHead(next: VersionEdit)
    ensures Means(Head(next), next, {}, map[])
  {
    hide ApplyLines;
    var a := [VersionLine];
    var b := a + [NextLine(next.next)];
    var c := b + [WalLine(next.wal)];
    forall e ensures ApplyLines(e, Head(next)) == Target(e, next, {}, map[]) {
      ApplyNone(e);
      assert [] + [VersionLine] == a;
      ApplySnoc(e, [], VersionLine);
      ApplySnoc(e, a, NextLine(next.next));
      ApplySnoc(e, b, WalLine(next.wal));
      ApplySnoc(e, c, LastLine(next.last));
      assert (e.files - {}) + map[] == e.files;
    }
  }

  predicate NoAdds(lines: seq<Line>) {
    forall k :: 0 <= k < |lines| ==> !lines[k].AddLine?
  }

  predicate AddsFrom(lines: seq<Line>, files: Files) {
    forall k :: 0 <= k < |lines| && lines[k].AddLine? ==>
      && lines[k].file.number in files && lines[k].file.meta == files[lines[k].file.number]
      && lines[k].name == TableName(lines[k].file.number)
  }

  /** The files that are gone. */
  method DeleteLines(head: seq<Line>, ns: seq<nat>, news: Files, ghost next: VersionEdit)
    returns (lines: seq<Line>, ghost D: set<nat>)
    requires Means(head, next, {}, map[]) && NoAdds(head)
    ensures head <= lines && Means(lines, next, D, map[]) && NoAdds(lines)
    ensures forall n :: n in D <==> n in ns && n !in news
  {
    hide Means;
    lines, D := head, {};
    for i := 0 to |ns|
      invariant head <= lines && Means(lines, next, D, map[]) && NoAdds(lines)
      invariant forall n :: n in D <==> n in ns[..i] && n !in news
    {
      assert ns[..i + 1] == ns[..i] + [ns[i]];
      if ns[i] !in news {
        MeansDelete(lines, next, D, ns[i]);
        lines, D := lines + [DeleteLine(ns[i])], D + {ns[i]};
      }
    }
    assert ns[..|ns|] == ns;
  }

  /** The files that are new. */
  method AddLines(head: seq<Line>, ms: seq<nat>, olds: Files, news: Files, ghost next: VersionEdit, ghost D: set<nat>)
    returns (lines: seq<Line>, ghost A: Files)
    requires Means(head, next, D, map[]) && NoAdds(head) && forall m :: m in ms ==> m in news
    ensures head <= lines && Means(lines, next, D, A) && AddsFrom(lines, news)
    ensures forall n :: n in A <==> n in ms && n !in olds
    ensures forall n :: n in A ==> n in news && A[n] == news[n]
  {
    hide Means, TableName;
    lines, A := head, map[];
    for i := 0 to |ms|
      invariant head <= lines && Means(lines, next, D, A) && AddsFrom(lines, news)
      invariant forall n :: n in A <==> n in ms[..i] && n !in olds
      invariant forall n :: n in A ==> n in news && A[n] == news[n]
    {
      assert ms[..i + 1] == ms[..i] + [ms[i]];
      if ms[i] !in olds {
        MeansAdd(lines, next, D, A, FileEntry(ms[i], news[ms[i]]));
        lines, A := lines + [AddLine(FileEntry(ms[i], news[ms[i]]), TableName(ms[i]))], A[ms[i] := news[ms[i]]];
      }
    }
    assert ms[..|ms|] == ms;
  }

  /** The lines of a record are the difference of the two edits, whatever edit they are
      applied to. */
  method BuildEditPayload(persisted: VersionEdit, next: VersionEdit) returns (lines: seq<Line>)
    ensures HasHead(lines) && AddsFrom(lines, FileMap(next.files))
    ensures forall e :: ApplyLines(e, lines) == ApplyRec(e, Diff(Abs(persisted), Abs(next)))
  {
    hide ApplyLines, Means, FileMap, ApplyRec, Diff, Abs;
    var head := Head(next);
    MeansHead(next);
    var olds, news := FileMap(persisted.files), FileMap(next.files);
    var ns := Numbers(persisted.files);
    var ms := Numbers(next.files);
    ghost var D, A;
    lines, D := DeleteLines(head, ns, news, next);
    var deletes := lines;
    lines, A := AddLines(deletes, ms, olds, news, next, D);
    MeansDiff(lines, persisted, next, D, A);
    HeadKept(lines, head);
  }

  lemma TargetDiff(e: Edit, persisted: VersionEdit, next: VersionEdit, D: set<nat>, A: Files)
    requires D == FileMap(persisted.files).Keys - FileMap(next.files).Keys
    requires A == FileMap(next.files) - FileMap(persisted.files).Keys
    ensures Target(e, next, D, A) == ApplyRec(e, Diff(Abs(persisted), Abs(next)))
  {
    hide FileMap;
  }

  lemma MeansDiff(lines: seq<Line>, persisted: VersionEdit, next: VersionEdit, D: set<nat>, A: Files)
    requires Means(lines, next, D, A)
    requires forall n :: n in D <==> n in FileMap(persisted.files) && n !in FileMap(next.files)
    requires forall n :: n in A <==> n in FileMap(next.files) && n !in FileMap(persisted.files)
    requires forall n :: n in A ==> n in FileMap(next.files) && A[n] == FileMap(next.files)[n]
    ensures forall e :: ApplyLines(e, lines) == ApplyRec(e, Diff(Abs(persisted), Abs(next)))
  {
    hide ApplyLines, FileMap, Target, ApplyRec, Diff;
    assert D == FileMap(persisted.files).Keys - FileMap(next.files).Keys;
    assert A == FileMap(next.files) - FileMap(persisted.files).Keys;
    forall e ensures ApplyLines(e, lines) == ApplyRec(e, Diff(Abs(persisted), Abs(next))) {
      TargetDiff(e, persisted, next, D, A);
    }
  }

  lemma HeadKept(lines: seq<Line>, head: seq<Line>)
    requires head <= lines && |head| == 4
    requires head[0].VersionLine? && head[1].NextLine? && head[2].WalLine? && head[3].LastLine?
    ensures HasHead(lines)
  {
    assert lines[0] == head[0] && lines[1] == head[1] && lines[2] == head[2] && lines[3] == head[3];
  }

  /** ParseEditPayload: one line after another changes the edit in place. */
  method ParseEditPayload(lines: seq<Line>, edit: VersionEdit) returns (r: Option<VersionEdit>)
    requires Distinct(edit.files)
    ensures r.Some? <==> Accepts(Abs(edit), lines)
    ensures r.Some? ==> Ascending(r.value.files) && Abs(r.value) == ApplyLines(Abs(edit), lines)
  {
    hide FileMap, ApplyLines, Without, NameOk, MetaOk;
    var e := edit;
    var sawVersion, sawNext, sawWal, sawLast := false, false, false, false;
    ApplyNone(Abs(edit));
    for i := 0 to |lines|
      invariant Distinct(e.files) && Abs(e) == ApplyLines(Abs(edit), lines[..i])
      invariant sawVersion <==> exists k :: 0 <= k < i && lines[k].VersionLine?
      invariant sawNext <==> exists k :: 0 <= k < i && lines[k].NextLine?
      invariant sawWal <==> exists k :: 0 <= k < i && lines[k].WalLine?
      invariant sawLast <==> exists k :: 0 <= k < i && lines[k].LastLine?
      invariant forall k :: 0 <= k < i ==> AddOk(lines[k])
    {
      assert lines[..i + 1] == lines[..i] + [lines[i]];
      ApplySnoc(Abs(edit), lines[..i], lines[i]);
      match lines[i]
      case VersionLine => sawVersion := true;
      case NextLine(n) => e, sawNext := e.(next := n), true;
      case WalLine(n) => e, sawWal := e.(wal := n), true;
      case LastLine(n) => e, sawLast := e.(last := n), true;
      case DeleteLine(n) =>
        WithoutMap(e.files, n);
        var files := Erase(e.files, n);
        e := e.(files := files);
      case AddLine(f, name) =>
        if !MetaOk(f.meta) || !NameOk(name, f.number) {
          return None;
        }
        WithoutMap(e.files, f.number);
        var files := Erase(e.files, f.number);
        AppendMap(files, f);
        e := e.(files := files + [f]);
    }
    assert lines[..|lines|] == lines;
    if !sawVersion || !sawNext || !sawWal || !sawLast || e.next == 0 || e.wal == 0 {
      return None;
    }
    var sorted := SortFiles(e.files);
    r := Some(e.(files := sorted));
  }

  lemma ApplyNone(e: Edit)
    ensures ApplyLines(e, []) == e
  {
  }
}
