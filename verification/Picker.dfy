/** The choice of compaction inputs. */
module Picker {
  import opened Bytes
  import opened Store
  import opened Manifest
  import opened Compaction

  function NumberSet(fs: seq<FileEntry>): set<nat> {
    set i | 0 <= i < |fs| :: fs[i].number
  }

  /** The range spanned by the inputs; an empty bound is no bound yet. */
  method CombinedRange(inputs: seq<FileEntry>) returns (lo: Blob, hi: Blob)
    requires inputs != []
    ensures forall i :: 0 <= i < |inputs| ==> Within(inputs[i].meta, lo, hi)
    ensures lo == [] || exists i :: 0 <= i < |inputs| && inputs[i].meta.smallest == lo
    ensures hi == [] || exists i :: 0 <= i < |inputs| && inputs[i].meta.largest == hi
  {
    lo, hi := inputs[0].meta.smallest, inputs[0].meta.largest;
    for i := 0 to |inputs|
      invariant forall j :: 0 <= j < i && inputs[j].meta.smallest != [] ==> lo != [] && Leq(lo, inputs[j].meta.smallest)
      invariant forall j :: 0 <= j < i && inputs[j].meta.largest != [] ==> hi != [] && Leq(inputs[j].meta.largest, hi)
      invariant exists j :: 0 <= j < |inputs| && inputs[j].meta.smallest == lo
      invariant exists j :: 0 <= j < |inputs| && inputs[j].meta.largest == hi
    {
      var m := inputs[i].meta;
      if lo == [] || (m.smallest != [] && Less(m.smallest, lo)) {
        LowerAll(inputs, i, lo, m.smallest);
        lo := m.smallest;
      } else {
        LessTotal(m.smallest, lo);
      }
      if hi == [] || (m.largest != [] && Less(hi, m.largest)) {
        RaiseAll(inputs, i, hi, m.largest);
        hi := m.largest;
      } else {
        LessTotal(m.largest, hi);
      }
    }
  }

  lemma LowerAll(inputs: seq<FileEntry>, n: nat, lo: Blob, next: Blob)
    requires n <= |inputs| && (lo == [] || (next != [] && Less(next, lo)))
    requires forall j :: 0 <= j < n && inputs[j].meta.smallest != [] ==> lo != [] && Leq(lo, inputs[j].meta.smallest)
    ensures forall j :: 0 <= j < n && inputs[j].meta.smallest != [] ==> next != [] && Leq(next, inputs[j].meta.smallest)
  {
    forall j | 0 <= j < n && inputs[j].meta.smallest != [] ensures next != [] && Leq(next, inputs[j].meta.smallest) {
      LeqTrans(next, lo, inputs[j].meta.smallest);
    }
  }

  lemma RaiseAll(inputs: seq<FileEntry>, n: nat, hi: Blob, next: Blob)
    requires n <= |inputs| && (hi == [] || (next != [] && Less(hi, next)))
    requires forall j :: 0 <= j < n && inputs[j].meta.largest != [] ==> hi != [] && Leq(inputs[j].meta.largest, hi)
    ensures forall j :: 0 <= j < n && inputs[j].meta.largest != [] ==> next != [] && Leq(inputs[j].meta.largest, next)
  {
    forall j | 0 <= j < n && inputs[j].meta.largest != [] ensures next != [] && Leq(inputs[j].meta.largest, next) {
      LeqTrans(inputs[j].meta.largest, hi, next);
    }
  }

  /** Exactly the files of one level. */
  ghost predicate Picks(files: seq<FileEntry>, picked: seq<FileEntry>, level: nat) {
    forall f :: f in picked <==> f in files && f.meta.level == level
  }

  method OfLevel(files: seq<FileEntry>, level: nat) returns (inputs: seq<FileEntry>)
    ensures Picks(files, inputs, level)
  {
    inputs := [];
    for i := 0 to |files|
      invariant Picks(files[..i], inputs, level)
    {
      assert files[..i + 1] == files[..i] + [files[i]];
      if files[i].meta.level == level {
        inputs := inputs + [files[i]];
      }
    }
    assert files[..|files|] == files;
  }

  method Contains(inputs: seq<FileEntry>, number: nat) returns (found: bool)
    ensures found <==> exists i :: 0 <= i < |inputs| && inputs[i].number == number
  {
    for i := 0 to |inputs|
      invariant forall j :: 0 <= j < i ==> inputs[j].number != number
    {
      if inputs[i].number == number {
        return true;
      }
    }
    return false;
  }

  /** Adds the files of a level that overlap the range and are not there yet. */
  method AddOverlapping(files: seq<FileEntry>, level: nat, range: Meta, inputs: seq<FileEntry>)
    returns (all: seq<FileEntry>)
    requires Distinct(files) && (forall f :: f in inputs ==> f in files)
    ensures inputs <= all
    ensures forall f :: f in all <==> f in inputs || (f in files && f.meta.level == level && RangesOverlap(f.meta, range))
  {
    all := inputs;
    for i := 0 to |files|
      invariant inputs <= all
      invariant forall f :: f in all <==>
                  f in inputs || (f in files[..i] && f.meta.level == level && RangesOverlap(f.meta, range))
    {
      assert files[..i + 1] == files[..i] + [files[i]];
      if files[i].meta.level == level && RangesOverlap(files[i].meta, range) {
        var known := Contains(all, files[i].number);
        if known {
          SameNumber(files, all, files[i]);
        } else {
          all := all + [files[i]];
        }
      }
    }
    assert files[..|files|] == files;
  }

  /** Without repeated numbers, an entry with the number of a file is that file. */
  lemma SameNumber(files: seq<FileEntry>, all: seq<FileEntry>, f: FileEntry)
    requires Distinct(files) && f in files && (forall g :: g in all ==> g in files)
    requires exists i :: 0 <= i < |all| && all[i].number == f.number
    ensures f in all
  {
    var i :| 0 <= i < |all| && all[i].number == f.number;
    assert all[i] in all;
    var a :| 0 <= a < |files| && files[a] == all[i];
    var b :| 0 <= b < |files| && files[b] == f;
  }

  function JobFor(inputs: seq<FileEntry>, target: nat, lo: Blob, hi: Blob): Job {
    Job(0, NumberSet(inputs), target, lo, hi, 0, 0, {}, false)
  }

  /** The choice made at capture: all of level 0 and what it overlaps in level 1, or all of
      level 1 and what it overlaps in level 2. */
  method PickInputs(files: seq<FileEntry>) returns (inputs: seq<FileEntry>, target: nat, lo: Blob, hi: Blob)
    requires Distinct(files)
    ensures (forall f :: f in inputs ==> f in files) && 1 <= target <= 2
    ensures inputs == [] <==> forall f :: f in files ==> f.meta.level != 0 && f.meta.level != 1
    ensures target == 2 <==> forall f :: f in files ==> f.meta.level != 0
    ensures inputs != [] ==> Selects(FileMap(files), JobFor(inputs, target, lo, hi))
  {
    hide FileMap, Selects, RangesOverlap, Within;
    inputs := OfLevel(files, 0);
    target, lo, hi := 1, [], [];
    if inputs == [] {
      inputs := OfLevel(files, 1);
      target := 2;
    } else {
      assert inputs[0] in inputs;
    }
    if inputs == [] {
      return;
    }
    ghost var source := inputs;
    lo, hi := CombinedRange(inputs);
    inputs := AddOverlapping(files, target, Meta(target, lo, hi, 0), inputs);
    Picked(files, source, inputs, target, lo, hi);
    assert source[0] in source;
  }

  lemma Picked(files: seq<FileEntry>, source: seq<FileEntry>, inputs: seq<FileEntry>, target: nat, lo: Blob, hi: Blob)
    requires Distinct(files) && 1 <= target <= 2 && Picks(files, source, target - 1)
    requires target == 2 ==> forall f :: f in files ==> f.meta.level != 0
    requires forall i :: 0 <= i < |source| ==> Within(source[i].meta, lo, hi)
    requires forall f :: f in inputs <==>
               f in source || (f in files && f.meta.level == target && RangesOverlap(f.meta, Meta(target, lo, hi, 0)))
    ensures Selects(FileMap(files), JobFor(inputs, target, lo, hi))
  {
    hide FileMap, RangesOverlap, Within;
    var j, fm := JobFor(inputs, target, lo, hi), FileMap(files);
    forall n | n in fm ensures FileEntry(n, fm[n]) in files {
      FileMapKeys(files);
      var i :| 0 <= i < |files| && files[i].number == n;
      FileMapAt(files, i);
      assert files[i] == FileEntry(n, fm[n]);
    }
    forall f | f in files ensures f.number in fm && fm[f.number] == f.meta {
      var i :| 0 <= i < |files| && files[i] == f;
      FileMapAt(files, i);
    }
    forall n | n in fm && fm[n].level == target - 1 ensures Within(fm[n], lo, hi) {
      var f := FileEntry(n, fm[n]);
      assert f in source;
      var i :| 0 <= i < |source| && source[i] == f;
    }
    forall n ensures n in j.inputs <==> n in fm && (fm[n].level == target - 1 || (fm[n].level == target && RangesOverlap(fm[n], Hull(j)))) {
      if n in j.inputs {
        var i :| 0 <= i < |inputs| && inputs[i].number == n;
        assert inputs[i] in inputs;
      } else if n in fm {
        var f := FileEntry(n, fm[n]);
        assert f in files;
        assert forall i :: 0 <= i < |inputs| ==> inputs[i].number != n;
      }
    }
  }
}
