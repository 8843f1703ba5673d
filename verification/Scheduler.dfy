/** When compactions run: MaybeCompact after a flush, on the worker thread. */
module Scheduler {
  import opened Bytes
  import opened Store
  import opened Manifest
  import opened Picker
  import Compaction

  function Level0Count(fs: seq<FileEntry>): nat {
    if fs == [] then 0 else Level0Count(fs[..|fs| - 1]) + if fs[|fs| - 1].meta.level == 0 then 1 else 0
  }

  function Level1Size(fs: seq<FileEntry>): nat {
    if fs == [] then 0 else Level1Size(fs[..|fs| - 1]) + if fs[|fs| - 1].meta.level == 1 then fs[|fs| - 1].meta.size else 0
  }

  predicate NoLevel(fs: seq<FileEntry>, level: nat) {
    forall f :: f in fs ==> f.meta.level != level
  }

  lemma {:induction false} NothingCounted(fs: seq<FileEntry>)
    ensures NoLevel(fs, 0) ==> Level0Count(fs) == 0
    ensures NoLevel(fs, 1) ==> Level1Size(fs) == 0
  {
    if fs != [] {
      NothingCounted(fs[..|fs| - 1]);
      assert fs[|fs| - 1] in fs;
    }
  }

  /** The two sums as the code takes them. */
  method Measure(fs: seq<FileEntry>) returns (count: nat, size: nat)
    ensures count == Level0Count(fs) && size == Level1Size(fs)
  {
    count, size := 0, 0;
    for i := 0 to |fs|
      invariant count == Level0Count(fs[..i]) && size == Level1Size(fs[..i])
    {
      assert fs[..i + 1][..i] == fs[..i];
      if fs[i].meta.level == 0 {
        count := count + 1;
      } else if fs[i].meta.level == 1 {
        size := size + fs[i].meta.size;
      }
    }
    assert fs[..|fs|] == fs;
  }

  /** What building an output may give: a failure, or a file of some size and range. */
  datatype Output = Failed | Built(number: nat, smallest: Blob, largest: Blob, size: nat)

  ghost predicate Fresh(fs: seq<FileEntry>, outs: seq<Output>) {
    && (forall i, f :: 0 <= i < |outs| && outs[i].Built? && f in fs ==> f.number < outs[i].number)
    && forall i, j :: 0 <= i < j < |outs| && outs[i].Built? && outs[j].Built? ==> outs[i].number < outs[j].number
  }

  /** The live files with the inputs replaced by the output. */
  method ReplaceInputs(fs: seq<FileEntry>, inputs: seq<FileEntry>, out: FileEntry) returns (r: seq<FileEntry>)
    requires Distinct(fs) && (forall f :: f in inputs ==> f in fs) && forall f :: f in fs ==> f.number < out.number
    ensures Distinct(r) && forall f :: f in r <==> f == out || (f in fs && f !in inputs)
  {
    r := [];
    for i := 0 to |fs|
      invariant forall f :: f in r <==> f in fs[..i] && f !in inputs
      invariant Distinct(r)
    {
      assert fs[..i + 1] == fs[..i] + [fs[i]];
      var known := Contains(inputs, fs[i].number);
      if known {
        SameNumber(fs, inputs, fs[i]);
      } else {
        forall k | 0 <= k < |r| ensures r[k].number != fs[i].number {
          assert r[k] in fs[..i];
        }
        r := r + [fs[i]];
      }
    }
    assert fs[..|fs|] == fs;
    forall k | 0 <= k < |r| ensures r[k].number < out.number {
      assert r[k] in r;
    }
    r := r + [out];
  }

  class Worker {
    const level0Limit: nat
    const level1Limit: nat
    const closed: bool
    var files: seq<FileEntry>
    var compactions: nat

    /** CompactUnlocked: level 0 goes away if there is any, otherwise level 1 does. */
    method CompactUnlocked(out: Output) returns (ok: bool)
      requires Distinct(files) && Fresh(files, [out])
      modifies this
      ensures Distinct(files) && forall f :: f in files ==> f in old(files) || (out.Built? && f.number == out.number)
      ensures ok <==> out.Built? || (NoLevel(old(files), 0) && NoLevel(old(files), 1))
      ensures !ok ==> files == old(files) && compactions == old(compactions)
      ensures ok ==> NoLevel(files, 0) && (NoLevel(old(files), 0) ==> NoLevel(files, 1))
      ensures ok && !(NoLevel(old(files), 0) && NoLevel(old(files), 1)) ==> compactions == old(compactions) + 1
    {
      var inputs, target, lo, hi := PickInputs(files);
      if inputs == [] {
        return true;
      }
      if out == Failed {
        return false;
      }
      ghost var was := files;
      assert out in [out];
      var next := ReplaceInputs(files, inputs, FileEntry(out.number, Meta(target, out.smallest, out.largest, out.size)));
      TakenLevel(was, inputs, target, lo, hi);
      files, compactions := next, compactions + 1;
      ok := true;
    }

    /** MaybeCompact: on success the limits hold, and two compactions were enough. */
    method MaybeCompact(outs: seq<Output>) returns (ok: bool)
      requires Distinct(files) && |outs| == 4 && Fresh(files, outs)
      modifies this
      ensures Distinct(files)
      ensures ok && !closed ==> Level0Count(files) <= level0Limit && Level1Size(files) <= level1Limit
      ensures compactions <= old(compactions) + 2
    {
      hide Level0Count, Level1Size;
      for attempts := 0 to 4
        invariant Distinct(files) && Fresh(files, outs[attempts..])
        invariant compactions <= old(compactions) + attempts && attempts <= 2
        invariant attempts >= 1 ==> NoLevel(files, 0)
        invariant attempts >= 2 ==> NoLevel(files, 1)
      {
        if closed {
          return true;
        }
        var count, size := Measure(files);
        NothingCounted(files);
        if count > level0Limit || size > level1Limit {
          FreshFirst(files, outs[attempts..]);
          ghost var was := files;
          ok := CompactUnlocked(outs[attempts]);
          if !ok {
            return false;
          }
          FreshNext(was, files, outs[attempts..]);
          assert outs[attempts..][1..] == outs[attempts + 1..];
        } else {
          return true;
        }
      }
      return true;
    }
  }

  lemma FreshFirst(fs: seq<FileEntry>, outs: seq<Output>)
    requires Fresh(fs, outs) && outs != []
    ensures Fresh(fs, [outs[0]])
  {
  }

  lemma FreshNext(was: seq<FileEntry>, now: seq<FileEntry>, outs: seq<Output>)
    requires Fresh(was, outs) && outs != []
    requires forall f :: f in now ==> f in was || (outs[0].Built? && f.number == outs[0].number)
    ensures Fresh(now, outs[1..])
  {
    var rest := outs[1..];
    assert forall i :: 0 <= i < |rest| ==> rest[i] == outs[i + 1];
  }

  /** Every file of the source level is an input. */
  lemma TakenLevel(fs: seq<FileEntry>, inputs: seq<FileEntry>, target: nat, lo: Blob, hi: Blob)
    requires Distinct(fs) && inputs != [] && Compaction.Selects(FileMap(fs), JobFor(inputs, target, lo, hi))
    requires forall f :: f in inputs ==> f in fs
    ensures forall f :: f in fs && f.meta.level == target - 1 ==> f in inputs
    ensures target == 2 ==> NoLevel(fs, 0)
  {
    hide FileMap;
    forall f | f in fs ensures f.number in FileMap(fs) && FileMap(fs)[f.number] == f.meta {
      var i :| 0 <= i < |fs| && fs[i] == f;
      FileMapAt(fs, i);
    }
    forall f | f in fs && f.meta.level == target - 1 ensures f in inputs {
      assert f.number in JobFor(inputs, target, lo, hi).inputs;
      SameNumber(fs, inputs, f);
    }
  }
}
