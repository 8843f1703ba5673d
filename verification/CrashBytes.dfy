/**
 A crash on the bytes of the files.  Whatever byte prefix of the manifest and of each log file
 survives, as long as it holds what was synced, reading the files gives exactly the records
 and batches of a crash step of the state machine.
 */
module CrashBytes {
  import opened Bytes
  import opened Versions
  import opened Store
  import opened Engine
  import opened EngineInv
  import opened EngineTheorems
  import EngineTorn
  import M = Manifest
  import ML = ManifestLog
  import Wal

  /** The bytes of the manifest and of the log files. */
  datatype Dir = Dir(manifest: Blob, logs: map<nat, Blob>)

  /** How records are written: checksums, and the parsing of a manifest record. */
  datatype Format = Format(manifestSum: ML.Checksum, logSum: Wal.Checksum, parse: ML.Parser)

  /** These payloads are the text of the manifest records of the disk. */
  ghost predicate Texts(fmt: Format, disk: Disk, ps: seq<Blob>, recs: seq<seq<M.Line>>) {
    && |recs| == |disk.log| && ML.Texts(fmt.parse, ps, recs)
    && (forall i :: 0 <= i < |ps| ==> |ps[i]| <= MAX_U64)
    && forall i, e :: 0 <= i < |recs| ==> M.ApplyLines(e, recs[i]) == ApplyRec(e, disk.log[i])
  }

  /** What has been written to one log file, the record of a failed append included. */
  function Batches(disk: Disk, w: nat): seq<Batch>
    requires w in disk.wals
  {
    disk.wals[w] + if disk.limbo.Some? && disk.limbo.value.wal == w then [disk.limbo.value.batch] else []
  }

  /** What a failed append has left of its record at the end of a log file. */
  datatype Scrap = Scrap(bytes: Blob, batch: Batch)

  ghost predicate ScrapOk(fmt: Format, x: Scrap) {
    x.bytes == [] || (Wal.Writable(x.batch) && x.bytes < Wal.Record(fmt.logSum, x.batch))
  }

  /** What is left of records that were cut short: the start of a manifest record of torn with
      parts of later ones behind it, and a scrap in each log file. */
  datatype Cuts = Cuts(torn: Blob, own: Blob, more: Blob, scraps: map<nat, Scrap>)

  /** The files as they are before a crash. */
  ghost predicate Written(fmt: Format, disk: Disk, ps: seq<Blob>, cuts: Cuts, dir: Dir) {
    && dir.manifest == ML.Image(fmt.manifestSum, ps) + (cuts.own + cuts.more)
    && ML.Pending(fmt.manifestSum, cuts.torn, cuts.own, cuts.more) && |cuts.torn| <= MAX_U64
    && (cuts.own == [] <==> disk.torn.None?)
    && dir.logs.Keys == cuts.scraps.Keys == disk.wals.Keys
    && forall w :: w in disk.wals ==>
         && dir.logs[w] == Wal.Concat(fmt.logSum, Batches(disk, w)) + cuts.scraps[w].bytes && ScrapOk(fmt, cuts.scraps[w])
         && forall b :: b in Batches(disk, w) ==> Wal.Writable(b)
  }

  /** What a crash may leave of them: any prefixes that hold what was synced. */
  ghost predicate Survives(fmt: Format, disk: Disk, ps: seq<Blob>, dir: Dir, left: Dir) {
    && left.manifest <= dir.manifest && disk.synced <= |ps|
    && |ML.Image(fmt.manifestSum, ps[..disk.synced])| <= |left.manifest|
    && left.logs.Keys == dir.logs.Keys == disk.wals.Keys
    && forall w :: w in disk.wals ==>
         left.logs[w] <= dir.logs[w] && |Wal.Concat(fmt.logSum, disk.wals[w])| <= |left.logs[w]|
  }

  // ------------------------------------------------------------------- whole records

  lemma {:induction false} ImageHolds(crc: ML.Checksum, ps: seq<Blob>, k: nat, n: nat)
    requires k <= |ps| && |ML.Image(crc, ps[..k])| <= n
    ensures ML.Whole(crc, ps, n) >= k
    decreases k
  {
    hide ML.Framed;
    if k > 0 {
      ML.ImageTake(crc, ps, k - 1);
      ImageHolds(crc, ps[1..], k - 1, n - |ML.Framed(crc, ps[0])|);
    }
  }

  lemma {:induction false} ConcatHolds(crc: Wal.Checksum, bs: seq<Batch>, k: nat, n: nat)
    requires k <= |bs| && |Wal.Concat(crc, bs[..k])| <= n
    ensures Wal.Whole(crc, bs, n) >= k
    decreases k
  {
    hide Wal.Record;
    if k > 0 {
      Wal.ConcatTake(crc, bs, k - 1);
      ConcatHolds(crc, bs[1..], k - 1, n - |Wal.Record(crc, bs[0])|);
    }
  }

  /** A prefix of the manifest reads as its whole records, at least the synced ones. */
  lemma ManifestReads(fmt: Format, disk: Disk, ps: seq<Blob>, cuts: Cuts, dir: Dir, left: Dir) returns (kept: nat)
    requires (forall i :: 0 <= i < |ps| ==> |ps[i]| <= MAX_U64)
    requires Written(fmt, disk, ps, cuts, dir) && Survives(fmt, disk, ps, dir, left)
    ensures disk.synced <= kept <= |ps|
    ensures ML.ReadFrames(fmt.manifestSum, left.manifest) == ML.Frames(ps[..kept], |ML.Image(fmt.manifestSum, ps[..kept])|)
  {
    hide ML.ReadFrames, ML.Image, ML.Whole, ML.Pending, Wal.Concat, Wal.Writable;
    var crc, image := fmt.manifestSum, ML.Image(fmt.manifestSum, ps);
    if |left.manifest| < |image| {
      assert left.manifest <= image;
      ML.FramesPrefix(crc, ps, left.manifest);
      kept := ML.Whole(crc, ps, |left.manifest|);
      ImageHolds(crc, ps, disk.synced, |left.manifest|);
    } else {
      kept := |ps|;
      assert ps[..kept] == ps;
      var rest := left.manifest[|image|..];
      assert left.manifest == image + rest && rest <= cuts.own + cuts.more;
      NothingMore(crc, cuts.torn, cuts.own, cuts.more, rest);
      ML.FramesBefore(crc, ps, rest);
      assert ps + [] == ps;
    }
  }

  lemma NothingMore(crc: ML.Checksum, torn: Blob, own: Blob, more: Blob, rest: Blob)
    requires |torn| <= MAX_U64 && ML.Pending(crc, torn, own, more) && rest <= own + more
    ensures ML.ReadFrames(crc, rest) == ML.Frames([], 0)
  {
    hide ML.Pending, ML.ReadFrame;
    if rest == [] {
      ML.NoFrame(crc);
    } else {
      ML.ReadPending(crc, torn, own, more, rest);
    }
  }

  /** A prefix of a log file reads as its synced batches, or as those and the unsynced one. */
  lemma LogReads(fmt: Format, bs: seq<Batch>, extra: seq<Batch>, x: Scrap, left: Blob) returns (m: nat)
    requires |extra| <= 1 && (forall b :: b in bs + extra ==> Wal.Writable(b)) && ScrapOk(fmt, x)
    requires left <= Wal.Concat(fmt.logSum, bs + extra) + x.bytes && |Wal.Concat(fmt.logSum, bs)| <= |left|
    ensures m == |bs| || m == |bs + extra|
    ensures Wal.ReadLog(fmt.logSum, left) == Wal.Log((bs + extra)[..m], |Wal.Concat(fmt.logSum, (bs + extra)[..m])|)
  {
    hide Wal.ReadLog, Wal.Concat, Wal.Whole, Wal.Writable, Wal.Record;
    var crc, own := fmt.logSum, bs + extra;
    var all := if x.bytes == [] then own else own + [x.batch];
    ConcatSnoc(crc, own, x.batch);
    assert Wal.Concat(crc, own) + [] == Wal.Concat(crc, own);
    Wal.WalPrefix(crc, all, left);
    Wal.WholeMeans(crc, all, |left|);
    m := Wal.Whole(crc, all, |left|);
    assert all[..|bs|] == bs && all[..|all|] == all;
    ConcatHolds(crc, all, |bs|, |left|);
    assert m <= |own|;
    assert all[..m] == own[..m];
  }

  lemma {:induction false} ConcatSnoc(crc: Wal.Checksum, bs: seq<Batch>, b: Batch)
    ensures Wal.Concat(crc, bs + [b]) == Wal.Concat(crc, bs) + Wal.Record(crc, b)
  {
    hide Wal.Record;
    if bs == [] {
      assert [] + [b] == [b] && [b][1..] == [];
    } else {
      ConcatSnoc(crc, bs[1..], b);
      assert (bs + [b])[1..] == bs[1..] + [b];
    }
  }

  lemma {:induction false} TextsReplay(fmt: Format, disk: Disk, ps: seq<Blob>, recs: seq<seq<M.Line>>, k: nat)
    requires Texts(fmt, disk, ps, recs) && k <= |recs|
    ensures ML.ApplyAll(ML.EMPTY, recs[..k]) == Replay(disk.log[..k])
  {
    hide M.ApplyLines, ApplyRec, ML.Texts;
    if k > 0 {
      TextsReplay(fmt, disk, ps, recs, k - 1);
      assert recs[..k][..k - 1] == recs[..k - 1] && disk.log[..k][..k - 1] == disk.log[..k - 1];
    }
  }

  // ------------------------------------------------------------------------ the crash

  /** Reading what is left gives the crash step's manifest edit and log files. */
  ghost predicate ReadsAs(fmt: Format, left: Dir, disk: Disk, recs: seq<seq<M.Line>>, kept: nat) {
    && kept <= |recs| && ML.ReadFrames(fmt.manifestSum, left.manifest).Frames?
    && |ML.ReadFrames(fmt.manifestSum, left.manifest).payloads| == kept
    && ML.ApplyAll(ML.EMPTY, recs[..kept]) == Replay(disk.log)
    && left.logs.Keys == Absorbed(disk).Keys
    && forall w :: w in left.logs ==>
         Wal.ReadLog(fmt.logSum, left.logs[w]).Log? && Wal.ReadLog(fmt.logSum, left.logs[w]).batches == Absorbed(disk)[w]
  }

  /** Whatever prefixes survive, they read as the outcome of a crash step; and if nothing was
      appended behind a torn manifest record, the database opens from them with the fold of
      the committed batches. */
  lemma CrashOnBytes(fmt: Format, states: seq<State>, steps: seq<Step>, i: nat, ps: seq<Blob>, recs: seq<seq<M.Line>>,
                     cuts: Cuts, dir: Dir, left: Dir)
    returns (kept: nat, keepLimbo: bool, tear: Option<Tear>)
    requires Run(states, steps) && i < |states| && NeverCut(steps, i) && Readable(states[i].disk)
    requires Texts(fmt, states[i].disk, ps, recs)
    requires Written(fmt, states[i].disk, ps, cuts, dir) && Survives(fmt, states[i].disk, ps, dir, left)
    ensures CanCrash(states[i], kept, tear)
    ensures var c := DoCrash(states[i], kept, keepLimbo, tear);
            ReadsAs(fmt, left, c.disk, recs, kept) && EngineTorn.Openable(c)
  {
    hide Run, Inv, EngineTorn.Openable, Wal.ReadLog, Wal.Concat, Wal.Writable, ML.ReadFrames, ML.Image, ML.Framed, ML.ApplyAll, Replay,
      Texts, Written, Survives;
    var s := states[i];
    RunInv(states, steps, i);
    EngineTorn.RunTear(states, steps, i);
    kept := ManifestPart(fmt, s.disk, ps, recs, cuts, dir, left);
    tear := if s.disk.torn.Some? && s.disk.torn.value.at == kept then s.disk.torn else None;
    LimboFact(s);
    keepLimbo := LogPart(fmt, s, ps, cuts, dir, left);
    LogsPart(fmt, s, ps, dir, left, keepLimbo, kept, tear);
    EngineTorn.CrashOpens(s, kept, keepLimbo, tear);
  }

  lemma ManifestPart(fmt: Format, disk: Disk, ps: seq<Blob>, recs: seq<seq<M.Line>>, cuts: Cuts, dir: Dir, left: Dir)
    returns (kept: nat)
    requires Texts(fmt, disk, ps, recs) && Written(fmt, disk, ps, cuts, dir) && Survives(fmt, disk, ps, dir, left)
    ensures disk.synced <= kept <= |recs| == |disk.log|
    ensures ML.ReadFrames(fmt.manifestSum, left.manifest) == ML.Frames(ps[..kept], |ML.Image(fmt.manifestSum, ps[..kept])|)
    ensures kept <= |ps| && ML.ApplyAll(ML.EMPTY, recs[..kept]) == Replay(disk.log[..kept])
  {
    hide Written, Survives, ML.ReadFrames, ML.Image, ML.ApplyAll, Replay;
    kept := ManifestReads(fmt, disk, ps, cuts, dir, left);
    TextsReplay(fmt, disk, ps, recs, kept);
  }

  predicate LimboThere(disk: Disk) {
    disk.limbo.Some? ==> disk.limbo.value.wal in disk.wals
  }

  lemma LimboFact(s: State)
    requires Inv(s)
    ensures LimboThere(s.disk)
  {
    hide LiveInv, TopInv, LogInv, WalsOrdered, ReaderInv, PastInv, LastSeq, History;
  }

  ghost function Kept(disk: Disk, keepLimbo: bool, w: nat): seq<Batch>
    requires w in disk.wals
  {
    if keepLimbo then Batches(disk, w) else disk.wals[w]
  }

  /** Whether the unsynced record is among what is read. */
  lemma LogPart(fmt: Format, s: State, ps: seq<Blob>, cuts: Cuts, dir: Dir, left: Dir) returns (keepLimbo: bool)
    requires Written(fmt, s.disk, ps, cuts, dir) && Survives(fmt, s.disk, ps, dir, left) && LimboThere(s.disk)
    ensures forall w :: w in s.disk.wals ==>
              Wal.ReadLog(fmt.logSum, left.logs[w]).Log? && Wal.ReadLog(fmt.logSum, left.logs[w]).batches == Kept(s.disk, keepLimbo, w)
  {
    hide Wal.ReadLog, Wal.Concat, Wal.Writable, ML.Image, ML.Framed;
    keepLimbo := false;
    if s.disk.limbo.Some? {
      var x := s.disk.limbo.value.wal;
      var m := OneLog(fmt, s.disk, ps, cuts, dir, left, x);
      keepLimbo := m == |Batches(s.disk, x)|;
    }
    forall w | w in s.disk.wals
      ensures Wal.ReadLog(fmt.logSum, left.logs[w]).Log? && Wal.ReadLog(fmt.logSum, left.logs[w]).batches == Kept(s.disk, keepLimbo, w)
    {
      var m := OneLog(fmt, s.disk, ps, cuts, dir, left, w);
      var all := Batches(s.disk, w);
      assert all[..|all|] == all && all[..|s.disk.wals[w]|] == s.disk.wals[w];
    }
  }

  lemma OneLog(fmt: Format, disk: Disk, ps: seq<Blob>, cuts: Cuts, dir: Dir, left: Dir, w: nat) returns (m: nat)
    requires Written(fmt, disk, ps, cuts, dir) && Survives(fmt, disk, ps, dir, left) && w in disk.wals
    ensures w in left.logs && (m == |disk.wals[w]| || m == |Batches(disk, w)|)
    ensures m <= |Batches(disk, w)|
    ensures Wal.ReadLog(fmt.logSum, left.logs[w]) == Wal.Log(Batches(disk, w)[..m], |Wal.Concat(fmt.logSum, Batches(disk, w)[..m])|)
  {
    hide Wal.ReadLog, Wal.Concat, Wal.Writable, ML.Image, ML.Framed, ScrapOk;
    var extra := if disk.limbo.Some? && disk.limbo.value.wal == w then [disk.limbo.value.batch] else [];
    m := LogReads(fmt, disk.wals[w], extra, cuts.scraps[w], left.logs[w]);
  }

  lemma LogsPart(fmt: Format, s: State, ps: seq<Blob>, dir: Dir, left: Dir, keepLimbo: bool, kept: nat, tear: Option<Tear>)
    requires Survives(fmt, s.disk, ps, dir, left) && LimboThere(s.disk) && CanCrash(s, kept, tear)
    requires forall w :: w in s.disk.wals ==>
               Wal.ReadLog(fmt.logSum, left.logs[w]).Log? && Wal.ReadLog(fmt.logSum, left.logs[w]).batches == Kept(s.disk, keepLimbo, w)
    ensures var d := DoCrash(s, kept, keepLimbo, tear).disk;
            && left.logs.Keys == Absorbed(d).Keys
            && forall w :: w in left.logs ==>
                 Wal.ReadLog(fmt.logSum, left.logs[w]).Log? && Wal.ReadLog(fmt.logSum, left.logs[w]).batches == Absorbed(d)[w]
  {
    hide Wal.ReadLog, Wal.Concat, ML.Image, TearLeft;
    var d := DoCrash(s, kept, keepLimbo, tear).disk;
    forall w | w in s.disk.wals ensures w in Absorbed(d) && Absorbed(d)[w] == Kept(s.disk, keepLimbo, w) {
      assert s.disk.wals[w] + [] == s.disk.wals[w];
    }
  }

  // ------------------------------------------------------------ behind a torn record

  /** The manifest when whole records follow the first n bytes of a record of torn. */
  function Behind(fmt: Format, ps: seq<Blob>, at: nat, torn: Blob, n: nat): Blob
    requires at <= |ps| && n <= |ML.Framed(fmt.manifestSum, torn)|
  {
    ML.Image(fmt.manifestSum, ps[..at]) + (ML.Framed(fmt.manifestSum, torn)[..n] + ML.Image(fmt.manifestSum, ps[at..]))
  }

  /** A manifest that is not readable as a whole: cut in its header the torn record makes it
      refused, and cut in its payload too, unless what follows is short of the announced bytes,
      and is dropped, or has their checksum. */
  lemma UnreadableOnBytes(fmt: Format, disk: Disk, ps: seq<Blob>, torn: Blob, n: nat)
    requires (forall i :: 0 <= i < |ps| ==> |ps[i]| <= MAX_U64) && |torn| <= MAX_U64
    requires disk.torn.Some? && disk.torn.value.at < |disk.log| == |ps|
    requires 0 < n < |ML.Framed(fmt.manifestSum, torn)|
    requires disk.torn.value.header <==> n <= |ML.HeaderLine(|torn|, fmt.manifestSum(torn))|
    ensures var at, read := disk.torn.value.at, ML.ReadFrames(fmt.manifestSum, Behind(fmt, ps, disk.torn.value.at, torn, n));
            var have := n - (|ML.HeaderLine(|torn|, fmt.manifestSum(torn))| + 1);
            var rest := ML.Image(fmt.manifestSum, ps[at..]);
            && (disk.torn.value.header ==> read == ML.Broken)
            && (!disk.torn.value.header && have + |rest| < |torn| ==>
                  read == ML.Frames(ps[..at], |ML.Image(fmt.manifestSum, ps[..at])|))
            && (!disk.torn.value.header && have <= |torn| <= have + |rest| ==>
                  fmt.manifestSum(torn[..have] + rest[..|torn| - have]) != fmt.manifestSum(torn) ==> read == ML.Broken)
  {
    hide ML.ReadFrames, ML.Image, ML.Framed, ML.HeaderLine;
    var crc, at := fmt.manifestSum, disk.torn.value.at;
    FirstRecord(crc, ps[at..]);
    ML.ReadBehindCut(crc, ps[..at], torn, n, ML.Image(crc, ps[at..]), ps[at]);
    ML.FramedSize(crc, torn);
    assert ps[..at] + [] == ps[..at];
  }

  lemma FirstRecord(crc: ML.Checksum, ps: seq<Blob>)
    requires ps != []
    ensures ML.Framed(crc, ps[0]) <= ML.Image(crc, ps)
  {
    hide ML.Framed;
  }
}
