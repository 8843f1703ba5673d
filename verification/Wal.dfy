/**
 The write-ahead log file: record framing, appending, reading and cutting off a
 torn tail.  The checksum is any function of the bytes.
 */
module Wal {
  import opened Bytes
  import opened Codec
  import opened Versions
  import opened WriteBatchCodec

  const MAGIC: nat := 0x41574c4b
  const HEADER: nat := 25
  const MAX_SEQ: nat := 0xffff_ffff_ffff_ffff

  type Checksum = Blob -> U32

  /** What AppendBatch accepts. */
  predicate Writable(b: Batch) {
    b.ops != [] && Encodable(b.ops) && 1 <= b.first && b.first + |b.ops| - 1 <= MAX_SEQ
  }

  function Header(b: Batch): Blob {
    [1] + Fixed(b.first, 8) + Fixed(|b.ops|, 4) + Fixed(|EncodeOps(b.ops)|, 4)
  }

  function Record(crc: Checksum, b: Batch): Blob {
    Fixed(MAGIC, 4) + Header(b) + Fixed(crc(Header(b) + EncodeOps(b.ops)), 4) + EncodeOps(b.ops)
  }

  datatype Read = Eof | Torn | Corrupt | Rec(batch: Batch, size: nat)

  /** The first record of the remaining bytes. */
  function ReadHead(crc: Checksum, f: Blob): (r: Read)
    ensures r.Rec? ==> 0 < r.size <= |f|
  {
    if f == [] then Eof
    else if |f| < 4 then Torn
    else if Get32(f, 0) != MAGIC then Corrupt
    else if |f| < HEADER then Torn
    else if f[4] != 1 then Corrupt
    else
      var first, count, size, sum := Get64(f, 5), Get32(f, 13), Get32(f, 17), Get32(f, 21);
      if count == 0 || first == 0 || count - 1 > MAX_SEQ - first then Corrupt
      else if size > |f| - HEADER then Torn
      else
        var payload := f[HEADER..HEADER + size];
        if crc(f[4..21] + payload) != sum then Corrupt
        else
          match DecodeOps(payload)
          case None => Corrupt
          case Some(ops) => if |ops| != count then Corrupt else Rec(Batch(first, ops), HEADER + size)
  }

  /** All records, and how many bytes of the file remain after a torn tail is cut. */
  datatype Log = Log(batches: seq<Batch>, kept: nat) | Bad

  function ReadLog(crc: Checksum, f: Blob): Log
    decreases |f|
  {
    match ReadHead(crc, f)
    case Eof => Log([], 0)
    case Torn => Log([], 0)
    case Corrupt => Bad
    case Rec(b, size) =>
      Prepend([b], size, ReadLog(crc, f[size..]))
  }

  /** The log whose first n bytes hold bs. */
  function Prepend(bs: seq<Batch>, n: nat, l: Log): Log {
    match l
    case Bad => Bad
    case Log(more, kept) => Log(bs + more, n + kept)
  }

  function Concat(crc: Checksum, bs: seq<Batch>): Blob {
    if bs == [] then [] else Record(crc, bs[0]) + Concat(crc, bs[1..])
  }

  // ------------------------------------------------------------------ one record

  lemma RecordFields(crc: Checksum, b: Batch)
    requires Writable(b)
    ensures var r, n := Record(crc, b), |EncodeOps(b.ops)|;
            && |r| == HEADER + n && Get32(r, 0) == MAGIC && r[4] == 1
            && Get64(r, 5) == b.first && Get32(r, 13) == |b.ops| && Get32(r, 17) == n
            && Get32(r, 21) == crc(Header(b) + EncodeOps(b.ops))
            && r[4..21] == Header(b) && r[HEADER..] == EncodeOps(b.ops)
  {
    hide EncodeOps, Encodable, Header, Fixed, Get32, Get64;
    var r, h, e := Record(crc, b), Header(b), EncodeOps(b.ops);
    var sum := crc(h + e);
    EncodableSizes(b.ops);
    HeaderFields(b);
    Parts(Fixed(MAGIC, 4), h, Fixed(sum, 4), e);
    SubSlice(r, 4, 21, 1, 9);
    SubSlice(r, 4, 21, 9, 13);
    SubSlice(r, 4, 21, 13, 17);
    assert r[4] == r[4..21][0];
    assert r[0..4] == r[..4];
    Slice32(r, 0, MAGIC);
    Slice64(r, 5, b.first);
    Slice32(r, 13, |b.ops|);
    Slice32(r, 17, |e|);
    Slice32(r, 21, sum);
  }

  lemma HeaderFields(b: Batch)
    ensures var h := Header(b);
            && |h| == 17 && h[0] == 1 && h[1..9] == Fixed(b.first, 8) && h[9..13] == Fixed(|b.ops|, 4)
            && h[13..17] == Fixed(|EncodeOps(b.ops)|, 4)
  {
    hide EncodeOps, Fixed;
    Parts([1], Fixed(b.first, 8), Fixed(|b.ops|, 4), Fixed(|EncodeOps(b.ops)|, 4));
    var h := Header(b);
    assert h[13..] == h[13..17];
  }

  lemma EncodableSizes(ops: seq<Op>)
    requires Encodable(ops)
    ensures |ops| <= MAX_U32 && |EncodeOps(ops)| <= MAX_U32
    ensures DecodeOps(EncodeOps(ops)) == Some(ops)
  {
    DecodeEncode(ops);
  }

  lemma SameField(p: Blob, r: Blob)
    requires p <= r
    ensures forall at: nat :: at + 4 <= |p| ==> Get32(p, at) == Get32(r, at)
    ensures forall at: nat :: at + 8 <= |p| ==> Get64(p, at) == Get64(r, at)
  {
    forall at: nat | at + 4 <= |p| ensures Get32(p, at) == Get32(r, at) {
      assert p[at..at + 4] == r[at..at + 4];
    }
    forall at: nat | at + 8 <= |p| ensures Get64(p, at) == Get64(r, at) {
      assert p[at..at + 8] == r[at..at + 8];
    }
  }

  /** A whole record reads back, whatever follows it. */
  lemma ReadWhole(crc: Checksum, b: Batch, rest: Blob)
    requires Writable(b)
    ensures ReadHead(crc, Record(crc, b) + rest) == Rec(b, |Record(crc, b)|)
  {
    hide EncodeOps, Record, Header, Encodable;
    var r := Record(crc, b);
    var f := r + rest;
    RecordFields(crc, b);
    EncodableSizes(b.ops);
    SameField(r, f);
    assert f[4..21] == r[4..21] && f[HEADER..|r|] == r[HEADER..];
  }

  /** Any proper, nonempty prefix of a record is a torn tail. */
  lemma ReadTorn(crc: Checksum, b: Batch, p: Blob)
    requires Writable(b) && p < Record(crc, b) && p != []
    ensures ReadHead(crc, p) == Torn
  {
    hide EncodeOps, Record, Header, Encodable;
    var r := Record(crc, b);
    RecordFields(crc, b);
    EncodableSizes(b.ops);
    SameField(p, r);
  }

  // -------------------------------------------------------------- prefix theorem

  /** How many whole records lie within the first n bytes. */
  function Whole(crc: Checksum, bs: seq<Batch>, n: nat): nat {
    if bs == [] || n < |Record(crc, bs[0])| then 0 else 1 + Whole(crc, bs[1..], n - |Record(crc, bs[0])|)
  }

  lemma {:induction false} WholeMeans(crc: Checksum, bs: seq<Batch>, n: nat)
    ensures var m := Whole(crc, bs, n);
            && m <= |bs| && |Concat(crc, bs[..m])| <= n
            && (m < |bs| ==> n < |Concat(crc, bs[..m + 1])|)
  {
    hide Record;
    var m := Whole(crc, bs, n);
    if m > 0 {
      WholeMeans(crc, bs[1..], n - |Record(crc, bs[0])|);
      assert bs[..m][1..] == bs[1..][..m - 1];
      assert m < |bs| ==> bs[..m + 1][1..] == bs[1..][..m];
    } else if bs != [] {
      assert bs[..1][1..] == [];
    }
  }

  /** Reading any byte prefix of a log returns exactly the batches wholly inside it,
      never a corruption and never part of a batch, and keeps just their bytes. */
  lemma {:induction false} WalPrefix(crc: Checksum, bs: seq<Batch>, p: Blob)
    requires (forall i :: 0 <= i < |bs| ==> Writable(bs[i])) && p <= Concat(crc, bs)
    ensures var m := Whole(crc, bs, |p|);
            m <= |bs| && ReadLog(crc, p) == Log(bs[..m], |Concat(crc, bs[..m])|)
    decreases |bs|
  {
    hide Record, Writable, ReadHead;
    if bs == [] {
      EofIsEnd(crc, []);
    } else {
      var r, rest := Record(crc, bs[0]), Concat(crc, bs[1..]);
      if |p| < |r| {
        EofIsEnd(crc, []);
        if p != [] {
          ShortPrefix(p, r, rest);
          ReadTorn(crc, bs[0], p);
        }
      } else {
        var q := p[|r|..];
        PrefixSplit(p, r, rest);
        ReadWhole(crc, bs[0], q);
        WalPrefix(crc, bs[1..], q);
        ConcatTake(crc, bs, Whole(crc, bs[1..], |q|));
      }
    }
  }

  lemma PrependNone(l: Log)
    ensures Prepend([], 0, l) == l
  {
  }

  lemma PrependTwice(a: seq<Batch>, n: nat, b: seq<Batch>, m: nat, l: Log)
    ensures Prepend(a, n, Prepend(b, m, l)) == Prepend(a + b, n + m, l)
  {
    if l.Log? {
      assert a + (b + l.batches) == (a + b) + l.batches;
    }
  }

  lemma PrependEnds(a: seq<Batch>, n: nat)
    ensures Prepend(a, n, Log([], 0)) == Log(a, n) && Prepend(a, n, Bad) == Bad
  {
  }

  lemma EofIsEnd(crc: Checksum, f: Blob)
    ensures ReadHead(crc, f) == Eof <==> f == []
  {
  }

  lemma ShortPrefix(p: Blob, r: Blob, rest: Blob)
    requires p <= r + rest && |p| < |r|
    ensures p < r
  {
    assert p == (r + rest)[..|p|] == r[..|p|];
  }

  lemma ConcatTake(crc: Checksum, bs: seq<Batch>, m: nat)
    requires m < |bs|
    ensures bs[..m + 1] == [bs[0]] + bs[1..][..m]
    ensures Concat(crc, bs[..m + 1]) == Record(crc, bs[0]) + Concat(crc, bs[1..][..m])
  {
    hide Record;
    assert bs[..m + 1][1..] == bs[1..][..m];
  }

  lemma PrefixSplit(p: Blob, r: Blob, rest: Blob)
    requires p <= r + rest && |p| >= |r|
    ensures p == r + p[|r|..] && p[|r|..] <= rest
  {
  }

  // ------------------------------------------------------------------- the file

  class WalFile {
    var bytes: Blob

    constructor ()
      ensures bytes == []
    {
      bytes := [];
    }

    /** AppendBatch without the sync: refuses what it cannot frame. */
    method Append(crc: Checksum, b: Batch) returns (ok: bool)
      modifies this
      ensures ok == (b.ops == [] || Writable(b))
      ensures bytes == if Writable(b) then old(bytes) + Record(crc, b) else old(bytes)
    {
      if b.ops == [] {
        return true;
      }
      if !Encodable(b.ops) || b.first == 0 || |b.ops| - 1 > MAX_SEQ - b.first {
        return false;
      }
      var payload := EncodeOps(b.ops);
      var header := [1] + Fixed(b.first, 8) + Fixed(|b.ops|, 4) + Fixed(|payload|, 4);
      bytes := bytes + (Fixed(MAGIC, 4) + header + Fixed(crc(header + payload), 4) + payload);
      return true;
    }
  }

  /** Reads records in order; a torn tail is cut off the file and reads as the end. */
  class WalReader {
    const file: WalFile
    var pos: nat

    constructor (f: WalFile)
      ensures file == f && pos == 0
    {
      file := f;
      pos := 0;
    }

    method ReadNext(crc: Checksum) returns (r: Read)
      requires pos <= |file.bytes|
      modifies this, file
      ensures old(ReadHead(crc, file.bytes[pos..])) == Torn ==>
                r == Eof && file.bytes == old(file.bytes[..pos]) && pos == old(pos)
      ensures old(ReadHead(crc, file.bytes[pos..])) != Torn ==>
                r == old(ReadHead(crc, file.bytes[pos..])) && file.bytes == old(file.bytes)
      ensures r.Rec? ==> pos == old(pos) + r.size
      ensures !r.Rec? ==> pos == old(pos)
      ensures pos <= |file.bytes|
    {
      r := ReadHead(crc, file.bytes[pos..]);
      if r == Torn {
        file.bytes := file.bytes[..pos];
        r := Eof;
      } else if r.Rec? {
        pos := pos + r.size;
      }
    }

    /** The loop Recover runs over one file. */
    method ReadAll(crc: Checksum) returns (ok: bool, batches: seq<Batch>)
      requires pos == 0
      modifies this, file
      ensures ok == old(ReadLog(crc, file.bytes)).Log?
      ensures ok ==> batches == old(ReadLog(crc, file.bytes)).batches
      ensures ok ==> old(ReadLog(crc, file.bytes)).kept <= |old(file.bytes)|
      ensures ok ==> file.bytes == old(file.bytes)[..old(ReadLog(crc, file.bytes)).kept]
    {
      hide ReadHead, Prepend;
      batches := [];
      ghost var all := file.bytes;
      assert all[0..] == all;
      PrependNone(ReadLog(crc, all));
      while true
        invariant pos <= |all| && file.bytes == all
        invariant ReadLog(crc, all) == Prepend(batches, pos, ReadLog(crc, all[pos..]))
        decreases |all| - pos
      {
        ghost var from := pos;
        var r := ReadNext(crc);
        if r == Corrupt {
          PrependEnds(batches, from);
          return false, batches;
        }
        if r == Eof {
          PrependEnds(batches, from);
          EofIsEnd(crc, all[from..]);
          assert all[..|all|] == all;
          return true, batches;
        }
        assert all[from..][r.size..] == all[pos..];
        PrependTwice(batches, from, [r.batch], r.size, ReadLog(crc, all[pos..]));
        batches := batches + [r.batch];
      }
    }
  }
}
