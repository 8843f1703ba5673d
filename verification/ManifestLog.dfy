/**
 The manifest file.  Each record is a header line with the size and checksum of the
 payload, and the payload.  Loading any byte prefix with at least one whole record gives
 the edit at a record boundary, and cuts the file there.
 */
module ManifestLog {
  import opened Bytes
  import opened Codec
  import opened Store
  import opened Manifest
  import opened FileNames

  type Checksum = Blob -> U32

  const NEWLINE: Byte := 10
  const SPACE: Byte := 32

  /** "record " */
  const TAG: Blob := [114, 101, 99, 111, 114, 100, 32]

  function HeaderLine(size: nat, sum: nat): Blob {
    TAG + Digits(size) + [SPACE] + Digits(sum)
  }

  function Framed(crc: Checksum, payload: Blob): Blob {
    HeaderLine(|payload|, crc(payload)) + [NEWLINE] + payload
  }

  /** Position of the first b, or the length. */
  function IndexOf(s: Blob, b: Byte): (k: nat)
    ensures k <= |s| && b !in s[..k] && (k < |s| ==> s[k] == b)
  {
    if s == [] || s[0] == b then 0
    else
      var k := 1 + IndexOf(s[1..], b);
      assert s[..k] == [s[0]] + s[1..][..k - 1];
      k
  }

  lemma IndexIs(s: Blob, b: Byte, k: nat)
    requires k <= |s| && b !in s[..k] && (k < |s| ==> s[k] == b)
    ensures IndexOf(s, b) == k
  {
    assert forall j :: 0 <= j < k ==> s[j] == s[..k][j];
    var j := IndexOf(s, b);
    assert forall i :: 0 <= i < j ==> s[i] == s[..j][i];
  }

  function ParseHeader(h: Blob): Option<(nat, nat)> {
    if |h| < |TAG| || h[..|TAG|] != TAG then None
    else
      var rest := h[|TAG|..];
      var k := IndexOf(rest, SPACE);
      if k == |rest| then None
      else
        var a, b := rest[..k], rest[k + 1..];
        if a == [] || b == [] || !AllDigits(a) || !AllDigits(b) || Value(a) > MAX_U64 || Value(b) >= 0x1_0000_0000 then None
        else Some((Value(a), Value(b)))
  }

  lemma NoDigit(ds: Blob, b: Byte)
    requires AllDigits(ds) && !IsDigit(b)
    ensures b !in ds
  {
  }

  lemma HeaderParses(size: nat, sum: nat)
    requires size <= MAX_U64 && sum < 0x1_0000_0000
    ensures ParseHeader(HeaderLine(size, sum)) == Some((size, sum)) && NEWLINE !in HeaderLine(size, sum)
  {
    hide Digits, Value;
    var h, a, b := HeaderLine(size, sum), Digits(size), Digits(sum);
    var rest := a + [SPACE] + b;
    assert h == TAG + rest;
    assert h[..|TAG|] == TAG && h[|TAG|..] == rest;
    NoDigit(a, SPACE);
    assert rest[..|a|] == a;
    IndexIs(rest, SPACE, |a|);
    assert rest[|a| + 1..] == b;
    ValueDigits(size);
    ValueDigits(sum);
    NoDigit(a, NEWLINE);
    NoDigit(b, NEWLINE);
  }

  datatype FrameRead = End | Torn | Bad | Payload(bytes: Blob, size: nat)

  /** One record at the start of f. */
  function ReadFrame(crc: Checksum, f: Blob): (r: FrameRead)
    ensures r.Payload? ==> 0 < r.size <= |f|
  {
    if f == [] then End
    else
      var k := IndexOf(f, NEWLINE);
      if k == |f| then Torn
      else
        var h := ParseHeader(f[..k]);
        if h.None? then Bad
        else if h.value.0 > |f| - (k + 1) then Torn
        else
          var p := f[k + 1..k + 1 + h.value.0];
          if crc(p) != h.value.1 then Bad else Payload(p, k + 1 + h.value.0)
  }

  lemma ReadWholeFrame(crc: Checksum, payload: Blob, rest: Blob)
    requires |payload| <= MAX_U64
    ensures ReadFrame(crc, Framed(crc, payload) + rest) == Payload(payload, |Framed(crc, payload)|)
  {
    hide HeaderLine, ParseHeader;
    var h := HeaderLine(|payload|, crc(payload));
    var f := Framed(crc, payload) + rest;
    HeaderParses(|payload|, crc(payload));
    assert f[..|h|] == h && f[|h|] == NEWLINE;
    IndexIs(f, NEWLINE, |h|);
    assert f[|h| + 1..|h| + 1 + |payload|] == payload;
  }

  lemma ReadTornFrame(crc: Checksum, payload: Blob, p: Blob)
    requires |payload| <= MAX_U64 && p < Framed(crc, payload) && p != []
    ensures ReadFrame(crc, p) == Torn
  {
    hide HeaderLine, ParseHeader;
    var h := HeaderLine(|payload|, crc(payload));
    var f := Framed(crc, payload);
    HeaderParses(|payload|, crc(payload));
    assert f[..|h|] == h && f[|h|] == NEWLINE;
    assert p == f[..|p|];
    if |p| <= |h| {
      assert p == h[..|p|];
      assert p[..|p|] == p;
      IndexIs(p, NEWLINE, |p|);
    } else {
      assert p[..|h|] == h && p[|h|] == NEWLINE;
      IndexIs(p, NEWLINE, |h|);
    }
  }

  // ------------------------------------------------------------------- the log

  function Image(crc: Checksum, ps: seq<Blob>): Blob {
    if ps == [] then [] else Framed(crc, ps[0]) + Image(crc, ps[1..])
  }

  /** How many whole records lie within the first n bytes. */
  function Whole(crc: Checksum, ps: seq<Blob>, n: nat): (m: nat)
    ensures m <= |ps|
  {
    if ps == [] || n < |Framed(crc, ps[0])| then 0 else 1 + Whole(crc, ps[1..], n - |Framed(crc, ps[0])|)
  }

  datatype Frames = Broken | Frames(payloads: seq<Blob>, kept: nat)

  function Prepend(ps: seq<Blob>, n: nat, l: Frames): Frames {
    match l
    case Broken => Broken
    case Frames(more, kept) => Frames(ps + more, n + kept)
  }

  /** All records from the start of f. */
  function ReadFrames(crc: Checksum, f: Blob): Frames
    decreases |f|
  {
    match ReadFrame(crc, f)
    case End => Frames([], 0)
    case Torn => Frames([], 0)
    case Bad => Broken
    case Payload(p, size) => Prepend([p], size, ReadFrames(crc, f[size..]))
  }

  /** A byte prefix of a log reads as the records wholly inside it. */
  lemma {:induction false} FramesPrefix(crc: Checksum, ps: seq<Blob>, p: Blob)
    requires (forall i :: 0 <= i < |ps| ==> |ps[i]| <= MAX_U64) && p <= Image(crc, ps)
    ensures var m := Whole(crc, ps, |p|);
            && ReadFrames(crc, p) == Frames(ps[..m], |Image(crc, ps[..m])|)
            && |Image(crc, ps[..m])| <= |p| && p[..|Image(crc, ps[..m])|] == Image(crc, ps[..m])
    decreases |ps|
  {
    hide Framed, ReadFrame;
    NoFrame(crc);
    if ps != [] {
      var r, rest := Framed(crc, ps[0]), Image(crc, ps[1..]);
      if |p| < |r| {
        if p != [] {
          assert p == (r + rest)[..|p|] == r[..|p|];
          ReadTornFrame(crc, ps[0], p);
        }
      } else {
        var q := p[|r|..];
        assert p == r + q && q <= rest;
        ReadWholeFrame(crc, ps[0], q);
        FramesPrefix(crc, ps[1..], q);
        ImageTake(crc, ps, Whole(crc, ps[1..], |q|));
      }
    }
  }

  lemma NoFrame(crc: Checksum)
    ensures ReadFrame(crc, []) == End
  {
  }

  lemma ImageTake(crc: Checksum, ps: seq<Blob>, m: nat)
    requires m < |ps|
    ensures ps[..m + 1] == [ps[0]] + ps[1..][..m]
    ensures Image(crc, ps[..m + 1]) == Framed(crc, ps[0]) + Image(crc, ps[1..][..m])
  {
    hide Framed;
    assert ps[..m + 1][1..] == ps[1..][..m];
  }

  /** Whole records come first, whatever follows them. */
  lemma {:induction false} FramesBefore(crc: Checksum, ps: seq<Blob>, tail: Blob)
    requires forall i :: 0 <= i < |ps| ==> |ps[i]| <= MAX_U64
    ensures ReadFrames(crc, Image(crc, ps) + tail) == Prepend(ps, |Image(crc, ps)|, ReadFrames(crc, tail))
    decreases |ps|
  {
    hide Framed, ReadFrame;
    if ps == [] {
      assert Image(crc, ps) + tail == tail;
      PrependNone(ReadFrames(crc, tail));
    } else {
      var r, rest := Framed(crc, ps[0]), Image(crc, ps[1..]) + tail;
      assert Image(crc, ps) + tail == r + rest;
      ReadWholeFrame(crc, ps[0], rest);
      assert (r + rest)[|r|..] == rest;
      FramesBefore(crc, ps[1..], tail);
      PrependTwice(ps[0], |r|, ps[1..], |Image(crc, ps[1..])|, ReadFrames(crc, tail));
      assert ps == [ps[0]] + ps[1..];
    }
  }

  lemma PrependNone(l: Frames)
    ensures Prepend([], 0, l) == l
  {
    if l.Frames? {
      assert [] + l.payloads == l.payloads;
    }
  }

  lemma PrependTwice(p: Blob, n: nat, ps: seq<Blob>, m: nat, l: Frames)
    ensures Prepend([p], n, Prepend(ps, m, l)) == Prepend([p] + ps, n + m, l)
  {
    if l.Frames? {
      assert [p] + (ps + l.payloads) == ([p] + ps) + l.payloads;
    }
  }

  // ------------------------------------------------------- behind a torn record

  /** The start of a header line with another header line after it is no header line. */
  lemma MixedHeader(size: nat, sum: nat, j: nat, size2: nat, sum2: nat)
    requires 0 < j <= |HeaderLine(size, sum)|
    ensures ParseHeader(HeaderLine(size, sum)[..j] + HeaderLine(size2, sum2)).None?
  {
    hide Digits, Value;
    var h, x := HeaderLine(size, sum), HeaderLine(size2, sum2);
    var line := h[..j] + x;
    assert x[..|TAG|] == TAG && h[..|TAG|] == TAG;
    if j < |TAG| {
      ShiftedTag(j);
      assert h[..j] == h[..|TAG|][..j];
      assert line[..|TAG|] == TAG[..j] + x[..|TAG| - j];
      assert x[..|TAG| - j] == x[..|TAG|][..|TAG| - j];
    } else {
      MixedTail(Digits(size), Digits(sum), j, x);
    }
  }

  lemma MixedTail(a: Blob, b: Blob, j: nat, x: Blob)
    requires AllDigits(a) && AllDigits(b) && |TAG| <= j <= |TAG + a + [SPACE] + b| && TAG <= x
    ensures ParseHeader((TAG + a + [SPACE] + b)[..j] + x).None?
  {
    hide IndexOf, AllDigits;
    var h, numbers := TAG + a + [SPACE] + b, a + [SPACE] + b;
    var y := numbers[..j - |TAG|];
    assert h == TAG + numbers;
    assert h[..j] == TAG + y;
    TagFirst(y + x, h[..j] + x);
    MixedNumbers(a, b, y, x);
  }

  lemma TagFirst(rest: Blob, line: Blob)
    requires line == TAG + rest
    ensures |line| >= |TAG| && line[..|TAG|] == TAG && line[|TAG|..] == rest
  {
  }

  lemma ShiftedTag(j: nat)
    requires 0 < j < |TAG|
    ensures TAG[..j] + TAG[..|TAG| - j] != TAG
  {
    var s := TAG[..j] + TAG[..|TAG| - j];
    assert s[j] == TAG[0] == 114;
    if j == 4 {
      assert s[5] == TAG[1] == 101 && TAG[5] == 100;
    } else {
      assert TAG[j] != 114;
    }
  }

  lemma MixedNumbers(a: Blob, b: Blob, y: Blob, x: Blob)
    requires AllDigits(a) && AllDigits(b) && y <= a + [SPACE] + b && TAG <= x
    ensures var rest := y + x;
            var k := IndexOf(rest, SPACE);
            k < |rest| ==> !AllDigits(rest[..k]) || !AllDigits(rest[k + 1..])
  {
    hide IndexOf, AllDigits;
    NoDigit(a, SPACE);
    if |y| <= |a| {
      assert y == a[..|y|];
      MixedFirst(y, x);
    } else {
      assert y[..|a|] == a && y[|a|] == SPACE;
      MixedSecond(a, y, x);
    }
  }

  /** The first number runs into the tag of the next record. */
  lemma MixedFirst(y: Blob, x: Blob)
    requires SPACE !in y && TAG <= x
    ensures var k := IndexOf(y + x, SPACE); k < |y + x| && !AllDigits((y + x)[..k])
  {
    var rest := y + x;
    assert forall i :: 0 <= i < |TAG| ==> rest[|y| + i] == x[i] == TAG[i];
    assert rest[..|y| + 6] == y + TAG[..6];
    IndexIs(rest, SPACE, |y| + 6);
    assert rest[..|y| + 6][|y|] == 114;
  }

  /** The second one does. */
  lemma MixedSecond(a: Blob, y: Blob, x: Blob)
    requires SPACE !in a && |a| < |y| && y[..|a|] == a && y[|a|] == SPACE && TAG <= x
    ensures var k := IndexOf(y + x, SPACE); k < |y + x| && !AllDigits((y + x)[k + 1..])
  {
    var rest := y + x;
    assert rest[..|a|] == a && rest[|a|] == SPACE;
    IndexIs(rest, SPACE, |a|);
    assert rest[|a| + 1..][|y| - (|a| + 1)] == rest[|y|] == x[0] == 114;
  }

  /** How loading goes on from a record of p cut after n bytes when rest follows it: cut in the
      header it is refused; cut in the payload the rest is taken for the missing bytes, and
      dropped with it if there are too few. */
  function BehindCut(crc: Checksum, p: Blob, n: nat, rest: Blob): Frames
    requires 0 < n < |Framed(crc, p)|
  {
    var h := |HeaderLine(|p|, crc(p))|;
    if n <= h then Broken
    else
      var have := n - (h + 1);
      if have + |rest| < |p| then Frames([], 0)
      else
        var mixed := p[..have] + rest[..|p| - have];
        if crc(mixed) != crc(p) then Broken
        else Prepend([mixed], h + 1 + |p|, ReadFrames(crc, rest[|p| - have..]))
  }

  /** A record behind a torn one is never read as itself. */
  lemma ReadBehindCut(crc: Checksum, ps: seq<Blob>, p: Blob, n: nat, rest: Blob, q: Blob)
    requires (forall i :: 0 <= i < |ps| ==> |ps[i]| <= MAX_U64) && |p| <= MAX_U64 && 0 < n < |Framed(crc, p)|
    requires Framed(crc, q) <= rest
    ensures ReadFrames(crc, Image(crc, ps) + (Framed(crc, p)[..n] + rest))
         == Prepend(ps, |Image(crc, ps)|, BehindCut(crc, p, n, rest))
  {
    hide Image, Framed, HeaderLine, ReadFrames;
    FramesBefore(crc, ps, Framed(crc, p)[..n] + rest);
    if n <= |HeaderLine(|p|, crc(p))| {
      ReadHeaderCut(crc, p, n, rest, q);
    } else {
      ReadPayloadCut(crc, p, n, rest);
    }
  }

  lemma ReadHeaderCut(crc: Checksum, p: Blob, n: nat, rest: Blob, q: Blob)
    requires |p| <= MAX_U64 && 0 < n <= |HeaderLine(|p|, crc(p))| && Framed(crc, q) <= rest
    ensures ReadFrames(crc, Framed(crc, p)[..n] + rest) == Broken
  {
    hide HeaderLine, ParseHeader;
    var h, g := HeaderLine(|p|, crc(p)), HeaderLine(|q|, crc(q));
    var f, line := Framed(crc, p)[..n] + rest, h[..n] + g;
    HeaderParses(|p|, crc(p));
    NoNewline(|q|, crc(q));
    assert Framed(crc, p)[..n] == h[..n];
    assert rest[..|g|] == g && rest[|g|] == NEWLINE;
    assert f[..|line|] == line && f[|line|] == NEWLINE;
    assert forall i :: 0 <= i < n ==> h[..n][i] == h[i];
    IndexIs(f, NEWLINE, |line|);
    MixedHeader(|p|, crc(p), n, |q|, crc(q));
  }

  lemma NoNewline(size: nat, sum: nat)
    ensures NEWLINE !in HeaderLine(size, sum)
  {
    hide Digits;
    NoDigit(Digits(size), NEWLINE);
    NoDigit(Digits(sum), NEWLINE);
  }

  lemma ReadPayloadCut(crc: Checksum, p: Blob, n: nat, rest: Blob)
    requires |p| <= MAX_U64 && |HeaderLine(|p|, crc(p))| < n < |Framed(crc, p)|
    ensures ReadFrames(crc, Framed(crc, p)[..n] + rest) == BehindCut(crc, p, n, rest)
  {
    hide HeaderLine, ParseHeader, ReadFrame, Framed;
    var h := HeaderLine(|p|, crc(p));
    var have := n - (|h| + 1);
    var f := Framed(crc, p)[..n] + rest;
    FramedSize(crc, p);
    CutBytes(crc, p, n, rest);
    FrameOfCut(crc, p, have, rest, f);
    if have + |rest| >= |p| {
      CutRest(h, p, have, rest, f);
    }
  }

  lemma FramedSize(crc: Checksum, p: Blob)
    ensures |Framed(crc, p)| == |HeaderLine(|p|, crc(p))| + 1 + |p|
  {
  }

  lemma CutBytes(crc: Checksum, p: Blob, n: nat, rest: Blob)
    requires |HeaderLine(|p|, crc(p))| < n < |Framed(crc, p)|
    ensures var h := HeaderLine(|p|, crc(p));
            n - (|h| + 1) <= |p| && Framed(crc, p)[..n] + rest == h + [NEWLINE] + (p[..n - (|h| + 1)] + rest)
  {
    hide HeaderLine;
    var h := HeaderLine(|p|, crc(p));
    assert Framed(crc, p)[..n] == h + [NEWLINE] + p[..n - (|h| + 1)];
  }

  lemma CutRest(h: Blob, p: Blob, have: nat, rest: Blob, f: Blob)
    requires have <= |p| <= have + |rest| && f == h + [NEWLINE] + (p[..have] + rest)
    ensures f[|h| + 1 + |p|..] == rest[|p| - have..]
  {
  }

  lemma FrameOfCut(crc: Checksum, p: Blob, have: nat, rest: Blob, f: Blob)
    requires |p| <= MAX_U64 && have < |p| && f == HeaderLine(|p|, crc(p)) + [NEWLINE] + (p[..have] + rest)
    ensures have + |rest| < |p| ==> ReadFrame(crc, f) == Torn
    ensures have + |rest| >= |p| ==>
              var mixed := p[..have] + rest[..|p| - have];
              ReadFrame(crc, f) == if crc(mixed) != crc(p) then Bad else Payload(mixed, |HeaderLine(|p|, crc(p))| + 1 + |p|)
  {
    hide HeaderLine, ParseHeader;
    var h := HeaderLine(|p|, crc(p));
    HeaderParses(|p|, crc(p));
    assert f[..|h|] == h && f[|h|] == NEWLINE;
    IndexIs(f, NEWLINE, |h|);
    if have + |rest| >= |p| {
      MixedPayload(h, p, have, rest, f);
    }
  }

  lemma MixedPayload(h: Blob, p: Blob, have: nat, rest: Blob, f: Blob)
    requires have <= |p| <= have + |rest| && f == h + [NEWLINE] + (p[..have] + rest)
    ensures f[|h| + 1..|h| + 1 + |p|] == p[..have] + rest[..|p| - have]
  {
    var tail := p[..have] + rest;
    assert f[|h| + 1..] == tail;
    assert f[|h| + 1..|h| + 1 + |p|] == f[|h| + 1..][..|p|] == tail[..|p|];
  }

  /** own is the start of a record of p, cut short, and more is what further cut records left
      behind it; they neither end its header line nor reach the size it announced. */
  predicate Pending(crc: Checksum, p: Blob, own: Blob, more: Blob) {
    && own < Framed(crc, p) && (own == [] ==> more == [])
    && (|own| <= |HeaderLine(|p|, crc(p))| ==> NEWLINE !in more)
    && (|own| > |HeaderLine(|p|, crc(p))| ==> |own| + |more| < |Framed(crc, p)|)
  }

  /** Whatever is left of such an end of the file is a torn record. */
  lemma ReadPending(crc: Checksum, p: Blob, own: Blob, more: Blob, left: Blob)
    requires |p| <= MAX_U64 && Pending(crc, p, own, more) && left <= own + more && left != []
    ensures ReadFrame(crc, left) == Torn
  {
    hide Framed, HeaderLine, ReadFrame;
    if |left| <= |own| {
      assert left <= own;
      ReadTornFrame(crc, p, left);
    } else {
      var rest := left[|own|..];
      assert left == own + rest && rest <= more;
      if |own| <= |HeaderLine(|p|, crc(p))| {
        ReadLine(crc, p, own, rest);
      } else {
        var n := |own|;
        assert own == Framed(crc, p)[..n];
        FramedSize(crc, p);
        CutBytes(crc, p, n, rest);
        FrameOfCut(crc, p, n - (|HeaderLine(|p|, crc(p))| + 1), rest, left);
      }
    }
  }

  lemma ReadLine(crc: Checksum, p: Blob, own: Blob, rest: Blob)
    requires own < Framed(crc, p) && |own| <= |HeaderLine(|p|, crc(p))| && own != [] && NEWLINE !in rest
    ensures ReadFrame(crc, own + rest) == Torn
  {
    hide HeaderLine, ParseHeader;
    var h, f := HeaderLine(|p|, crc(p)), own + rest;
    NoNewline(|p|, crc(p));
    assert own == Framed(crc, p)[..|own|] == h[..|own|];
    assert forall i :: 0 <= i < |own| ==> own[i] == h[i];
    assert f[..|f|] == f;
    IndexIs(f, NEWLINE, |f|);
  }

  // ---------------------------------------------------------------- loading

  /** How lines are written as text, and read back. */
  type Writer = seq<Line> -> Blob
  type Parser = Blob -> Option<seq<Line>>

  function ApplyAll(e: Edit, recs: seq<seq<Line>>): Edit {
    if recs == [] then e else ApplyLines(ApplyAll(e, recs[..|recs| - 1]), recs[|recs| - 1])
  }

  const EMPTY: Edit := Edit(1, 1, 0, map[])

  predicate AllAccepted(recs: seq<seq<Line>>) {
    forall i :: 0 <= i < |recs| ==> Accepts(ApplyAll(EMPTY, recs[..i]), recs[i])
  }

  /** The payloads are the text of these records. */
  predicate Texts(parse: Parser, ps: seq<Blob>, recs: seq<seq<Line>>) {
    |ps| == |recs| && forall i :: 0 <= i < |ps| ==> parse(ps[i]) == Some(recs[i])
  }

  datatype Loaded = Loaded(edit: VersionEdit, kept: nat)

  /** What loading makes of the records it reads: the edit they give, and where it cuts. */
  ghost predicate Loads(r: Option<Loaded>, present: set<nat>, recs: seq<seq<Line>>, kept: nat) {
    && (r.Some? <==> recs != [] && ApplyAll(EMPTY, recs).files.Keys <= present)
    && (r.Some? ==> Abs(r.value.edit) == ApplyAll(EMPTY, recs) && Ascending(r.value.edit.files) && r.value.kept == kept)
  }

  /** LoadEditLog: frames are read and applied until the end or a torn tail.  A file that is
      broken on the way is refused; a byte prefix of a log gives the edit at a boundary. */
  method LoadEditLog(crc: Checksum, parse: Parser, file: Blob, present: set<nat>,
                     ghost ps: seq<Blob>, ghost recs: seq<seq<Line>>)
    returns (r: Option<Loaded>)
    ensures ReadFrames(crc, file) == Broken ==> r.None?
    ensures var all := ReadFrames(crc, file);
            all.Frames? && all.payloads <= ps && Texts(parse, ps, recs) && AllAccepted(recs) ==>
              Loads(r, present, recs[..|all.payloads|], all.kept)
    ensures file <= Image(crc, ps) && (forall i :: 0 <= i < |ps| ==> |ps[i]| <= MAX_U64)
            && Texts(parse, ps, recs) && AllAccepted(recs) ==>
              var m := Whole(crc, ps, |file|);
              && Loads(r, present, recs[..m], |Image(crc, ps[..m])|)
              && |Image(crc, ps[..m])| <= |file| && file[..|Image(crc, ps[..m])|] == Image(crc, ps[..m])
  {
    hide ReadFrame, ReadFrames, Prepend, Image, Whole, ApplyAll, Accepts, ApplyLines, FileMap;
    ghost var all := ReadFrames(crc, file);
    ghost var good := all.Frames? && all.payloads <= ps && Texts(parse, ps, recs) && AllAccepted(recs);
    PrefixReads(crc, ps, file);
    var pos: nat, edit, saw := 0, VersionEdit(1, 1, 0, []), false;
    ghost var read: seq<Blob> := [];
    StartLoad(crc, file);
    while true
      invariant pos <= |file| && Ascending(edit.files) && (saw <==> read != [])
      invariant all == Prepend(read, pos, ReadFrames(crc, file[pos..]))
      invariant good ==> |read| <= |all.payloads| && Abs(edit) == ApplyAll(EMPTY, recs[..|read|])
      decreases |file| - pos
    {
      var f := ReadFrame(crc, file[pos..]);
      FrameEnds(crc, file[pos..], read, pos);
      if f == Bad {
        return None;
      }
      if !f.Payload? {
        break;
      }
      FrameNext(crc, file[pos..], read, pos, f);
      if good {
        assert ps[|read|] == f.bytes by {
          assert all.payloads[|read|] == f.bytes;
        }
        ApplyAllNext(recs, |read|);
      }
      var lines := parse(f.bytes);
      if lines.None? {
        return None;
      }
      var next := ParseEditPayload(lines.value, edit);
      if next.None? {
        return None;
      }
      assert file[pos..][f.size..] == file[pos + f.size..];
      edit, saw, pos, read := next.value, true, pos + f.size, read + [f.bytes];
    }
    if !saw {
      return None;
    }
    Listed(edit.files);
    var j := 0;
    while j < |edit.files|
      invariant j <= |edit.files| && forall k :: 0 <= k < j ==> edit.files[k].number in present
    {
      if edit.files[j].number !in present {
        return None;
      }
      j := j + 1;
    }
    r := Some(Loaded(edit, pos));
  }

  lemma PrefixReads(crc: Checksum, ps: seq<Blob>, file: Blob)
    ensures file <= Image(crc, ps) && (forall i :: 0 <= i < |ps| ==> |ps[i]| <= MAX_U64) ==>
              var m := Whole(crc, ps, |file|);
              && ReadFrames(crc, file) == Frames(ps[..m], |Image(crc, ps[..m])|)
              && |Image(crc, ps[..m])| <= |file| && file[..|Image(crc, ps[..m])|] == Image(crc, ps[..m])
  {
    hide ReadFrames, Image, Whole;
    if file <= Image(crc, ps) && (forall i :: 0 <= i < |ps| ==> |ps[i]| <= MAX_U64) {
      FramesPrefix(crc, ps, file);
    }
  }

  lemma StartLoad(crc: Checksum, file: Blob)
    ensures file[0..] == file && ReadFrames(crc, file) == Prepend([], 0, ReadFrames(crc, file))
    ensures Abs(VersionEdit(1, 1, 0, [])) == ApplyAll(EMPTY, [])
  {
  }

  lemma FrameEnds(crc: Checksum, f: Blob, ps: seq<Blob>, pos: nat)
    ensures ReadFrame(crc, f) == Bad ==> Prepend(ps, pos, ReadFrames(crc, f)) == Broken
    ensures ReadFrame(crc, f) == End || ReadFrame(crc, f) == Torn ==> Prepend(ps, pos, ReadFrames(crc, f)) == Frames(ps, pos)
  {
    hide ReadFrame;
    assert ps + [] == ps;
  }

  /** One more frame is read. */
  lemma FrameNext(crc: Checksum, f: Blob, read: seq<Blob>, pos: nat, r: FrameRead)
    requires ReadFrame(crc, f) == r && r.Payload?
    ensures var all := Prepend(read, pos, ReadFrames(crc, f));
            && all == Prepend(read + [r.bytes], pos + r.size, ReadFrames(crc, f[r.size..]))
            && (all.Frames? ==> |read| < |all.payloads| && all.payloads[|read|] == r.bytes)
  {
    hide ReadFrame;
    var rest := ReadFrames(crc, f[r.size..]);
    if rest.Frames? {
      assert read + ([r.bytes] + rest.payloads) == (read + [r.bytes]) + rest.payloads;
    }
  }

  lemma ApplyAllNext(recs: seq<seq<Line>>, i: nat)
    requires i < |recs|
    ensures ApplyAll(EMPTY, recs[..i + 1]) == ApplyLines(ApplyAll(EMPTY, recs[..i]), recs[i])
  {
    assert recs[..i + 1][..i] == recs[..i];
  }

  lemma Listed(fs: seq<FileEntry>)
    requires Ascending(fs)
    ensures forall i :: 0 <= i < |fs| ==> fs[i].number in FileMap(fs)
    ensures forall n :: n in FileMap(fs) ==> exists i :: 0 <= i < |fs| && fs[i].number == n
  {
    FileMapKeys(fs);
  }

  // ------------------------------------------------------------- the manifest object

  /** No file that stays changes its metadata. */
  ghost predicate Steady(p: Edit, e: Edit) {
    forall n :: n in p.files && n in e.files ==> p.files[n] == e.files[n]
  }

  function LastEdit(es: seq<Edit>): Edit {
    if es == [] then EMPTY else es[|es| - 1]
  }

  /** The records of a sequence of saves. */
  function Saves(es: seq<Edit>): (recs: seq<Rec>)
    ensures |recs| == |es|
  {
    if es == [] then []
    else Saves(es[..|es| - 1]) + [Diff(LastEdit(es[..|es| - 1]), es[|es| - 1])]
  }

  /** Replaying the first k records gives the edit of the k-th save. */
  lemma {:induction false} SavesReplay(es: seq<Edit>, k: nat)
    requires k <= |es| && forall i :: 0 <= i < |es| ==> Steady(LastEdit(es[..i]), es[i])
    ensures Replay(Saves(es)[..k]) == LastEdit(es[..k])
  {
    if es != [] {
      var init, e := es[..|es| - 1], es[|es| - 1];
      var r := Diff(LastEdit(init), e);
      forall i | 0 <= i < |init| ensures Steady(LastEdit(init[..i]), init[i]) {
        assert init[..i] == es[..i];
      }
      if k < |es| {
        SavesReplay(init, k);
        assert Saves(es)[..k] == Saves(init)[..k] && init[..k] == es[..k];
      } else {
        SavesReplay(init, |init|);
        assert Saves(init)[..|init|] == Saves(init) && init[..|init|] == init && es[..k] == es;
        assert Saves(es)[..k] == Saves(init) + [r];
        ReplaySnoc(Saves(init), r);
        ApplyDiff(LastEdit(init), e);
      }
    }
  }

  /** What loading accepts of an edit. */
  predicate Savable(e: VersionEdit) {
    e.next != 0 && e.wal != 0 && forall i :: 0 <= i < |e.files| ==> 0 < e.files[i].number <= MAX_U64 && MetaOk(e.files[i].meta)
  }

  class ManifestFile {
    const crc: Checksum
    const write: Writer
    const parse: Parser
    var bytes: Blob
    var edit: VersionEdit
    var persisted: VersionEdit
    ghost var payloads: seq<Blob>
    ghost var recs: seq<seq<Line>>

    /** The file holds whole records whose replay is the persisted edit. */
    ghost predicate Clean()
      reads this
    {
      && (forall ls :: parse(write(ls)) == Some(ls))
      && bytes == Image(crc, payloads) && Texts(parse, payloads, recs) && AllAccepted(recs)
      && ApplyAll(EMPTY, recs) == Abs(persisted)
    }

    constructor (crc: Checksum, write: Writer, parse: Parser)
      requires forall ls :: parse(write(ls)) == Some(ls)
      ensures Clean() && this.crc == crc && edit == persisted == VersionEdit(1, 1, 0, [])
    {
      this.crc, this.write, this.parse := crc, write, parse;
      bytes, payloads, recs := [], [], [];
      edit, persisted := VersionEdit(1, 1, 0, []), VersionEdit(1, 1, 0, []);
    }

    /** SetSSTables: the same files, by number. */
    method SetSSTables(files: seq<FileEntry>)
      requires Distinct(files)
      modifies this`edit
      ensures Abs(edit) == Abs(old(edit)).(files := FileMap(files)) && Ascending(edit.files)
    {
      var sorted := SortFiles(files);
      edit := edit.(files := sorted);
    }

    /** SetCurrentEdit: used to roll back. */
    method SetCurrentEdit(e: VersionEdit)
      requires Distinct(e.files)
      modifies this`edit
      ensures Abs(edit) == Abs(e) && Ascending(edit.files)
    {
      var sorted := SortFiles(e.files);
      edit := e.(files := sorted);
    }

    /** Behind the whole records there are the first n bytes of a record of p. */
    ghost predicate CutShort(p: Blob, n: nat)
      reads this
    {
      && 0 < n < |Framed(crc, p)| && |p| <= MAX_U64 && (forall i :: 0 <= i < |payloads| ==> |payloads[i]| <= MAX_U64)
      && bytes == Image(crc, payloads) + Framed(crc, p)[..n]
    }

    /** Save: append the difference to the last saved edit.  A failure leaves the edits as
        they were, but any part of the record may have reached the file.  A save behind such a
        part succeeds all the same, and its record is not read as itself. */
    method Save(e: VersionEdit, failedAfter: Option<nat>) returns (ok: bool, ghost payload: Blob)
      requires Distinct(e.files)
      modifies this
      ensures ok <==> failedAfter.None?
      ensures ok ==> edit == e && persisted == e && bytes == old(bytes) + Framed(crc, payload)
      ensures !ok ==> edit == old(edit) && persisted == old(persisted) && payloads == old(payloads)
      ensures !ok ==> old(bytes) <= bytes <= old(bytes) + Framed(crc, payload)
      ensures (ok && old(Clean()) && Savable(e) && Steady(old(Abs(persisted)), Abs(e))) ==> Clean()
      ensures (!ok && old(Clean()) && 0 < failedAfter.value < |Framed(crc, payload)| && |payload| <= MAX_U64
               && forall i :: 0 <= i < |payloads| ==> |payloads[i]| <= MAX_U64) ==> CutShort(payload, failedAfter.value)
      ensures forall p, n: nat :: ok && old(CutShort(p, n)) ==>
                ReadFrames(crc, bytes) == Prepend(old(payloads), |Image(crc, old(payloads))|, BehindCut(crc, p, n, Framed(crc, payload)))
    {
      hide FileMap, ApplyLines, Image, ApplyAll, Framed, Accepts, ReadFrames, Prepend, BehindCut, NameOk, MetaOk, TableName;
      var lines := BuildEditPayload(persisted, e);
      var text := write(lines);
      payload := text;
      var framed := Framed(crc, text);
      if failedAfter.Some? {
        var n := if failedAfter.value < |framed| then failedAfter.value else |framed|;
        bytes := bytes + framed[..n];
        return false, payload;
      }
      forall p, n: nat | CutShort(p, n)
        ensures ReadFrames(crc, bytes + framed) == Prepend(payloads, |Image(crc, payloads)|, BehindCut(crc, p, n, framed))
      {
        assert bytes + framed == Image(crc, payloads) + (Framed(crc, p)[..n] + framed);
        ReadBehindCut(crc, payloads, p, n, framed, text);
      }
      ghost var before := Abs(persisted);
      if Clean() && Savable(e) && Steady(before, Abs(e)) {
        ApplyDiff(before, Abs(e));
        AddsOk(e.files);
        SavedAccepted(before, e, lines);
        ImageSnoc(crc, payloads, text);
        Snoc(recs, lines);
      }
      bytes, edit, persisted := bytes + framed, e, e;
      payloads, recs := payloads + [text], recs + [lines];
      ok := true;
    }
  }

  lemma AddsOk(fs: seq<FileEntry>)
    requires Distinct(fs) && forall i :: 0 <= i < |fs| ==> 0 < fs[i].number <= MAX_U64 && MetaOk(fs[i].meta)
    ensures forall n :: n in FileMap(fs) ==> MetaOk(FileMap(fs)[n]) && NameOk(TableName(n), n)
  {
    hide NameOk, TableName, MetaOk;
    FileMapKeys(fs);
    forall n | n in FileMap(fs) ensures MetaOk(FileMap(fs)[n]) && NameOk(TableName(n), n) {
      var i :| 0 <= i < |fs| && fs[i].number == n;
      TableNameOk(n);
      FileMapAt(fs, i);
    }
  }

  lemma SavedAccepted(before: Edit, e: VersionEdit, lines: seq<Line>)
    requires HasHead(lines) && ApplyLines(before, lines) == Abs(e) && e.next != 0 && e.wal != 0
    requires forall i :: 0 <= i < |lines| ==> AddOk(lines[i])
    ensures Accepts(before, lines)
  {
  }

  lemma {:induction false} ImageSnoc(crc: Checksum, ps: seq<Blob>, p: Blob)
    ensures Image(crc, ps + [p]) == Image(crc, ps) + Framed(crc, p)
  {
    hide Framed;
    if ps == [] {
      assert [] + [p] == [p] && [p][1..] == [];
    } else {
      ImageSnoc(crc, ps[1..], p);
      assert (ps + [p])[1..] == ps[1..] + [p];
    }
  }

  lemma Snoc(recs: seq<seq<Line>>, lines: seq<Line>)
    requires AllAccepted(recs) && Accepts(ApplyAll(EMPTY, recs), lines)
    ensures AllAccepted(recs + [lines]) && ApplyAll(EMPTY, recs + [lines]) == ApplyLines(ApplyAll(EMPTY, recs), lines)
  {
    hide Accepts, ApplyLines;
    var all := recs + [lines];
    assert all[..|recs|] == recs;
    forall i | 0 <= i < |all| ensures Accepts(ApplyAll(EMPTY, all[..i]), all[i]) {
      if i < |recs| {
        assert all[..i] == recs[..i];
      }
    }
  }
}
