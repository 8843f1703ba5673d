/**
 Saving and loading the vector index.  A saved index loads back as the same graph, entry
 point and version table; and whatever bytes are loaded, an index that is accepted
 satisfies the graph invariant and its version table matches its nodes.
 */
module IndexFile {
  import opened Bytes
  import opened Codec
  import opened HnswSearch
  import opened HnswGraph
  import opened HnswIndex
  import opened IndexBytes

  const INDEX_MAGIC: nat := 0x4b56484e535731
  const HEADER: nat := 56

  type Checksum = Blob -> U32

  datatype Options = Options(dimension: nat, maxNeighbors: nat, efConstruction: nat, metric: nat, floats: Floats)

  predicate OptionsOk(o: Options) {
    0 < o.dimension < B32 && 2 <= o.maxNeighbors && 2 * o.maxNeighbors < B32 && o.efConstruction < B32 && o.metric < B32
  }

  lemma Holds3(b: Blob, at: nat, x: Blob, y: Blob, z: Blob)
    requires Holds(b, at, x + y + z)
    ensures Holds(b, at, x) && Holds(b, at + |x|, y) && Holds(b, at + |x| + |y|, z)
  {
    hide Holds;
    HoldsCat(b, at, x + y, z);
    HoldsCat(b, at, x, y);
  }

  // -------------------------------------------------------------------- node records

  function NodeHead(i: nat, key: Blob, s: nat): Blob {
    Fixed(i, 8) + Str(key) + Fixed(s, 8)
  }

  function NodeTail(n: Node): Blob {
    Coordinates(n.vector) + Str(n.metadata) + Layers(n.neighbors)
  }

  function NodeRecord(i: nat, n: Node, s: nat): Blob {
    NodeHead(i, n.key, s) + NodeTail(n)
  }

  predicate NodeOk(o: Options, count: nat, n: Node) {
    && n.key != [] && |n.key| < B32 && |n.metadata| < B32
    && VectorOk(o.floats, o.dimension, n.vector) && LayersFit(n.neighbors, o.maxNeighbors, count)
  }

  method ReadNodeHead(b: Blob, at: nat, i: nat, ghost key: Blob, ghost s: nat) returns (r: Option<(Blob, nat, nat)>)
    ensures r.Some? ==> r.value.0 != [] && |r.value.0| < B32 && r.value.1 < B64 && at <= r.value.2
    ensures key != [] && |key| < B32 && i < B64 && s < B64 && Holds(b, at, NodeHead(i, key, s)) ==>
              r == Some((key, s, at + |NodeHead(i, key, s)|))
  {
    hide Holds, Fixed, Str, U64At, StrAt;
    if key != [] && |key| < B32 && i < B64 && s < B64 && Holds(b, at, NodeHead(i, key, s)) {
      Holds3(b, at, Fixed(i, 8), Str(key), Fixed(s, 8));
      U64Holds(b, at, i);
      StrHolds(b, at + 8, key);
      U64Holds(b, at + 8 + |Str(key)|, s);
    }
    var id := U64At(b, at);
    if id.None? || id.value.0 != i {
      return None;
    }
    var k := StrAt(b, id.value.1);
    if k.None? || k.value.0 == [] {
      return None;
    }
    var seqno := U64At(b, k.value.1);
    if seqno.None? {
      return None;
    }
    r := Some((k.value.0, seqno.value.0, seqno.value.1));
  }

  method ReadNode(b: Blob, at: nat, i: nat, o: Options, count: nat, ghost n: Node, ghost s: nat) returns (r: Option<(Node, nat, nat)>)
    requires OptionsOk(o)
    ensures r.Some? ==> NodeOk(o, count, r.value.0) && r.value.1 < B64 && at <= r.value.2
    ensures NodeOk(o, count, n) && i < B64 && s < B64 && count <= B64 && Holds(b, at, NodeRecord(i, n, s)) ==>
              r == Some((n, s, at + |NodeRecord(i, n, s)|))
  {
    hide Holds, Fixed, Str, StrAt, NodeHead, Coordinates, Layers, VectorOk, LayersFit;
    ghost var good := NodeOk(o, count, n) && i < B64 && s < B64 && count <= B64 && Holds(b, at, NodeRecord(i, n, s));
    ghost var mid := at + |NodeHead(i, n.key, s)|;
    if good {
      HoldsCat(b, at, NodeHead(i, n.key, s), NodeTail(n));
      Holds3(b, mid, Coordinates(n.vector), Str(n.metadata), Layers(n.neighbors));
      StrHolds(b, mid + |Coordinates(n.vector)|, n.metadata);
    }
    var head := ReadNodeHead(b, at, i, n.key, s);
    if head.None? {
      return None;
    }
    var vector := ReadVector(b, head.value.2, o.dimension, o.floats, n.vector);
    if vector.None? {
      return None;
    }
    var metadata := StrAt(b, vector.value.1);
    if metadata.None? {
      return None;
    }
    var layers := ReadLayers(b, metadata.value.1, o.maxNeighbors, count, n.neighbors);
    if layers.None? {
      return None;
    }
    r := Some((Node(head.value.0, vector.value.0, metadata.value.0, layers.value.0), head.value.1, layers.value.1));
  }

  function NodeBytes(nodes: seq<Node>, seqOf: seq<nat>, n: nat): Blob
    requires n <= |nodes| == |seqOf|
  {
    if n == 0 then [] else NodeBytes(nodes, seqOf, n - 1) + NodeRecord(n - 1, nodes[n - 1], seqOf[n - 1])
  }

  lemma {:induction false} NodeRecordAt(b: Blob, at: nat, nodes: seq<Node>, seqOf: seq<nat>, n: nat, i: nat)
    requires i < n <= |nodes| == |seqOf| && Holds(b, at, NodeBytes(nodes, seqOf, n))
    ensures Holds(b, at + |NodeBytes(nodes, seqOf, i)|, NodeRecord(i, nodes[i], seqOf[i]))
  {
    hide Holds, NodeRecord;
    HoldsCat(b, at, NodeBytes(nodes, seqOf, n - 1), NodeRecord(n - 1, nodes[n - 1], seqOf[n - 1]));
    if i < n - 1 {
      NodeRecordAt(b, at, nodes, seqOf, n - 1, i);
    }
  }

  ghost predicate NodesOk(o: Options, nodes: seq<Node>) {
    forall i :: 0 <= i < |nodes| ==> NodeOk(o, |nodes|, nodes[i])
  }

  method ReadNodes(b: Blob, at: nat, o: Options, count: nat, ghost nodes: seq<Node>, ghost seqOf: seq<nat>)
    returns (r: Option<(seq<Node>, seq<nat>, nat)>)
    requires OptionsOk(o)
    ensures r.Some? ==> |r.value.0| == |r.value.1| == count && NodesOk(o, r.value.0) && at <= r.value.2
    ensures |nodes| == |seqOf| == count < B64 && NodesOk(o, nodes) && (forall i :: 0 <= i < count ==> seqOf[i] < B64)
            && Holds(b, at, NodeBytes(nodes, seqOf, count)) ==>
              r == Some((nodes, seqOf, at + |NodeBytes(nodes, seqOf, count)|))
  {
    hide Holds, NodeBytes, NodeRecord, NodeOk;
    ghost var good := |nodes| == |seqOf| == count < B64 && NodesOk(o, nodes) && (forall i :: 0 <= i < count ==> seqOf[i] < B64)
                      && Holds(b, at, NodeBytes(nodes, seqOf, count));
    var list: seq<Node>, seqs: seq<nat>, offset := [], [], at;
    if good {
      NoNodes(nodes, seqOf);
    }
    for i := 0 to count
      invariant |list| == |seqs| == i && offset >= at && forall j :: 0 <= j < i ==> NodeOk(o, count, list[j])
      invariant good ==> list == nodes[..i] && seqs == seqOf[..i] && offset == at + |NodeBytes(nodes, seqOf, i)|
    {
      ghost var expected, s := Node([], [], [], []), 0;
      if good {
        NodeRecordAt(b, at, nodes, seqOf, count, i);
        NodeBytesNext(nodes, seqOf, i);
        expected, s := nodes[i], seqOf[i];
      }
      var node := ReadNode(b, offset, i, o, count, expected, s);
      if node.None? {
        return None;
      }
      list, seqs, offset := list + [node.value.0], seqs + [node.value.1], node.value.2;
    }
    if good {
      assert nodes[..count] == nodes && seqOf[..count] == seqOf;
    }
    r := Some((list, seqs, offset));
  }

  lemma NoNodes(nodes: seq<Node>, seqOf: seq<nat>)
    requires |nodes| == |seqOf|
    ensures NodeBytes(nodes, seqOf, 0) == []
  {
  }

  lemma NodeBytesNext(nodes: seq<Node>, seqOf: seq<nat>, i: nat)
    requires i < |nodes| == |seqOf|
    ensures NodeBytes(nodes, seqOf, i + 1) == NodeBytes(nodes, seqOf, i) + NodeRecord(i, nodes[i], seqOf[i])
  {
  }

  // ------------------------------------------------------------------- version rows

  datatype Row = Row(key: Blob, entry: Entry)

  function Tag(e: Entry): Byte {
    if e.deleted then 1 else 0
  }

  function RowBytes(r: Row): Blob {
    Str(r.key) + Fixed(r.entry.seqno, 8) + (Fixed(r.entry.node, 8) + [Tag(r.entry)])
  }

  predicate RowOk(r: Row, count: nat) {
    && r.key != [] && |r.key| < B32 && r.entry.seqno < B64 && r.entry.node < B64
    && (!r.entry.deleted ==> r.entry.node < count)
  }

  method ReadRow(b: Blob, at: nat, count: nat, ghost row: Row) returns (r: Option<(Row, nat)>)
    ensures r.Some? ==> RowOk(r.value.0, count) && at <= r.value.1 <= |b|
    ensures RowOk(row, count) && Holds(b, at, RowBytes(row)) ==> r == Some((row, at + |RowBytes(row)|))
  {
    hide Fixed, Str, U64At, StrAt, Holds;
    ghost var e := row.entry;
    if RowOk(row, count) && Holds(b, at, RowBytes(row)) {
      var mid := at + |Str(row.key)|;
      Holds3(b, at, Str(row.key), Fixed(e.seqno, 8), Fixed(e.node, 8) + [Tag(e)]);
      HoldsCat(b, mid + 8, Fixed(e.node, 8), [Tag(e)]);
      StrHolds(b, at, row.key);
      U64Holds(b, mid, e.seqno);
      U64Holds(b, mid + 8, e.node);
      HoldsOne(b, mid + 16, Tag(e));
    }
    var key := StrAt(b, at);
    if key.None? || key.value.0 == [] {
      return None;
    }
    var seqno := U64At(b, key.value.1);
    if seqno.None? {
      return None;
    }
    var node := U64At(b, seqno.value.1);
    if node.None? || node.value.1 >= |b| {
      return None;
    }
    var tag := b[node.value.1];
    if tag > 1 {
      return None;
    }
    if tag == 0 && node.value.0 >= count {
      return None;
    }
    r := Some((Row(key.value.0, Entry(seqno.value.0, node.value.0, tag != 0)), node.value.1 + 1));
  }

  lemma HoldsOne(b: Blob, at: nat, x: Byte)
    requires Holds(b, at, [x])
    ensures at < |b| && b[at] == x
  {
    assert b[at..at + 1][0] == b[at];
  }

  function RowsBytes(rows: seq<Row>, n: nat): Blob
    requires n <= |rows|
  {
    if n == 0 then [] else RowsBytes(rows, n - 1) + RowBytes(rows[n - 1])
  }

  lemma {:induction false} RowAt(b: Blob, at: nat, rows: seq<Row>, n: nat, i: nat)
    requires i < n <= |rows| && Holds(b, at, RowsBytes(rows, n))
    ensures Holds(b, at + |RowsBytes(rows, i)|, RowBytes(rows[i]))
  {
    hide Holds, RowBytes;
    HoldsCat(b, at, RowsBytes(rows, n - 1), RowBytes(rows[n - 1]));
    if i < n - 1 {
      RowAt(b, at, rows, n - 1, i);
    }
  }

  /** No two rows for one key and sequence. */
  ghost predicate NoRepeat(rows: seq<Row>) {
    forall i, j :: 0 <= i < j < |rows| ==> !(rows[i].key == rows[j].key && rows[i].entry.seqno == rows[j].entry.seqno)
  }

  /** The rows are the version table. */
  ghost predicate Lists(rows: seq<Row>, v: Versions) {
    && (forall k, e :: Row(k, e) in rows <==> k in v && e in v[k])
    && (forall k :: k in v ==> v[k] != [] && Ascending(v[k]))
  }

  lemma {:induction false} AscendingUnique(a: History, b: History)
    requires Ascending(a) && Ascending(b) && forall e :: e in a <==> e in b
    ensures a == b
  {
    hide Ascending;
    assert b != [] ==> b[0] in b;
    if a != [] {
      assert a[|a| - 1] in b;
      var x, y := a[|a| - 1], b[|b| - 1];
      assert x in b && y in a;
      LastIsMost(a, y);
      LastIsMost(b, x);
      SameEntry(a, x, y);
      var p, q := a[..|a| - 1], b[..|b| - 1];
      forall e ensures e in p <==> e in q {
        WithoutLast(a, e);
        WithoutLast(b, e);
      }
      InitAscending(a);
      InitAscending(b);
      AscendingUnique(p, q);
      assert a == p + [x] && b == q + [y];
    }
  }

  lemma InitAscending(h: History)
    requires Ascending(h) && h != []
    ensures Ascending(h[..|h| - 1])
  {
  }

  lemma LastIsMost(h: History, e: Entry)
    requires Ascending(h) && e in h
    ensures e.seqno <= h[|h| - 1].seqno
  {
  }

  lemma SameEntry(h: History, x: Entry, y: Entry)
    requires Ascending(h) && x in h && y in h && x.seqno == y.seqno
    ensures x == y
  {
    var i :| 0 <= i < |h| && h[i] == x;
    var j :| 0 <= j < |h| && h[j] == y;
  }

  lemma WithoutLast(h: History, e: Entry)
    requires Ascending(h) && h != []
    ensures e in h[..|h| - 1] <==> e in h && e != h[|h| - 1]
  {
    var p := h[..|h| - 1];
    assert h == p + [h[|h| - 1]];
    if e in p {
      var i :| 0 <= i < |p| && p[i] == e;
      assert h[i] == e;
    }
  }

  lemma ListsNext(done: seq<Row>, v: Versions, row: Row)
    requires Lists(done, v) && (row.key in v ==> !Has(v[row.key], row.entry.seqno))
    ensures var h := if row.key in v then v[row.key] else [];
            Lists(done + [row], v[row.key := Emplaced(h, row.entry)])
  {
    hide Emplaced;
    var h := if row.key in v then v[row.key] else [];
    var w := v[row.key := Emplaced(h, row.entry)];
    EmplacedFacts(h, row.entry);
    assert row.entry in Emplaced(h, row.entry);
    forall k, e ensures Row(k, e) in done + [row] <==> k in w && e in w[k] {
      if k == row.key {
        assert Row(k, e) in done <==> e in h;
      }
    }
  }

  lemma ListsUnique(rows: seq<Row>, v: Versions, w: Versions)
    requires Lists(rows, v) && Lists(rows, w)
    ensures v == w
  {
    forall k ensures k in v <==> k in w {
      if k in v {
        assert v[k][0] in v[k];
        assert Row(k, v[k][0]) in rows;
      }
      if k in w {
        assert w[k][0] in w[k];
        assert Row(k, w[k][0]) in rows;
      }
    }
    forall k | k in v ensures v[k] == w[k] {
      forall e ensures e in v[k] <==> e in w[k] {
        assert Row(k, e) in rows <==> e in v[k];
      }
      AscendingUnique(v[k], w[k]);
    }
    assert v.Keys == w.Keys;
  }

  /** A row not yet read is not in the table. */
  lemma NotRead(rows: seq<Row>, i: nat, v: Versions)
    requires i < |rows| && NoRepeat(rows) && Lists(rows[..i], v)
    ensures rows[i].key in v ==> !Has(v[rows[i].key], rows[i].entry.seqno)
  {
    var k := rows[i].key;
    if k in v {
      forall j | 0 <= j < |v[k]| ensures v[k][j].seqno != rows[i].entry.seqno {
        assert v[k][j] in v[k];
        assert Row(k, v[k][j]) in rows[..i];
      }
    }
  }

  ghost predicate RowsOk(rows: seq<Row>, count: nat) {
    forall i :: 0 <= i < |rows| ==> RowOk(rows[i], count)
  }

  /** The version table, row by row; a repeated version is refused. */
  method ReadRows(b: Blob, at: nat, n: nat, count: nat, ghost rows: seq<Row>, ghost v: Versions)
    returns (r: Option<(Versions, nat)>, ghost read: seq<Row>)
    ensures r.Some? ==> Lists(read, r.value.0) && RowsOk(read, count) && at <= r.value.1
    ensures n == |rows| && RowsOk(rows, count) && NoRepeat(rows) && Lists(rows, v) && Holds(b, at, RowsBytes(rows, n)) ==>
              r == Some((v, at + |RowsBytes(rows, n)|))
  {
    hide Holds, RowsBytes, RowBytes, RowOk, Lists, Emplaced, NoRepeat;
    ghost var good := n == |rows| && RowsOk(rows, count) && NoRepeat(rows) && Lists(rows, v) && Holds(b, at, RowsBytes(rows, n));
    var table: Versions, offset := map[], at;
    read := [];
    NoRows(rows);
    for i := 0 to n
      invariant Lists(read, table) && RowsOk(read, count) && offset >= at
      invariant good ==> read == rows[..i] && offset == at + |RowsBytes(rows, i)|
    {
      ghost var expected := Row([], Entry(0, 0, false));
      if good {
        RowAt(b, at, rows, n, i);
        RowsNext(rows, i);
        NotRead(rows, i, table);
        expected := rows[i];
      }
      var row := ReadRow(b, offset, count, expected);
      if row.None? {
        return None, read;
      }
      var key, entry := row.value.0.key, row.value.0.entry;
      var h := if key in table then table[key] else [];
      ListsAscending(read, table, key);
      var found, k := FindVersion(h, entry.seqno);
      if found {
        return None, read;
      }
      ListsNext(read, table, row.value.0);
      table, offset, read := table[key := Emplaced(h, entry)], row.value.1, read + [row.value.0];
    }
    if good {
      assert rows[..n] == rows;
      ListsUnique(rows, table, v);
    }
    r := Some((table, offset));
  }

  lemma NoRows(rows: seq<Row>)
    ensures Lists([], map[]) && RowsBytes(rows, 0) == []
  {
  }

  lemma RowsNext(rows: seq<Row>, i: nat)
    requires i < |rows|
    ensures RowsBytes(rows, i + 1) == RowsBytes(rows, i) + RowBytes(rows[i])
  {
  }

  lemma ListsAscending(rows: seq<Row>, v: Versions, key: Blob)
    requires Lists(rows, v)
    ensures key in v ==> v[key] != [] && Ascending(v[key])
  {
  }

  // ------------------------------------------------------------------------- checks

  method HasDuplicate(ns: seq<nat>) returns (dup: bool)
    ensures dup <==> !Distinct(ns)
  {
    for i := 0 to |ns|
      invariant Distinct(ns[..i])
    {
      for j := 0 to i
        invariant ns[i] !in ns[..j]
      {
        if ns[j] == ns[i] {
          return true;
        }
      }
      assert ns[..i + 1] == ns[..i] + [ns[i]];
    }
    assert ns[..|ns|] == ns;
    dup := false;
  }

  ghost predicate LinksOk(nodes: seq<Node>, i: nat, l: nat, ns: seq<nat>) {
    Distinct(ns) && forall j :: 0 <= j < |ns| ==> ns[j] != i && HasLevel(nodes, ns[j], l)
  }

  method CheckLayer(nodes: seq<Node>, i: nat, l: nat, ns: seq<nat>) returns (ok: bool)
    requires forall j :: 0 <= j < |ns| ==> ns[j] < |nodes|
    ensures ok <==> LinksOk(nodes, i, l, ns)
  {
    var dup := HasDuplicate(ns);
    if dup {
      return false;
    }
    for j := 0 to |ns|
      invariant forall k :: 0 <= k < j ==> ns[k] != i && HasLevel(nodes, ns[k], l)
    {
      if ns[j] == i || |nodes[ns[j]].neighbors| <= l {
        return false;
      }
    }
    ok := true;
  }

  ghost predicate NodeListed(nodes: seq<Node>, seqs: seq<nat>, v: Versions, i: nat)
    requires i < |nodes| == |seqs|
  {
    nodes[i].key in v && Entry(seqs[i], i, false) in v[nodes[i].key]
  }

  /** One node against the version table and its neighbours. */
  method CheckNode(nodes: seq<Node>, seqs: seq<nat>, v: Versions, i: nat, ghost rows: seq<Row>) returns (ok: bool)
    requires i < |nodes| == |seqs| && Lists(rows, v)
    requires forall l :: 0 <= l < |nodes[i].neighbors| ==> forall j :: 0 <= j < |nodes[i].neighbors[l]| ==> nodes[i].neighbors[l][j] < |nodes|
    ensures ok <==> NodeListed(nodes, seqs, v, i)
                    && forall l :: 0 <= l < |nodes[i].neighbors| ==> LinksOk(nodes, i, l, nodes[i].neighbors[l])
  {
    hide LinksOk, Lists;
    var key := nodes[i].key;
    ListsAscending(rows, v, key);
    if key !in v {
      return false;
    }
    var found, n := FindVersion(v[key], seqs[i]);
    ghost var mine := Entry(seqs[i], i, false);
    if !found {
      NotThere(v[key], mine);
      return false;
    }
    assert v[key][n] in v[key];
    if v[key][n].deleted || v[key][n].node != i {
      if mine in v[key] {
        SameEntry(v[key], mine, v[key][n]);
        assert false;
      }
      return false;
    }
    assert v[key][n] == mine;
    for l := 0 to |nodes[i].neighbors|
      invariant forall k :: 0 <= k < l ==> LinksOk(nodes, i, k, nodes[i].neighbors[k])
    {
      var good := CheckLayer(nodes, i, l, nodes[i].neighbors[l]);
      if !good {
        return false;
      }
    }
    ok := true;
  }

  lemma NotThere(h: History, e: Entry)
    requires !Has(h, e.seqno)
    ensures e !in h
  {
  }

  /** The highest level of any node, -1 if there is none. */
  method TopLevel(nodes: seq<Node>) returns (top: int)
    ensures top >= -1 && forall i :: 0 <= i < |nodes| ==> |nodes[i].neighbors| <= top + 1
    ensures top == -1 || exists i :: 0 <= i < |nodes| && |nodes[i].neighbors| == top + 1
  {
    top := -1;
    for i := 0 to |nodes|
      invariant top >= -1 && forall j :: 0 <= j < i ==> |nodes[j].neighbors| <= top + 1
      invariant top == -1 || exists j :: 0 <= j < |nodes| && |nodes[j].neighbors| == top + 1
    {
      if |nodes[i].neighbors| - 1 > top {
        top := |nodes[i].neighbors| - 1;
      }
    }
  }

  ghost predicate EntriesRight(nodes: seq<Node>, seqs: seq<nat>, v: Versions)
    requires |nodes| == |seqs|
  {
    forall k, e :: k in v && e in v[k] ==> EntryOk(nodes, seqs, k, e)
  }

  /** Every live version against its node. */
  method CheckVersions(nodes: seq<Node>, seqs: seq<nat>, v: Versions) returns (ok: bool)
    requires |nodes| == |seqs|
    ensures ok <==> EntriesRight(nodes, seqs, v)
  {
    hide EntryOk;
    var todo := v.Keys;
    while todo != {}
      invariant todo <= v.Keys && forall k, e :: k in v && k !in todo && e in v[k] ==> EntryOk(nodes, seqs, k, e)
      decreases todo
    {
      var k :| k in todo;
      var right := CheckHistory(nodes, seqs, k, v[k]);
      if !right {
        return false;
      }
      todo := todo - {k};
    }
    ok := true;
  }

  method CheckHistory(nodes: seq<Node>, seqs: seq<nat>, k: Blob, h: History) returns (ok: bool)
    requires |nodes| == |seqs|
    ensures ok <==> forall e :: e in h ==> EntryOk(nodes, seqs, k, e)
  {
    for i := 0 to |h|
      invariant forall j :: 0 <= j < i ==> EntryOk(nodes, seqs, k, h[j])
    {
      var e := h[i];
      assert e in h;
      if !e.deleted {
        if e.node >= |nodes| || nodes[e.node].key != k || seqs[e.node] != e.seqno {
          return false;
        }
      }
    }
    ok := true;
  }

  // --------------------------------------------------------------------- whole files

  /** The level as a 32-bit word, -1 for an empty graph. */
  function LevelWord(level: int): nat
    requires -1 <= level
  {
    if level < 0 then B32 - 1 else level
  }

  function WordLevel(w: nat): int {
    if w >= 0x8000_0000 then w - B32 else w
  }

  function Head1(o: Options): Blob {
    Fixed(INDEX_MAGIC, 8) + Fixed(2, 4) + Fixed(o.dimension, 4)
  }

  function Head2(o: Options): Blob {
    Fixed(o.maxNeighbors, 4) + Fixed(o.efConstruction, 4) + Fixed(o.metric, 4)
  }

  function Head3(level: int, count: nat, versions: nat): Blob
    requires -1 <= level
  {
    Fixed(LevelWord(level), 4) + Fixed(count, 8) + Fixed(versions, 8)
  }

  function Head(o: Options, level: int, count: nat, versions: nat, entry: nat): (h: Blob)
    requires -1 <= level
    ensures |h| == HEADER
  {
    Head1(o) + Head2(o) + (Head3(level, count, versions) + Fixed(entry, 8))
  }

  datatype Header = Header(magic: nat, version: nat, dimension: nat, maxNeighbors: nat, efConstruction: nat, metric: nat,
                           level: nat, count: nat, versions: nat, entry: nat)

  function HeaderAt(b: Blob): Header
    requires |b| >= HEADER
  {
    Header(Get64(b, 0), Get32(b, 8), Get32(b, 12), Get32(b, 16), Get32(b, 20), Get32(b, 24),
           Get32(b, 28), Get64(b, 32), Get64(b, 40), Get64(b, 48))
  }

  lemma HeaderHolds(b: Blob, o: Options, level: int, count: nat, versions: nat, entry: nat)
    requires OptionsOk(o) && -1 <= level < 64 && count < B64 && versions < B64 && entry < B64
    requires |b| >= HEADER && Holds(b, 0, Head(o, level, count, versions, entry))
    ensures HeaderAt(b) == Header(INDEX_MAGIC, 2, o.dimension, o.maxNeighbors, o.efConstruction, o.metric,
                                  LevelWord(level), count, versions, entry)
  {
    hide Holds, Fixed, Get32, Get64;
    Holds3(b, 0, Head1(o), Head2(o), Head3(level, count, versions) + Fixed(entry, 8));
    HoldsCat(b, 28, Head3(level, count, versions), Fixed(entry, 8));
    Holds3(b, 0, Fixed(INDEX_MAGIC, 8), Fixed(2, 4), Fixed(o.dimension, 4));
    Holds3(b, 16, Fixed(o.maxNeighbors, 4), Fixed(o.efConstruction, 4), Fixed(o.metric, 4));
    Holds3(b, 28, Fixed(LevelWord(level), 4), Fixed(count, 8), Fixed(versions, 8));
    Field64(b, 0, INDEX_MAGIC);
    Field32(b, 8, 2);
    Field32(b, 12, o.dimension);
    Field32(b, 16, o.maxNeighbors);
    Field32(b, 20, o.efConstruction);
    Field32(b, 24, o.metric);
    Field32(b, 28, LevelWord(level));
    Field64(b, 32, count);
    Field64(b, 40, versions);
    Field64(b, 48, entry);
  }

  lemma Field32(b: Blob, at: nat, v: nat)
    requires v < B32 && Holds(b, at, Fixed(v, 4))
    ensures at + 4 <= |b| && Get32(b, at) == v
  {
    hide Fixed, Get32;
    Slice32(b, at, v);
  }

  lemma Field64(b: Blob, at: nat, v: nat)
    requires v < B64 && Holds(b, at, Fixed(v, 8))
    ensures at + 8 <= |b| && Get64(b, at) == v
  {
    hide Fixed, Get64;
    Slice64(b, at, v);
  }

  function Body(nodes: seq<Node>, seqOf: seq<nat>, rows: seq<Row>): Blob
    requires |nodes| == |seqOf|
  {
    NodeBytes(nodes, seqOf, |nodes|) + RowsBytes(rows, |rows|)
  }

  function FileOf(crc: Checksum, o: Options, nodes: seq<Node>, seqOf: seq<nat>, rows: seq<Row>, entry: nat, level: int): Blob
    requires |nodes| == |seqOf| && -1 <= level
  {
    var body := Body(nodes, seqOf, rows);
    Head(o, level, |nodes|, |rows|, entry) + body + Fixed(crc(body), 4)
  }

  lemma Monotone(a: nat, b: nat, c: nat)
    requires a <= b
    ensures a * c <= b * c
  {
  }

  lemma DivideLeast(n: nat, c: nat, total: nat)
    requires c > 0 && n * c <= total
    ensures n <= total / c
  {
    var q := total / c;
    assert (q + 1) * c > total;
    if n >= q + 1 {
      Monotone(q + 1, n, c);
    }
  }

  lemma {:induction false} LayerBytesLeast(ls: seq<seq<nat>>)
    ensures |LayerBytes(ls)| >= 4 * |ls|
  {
    hide IndexBytes.Ids;
    if ls != [] {
      LayerBytesLeast(ls[..|ls| - 1]);
    }
  }

  lemma NodeRecordLeast(o: Options, count: nat, i: nat, n: Node, s: nat)
    requires NodeOk(o, count, n)
    ensures |NodeRecord(i, n, s)| >= 33 + 4 * o.dimension
  {
    hide Coordinates, LayerBytes, VectorOk;
    LayerBytesLeast(n.neighbors);
    CoordinatesSize(n.vector);
    VectorSize(o, n.vector);
  }

  lemma VectorSize(o: Options, v: Vector)
    requires VectorOk(o.floats, o.dimension, v)
    ensures |v| == o.dimension
  {
  }

  lemma {:induction false} NodeBytesLeast(o: Options, nodes: seq<Node>, seqOf: seq<nat>, n: nat)
    requires n <= |nodes| == |seqOf| && NodesOk(o, nodes)
    ensures |NodeBytes(nodes, seqOf, n)| >= n * (33 + 4 * o.dimension)
  {
    hide NodeRecord, NodeOk;
    if n > 0 {
      NodeBytesLeast(o, nodes, seqOf, n - 1);
      NodeRecordLeast(o, |nodes|, n - 1, nodes[n - 1], seqOf[n - 1]);
      assert n * (33 + 4 * o.dimension) == (n - 1) * (33 + 4 * o.dimension) + (33 + 4 * o.dimension);
    }
  }

  lemma RowLeast(r: Row, count: nat)
    requires RowOk(r, count)
    ensures |RowBytes(r)| >= 22
  {
    hide Fixed;
  }

  lemma {:induction false} RowsBytesLeast(rows: seq<Row>, n: nat, count: nat)
    requires n <= |rows| && RowsOk(rows, count)
    ensures |RowsBytes(rows, n)| >= 22 * n
  {
    hide RowBytes, RowOk;
    if n > 0 {
      RowsBytesLeast(rows, n - 1, count);
      RowLeast(rows[n - 1], count);
    }
  }

  /** The file is this index. */
  ghost predicate Stored(crc: Checksum, file: Blob, o: Options, nodes: seq<Node>, seqOf: seq<nat>, rows: seq<Row>, v: Versions,
                         entry: nat, level: int)
  {
    && OptionsOk(o) && NodesOk(o, nodes) && GraphInv(nodes, level, entry, o.maxNeighbors)
    && VersionsOk(nodes, seqOf, v) && Lists(rows, v) && NoRepeat(rows) && RowsOk(rows, |nodes|)
    && (forall i :: 0 <= i < |seqOf| ==> seqOf[i] < B64) && |nodes| < B64 && |rows| < B64 && entry < B64 && -1 <= level < 64
    && file == FileOf(crc, o, nodes, seqOf, rows, entry, level) && |file| < B64
  }

  datatype Loaded = Loaded(nodes: seq<Node>, versions: Versions, entry: nat, level: int)

  lemma StoredParts(crc: Checksum, file: Blob, o: Options, nodes: seq<Node>, seqOf: seq<nat>, rows: seq<Row>, v: Versions,
                    entry: nat, level: int)
    requires Stored(crc, file, o, nodes, seqOf, rows, v, entry, level)
    ensures |nodes| == |seqOf|
    ensures var nb, rb := NodeBytes(nodes, seqOf, |nodes|), RowsBytes(rows, |rows|);
            && |file| == HEADER + |nb| + |rb| + 4
            && HeaderAt(file) == Header(INDEX_MAGIC, 2, o.dimension, o.maxNeighbors, o.efConstruction, o.metric,
                                        LevelWord(level), |nodes|, |rows|, entry)
            && Holds(file, HEADER, nb) && Holds(file, HEADER + |nb|, rb)
            && Get32(file, |file| - 4) == crc(file[HEADER..|file| - 4])
            && |nodes| <= (|nb| + |rb|) / (33 + 4 * o.dimension) && |rows| <= (|nb| + |rb|) / 22
            && |nodes| <= (B64 - 1) / o.dimension
  {
    hide Holds, Fixed, Head, NodeBytes, RowsBytes, Get32, HeaderAt, GraphInv, VersionsOk, Lists, NodesOk, RowsOk, NoRepeat;
    SizesAgree(nodes, seqOf, v);
    var nb, rb := NodeBytes(nodes, seqOf, |nodes|), RowsBytes(rows, |rows|);
    var body, head := nb + rb, Head(o, level, |nodes|, |rows|, entry);
    FileHolds(file, head, body, Fixed(crc(body), 4));
    Holds3(file, 0, head, body, Fixed(crc(body), 4));
    HoldsCat(file, HEADER, nb, rb);
    HeaderHolds(file, o, level, |nodes|, |rows|, entry);
    Field32(file, |file| - 4, crc(body));
    BodySlice(file, body);
    NodeBytesLeast(o, nodes, seqOf, |nodes|);
    RowsBytesLeast(rows, |rows|, |nodes|);
    DivideLeast(|nodes|, 33 + 4 * o.dimension, |nb| + |rb|);
    DivideLeast(|rows|, 22, |nb| + |rb|);
    Scaled(|nodes|, o.dimension, |nb|);
    DivideLeast(|nodes|, o.dimension, B64 - 1);
  }

  lemma SizesAgree(nodes: seq<Node>, seqOf: seq<nat>, v: Versions)
    requires VersionsOk(nodes, seqOf, v)
    ensures |seqOf| == |nodes|
  {
  }

  lemma Scaled(n: nat, d: nat, size: nat)
    requires n * (33 + 4 * d) <= size
    ensures n * d <= size
  {
    assert n * (33 + 4 * d) == 33 * n + 4 * (n * d);
  }

  lemma FileHolds(file: Blob, a: Blob, b: Blob, c: Blob)
    requires file == a + b + c
    ensures Holds(file, 0, a + b + c)
  {
    assert file[0..|file|] == file;
  }

  lemma BodySlice(file: Blob, body: Blob)
    requires Holds(file, HEADER, body) && |file| == HEADER + |body| + 4
    ensures file[HEADER..|file| - 4] == body
  {
  }

  /** Load: accepts what was saved and gives it back; and what it accepts satisfies the
      graph invariant, with a version table that matches the nodes. */
  method Load(crc: Checksum, file: Blob, o: Options,
              ghost nodes: seq<Node>, ghost seqOf: seq<nat>, ghost rows: seq<Row>, ghost v: Versions, ghost entry: nat, ghost level: int)
    returns (r: Option<Loaded>, ghost seqs: seq<nat>)
    requires OptionsOk(o)
    ensures r.Some? ==>
              && GraphInv(r.value.nodes, r.value.level, r.value.entry, o.maxNeighbors)
              && VersionsOk(r.value.nodes, seqs, r.value.versions) && NodesOk(o, r.value.nodes)
    ensures Stored(crc, file, o, nodes, seqOf, rows, v, entry, level) ==> r == Some(Loaded(nodes, v, entry, level))
  {
    hide Holds, Fixed, Head, NodeBytes, RowsBytes, Get32, HeaderAt, GraphInv, VersionsOk, Lists, NodesOk, RowsOk, NoRepeat, FileOf;
    ghost var good := Stored(crc, file, o, nodes, seqOf, rows, v, entry, level);
    seqs := [];
    if good {
      StoredParts(crc, file, o, nodes, seqOf, rows, v, entry, level);
    }
    if |file| < HEADER + 4 {
      return None, seqs;
    }
    var h := HeaderAt(file);
    if h.magic != INDEX_MAGIC || h.version != 2 {
      return None, seqs;
    }
    if h.dimension != o.dimension || h.maxNeighbors != o.maxNeighbors || h.efConstruction != o.efConstruction || h.metric != o.metric {
      return None, seqs;
    }
    var top := WordLevel(h.level);
    if top > 63 || (h.count == 0 && top != -1) || (h.count != 0 && top < 0) || (h.count != 0 && h.entry >= h.count) {
      if good {
        LevelFits(nodes, level, entry, o.maxNeighbors);
      }
      return None, seqs;
    }
    var size := |file| - HEADER - 4;
    if h.count > (B64 - 1) / o.dimension || h.count > size / (33 + 4 * o.dimension) || h.versions > size / 22 {
      return None, seqs;
    }
    var read := ReadNodes(file, HEADER, o, h.count, nodes, seqOf);
    if read.None? {
      return None, seqs;
    }
    ghost var seen;
    var table;
    table, seen := ReadRows(file, read.value.2, h.versions, h.count, rows, v);
    if table.None? || table.value.1 + 4 != |file| {
      return None, seqs;
    }
    if crc(file[HEADER..|file| - 4]) != Get32(file, |file| - 4) {
      return None, seqs;
    }
    var ok := CheckAll(o, read.value.0, read.value.1, table.value.0, top, h.entry, seen);
    if !ok {
      return None, seqs;
    }
    seqs := read.value.1;
    r := Some(Loaded(read.value.0, table.value.0, h.entry, top));
  }

  lemma LevelFits(nodes: seq<Node>, level: int, entry: nat, m: nat)
    requires GraphInv(nodes, level, entry, m) && -1 <= level < 64
    ensures WordLevel(LevelWord(level)) == level
    ensures !(level > 63 || (|nodes| == 0 && level != -1) || (|nodes| != 0 && level < 0) || (|nodes| != 0 && entry >= |nodes|))
  {
  }

  /** The checks made before anything is published. */
  method CheckAll(o: Options, nodes: seq<Node>, seqs: seq<nat>, v: Versions, level: int, entry: nat, ghost rows: seq<Row>)
    returns (ok: bool)
    requires |nodes| == |seqs| && NodesOk(o, nodes) && Lists(rows, v) && RowsOk(rows, |nodes|)
    requires (nodes == [] ==> level == -1) && (nodes != [] ==> level >= 0 && entry < |nodes|)
    ensures ok <==> GraphInv(nodes, level, entry, o.maxNeighbors) && VersionsOk(nodes, seqs, v)
  {
    hide Lists, RowsOk, GraphInv, VersionsOk, NodesOk, LinksOk;
    for i := 0 to |nodes|
      invariant forall j :: 0 <= j < i ==> NodeChecked(nodes, seqs, v, j)
    {
      NeighborsInRange(o, nodes, i);
      var right := CheckNode(nodes, seqs, v, i, rows);
      assert right == NodeChecked(nodes, seqs, v, i);
      if !right {
        AllChecked(o, nodes, seqs, v, level, entry, rows);
        return false;
      }
    }
    var top := TopLevel(nodes);
    if top != level || (nodes != [] && |nodes[entry].neighbors| != level + 1) {
      AllChecked(o, nodes, seqs, v, level, entry, rows);
      return false;
    }
    ok := CheckVersions(nodes, seqs, v);
    AllChecked(o, nodes, seqs, v, level, entry, rows);
  }

  ghost predicate NodeChecked(nodes: seq<Node>, seqs: seq<nat>, v: Versions, i: nat)
    requires i < |nodes| == |seqs|
  {
    NodeListed(nodes, seqs, v, i) && forall l :: 0 <= l < |nodes[i].neighbors| ==> LinksOk(nodes, i, l, nodes[i].neighbors[l])
  }

  lemma NeighborsInRange(o: Options, nodes: seq<Node>, i: nat)
    requires NodesOk(o, nodes) && i < |nodes|
    ensures forall l :: 0 <= l < |nodes[i].neighbors| ==>
              forall j :: 0 <= j < |nodes[i].neighbors[l]| ==> nodes[i].neighbors[l][j] < |nodes|
  {
    assert NodeOk(o, |nodes|, nodes[i]);
  }

  lemma LinksAre(o: Options, nodes: seq<Node>, i: nat, l: nat)
    requires NodesOk(o, nodes) && i < |nodes| && l < |nodes[i].neighbors|
    ensures ListOk(nodes, o.maxNeighbors, i, l, nodes[i].neighbors[l]) <==> LinksOk(nodes, i, l, nodes[i].neighbors[l])
  {
    hide VectorOk;
    assert NodeOk(o, |nodes|, nodes[i]);
    assert LayerOk(nodes[i].neighbors[l], Limit(o.maxNeighbors, l), |nodes|);
  }

  lemma SomeLayer(o: Options, nodes: seq<Node>, i: nat)
    requires NodesOk(o, nodes) && i < |nodes|
    ensures 1 <= |nodes[i].neighbors|
  {
    hide VectorOk;
    assert NodeOk(o, |nodes|, nodes[i]);
  }

  lemma GraphChecked(o: Options, nodes: seq<Node>, level: int, entry: nat)
    requires NodesOk(o, nodes)
    requires (nodes == [] ==> level == -1) && (nodes != [] ==> level >= 0 && entry < |nodes|)
    ensures GraphInv(nodes, level, entry, o.maxNeighbors) <==>
              && (forall i, l :: 0 <= i < |nodes| && 0 <= l < |nodes[i].neighbors| ==> LinksOk(nodes, i, l, nodes[i].neighbors[l]))
              && (forall i :: 0 <= i < |nodes| ==> |nodes[i].neighbors| <= level + 1)
              && (nodes != [] ==> |nodes[entry].neighbors| == level + 1)
  {
    hide NodesOk, LinksOk, ListOk;
    forall i, l | 0 <= i < |nodes| && 0 <= l < |nodes[i].neighbors|
      ensures ListOk(nodes, o.maxNeighbors, i, l, nodes[i].neighbors[l]) <==> LinksOk(nodes, i, l, nodes[i].neighbors[l])
    {
      LinksAre(o, nodes, i, l);
    }
    forall i | 0 <= i < |nodes| ensures 1 <= |nodes[i].neighbors| {
      SomeLayer(o, nodes, i);
    }
  }

  lemma TableChecked(nodes: seq<Node>, seqs: seq<nat>, v: Versions, rows: seq<Row>)
    requires |nodes| == |seqs| && Lists(rows, v) && RowsOk(rows, |nodes|)
    ensures VersionsOk(nodes, seqs, v) <==>
              (forall i :: 0 <= i < |nodes| ==> NodeListed(nodes, seqs, v, i)) && EntriesRight(nodes, seqs, v)
  {
    hide EntryOk;
    forall k | k in v ensures k != [] && v[k] != [] && Ascending(v[k]) {
      assert v[k][0] in v[k];
      assert Row(k, v[k][0]) in rows;
    }
    if VersionsOk(nodes, seqs, v) {
      forall k, e | k in v && e in v[k] ensures EntryOk(nodes, seqs, k, e) {
        assert HistoryOk(nodes, seqs, k, v[k]);
      }
    }
    if EntriesRight(nodes, seqs, v) && forall i :: 0 <= i < |nodes| ==> NodeListed(nodes, seqs, v, i) {
      forall k | k in v ensures HistoryOk(nodes, seqs, k, v[k]) {
      }
      forall i | 0 <= i < |nodes| ensures nodes[i].key in v && Entry(seqs[i], i, false) in v[nodes[i].key] {
        assert NodeListed(nodes, seqs, v, i);
      }
    }
  }

  /** The checks together are exactly the two invariants. */
  lemma AllChecked(o: Options, nodes: seq<Node>, seqs: seq<nat>, v: Versions, level: int, entry: nat, rows: seq<Row>)
    requires |nodes| == |seqs| && NodesOk(o, nodes) && Lists(rows, v) && RowsOk(rows, |nodes|)
    requires (nodes == [] ==> level == -1) && (nodes != [] ==> level >= 0 && entry < |nodes|)
    ensures GraphInv(nodes, level, entry, o.maxNeighbors) && VersionsOk(nodes, seqs, v) <==>
              && (forall j :: 0 <= j < |nodes| ==> NodeChecked(nodes, seqs, v, j))
              && (forall i :: 0 <= i < |nodes| ==> |nodes[i].neighbors| <= level + 1)
              && (nodes != [] ==> |nodes[entry].neighbors| == level + 1)
              && EntriesRight(nodes, seqs, v)
  {
    hide NodesOk, LinksOk, Lists, RowsOk, GraphInv, VersionsOk, NodeListed, EntriesRight;
    GraphChecked(o, nodes, level, entry);
    TableChecked(nodes, seqs, v, rows);
    if forall j :: 0 <= j < |nodes| ==> NodeChecked(nodes, seqs, v, j) {
      forall i, l | 0 <= i < |nodes| && 0 <= l < |nodes[i].neighbors| ensures LinksOk(nodes, i, l, nodes[i].neighbors[l]) {
        assert NodeChecked(nodes, seqs, v, i);
      }
      forall i | 0 <= i < |nodes| ensures NodeListed(nodes, seqs, v, i) {
        assert NodeChecked(nodes, seqs, v, i);
      }
    }
  }

  // -------------------------------------------------------------------------- saving

  /** The version table as rows, keys in any order. */
  method FlattenVersions(v: Versions) returns (rows: seq<Row>)
    requires forall k :: k in v ==> v[k] != [] && Ascending(v[k])
    ensures Lists(rows, v) && NoRepeat(rows)
  {
    hide Ascending, NoRepeat;
    rows := [];
    NoneRepeats();
    var todo := v.Keys;
    while todo != {}
      invariant todo <= v.Keys && NoRepeat(rows)
      invariant forall k, e :: Row(k, e) in rows <==> k in v && k !in todo && e in v[k]
      decreases todo
    {
      var k :| k in todo;
      rows := AppendHistory(rows, k, v[k]);
      todo := todo - {k};
    }
  }

  lemma NoneRepeats()
    ensures NoRepeat([])
  {
  }

  method AppendHistory(rows: seq<Row>, k: Blob, h: History) returns (all: seq<Row>)
    requires NoRepeat(rows) && Ascending(h) && forall e :: Row(k, e) !in rows
    ensures NoRepeat(all) && forall x, e :: Row(x, e) in all <==> Row(x, e) in rows || (x == k && e in h)
  {
    all := rows;
    for i := 0 to |h|
      invariant NoRepeat(all) && forall x, e :: Row(x, e) in all <==> Row(x, e) in rows || (x == k && e in h[..i])
    {
      assert h[..i + 1] == h[..i] + [h[i]];
      forall j | 0 <= j < |all| ensures !(all[j].key == k && all[j].entry.seqno == h[i].seqno) {
        assert all[j] == Row(all[j].key, all[j].entry) && all[j] in all;
      }
      all := all + [Row(k, h[i])];
    }
    assert h[..|h|] == h;
  }

  /** node id -> sequence, from the live versions. */
  method SequencesOf(rows: seq<Row>) returns (m: map<nat, nat>)
    ensures forall n :: n in m <==> exists i :: 0 <= i < |rows| && !rows[i].entry.deleted && rows[i].entry.node == n
    ensures forall n :: n in m ==> exists i :: 0 <= i < |rows| && !rows[i].entry.deleted && rows[i].entry.node == n && rows[i].entry.seqno == m[n]
  {
    m := map[];
    for i := 0 to |rows|
      invariant forall n :: n in m <==> exists j :: 0 <= j < i && !rows[j].entry.deleted && rows[j].entry.node == n
      invariant forall n :: n in m ==> exists j :: 0 <= j < i && !rows[j].entry.deleted && rows[j].entry.node == n && rows[j].entry.seqno == m[n]
    {
      var e := rows[i].entry;
      if !e.deleted && e.node !in m {
        m := m[e.node := e.seqno];
      }
    }
  }

  function Below(n: nat): set<nat> {
    if n == 0 then {} else Below(n - 1) + {n - 1}
  }

  lemma {:induction false} BelowSize(n: nat)
    ensures |Below(n)| == n && forall i: nat :: i in Below(n) <==> i < n
  {
    if n > 0 {
      BelowSize(n - 1);
    }
  }

  /** Each node has exactly one live version. */
  lemma SequencesAre(nodes: seq<Node>, seqOf: seq<nat>, v: Versions, rows: seq<Row>, m: map<nat, nat>)
    requires VersionsOk(nodes, seqOf, v) && Lists(rows, v)
    requires forall n :: n in m <==> exists i :: 0 <= i < |rows| && !rows[i].entry.deleted && rows[i].entry.node == n
    requires forall n :: n in m ==> exists i :: 0 <= i < |rows| && !rows[i].entry.deleted && rows[i].entry.node == n && rows[i].entry.seqno == m[n]
    ensures |m| == |nodes| && (forall i :: 0 <= i < |nodes| ==> i in m && m[i] == seqOf[i])
  {
    forall i | 0 <= i < |rows| && !rows[i].entry.deleted
      ensures rows[i].entry.node < |nodes| && rows[i].entry.seqno == seqOf[rows[i].entry.node]
    {
      var k, e := rows[i].key, rows[i].entry;
      assert Row(k, e) == rows[i] && rows[i] in rows;
      assert HistoryOk(nodes, seqOf, k, v[k]);
      assert EntryOk(nodes, seqOf, k, e);
    }
    forall n | 0 <= n < |nodes| ensures n in m {
      var r := Row(nodes[n].key, Entry(seqOf[n], n, false));
      assert r in rows;
      var i :| 0 <= i < |rows| && rows[i] == r;
      assert !rows[i].entry.deleted && rows[i].entry.node == n;
    }
    BelowSize(|nodes|);
    assert m.Keys == Below(|nodes|);
  }

  predicate ListsFit(ls: seq<seq<nat>>) {
    |ls| <= MAX_LAYERS && forall l :: 0 <= l < |ls| ==> |ls[l]| < B32
  }

  predicate NodeFits(n: Node) {
    |n.key| < B32 && |n.metadata| < B32 && ListsFit(n.neighbors)
  }

  /** What Save can write. */
  ghost predicate Fits(nodes: seq<Node>, v: Versions) {
    (forall i :: 0 <= i < |nodes| ==> NodeFits(nodes[i])) && forall k :: k in v ==> |k| < B32
  }

  method WriteNodes(nodes: seq<Node>, m: map<nat, nat>, ghost seqOf: seq<nat>) returns (body: Option<Blob>)
    requires |nodes| == |seqOf| && forall i :: 0 <= i < |nodes| ==> i in m && m[i] == seqOf[i]
    ensures body.Some? <==> forall i :: 0 <= i < |nodes| ==> NodeFits(nodes[i])
    ensures body.Some? ==> body.value == NodeBytes(nodes, seqOf, |nodes|)
  {
    hide NodeRecord, NodeFits;
    var bytes: Blob := [];
    for i := 0 to |nodes|
      invariant bytes == NodeBytes(nodes, seqOf, i) && forall j :: 0 <= j < i ==> NodeFits(nodes[j])
    {
      if !NodeFits(nodes[i]) {
        return None;
      }
      bytes := bytes + NodeRecord(i, nodes[i], m[i]);
    }
    body := Some(bytes);
  }

  method WriteRows(rows: seq<Row>) returns (body: Option<Blob>)
    ensures body.Some? <==> forall i :: 0 <= i < |rows| ==> |rows[i].key| < B32
    ensures body.Some? ==> body.value == RowsBytes(rows, |rows|)
  {
    hide RowBytes;
    var bytes: Blob := [];
    for i := 0 to |rows|
      invariant bytes == RowsBytes(rows, i) && forall j :: 0 <= j < i ==> |rows[j].key| < B32
    {
      if |rows[i].key| >= B32 {
        return None;
      }
      bytes := bytes + RowBytes(rows[i]);
    }
    body := Some(bytes);
  }

  /** Save: fails only for strings or lists that do not fit their size field. */
  method Save(crc: Checksum, o: Options, nodes: seq<Node>, v: Versions, entry: nat, level: int, ghost seqOf: seq<nat>)
    returns (r: Option<Blob>, ghost rows: seq<Row>)
    requires VersionsOk(nodes, seqOf, v) && -1 <= level
    ensures Lists(rows, v) && NoRepeat(rows)
    ensures r.Some? <==> Fits(nodes, v)
    ensures r.Some? ==> |nodes| == |seqOf| && r.value == FileOf(crc, o, nodes, seqOf, rows, entry, level)
  {
    hide NodeBytes, RowsBytes, Head, Lists, NoRepeat, VersionsOk, NodeFits;
    TableAscending(nodes, seqOf, v);
    var list := FlattenVersions(v);
    rows := list;
    var m := SequencesOf(list);
    SequencesAre(nodes, seqOf, v, rows, m);
    SizesAgree(nodes, seqOf, v);
    KeysFit(rows, v);
    if |m| != |nodes| {
      return None, rows;
    }
    var nb := WriteNodes(nodes, m, seqOf);
    if nb.None? {
      return None, rows;
    }
    var rb := WriteRows(list);
    if rb.None? {
      return None, rows;
    }
    var body := nb.value + rb.value;
    r := Some(Head(o, level, |nodes|, |list|, entry) + body + Fixed(crc(body), 4));
  }

  lemma TableAscending(nodes: seq<Node>, seqOf: seq<nat>, v: Versions)
    requires VersionsOk(nodes, seqOf, v)
    ensures forall k :: k in v ==> v[k] != [] && Ascending(v[k])
  {
    forall k | k in v ensures v[k] != [] && Ascending(v[k]) {
      assert HistoryOk(nodes, seqOf, k, v[k]);
    }
  }

  lemma KeysFit(rows: seq<Row>, v: Versions)
    requires Lists(rows, v)
    ensures (forall i :: 0 <= i < |rows| ==> |rows[i].key| < B32) <==> forall k :: k in v ==> |k| < B32
  {
    forall i | 0 <= i < |rows| ensures rows[i].key in v {
      assert Row(rows[i].key, rows[i].entry) in rows;
    }
    forall k | k in v ensures exists i :: 0 <= i < |rows| && rows[i].key == k {
      assert v[k][0] in v[k];
      assert Row(k, v[k][0]) in rows;
      var i :| 0 <= i < |rows| && rows[i] == Row(k, v[k][0]);
      assert rows[i].key == k;
    }
  }

  /** An index as the insert and delete operations build it: the graph and the table agree,
      vectors are of the right kind and sequences have 64 bits. */
  ghost predicate Built(o: Options, nodes: seq<Node>, seqOf: seq<nat>, v: Versions, entry: nat, level: int) {
    && OptionsOk(o) && GraphInv(nodes, level, entry, o.maxNeighbors) && VersionsOk(nodes, seqOf, v)
    && (forall i :: 0 <= i < |nodes| ==> nodes[i].key != [] && VectorOk(o.floats, o.dimension, nodes[i].vector))
    && (forall k, e :: k in v && e in v[k] ==> e.seqno < B64 && e.node < B64)
  }

  /** The round trip: what Save writes of such an index is what Load gives back. */
  lemma SavedIsStored(crc: Checksum, file: Blob, o: Options, nodes: seq<Node>, seqOf: seq<nat>, rows: seq<Row>, v: Versions,
                      entry: nat, level: int)
    requires Built(o, nodes, seqOf, v, entry, level) && Fits(nodes, v) && Lists(rows, v) && NoRepeat(rows)
    requires -1 <= level && entry < B64 && |nodes| == |seqOf| && |nodes| < B64 && |rows| < B64
    requires file == FileOf(crc, o, nodes, seqOf, rows, entry, level) && |file| < B64
    ensures Stored(crc, file, o, nodes, seqOf, rows, v, entry, level)
  {
    hide FileOf, VectorOk, NoRepeat;
    assert nodes != [] ==> NodeFits(nodes[entry]);
    forall i | 0 <= i < |nodes| ensures NodeOk(o, |nodes|, nodes[i]) {
      assert NodeFits(nodes[i]);
      BuiltLayers(o, nodes, level, entry, i);
    }
    forall i | 0 <= i < |rows| ensures RowOk(rows[i], |nodes|) {
      assert Row(rows[i].key, rows[i].entry) in rows;
      assert HistoryOk(nodes, seqOf, rows[i].key, v[rows[i].key]);
      assert EntryOk(nodes, seqOf, rows[i].key, rows[i].entry);
    }
    forall i | 0 <= i < |seqOf| ensures seqOf[i] < B64 {
      assert Entry(seqOf[i], i, false) in v[nodes[i].key];
    }
  }

  /** Save and then Load: any index made by inserting and deleting comes back as it was, so
      every search at every sequence sees the same. */
  method Reload(crc: Checksum, o: Options, idx: Index) returns (file: Option<Blob>, r: Option<Loaded>, ghost rows: seq<Row>)
    requires idx.Valid() && OptionsOk(o) && o.maxNeighbors == idx.graph.m
    requires forall v :: idx.graph.admissible(v) ==> VectorOk(o.floats, o.dimension, v)
    requires forall k, e :: k in idx.versions && e in idx.versions[k] ==> e.seqno < B64 && e.node < B64
    ensures file.Some? <==> Fits(idx.graph.nodes, idx.versions)
    ensures file.Some? && |file.value| < B64 && |idx.graph.nodes| < B64 && |rows| < B64 && idx.graph.entry < B64 ==>
              r == Some(Loaded(idx.graph.nodes, idx.versions, idx.graph.entry, idx.graph.maxLevel))
  {
    hide Stored, FileOf, Fits, Lists, NoRepeat, VersionsOk, VectorOk, ListsOk, LevelsOk;
    var nodes, v, entry, level := idx.graph.nodes, idx.versions, idx.graph.entry, idx.graph.maxLevel;
    LevelLeast(nodes, level, entry);
    file, rows := Save(crc, o, nodes, v, entry, level, idx.seqOf);
    r := None;
    if file.Some? {
      ghost var seqs;
      r, seqs := Load(crc, file.value, o, nodes, idx.seqOf, rows, v, entry, level);
      if |file.value| < B64 && |nodes| < B64 && |rows| < B64 && entry < B64 {
        SavedIsStored(crc, file.value, o, nodes, idx.seqOf, rows, v, entry, level);
      }
    }
  }

  lemma LevelLeast(nodes: seq<Node>, level: int, entry: nat)
    requires LevelsOk(nodes, level, entry)
    ensures -1 <= level
  {
  }

  lemma BuiltLayers(o: Options, nodes: seq<Node>, level: int, entry: nat, i: nat)
    requires GraphInv(nodes, level, entry, o.maxNeighbors) && i < |nodes| && |nodes[i].neighbors| <= MAX_LAYERS
    ensures LayersFit(nodes[i].neighbors, o.maxNeighbors, |nodes|)
  {
    forall l | 0 <= l < |nodes[i].neighbors| ensures LayerOk(nodes[i].neighbors[l], Limit(o.maxNeighbors, l), |nodes|) {
      assert ListOk(nodes, o.maxNeighbors, i, l, nodes[i].neighbors[l]);
    }
  }
}
