/** WriteBatch and its byte encoding: type, key size, value size, key, value. */
module WriteBatchCodec {
  import opened Bytes
  import opened Codec
  import opened Versions

  const MAX_U32: nat := 0xffff_ffff

  function TypeByte(op: Op): Byte {
    match op
    case Put(_, _) => 1
    case Delete(_) => 2
  }

  function ValueBytes(op: Op): Blob {
    match op
    case Put(_, v) => v
    case Delete(_) => []
  }

  function OpBytes(op: Op): Blob {
    [TypeByte(op)] + Fixed(|op.key|, 4) + Fixed(|ValueBytes(op)|, 4) + op.key + ValueBytes(op)
  }

  function EncodeOps(ops: seq<Op>): Blob {
    if ops == [] then [] else OpBytes(ops[0]) + EncodeOps(ops[1..])
  }

  predicate Fits(op: Op) {
    |op.key| <= MAX_U32 && |ValueBytes(op)| <= MAX_U32
  }

  /** What ValidateEncoding accepts. */
  predicate Encodable(ops: seq<Op>) {
    |ops| <= MAX_U32 && (forall i :: 0 <= i < |ops| ==> Fits(ops[i])) && |EncodeOps(ops)| <= MAX_U32
  }

  function MakeOp(t: Byte, key: Blob, value: Blob): Op {
    if t == 1 then Put(key, value) else Delete(key)
  }

  /** One operation and the bytes behind it; None is a corruption. */
  function DecodeOp(b: Blob): Option<(Op, Blob)>
    requires b != []
  {
    if |b| < 9 || (b[0] != 1 && b[0] != 2) then None
    else
      var ks, vs := Get32(b, 1), Get32(b, 5);
      if |b| - 9 < ks + vs then None
      else
        var key, value, rest := b[9..9 + ks], b[9 + ks..9 + ks + vs], b[9 + ks + vs..];
        if b[0] == 2 && value != [] then None
        else Some((MakeOp(b[0], key, value), rest))
  }

  lemma DecodeOpShorter(b: Blob)
    requires b != [] && DecodeOp(b).Some?
    ensures |DecodeOp(b).value.1| < |b|
  {
  }

  function DecodeOps(b: Blob): Option<seq<Op>>
    decreases |b|
  {
    if b == [] then Some([])
    else
      match DecodeOp(b)
      case None => None
      case Some((op, rest)) =>
        DecodeOpShorter(b);
        match DecodeOps(rest)
        case None => None
        case Some(ops) => Some([op] + ops)
  }

  lemma DecodeEncodedOp(op: Op, rest: Blob)
    requires Fits(op)
    ensures OpBytes(op) + rest != [] && DecodeOp(OpBytes(op) + rest) == Some((op, rest))
  {
    hide Fixed, Get32;
    var k, v := op.key, ValueBytes(op);
    var b, h := OpBytes(op) + rest, [TypeByte(op)] + Fixed(|k|, 4) + Fixed(|v|, 4);
    assert b == h + k + v + rest;
    Parts(h, k, v, rest);
    Parts([TypeByte(op)], Fixed(|k|, 4), Fixed(|v|, 4), k + v + rest);
    assert b == [TypeByte(op)] + Fixed(|k|, 4) + Fixed(|v|, 4) + (k + v + rest);
    Slice32(b, 1, |k|);
    Slice32(b, 5, |v|);
  }

  lemma EncodeDecodedOp(b: Blob)
    requires b != [] && DecodeOp(b).Some?
    ensures var (op, rest) := DecodeOp(b).value; Fits(op) && OpBytes(op) + rest == b
  {
    hide Fixed, Get32;
    var (op, rest) := DecodeOp(b).value;
    var ks, vs := Get32(b, 1), Get32(b, 5);
    Put32Get(b, 1);
    Put32Get(b, 5);
    SplitOp(b, ks, vs);
  }

  lemma SplitOp(b: Blob, ks: nat, vs: nat)
    requires |b| >= 9 + ks + vs
    ensures [b[0]] + b[1..5] + b[5..9] + b[9..9 + ks] + b[9 + ks..9 + ks + vs] + b[9 + ks + vs..] == b
  {
  }

  /** Decode inverts Encode on every batch that can be encoded at all. */
  lemma {:induction false} DecodeEncode(ops: seq<Op>)
    requires forall i :: 0 <= i < |ops| ==> Fits(ops[i])
    ensures DecodeOps(EncodeOps(ops)) == Some(ops)
  {
    if ops != [] {
      DecodeEncode(ops[1..]);
      DecodeEncodedOp(ops[0], EncodeOps(ops[1..]));
      assert [ops[0]] + ops[1..] == ops;
    }
  }

  /** Encode inverts Decode: a payload that decodes is the encoding of its result. */
  lemma {:induction false} EncodeDecode(b: Blob)
    requires DecodeOps(b).Some?
    ensures EncodeOps(DecodeOps(b).value) == b
    ensures forall i :: 0 <= i < |DecodeOps(b).value| ==> Fits(DecodeOps(b).value[i])
    decreases |b|
  {
    if b != [] {
      var (op, rest) := DecodeOp(b).value;
      DecodeOpShorter(b);
      EncodeDecode(rest);
      EncodeDecodedOp(b);
    }
  }

  lemma {:induction false} EncodeAppend(ops: seq<Op>, op: Op)
    ensures EncodeOps(ops + [op]) == EncodeOps(ops) + OpBytes(op)
  {
    hide OpBytes;
    if ops == [] {
      assert ([op])[1..] == [];
      assert ops + [op] == [op];
      assert EncodeOps([op]) == OpBytes(op) + [];
    } else {
      EncodeAppend(ops[1..], op);
      assert (ops + [op])[1..] == ops[1..] + [op];
    }
  }

  lemma {:induction false} DecodeAppend(a: Blob, ops: seq<Op>, b: Blob)
    requires DecodeOps(a) == Some(ops)
    ensures DecodeOps(a + b) == (match DecodeOps(b) case None => None case Some(more) => Some(ops + more))
    decreases |a|
  {
    hide DecodeOp, OpBytes, Fits;
    if a == [] {
      assert a + b == b && ops == [];
      assert DecodeOps(b).Some? ==> ops + DecodeOps(b).value == DecodeOps(b).value;
    } else {
      var (op, rest) := DecodeOp(a).value;
      DecodeOpShorter(a);
      EncodeDecodedOp(a);
      DecodeEncodedOp(op, rest + b);
      assert a + b == OpBytes(op) + (rest + b);
      DecodeAppend(rest, ops[1..], b);
      assert DecodeOps(b).Some? ==> ops + DecodeOps(b).value == [op] + (ops[1..] + DecodeOps(b).value);
    }
  }

  /** The operation list a client builds, encodes and decodes. */
  class WriteBatch {
    var operations: seq<Op>

    constructor ()
      ensures operations == []
    {
      operations := [];
    }

    method AddPut(key: Blob, value: Blob)
      modifies this
      ensures operations == old(operations) + [Put(key, value)]
    {
      operations := operations + [Put(key, value)];
    }

    method AddDelete(key: Blob)
      modifies this
      ensures operations == old(operations) + [Delete(key)]
    {
      operations := operations + [Delete(key)];
    }

    method Clear()
      modifies this
      ensures operations == []
    {
      operations := [];
    }

    method Encode() returns (encoded: Blob)
      ensures encoded == EncodeOps(operations)
    {
      hide OpBytes, EncodeOps;
      encoded := [];
      EmptyEncodes();
      assert operations[..0] == [];
      for i := 0 to |operations|
        invariant encoded == EncodeOps(operations[..i])
      {
        EncodeAppend(operations[..i], operations[i]);
        assert operations[..i + 1] == operations[..i] + [operations[i]];
        encoded := encoded + OpBytes(operations[i]);
      }
      assert operations[..|operations|] == operations;
    }

    method ValidateEncoding() returns (ok: bool)
      ensures ok == Encodable(operations)
    {
      hide EncodeOps;
      if |operations| > MAX_U32 {
        return false;
      }
      EmptyEncodes();
      var size := 0;
      assert operations[..0] == [];
      for i := 0 to |operations|
        invariant size == |EncodeOps(operations[..i])| <= MAX_U32
        invariant forall j :: 0 <= j < i ==> Fits(operations[j])
      {
        if !Fits(operations[i]) {
          return false;
        }
        EncodeAppend(operations[..i], operations[i]);
        assert operations[..i + 1] == operations[..i] + [operations[i]];
        size := size + 9 + |operations[i].key| + |ValueBytes(operations[i])|;
        if size > MAX_U32 {
          EncodeLonger(operations, i + 1);
          return false;
        }
      }
      assert operations[..|operations|] == operations;
      return true;
    }

    /** On corruption the old operations stay. */
    method Decode(encoded: Blob) returns (ok: bool)
      modifies this
      ensures ok == DecodeOps(encoded).Some?
      ensures operations == if ok then DecodeOps(encoded).value else old(operations)
    {
      hide DecodeOp, OpBytes, Fits;
      var decoded, ptr := [], 0;
      EmptyDecodes();
      while ptr != |encoded|
        invariant ptr <= |encoded| && DecodeOps(encoded[..ptr]) == Some(decoded)
        invariant operations == old(operations)
      {
        var rest := encoded[ptr..];
        assert encoded == encoded[..ptr] + rest;
        DecodeAppend(encoded[..ptr], decoded, rest);
        var r := DecodeOp(rest);
        if r.None? {
          return false;
        }
        var (op, more) := r.value;
        EncodeDecodedOp(rest);
        var next := |encoded| - |more|;
        DecodeOpShorter(rest);
        assert encoded[..next] == encoded[..ptr] + OpBytes(op);
        DecodeSingle(op);
        DecodeAppend(encoded[..ptr], decoded, OpBytes(op));
        decoded, ptr := decoded + [op], next;
      }
      assert encoded[..ptr] == encoded;
      operations := decoded;
      return true;
    }
  }

  lemma DecodeSingle(op: Op)
    requires Fits(op)
    ensures DecodeOps(OpBytes(op)) == Some([op])
  {
    DecodeEncode([op]);
    assert [op][1..] == [] && EncodeOps([op]) == OpBytes(op) + [];
    assert OpBytes(op) + [] == OpBytes(op);
  }

  lemma EmptyEncodes()
    ensures EncodeOps([]) == []
  {
  }

  lemma EmptyDecodes()
    ensures DecodeOps([]) == Some([])
  {
  }

  lemma {:induction false} EncodeLonger(ops: seq<Op>, i: nat)
    requires i <= |ops|
    ensures |EncodeOps(ops[..i])| <= |EncodeOps(ops)|
    decreases |ops|
  {
    hide OpBytes;
    if i == |ops| {
      assert ops[..i] == ops;
    } else {
      var n := |ops| - 1;
      EncodeAppend(ops[..n], ops[n]);
      assert ops[..n] + [ops[n]] == ops;
      EncodeLonger(ops[..n], i);
      assert ops[..n][..i] == ops[..i];
    }
  }
}
