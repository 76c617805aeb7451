/**
 SizeVT against what is written. Every message is sized at least as long as it is written, and exactly
 as long as written if and only if no set oneof in it has a nil payload.
 */
module Sizes {
  import opened Common
  import opened Wire
  import opened Messages
  import opened Codec
  import opened CommandCodec

  lemma TagSize(num: FieldNumber, wireType: nat)
    requires wireType < 8
    ensures num < 16 ==> EncodeVarint(num * 8 + wireType) == [num * 8 + wireType]
    ensures num == 64 && wireType == 2 ==> EncodeVarint(num * 8 + wireType) == [0x82, 0x04]
  {
    if num == 64 && wireType == 2 {
      assert EncodeVarint(4) == [4];
      assert EncodeVarint(514) == [514 % 128 + 128] + EncodeVarint(514 / 128);
    }
  }

  lemma RecordsOfOne(f: WireField)
    ensures Records([f]) == Record(f)
  {
    var one := [f];
    assert ConcatMap(Record, one) == Record(f) + ConcatMap(Record, one[1..]);
    assert one[1..] == [];
  }

  lemma BytesSize(num: FieldNumber, b: bytes)
    requires num < 16 || num == 64
    ensures |Records([BytesField(num, b)])| == SizeRecord(if num < 16 then 1 else 2, |b|)
  {
    RecordsOfOne(BytesField(num, b));
    TagSize(num, 2);
  }

  lemma VarintSize(num: FieldNumber, v: uint64)
    requires num < 16
    ensures |Records([VarintField(num, v)])| == 1 + SizeOfVarint(v)
  {
    RecordsOfOne(VarintField(num, v));
    TagSize(num, 0);
  }

  lemma PlainBytesSize(num: FieldNumber, b: bytes)
    requires num < 16 || num == 64
    ensures |Records(PlainBytes(num, b))| == SizePlainBytes(if num < 16 then 1 else 2, b)
  {
    if |b| > 0 {
      BytesSize(num, b);
    }
  }

  lemma OptionalBytesSize(num: FieldNumber, b: Option<bytes>)
    requires num < 16
    ensures |Records(OptionalBytes(num, b))| == SizeOptionalBytes(b)
  {
    if b.Some? {
      BytesSize(num, b.value);
    }
  }

  lemma PlainIntSize(num: FieldNumber, x: int64)
    requires num < 16
    ensures |Records(PlainInt(num, x))| == SizePlainInt(x)
  {
    if x != 0 {
      VarintSize(num, ToU64(x));
    }
  }

  lemma PlainBoolSize(num: FieldNumber, b: bool)
    requires num < 16
    ensures |Records(PlainBool(num, b))| == SizePlainBool(b)
  {
    if b {
      VarintSize(num, 1);
    }
  }

  lemma OptionalUintSize(v: Option<uint64>)
    ensures |Records(OptionalUint(5, v))| == SizeIndex(v)
  {
    if v.Some? {
      VarintSize(5, v.value);
    }
  }

  // ----- Leaf messages -----

  lemma KeyValueSize(m: KeyValue)
    ensures SizeKeyValue(m) == |EncodeKeyValue(m)|
  {
    FourPartsFit(PlainBytes(1, m.key), PlainInt(2, m.createRevision), PlainInt(3, m.modRevision),
      PlainBytes(4, m.value));
    PlainBytesSize(1, m.key);
    PlainIntSize(2, m.createRevision);
    PlainIntSize(3, m.modRevision);
    PlainBytesSize(4, m.value);
  }

  lemma FivePartsFit(a: seq<WireField>, b: seq<WireField>, c: seq<WireField>, d: seq<WireField>, e: seq<WireField>)
    ensures |Records(a + (b + (c + (d + e))))| ==
      |Records(a)| + |Records(b)| + |Records(c)| + |Records(d)| + |Records(e)|
  {
    RecordsConcat(a, b + (c + (d + e)));
    FourPartsFit(b, c, d, e);
  }

  lemma CompareSize(m: Compare)
    ensures SizeCompare(m) == |EncodeCompare(m)|
  {
    FivePartsFit(PlainInt(1, m.result), PlainInt(2, m.target), PlainBytes(3, m.key), PlainBytes(64, m.rangeEnd),
      OptionalBytes(4, m.value));
    PlainIntSize(1, m.result);
    PlainIntSize(2, m.target);
    PlainBytesSize(3, m.key);
    PlainBytesSize(64, m.rangeEnd);
    OptionalBytesSize(4, m.value);
  }

  lemma RangeSize(m: RangeOp)
    ensures SizeRange(m) == |EncodeRange(m)|
  {
    FivePartsFit(PlainBytes(1, m.key), PlainBytes(2, m.rangeEnd), PlainInt(3, m.limit), PlainBool(4, m.keysOnly),
      PlainBool(5, m.countOnly));
    PlainBytesSize(1, m.key);
    PlainBytesSize(2, m.rangeEnd);
    PlainIntSize(3, m.limit);
    PlainBoolSize(4, m.keysOnly);
    PlainBoolSize(5, m.countOnly);
  }

  lemma PutSize(m: PutOp)
    ensures SizePut(m) == |EncodePut(m)|
  {
    PartsFit(PlainBytes(1, m.key), PlainBytes(2, m.value), PlainBool(3, m.prevKv));
    PlainBytesSize(1, m.key);
    PlainBytesSize(2, m.value);
    PlainBoolSize(3, m.prevKv);
  }

  lemma DeleteSize(m: DeleteOp)
    ensures SizeDelete(m) == |EncodeDelete(m)|
  {
    FourPartsFit(PlainBytes(1, m.key), PlainBytes(2, m.rangeEnd), PlainBool(4, m.prevKv), PlainBool(5, m.count));
    PlainBytesSize(1, m.key);
    PlainBytesSize(2, m.rangeEnd);
    PlainBoolSize(4, m.prevKv);
    PlainBoolSize(5, m.count);
  }

  // ----- Nested messages -----

  /** `size` covers `len`, and is exact just when `complete`. */
  predicate Covers(size: nat, len: nat, complete: bool) {
    len <= size && (len == size <==> complete)
  }

  lemma RecordCovers(num: FieldNumber, size: nat, b: bytes, complete: bool)
    requires num < 16 && Covers(size, |b|, complete)
    ensures Covers(SizeRecord(1, size), |Records([BytesField(num, b)])|, complete)
  {
    BytesSize(num, b);
    SizeOfVarintMonotone(|b|, size);
  }

  lemma RequestOpSize(m: RequestOp)
    ensures Covers(SizeRequestOp(m), |EncodeRequestOp(m)|, CompleteRequestOp(m))
  {
    match m.request
    case NoRequest =>
    case RangeArm(p) =>
      BytesSize(1, Body(p, EncodeRange));
      if p.Some? {
        RangeSize(p.value);
      }
    case PutArm(p) =>
      BytesSize(2, Body(p, EncodePut));
      if p.Some? {
        PutSize(p.value);
      }
    case DeleteArm(p) =>
      BytesSize(3, Body(p, EncodeDelete));
      if p.Some? {
        DeleteSize(p.value);
      }
  }

  ghost predicate AllComplete<M>(ms: seq<Option<M>>, complete: M -> bool) {
    forall i :: 0 <= i < |ms| && ms[i].Some? ==> complete(ms[i].value)
  }

  lemma {:induction false} RepeatedSize<M(!new)>(num: FieldNumber, ms: seq<Option<M>>, encode: M -> bytes,
                                                 size: M -> nat, complete: M -> bool)
    requires num < 16
    requires forall m: M :: Covers(size(m), |encode(m)|, complete(m))
    ensures Covers(SizeRepeated(ms, size), |Records(Repeated(num, ms, encode))|, AllComplete(ms, complete))
    decreases |ms|
  {
    if |ms| > 0 {
      var first, rest := BytesField(num, Body(ms[0], encode)), Repeated(num, ms[1..], encode);
      RecordCovers(num, SizeBody(ms[0], size), Body(ms[0], encode), ms[0].Some? ==> complete(ms[0].value));
      RepeatedSize(num, ms[1..], encode, size, complete);
      RecordsConcat([first], rest);
      assert AllComplete(ms, complete) <==> (ms[0].Some? ==> complete(ms[0].value)) && AllComplete(ms[1..], complete);
    }
  }

  lemma TxnSize(m: Txn)
    ensures Covers(SizeTxn(m), |EncodeTxn(m)|, CompleteTxn(m))
  {
    PartsFit(Repeated(1, m.compare, EncodeCompare), Repeated(2, m.success, EncodeRequestOp),
      Repeated(3, m.failure, EncodeRequestOp));
    forall e: Compare
      ensures SizeCompare(e) == |EncodeCompare(e)|
    {
      CompareSize(e);
    }
    forall e: RequestOp
      ensures Covers(SizeRequestOp(e), |EncodeRequestOp(e)|, CompleteRequestOp(e))
    {
      RequestOpSize(e);
    }
    RepeatedSize(1, m.compare, EncodeCompare, SizeCompare, (e: Compare) => true);
    RepeatedSize(2, m.success, EncodeRequestOp, SizeRequestOp, CompleteRequestOp);
    RepeatedSize(3, m.failure, EncodeRequestOp, SizeRequestOp, CompleteRequestOp);
  }

  lemma KvSize(kv: Option<KeyValue>)
    ensures SizeOptionalMessage(kv, SizeKeyValue) == |Records(OptionalMessage(3, kv, EncodeKeyValue))|
  {
    if kv.Some? {
      KeyValueSize(kv.value);
      BytesSize(3, EncodeKeyValue(kv.value));
    }
  }

  lemma TxnPartSize(txn: Option<Txn>)
    ensures Covers(SizeOptionalMessage(txn, SizeTxn), |Records(OptionalMessage(7, txn, EncodeTxn))|,
                   txn.Some? ==> CompleteTxn(txn.value))
  {
    if txn.Some? {
      TxnSize(txn.value);
      RecordCovers(7, SizeTxn(txn.value), EncodeTxn(txn.value), CompleteTxn(txn.value));
    }
  }

  lemma BatchSize(ms: seq<Option<KeyValue>>)
    ensures SizeRepeated(ms, SizeKeyValue) == |Records(Repeated(6, ms, EncodeKeyValue))|
  {
    forall e: KeyValue
      ensures SizeKeyValue(e) == |EncodeKeyValue(e)|
    {
      KeyValueSize(e);
    }
    RepeatedSize(6, ms, EncodeKeyValue, SizeKeyValue, (e: KeyValue) => true);
  }

  lemma {:induction false} SequenceSize(ms: seq<Option<Command>>)
    ensures Covers(SizeSequence(ms), |Records(SequenceFields(ms))|, CompleteSequence(ms))
    decreases ms, 0
  {
    if |ms| > 0 {
      ElementSize(ms[0]);
      RecordCovers(10, SizeElement(ms[0]), EncodeElement(ms[0]), CompleteElement(ms[0]));
      SequenceSize(ms[1..]);
      RecordsConcat([BytesField(10, EncodeElement(ms[0]))], SequenceFields(ms[1..]));
    }
  }

  lemma {:induction false} ElementSize(m: Option<Command>)
    ensures Covers(SizeElement(m), |EncodeElement(m)|, CompleteElement(m))
    decreases m, 2
  {
    if m.Some? {
      CommandSize(m.value);
    }
  }

  /** SizeVT is exact for a command of any nesting if and only if every set oneof in it carries a payload. */
  lemma {:induction false} CommandSize(m: Command)
    ensures Covers(SizeCommand(m), |EncodeCommand(m)|, CompleteCommand(m))
    decreases m, 1
  {
    FourPartsFit(PlainBytes(1, m.table), PlainInt(2, m.kind), OptionalMessage(3, m.kv, EncodeKeyValue),
      MiddleFields(m));
    FourPartsFit(OptionalUint(5, m.leaderIndex), Repeated(6, m.batch, EncodeKeyValue),
      OptionalMessage(7, m.txn, EncodeTxn), LastFields(m));
    FourPartsFit(OptionalBytes(8, m.rangeEnd), PlainBool(9, m.prevKvs), SequenceFields(m.sequence),
      PlainBool(11, m.count));
    ScalarSizes(m);
    KvSize(m.kv);
    BatchSize(m.batch);
    TxnPartSize(m.txn);
    SequenceSize(m.sequence);
  }

  lemma ScalarSizes(m: Command)
    ensures |Records(PlainBytes(1, m.table))| == SizePlainBytes(1, m.table)
    ensures |Records(PlainInt(2, m.kind))| == SizePlainInt(m.kind)
    ensures |Records(OptionalUint(5, m.leaderIndex))| == SizeIndex(m.leaderIndex)
    ensures |Records(OptionalBytes(8, m.rangeEnd))| == SizeOptionalBytes(m.rangeEnd)
    ensures |Records(PlainBool(9, m.prevKvs))| == SizePlainBool(m.prevKvs)
    ensures |Records(PlainBool(11, m.count))| == SizePlainBool(m.count)
  {
    PlainBytesSize(1, m.table);
    PlainIntSize(2, m.kind);
    OptionalUintSize(m.leaderIndex);
    OptionalBytesSize(8, m.rangeEnd);
    PlainBoolSize(9, m.prevKvs);
    PlainBoolSize(11, m.count);
  }

  // ----- What MarshalVT returns -----

  function Zeros(n: nat): (z: bytes)
    ensures |z| == n && forall i :: 0 <= i < n ==> z[i] == 0
  {
    seq(n, i => 0)
  }

  /**
   MarshalVT allocates SizeVT zero bytes, writes the encoding at their end and returns as many bytes as
   were written, from the front.
   */
  function Marshalled(m: Command): bytes {
    CommandSize(m);
    var written := EncodeCommand(m);
    (Zeros(SizeCommand(m) - |written|) + written)[..|written|]
  }

  lemma LeadingZeroIsIllegal(data: bytes)
    requires |data| > 0 && data[0] == 0
    ensures NextField(COMMAND, data) == Err(IllegalTag)
  {
    assert ReadGroups(data, 0) == Ok(Varint(0, data[1..]));
    assert ToI32(0) == 0;
  }

  /**
   Marshalling and unmarshalling a command restores it if and only if every set oneof in it carries a
   payload; otherwise the marshalled bytes start with a zero and no decoder accepts them.
   */
  lemma MarshalRoundTrip(m: Command)
    requires CleanCommand(m) && SizeCommand(m) < TWO_63
    ensures CompleteCommand(m) ==> DecodeCommand(NEW_COMMAND, Marshalled(m)) == Ok(NormalCommand(m))
    ensures !CompleteCommand(m) ==> DecodeCommand(NEW_COMMAND, Marshalled(m)) == Err(IllegalTag)
  {
    MarshalledBytes(m);
    if CompleteCommand(m) {
      CommandRoundTrip(m);
    } else {
      LeadingZeroIsIllegal(Marshalled(m));
    }
  }

  lemma MarshalledBytes(m: Command)
    ensures CompleteCommand(m) ==> Marshalled(m) == EncodeCommand(m)
    ensures CompleteCommand(m) ==> |EncodeCommand(m)| == SizeCommand(m)
    ensures !CompleteCommand(m) ==> |Marshalled(m)| > 0 && Marshalled(m)[0] == 0
  {
    CommandSize(m);
    var written := EncodeCommand(m);
    if CompleteCommand(m) {
      assert Zeros(0) + written == written;
    } else {
      IncompleteIsWritten(m);
    }
  }

  /** A transaction with one put request whose payload is nil. */
  const NIL_PUT := NEW_COMMAND.(txn := Some(NEW_TXN.(success := [Some(RequestOp(PutArm(None), []))])))

  lemma NilPutTxn()
    ensures EncodeTxn(NIL_PUT.txn.value) == [0x12, 0x02, 0x12, 0x00] && SizeTxn(NIL_PUT.txn.value) == 5
  {
    var op, ops := RequestOp(PutArm(None), []), NIL_PUT.txn.value.success;
    assert EncodeVarint(18) == [18] && EncodeVarint(0) == [0] && EncodeVarint(2) == [2];
    RecordsOfOne(BytesField(2, []));
    assert EncodeRequestOp(op) == [0x12, 0x00];
    assert SizeRequestOp(op) == 3;
    assert ops[1..] == [];
    RecordsOfOne(BytesField(2, EncodeRequestOp(op)));
    assert Repeated(2, ops, EncodeRequestOp) == [BytesField(2, EncodeRequestOp(op))];
    assert SizeRepeated(ops, SizeRequestOp) == 5;
  }

  lemma NilPutFields(b: bytes)
    requires b == EncodeTxn(NIL_PUT.txn.value)
    ensures CommandFields(NIL_PUT) == [BytesField(7, b)]
  {
  }

  lemma NilPutCommand()
    ensures SizeCommand(NIL_PUT) == 7 && EncodeCommand(NIL_PUT) == [0x3a, 0x04, 0x12, 0x02, 0x12, 0x00]
  {
    NilPutTxn();
    var b := EncodeTxn(NIL_PUT.txn.value);
    NilPutFields(b);
    RecordsOfOne(BytesField(7, b));
    assert EncodeVarint(58) == [58] && EncodeVarint(4) == [4];
  }

  /**
   It is sized 7, written in 6 bytes, marshalled with a zero in front and its last byte missing, and refused by the
   decoder.
   */
  lemma NilPutIsRefused()
    ensures SizeCommand(NIL_PUT) == 7 && EncodeCommand(NIL_PUT) == [0x3a, 0x04, 0x12, 0x02, 0x12, 0x00]
    ensures Marshalled(NIL_PUT) == [0x00, 0x3a, 0x04, 0x12, 0x02, 0x12]
    ensures DecodeCommand(NEW_COMMAND, Marshalled(NIL_PUT)) == Err(IllegalTag)
  {
    NilPutCommand();
    LeadingZeroIsIllegal(Marshalled(NIL_PUT));
  }

  /** A nil payload sits inside a record, so something is written. */
  lemma IncompleteIsWritten(m: Command)
    requires !CompleteCommand(m)
    ensures |EncodeCommand(m)| > 0
  {
    FourPartsFit(PlainBytes(1, m.table), PlainInt(2, m.kind), OptionalMessage(3, m.kv, EncodeKeyValue),
      MiddleFields(m));
    FourPartsFit(OptionalUint(5, m.leaderIndex), Repeated(6, m.batch, EncodeKeyValue),
      OptionalMessage(7, m.txn, EncodeTxn), LastFields(m));
    FourPartsFit(OptionalBytes(8, m.rangeEnd), PlainBool(9, m.prevKvs), SequenceFields(m.sequence),
      PlainBool(11, m.count));
    if |m.sequence| > 0 {
      RecordsConcat([BytesField(10, EncodeElement(m.sequence[0]))], SequenceFields(m.sequence[1..]));
      RecordsOfOne(BytesField(10, EncodeElement(m.sequence[0])));
    } else {
      RecordsOfOne(BytesField(7, EncodeTxn(m.txn.value)));
    }
  }
}
