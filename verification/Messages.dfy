/**
 The messages of the replicated command language and, for each, what its generated MarshalVT writes,
 what its SizeVT computes and what its UnmarshalVT does with one record. A nil pointer is None. Plain
 proto3 bytes do not tell nil from empty; RangeEnd, LeaderIndex, Kv and Txn of a Command, the elements
 of repeated fields and the payloads of oneofs do.
 */
module Messages {
  import opened Common
  import opened Wire

  datatype KeyValue = KeyValue(key: bytes, createRevision: int64, modRevision: int64, value: bytes, unknown: bytes)

  datatype Compare = Compare(result: int32, target: int32, key: bytes, value: Option<bytes>, rangeEnd: bytes,
    unknown: bytes)

  datatype RangeOp = RangeOp(key: bytes, rangeEnd: bytes, limit: int64, keysOnly: bool, countOnly: bool, unknown: bytes)

  datatype PutOp = PutOp(key: bytes, value: bytes, prevKv: bool, unknown: bytes)

  datatype DeleteOp = DeleteOp(key: bytes, rangeEnd: bytes, prevKv: bool, count: bool, unknown: bytes)

  /** The oneof of a RequestOp. A set arm may still carry a nil payload. */
  datatype Request =
    | NoRequest
    | RangeArm(range: Option<RangeOp>)
    | PutArm(put: Option<PutOp>)
    | DeleteArm(del: Option<DeleteOp>)

  datatype RequestOp = RequestOp(request: Request, unknown: bytes)

  datatype Txn = Txn(compare: seq<Option<Compare>>, success: seq<Option<RequestOp>>, failure: seq<Option<RequestOp>>,
    unknown: bytes)

  datatype Command = Command(
    table: bytes,
    kind: int32,
    kv: Option<KeyValue>,
    leaderIndex: Option<uint64>,
    batch: seq<Option<KeyValue>>,
    txn: Option<Txn>,
    rangeEnd: Option<bytes>,
    prevKvs: bool,
    sequence: seq<Option<Command>>,
    count: bool,
    unknown: bytes)

  const NEW_KEY_VALUE := KeyValue([], 0, 0, [], [])
  const NEW_COMPARE := Compare(0, 0, [], None, [], [])
  const NEW_RANGE := RangeOp([], [], 0, false, false, [])
  const NEW_PUT := PutOp([], [], false, [])
  const NEW_DELETE := DeleteOp([], [], false, false, [])
  const NEW_REQUEST_OP := RequestOp(NoRequest, [])
  const NEW_TXN := Txn([], [], [], [])
  const NEW_COMMAND := Command([], 0, None, None, [], None, None, false, [], false, [])

  // ----- Encoding -----

  /** A plain bytes field is written when it is not empty. */
  function PlainBytes(num: FieldNumber, b: bytes): seq<WireField> {
    if |b| == 0 then [] else [BytesField(num, b)]
  }

  /** A plain integer field is written when it is not zero. */
  function PlainInt(num: FieldNumber, x: int64): seq<WireField> {
    if x == 0 then [] else [VarintField(num, ToU64(x))]
  }

  function PlainBool(num: FieldNumber, b: bool): seq<WireField> {
    if b then [VarintField(num, 1)] else []
  }

  /** An optional field is written when it is present, even if empty or zero. */
  function OptionalBytes(num: FieldNumber, b: Option<bytes>): seq<WireField> {
    if b.None? then [] else [BytesField(num, b.value)]
  }

  function OptionalUint(num: FieldNumber, v: Option<uint64>): seq<WireField> {
    if v.None? then [] else [VarintField(num, v.value)]
  }

  function OptionalMessage<M>(num: FieldNumber, m: Option<M>, encode: M -> bytes): seq<WireField> {
    if m.None? then [] else [BytesField(num, encode(m.value))]
  }

  /** The encoding of a possibly nil message: nil is written like an empty one. */
  function Body<M>(m: Option<M>, encode: M -> bytes): bytes {
    if m.None? then [] else encode(m.value)
  }

  function Repeated<M>(num: FieldNumber, ms: seq<Option<M>>, encode: M -> bytes): seq<WireField> {
    if |ms| == 0 then [] else [BytesField(num, Body(ms[0], encode))] + Repeated(num, ms[1..], encode)
  }

  function KeyValueFields(m: KeyValue): seq<WireField> {
    PlainBytes(1, m.key) + (PlainInt(2, m.createRevision) + (PlainInt(3, m.modRevision) + PlainBytes(4, m.value)))
  }

  function EncodeKeyValue(m: KeyValue): bytes {
    Records(KeyValueFields(m)) + m.unknown
  }

  function CompareFields(m: Compare): seq<WireField> {
    PlainInt(1, m.result) +
      (PlainInt(2, m.target) + (PlainBytes(3, m.key) + (PlainBytes(64, m.rangeEnd) + OptionalBytes(4, m.value))))
  }

  function EncodeCompare(m: Compare): bytes {
    Records(CompareFields(m)) + m.unknown
  }

  function RangeFields(m: RangeOp): seq<WireField> {
    PlainBytes(1, m.key) +
      (PlainBytes(2, m.rangeEnd) + (PlainInt(3, m.limit) + (PlainBool(4, m.keysOnly) + PlainBool(5, m.countOnly))))
  }

  function EncodeRange(m: RangeOp): bytes {
    Records(RangeFields(m)) + m.unknown
  }

  function PutFields(m: PutOp): seq<WireField> {
    PlainBytes(1, m.key) + (PlainBytes(2, m.value) + PlainBool(3, m.prevKv))
  }

  function EncodePut(m: PutOp): bytes {
    Records(PutFields(m)) + m.unknown
  }

  function DeleteFields(m: DeleteOp): seq<WireField> {
    PlainBytes(1, m.key) + (PlainBytes(2, m.rangeEnd) + (PlainBool(4, m.prevKv) + PlainBool(5, m.count)))
  }

  function EncodeDelete(m: DeleteOp): bytes {
    Records(DeleteFields(m)) + m.unknown
  }

  /** The set arm is written, with an empty payload when the payload is nil. */
  function RequestFields(r: Request): seq<WireField> {
    match r
    case NoRequest => []
    case RangeArm(m) => [BytesField(1, Body(m, EncodeRange))]
    case PutArm(m) => [BytesField(2, Body(m, EncodePut))]
    case DeleteArm(m) => [BytesField(3, Body(m, EncodeDelete))]
  }

  function EncodeRequestOp(m: RequestOp): bytes {
    Records(RequestFields(m.request)) + m.unknown
  }

  function TxnFields(m: Txn): seq<WireField> {
    Repeated(1, m.compare, EncodeCompare) +
      (Repeated(2, m.success, EncodeRequestOp) + Repeated(3, m.failure, EncodeRequestOp))
  }

  function EncodeTxn(m: Txn): bytes {
    Records(TxnFields(m)) + m.unknown
  }

  function CommandFields(m: Command): seq<WireField>
    decreases m, 1
  {
    PlainBytes(1, m.table) + (PlainInt(2, m.kind) + (OptionalMessage(3, m.kv, EncodeKeyValue) +
      (OptionalUint(5, m.leaderIndex) + (Repeated(6, m.batch, EncodeKeyValue) + (OptionalMessage(7, m.txn, EncodeTxn) +
      (OptionalBytes(8, m.rangeEnd) + (PlainBool(9, m.prevKvs) +
      (SequenceFields(m.sequence) + PlainBool(11, m.count)))))))))
  }

  function EncodeCommand(m: Command): bytes
    decreases m, 2
  {
    Records(CommandFields(m)) + m.unknown
  }

  function EncodeElement(m: Option<Command>): bytes
    decreases m, 3
  {
    if m.None? then [] else EncodeCommand(m.value)
  }

  function SequenceFields(ms: seq<Option<Command>>): seq<WireField>
    decreases ms, 0
  {
    if |ms| == 0 then [] else [BytesField(10, EncodeElement(ms[0]))] + SequenceFields(ms[1..])
  }

  // ----- Sizes -----

  /** A length-delimited record with a tag of `tag` bytes, as SizeVT adds it up. */
  function SizeRecord(tag: nat, len: nat): nat {
    tag + len + SizeOfVarint(len)
  }

  function SizePlainBytes(tag: nat, b: bytes): nat {
    if |b| > 0 then SizeRecord(tag, |b|) else 0
  }

  function SizePlainInt(x: int64): nat {
    if x != 0 then 1 + SizeOfVarint(ToU64(x)) else 0
  }

  function SizePlainBool(b: bool): nat {
    if b then 2 else 0
  }

  function SizeOptionalBytes(b: Option<bytes>): nat {
    if b.Some? then SizeRecord(1, |b.value|) else 0
  }

  function SizeBody<M>(m: Option<M>, size: M -> nat): nat {
    if m.None? then 0 else size(m.value)
  }

  function SizeOptionalMessage<M>(m: Option<M>, size: M -> nat): nat {
    if m.Some? then SizeRecord(1, size(m.value)) else 0
  }

  function SizeRepeated<M>(ms: seq<Option<M>>, size: M -> nat): nat {
    if |ms| == 0 then 0 else SizeRecord(1, SizeBody(ms[0], size)) + SizeRepeated(ms[1..], size)
  }

  function SizeKeyValue(m: KeyValue): nat {
    SizePlainBytes(1, m.key) + SizePlainInt(m.createRevision) + SizePlainInt(m.modRevision) +
      SizePlainBytes(1, m.value) + |m.unknown|
  }

  function SizeCompare(m: Compare): nat {
    SizePlainInt(m.result) + SizePlainInt(m.target) + SizePlainBytes(1, m.key) + SizeOptionalBytes(m.value) +
    SizePlainBytes(2, m.rangeEnd) + |m.unknown|
  }

  function SizeRange(m: RangeOp): nat {
    SizePlainBytes(1, m.key) + SizePlainBytes(1, m.rangeEnd) + SizePlainInt(m.limit) + SizePlainBool(m.keysOnly) +
    SizePlainBool(m.countOnly) + |m.unknown|
  }

  function SizePut(m: PutOp): nat {
    SizePlainBytes(1, m.key) + SizePlainBytes(1, m.value) + SizePlainBool(m.prevKv) + |m.unknown|
  }

  function SizeDelete(m: DeleteOp): nat {
    SizePlainBytes(1, m.key) + SizePlainBytes(1, m.rangeEnd) + SizePlainBool(m.prevKv) + SizePlainBool(m.count) +
      |m.unknown|
  }

  /** A set arm with a nil payload is sized 3 although it is written in 2 bytes. */
  function SizeArm<M>(m: Option<M>, size: M -> nat): nat {
    if m.Some? then SizeRecord(1, size(m.value)) else 3
  }

  function SizeRequest(r: Request): nat {
    match r
    case NoRequest => 0
    case RangeArm(m) => SizeArm(m, SizeRange)
    case PutArm(m) => SizeArm(m, SizePut)
    case DeleteArm(m) => SizeArm(m, SizeDelete)
  }

  function SizeRequestOp(m: RequestOp): nat {
    SizeRequest(m.request) + |m.unknown|
  }

  function SizeTxn(m: Txn): nat {
    SizeRepeated(m.compare, SizeCompare) + SizeRepeated(m.success, SizeRequestOp) +
      SizeRepeated(m.failure, SizeRequestOp) + |m.unknown|
  }

  function SizeCommand(m: Command): nat
    decreases m, 1
  {
    SizePlainBytes(1, m.table) + SizePlainInt(m.kind) + SizeOptionalMessage(m.kv, SizeKeyValue) +
    SizeIndex(m.leaderIndex) +
    SizeRepeated(m.batch, SizeKeyValue) + SizeOptionalMessage(m.txn, SizeTxn) + SizeOptionalBytes(m.rangeEnd) +
    SizePlainBool(m.prevKvs) + SizeSequence(m.sequence) + SizePlainBool(m.count) + |m.unknown|
  }

  function SizeIndex(i: Option<uint64>): nat {
    if i.Some? then 1 + SizeOfVarint(i.value) else 0
  }

  function SizeElement(m: Option<Command>): nat
    decreases m, 2
  {
    if m.None? then 0 else SizeCommand(m.value)
  }

  function SizeSequence(ms: seq<Option<Command>>): nat
    decreases ms, 0
  {
    if |ms| == 0 then 0 else SizeRecord(1, SizeElement(ms[0])) + SizeSequence(ms[1..])
  }

  // ----- Decoding -----

  const KEY_VALUE: Schema := map[1 := BytesKind, 2 := VarintKind, 3 := VarintKind, 4 := BytesKind]
  const COMPARE: Schema := map[1 := VarintKind, 2 := VarintKind, 3 := BytesKind, 4 := BytesKind, 64 := BytesKind]
  const RANGE: Schema := map[1 := BytesKind, 2 := BytesKind, 3 := VarintKind, 4 := VarintKind, 5 := VarintKind]
  const PUT: Schema := map[1 := BytesKind, 2 := BytesKind, 3 := VarintKind]
  const DELETE: Schema := map[1 := BytesKind, 2 := BytesKind, 4 := VarintKind, 5 := VarintKind]
  const REQUEST_OP: Schema := map[1 := BytesKind, 2 := BytesKind, 3 := BytesKind]
  const TXN: Schema := map[1 := BytesKind, 2 := BytesKind, 3 := BytesKind]
  const COMMAND: Schema := map[1 := BytesKind, 2 := VarintKind, 3 := BytesKind, 5 := VarintKind, 6 := BytesKind,
                               7 := BytesKind, 8 := BytesKind, 9 := VarintKind, 10 := BytesKind, 11 := VarintKind]

  function ApplyKeyValue(m: KeyValue, f: Field): Result<KeyValue, Error> {
    match f
    case UnknownField(raw) => Ok(m.(unknown := m.unknown + raw))
    case VarintField(num, v) => Ok(if num == 2 then m.(createRevision := ToI64(v)) else m.(modRevision := ToI64(v)))
    case BytesField(num, b) => Ok(if num == 1 then m.(key := b) else m.(value := b))
  }

  function ApplyCompare(m: Compare, f: Field): Result<Compare, Error> {
    match f
    case UnknownField(raw) => Ok(m.(unknown := m.unknown + raw))
    case VarintField(num, v) => Ok(if num == 1 then m.(result := ToI32(v)) else m.(target := ToI32(v)))
    case BytesField(num, b) =>
      Ok(if num == 3 then m.(key := b) else if num == 4 then m.(value := Some(b)) else m.(rangeEnd := b))
  }

  function ApplyRange(m: RangeOp, f: Field): Result<RangeOp, Error> {
    match f
    case UnknownField(raw) => Ok(m.(unknown := m.unknown + raw))
    case VarintField(num, v) =>
      Ok(if num == 3 then m.(limit := ToI64(v)) else if num == 4 then m.(keysOnly := v != 0)
        else m.(countOnly := v != 0))
    case BytesField(num, b) => Ok(if num == 1 then m.(key := b) else m.(rangeEnd := b))
  }

  function ApplyPut(m: PutOp, f: Field): Result<PutOp, Error> {
    match f
    case UnknownField(raw) => Ok(m.(unknown := m.unknown + raw))
    case VarintField(_, v) => Ok(m.(prevKv := v != 0))
    case BytesField(num, b) => Ok(if num == 1 then m.(key := b) else m.(value := b))
  }

  function ApplyDelete(m: DeleteOp, f: Field): Result<DeleteOp, Error> {
    match f
    case UnknownField(raw) => Ok(m.(unknown := m.unknown + raw))
    case VarintField(num, v) => Ok(if num == 4 then m.(prevKv := v != 0) else m.(count := v != 0))
    case BytesField(num, b) => Ok(if num == 1 then m.(key := b) else m.(rangeEnd := b))
  }

  /** Decoding into the payload of an arm that is already set merges; a nil payload there is dereferenced. */
  function DecodeArm<M>(current: Option<Option<M>>, blank: M, decode: (M, bytes) -> Result<M, Error>,
                        b: bytes): Result<Option<M>, Error> {
    match current
    case None => var m :- decode(blank, b); Ok(Some(m))
    case Some(None) => if |b| == 0 then Ok(None) else Err(NilDereference)
    case Some(Some(p)) => var m :- decode(p, b); Ok(Some(m))
  }

  function DecodeRange(m: RangeOp, data: bytes): Result<RangeOp, Error> {
    Decode(RANGE, ApplyRange, m, data)
  }

  function DecodePut(m: PutOp, data: bytes): Result<PutOp, Error> {
    Decode(PUT, ApplyPut, m, data)
  }

  function DecodeDelete(m: DeleteOp, data: bytes): Result<DeleteOp, Error> {
    Decode(DELETE, ApplyDelete, m, data)
  }

  function ApplyRequestOp(m: RequestOp, f: Field): Result<RequestOp, Error> {
    match f
    case UnknownField(raw) => Ok(m.(unknown := m.unknown + raw))
    case VarintField(_, _) => Err(WrongWireType)
    case BytesField(num, b) =>
      if num == 1 then
        var p :- DecodeArm(if m.request.RangeArm? then Some(m.request.range) else None, NEW_RANGE, DecodeRange, b);
        Ok(m.(request := RangeArm(p)))
      else if num == 2 then
        var p :- DecodeArm(if m.request.PutArm? then Some(m.request.put) else None, NEW_PUT, DecodePut, b);
        Ok(m.(request := PutArm(p)))
      else
        var p :- DecodeArm(if m.request.DeleteArm? then Some(m.request.del) else None, NEW_DELETE, DecodeDelete, b);
        Ok(m.(request := DeleteArm(p)))
  }

  function DecodeKeyValue(m: KeyValue, data: bytes): Result<KeyValue, Error> {
    Decode(KEY_VALUE, ApplyKeyValue, m, data)
  }

  function DecodeCompare(m: Compare, data: bytes): Result<Compare, Error> {
    Decode(COMPARE, ApplyCompare, m, data)
  }

  function DecodeRequestOp(m: RequestOp, data: bytes): Result<RequestOp, Error> {
    Decode(REQUEST_OP, ApplyRequestOp, m, data)
  }

  function ApplyTxn(m: Txn, f: Field): Result<Txn, Error> {
    match f
    case UnknownField(raw) => Ok(m.(unknown := m.unknown + raw))
    case VarintField(_, _) => Err(WrongWireType)
    case BytesField(num, b) =>
      if num == 1 then
        var e :- DecodeCompare(NEW_COMPARE, b);
        Ok(m.(compare := m.compare + [Some(e)]))
      else if num == 2 then
        var e :- DecodeRequestOp(NEW_REQUEST_OP, b);
        Ok(m.(success := m.success + [Some(e)]))
      else
        var e :- DecodeRequestOp(NEW_REQUEST_OP, b);
        Ok(m.(failure := m.failure + [Some(e)]))
  }

  function DecodeTxn(m: Txn, data: bytes): Result<Txn, Error> {
    Decode(TXN, ApplyTxn, m, data)
  }

  function OrNew<M>(m: Option<M>, blank: M): M {
    if m.Some? then m.value else blank
  }

  function ApplyCommand(m: Command, f: Field): Result<Command, Error>
    decreases if f.BytesField? then |f.payload| else 0, 2
  {
    match f
    case UnknownField(raw) => Ok(m.(unknown := m.unknown + raw))
    case VarintField(num, v) =>
      Ok(if num == 2 then m.(kind := ToI32(v))
         else if num == 5 then m.(leaderIndex := Some(v))
         else if num == 9 then m.(prevKvs := v != 0)
         else m.(count := v != 0))
    case BytesField(num, b) =>
      if num == 1 then Ok(m.(table := b))
      else if num == 3 then
        var e :- DecodeKeyValue(OrNew(m.kv, NEW_KEY_VALUE), b);
        Ok(m.(kv := Some(e)))
      else if num == 6 then
        var e :- DecodeKeyValue(NEW_KEY_VALUE, b);
        Ok(m.(batch := m.batch + [Some(e)]))
      else if num == 7 then
        var e :- DecodeTxn(OrNew(m.txn, NEW_TXN), b);
        Ok(m.(txn := Some(e)))
      else if num == 8 then Ok(m.(rangeEnd := Some(b)))
      else
        var e :- DecodeCommand(NEW_COMMAND, b);
        Ok(m.(sequence := m.sequence + [Some(e)]))
  }

  /** The recursive decoder: a nested command is a strictly shorter slice. */
  function DecodeCommand(m: Command, data: bytes): Result<Command, Error>
    decreases |data|, 1
  {
    if |data| == 0 then Ok(m)
    else
      var (f, rest) :- NextField(COMMAND, data);
      var m' :- ApplyCommand(m, f);
      DecodeCommand(m', rest)
  }

  // ----- Merging -----

  lemma {:induction false} CommandDecodesByRecords(m: Command, data: bytes)
    ensures DecodeCommand(m, data) == Decode(COMMAND, ApplyCommand, m, data)
    decreases |data|
  {
    if |data| > 0 {
      var next := NextField(COMMAND, data);
      if next.Ok? {
        var m' := ApplyCommand(m, next.value.0);
        if m'.Ok? {
          CommandDecodesByRecords(m'.value, next.value.1);
        }
      }
    }
  }

  /**
   Last one wins for scalars, repeated fields concatenate, sub-messages and the arm of a oneof merge: all by one law.
   */
  lemma CommandMerges(m: Command, a: bytes, b: bytes)
    requires DecodeCommand(m, a).Ok?
    ensures DecodeCommand(m, a + b) == DecodeCommand(DecodeCommand(m, a).value, b)
  {
    CommandDecodesByRecords(m, a);
    CommandDecodesByRecords(m, a + b);
    CommandDecodesByRecords(DecodeCommand(m, a).value, b);
    DecodeMerges(COMMAND, ApplyCommand, m, a, b);
  }
}
