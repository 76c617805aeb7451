/**
 What decoding one field twice does: scalars take the last value, sub-messages and the arm of a oneof merge, repeated
 fields collect.
 */
module Merge {
  import opened Common
  import opened Wire
  import opened Messages

  /** A decoder on a written record followed by anything. */
  lemma DecodeRecord<M>(schema: Schema, apply: (M, Field) -> Result<M, Error>, m: M, f: WireField, tail: bytes)
    requires Reads(schema, f)
    ensures Decode(schema, apply, m, Record(f) + tail) == (var m' :- apply(m, f); Decode(schema, apply, m', tail))
  {
    NextFieldOfRecord(schema, f, tail);
    RecordIsNotEmpty(schema, f);
  }

  lemma RecordIsNotEmpty(schema: Schema, f: WireField)
    requires Reads(schema, f)
    ensures |Record(f)| > 0
  {
  }

  lemma OneRecord<M>(schema: Schema, apply: (M, Field) -> Result<M, Error>, m: M, f: WireField)
    requires Reads(schema, f)
    ensures Decode(schema, apply, m, Record(f)) == apply(m, f)
  {
    DecodeRecord(schema, apply, m, f, []);
    AddNothing(Record(f));
  }

  /** If applying `f` then `g` is applying `h`, then the records of `f` and `g` decode like that of `h`. */
  lemma TwoRecords<M>(schema: Schema, apply: (M, Field) -> Result<M, Error>, m: M, m': M, f: WireField, g: WireField,
                      h: WireField)
    requires Reads(schema, f) && Reads(schema, g) && Reads(schema, h)
    requires apply(m, f) == Ok(m') && apply(m', g) == apply(m, h)
    ensures Decode(schema, apply, m, Record(f) + Record(g)) == Decode(schema, apply, m, Record(h))
  {
    DecodeRecord(schema, apply, m, f, Record(g));
    OneRecord(schema, apply, m', g);
    OneRecord(schema, apply, m, h);
  }

  lemma TwoCommandRecords(m: Command, m': Command, f: WireField, g: WireField, h: WireField)
    requires Reads(COMMAND, f) && Reads(COMMAND, g) && Reads(COMMAND, h)
    requires ApplyCommand(m, f) == Ok(m') && ApplyCommand(m', g) == ApplyCommand(m, h)
    ensures DecodeCommand(m, Record(f) + Record(g)) == DecodeCommand(m, Record(h))
  {
    CommandDecodesByRecords(m, Record(f) + Record(g));
    CommandDecodesByRecords(m, Record(h));
    TwoRecords(COMMAND, ApplyCommand, m, m', f, g, h);
  }

  /** Of two records of Table, or of RangeEnd, the last one counts. */
  lemma LastBytesWin(m: Command, num: FieldNumber, a: bytes, b: bytes)
    requires num in {1, 8} && |a| < TWO_63 && |b| < TWO_63
    ensures DecodeCommand(m, BytesRecord(num, a) + BytesRecord(num, b)) == DecodeCommand(m, BytesRecord(num, b))
  {
    var m' := ApplyCommand(m, BytesField(num, a)).value;
    TwoCommandRecords(m, m', BytesField(num, a), BytesField(num, b), BytesField(num, b));
  }

  /** Of two records of Type, LeaderIndex, PrevKvs or Count the last one counts. */
  lemma LastNumberWins(m: Command, num: FieldNumber, v: uint64, w: uint64)
    requires num in {2, 5, 9, 11}
    ensures DecodeCommand(m, VarintRecord(num, v) + VarintRecord(num, w)) == DecodeCommand(m, VarintRecord(num, w))
  {
    var m' := ApplyCommand(m, VarintField(num, v)).value;
    TwoCommandRecords(m, m', VarintField(num, v), VarintField(num, w), VarintField(num, w));
  }

  lemma TwoElements(m: Command, m': Command, f: WireField, g: WireField)
    requires Reads(COMMAND, f) && Reads(COMMAND, g)
    requires ApplyCommand(m, f) == Ok(m')
    ensures DecodeCommand(m, Record(f) + Record(g)) == ApplyCommand(m', g)
  {
    CommandDecodesByRecords(m, Record(f) + Record(g));
    DecodeRecord(COMMAND, ApplyCommand, m, f, Record(g));
    OneRecord(COMMAND, ApplyCommand, m', g);
  }

  /** Records of Batch each add one element, in the order of the records. */
  lemma BatchCollects(m: Command, a: bytes, b: bytes)
    requires |a| < TWO_63 && |b| < TWO_63
    requires DecodeKeyValue(NEW_KEY_VALUE, a).Ok? && DecodeKeyValue(NEW_KEY_VALUE, b).Ok?
    ensures var x, y := DecodeKeyValue(NEW_KEY_VALUE, a).value, DecodeKeyValue(NEW_KEY_VALUE, b).value;
      DecodeCommand(m, BytesRecord(6, a) + BytesRecord(6, b)) == Ok(m.(batch := m.batch + [Some(x), Some(y)]))
  {
    var x, y := DecodeKeyValue(NEW_KEY_VALUE, a).value, DecodeKeyValue(NEW_KEY_VALUE, b).value;
    TwoElements(m, m.(batch := m.batch + [Some(x)]), BytesField(6, a), BytesField(6, b));
    assert (m.batch + [Some(x)]) + [Some(y)] == m.batch + [Some(x), Some(y)];
  }

  lemma OneElement(m: Command, b: bytes, x: Command)
    requires DecodeCommand(NEW_COMMAND, b) == Ok(x)
    ensures ApplyCommand(m, BytesField(10, b)) == Ok(m.(sequence := m.sequence + [Some(x)]))
  {
  }

  /** So do records of Sequence. */
  lemma SequenceCollects(m: Command, a: bytes, b: bytes, x: Command, y: Command)
    requires |a| < TWO_63 && |b| < TWO_63
    requires DecodeCommand(NEW_COMMAND, a) == Ok(x) && DecodeCommand(NEW_COMMAND, b) == Ok(y)
    ensures DecodeCommand(m, BytesRecord(10, a) + BytesRecord(10, b)) ==
      Ok(m.(sequence := m.sequence + [Some(x), Some(y)]))
  {
    var m' := m.(sequence := m.sequence + [Some(x)]);
    OneElement(m, a, x);
    OneElement(m', b, y);
    TwoElements(m, m', BytesField(10, a), BytesField(10, b));
    assert (m.sequence + [Some(x)]) + [Some(y)] == m.sequence + [Some(x), Some(y)];
  }

  /** Two Kv records decode like one with both payloads. */
  lemma KvMerges(m: Command, a: bytes, b: bytes)
    requires |a| + |b| < TWO_63 && DecodeKeyValue(OrNew(m.kv, NEW_KEY_VALUE), a).Ok?
    ensures DecodeCommand(m, BytesRecord(3, a) + BytesRecord(3, b)) == DecodeCommand(m, BytesRecord(3, a + b))
  {
    DecodeMerges(KEY_VALUE, ApplyKeyValue, OrNew(m.kv, NEW_KEY_VALUE), a, b);
    var m' := ApplyCommand(m, BytesField(3, a)).value;
    TwoCommandRecords(m, m', BytesField(3, a), BytesField(3, b), BytesField(3, a + b));
  }

  lemma TxnMerges(m: Command, a: bytes, b: bytes)
    requires |a| + |b| < TWO_63 && DecodeTxn(OrNew(m.txn, NEW_TXN), a).Ok?
    ensures DecodeCommand(m, BytesRecord(7, a) + BytesRecord(7, b)) == DecodeCommand(m, BytesRecord(7, a + b))
  {
    DecodeMerges(TXN, ApplyTxn, OrNew(m.txn, NEW_TXN), a, b);
    var m' := ApplyCommand(m, BytesField(7, a)).value;
    TwoCommandRecords(m, m', BytesField(7, a), BytesField(7, b), BytesField(7, a + b));
  }

  lemma DecodeArmMerges<M>(current: Option<Option<M>>, blank: M, schema: Schema, apply: (M, Field) -> Result<M, Error>,
                           decode: (M, bytes) -> Result<M, Error>, a: bytes, b: bytes)
    requires forall m, data :: decode(m, data) == Decode(schema, apply, m, data)
    requires DecodeArm(current, blank, decode, a).Ok?
    ensures DecodeArm(Some(DecodeArm(current, blank, decode, a).value), blank, decode, b) ==
      DecodeArm(current, blank, decode, a + b)
  {
    match current
    case None => DecodeMerges(schema, apply, blank, a, b);
    case Some(None) => assert a + b == b;
    case Some(Some(p)) => DecodeMerges(schema, apply, p, a, b);
  }

  lemma ApplyRangeTwice(m: RequestOp, m': RequestOp, a: bytes, b: bytes)
    requires ApplyRequestOp(m, BytesField(1, a)) == Ok(m')
    ensures ApplyRequestOp(m', BytesField(1, b)) == ApplyRequestOp(m, BytesField(1, a + b))
  {
    var current := if m.request.RangeArm? then Some(m.request.range) else None;
    DecodeArmMerges(current, NEW_RANGE, RANGE, ApplyRange, DecodeRange, a, b);
  }

  lemma ApplyPutTwice(m: RequestOp, m': RequestOp, a: bytes, b: bytes)
    requires ApplyRequestOp(m, BytesField(2, a)) == Ok(m')
    ensures ApplyRequestOp(m', BytesField(2, b)) == ApplyRequestOp(m, BytesField(2, a + b))
  {
    var current := if m.request.PutArm? then Some(m.request.put) else None;
    DecodeArmMerges(current, NEW_PUT, PUT, ApplyPut, DecodePut, a, b);
  }

  lemma ApplyDeleteTwice(m: RequestOp, m': RequestOp, a: bytes, b: bytes)
    requires ApplyRequestOp(m, BytesField(3, a)) == Ok(m')
    ensures ApplyRequestOp(m', BytesField(3, b)) == ApplyRequestOp(m, BytesField(3, a + b))
  {
    var current := if m.request.DeleteArm? then Some(m.request.del) else None;
    DecodeArmMerges(current, NEW_DELETE, DELETE, ApplyDelete, DecodeDelete, a, b);
  }

  lemma ApplyArmTwice(m: RequestOp, m': RequestOp, arm: FieldNumber, a: bytes, b: bytes)
    requires 1 <= arm <= 3 && ApplyRequestOp(m, BytesField(arm, a)) == Ok(m')
    ensures ApplyRequestOp(m', BytesField(arm, b)) == ApplyRequestOp(m, BytesField(arm, a + b))
  {
    if arm == 1 {
      ApplyRangeTwice(m, m', a, b);
    } else if arm == 2 {
      ApplyPutTwice(m, m', a, b);
    } else {
      ApplyDeleteTwice(m, m', a, b);
    }
  }

  lemma ArmIsRead(arm: FieldNumber, a: bytes)
    requires |a| < TWO_63 && 1 <= arm <= 3
    ensures Reads(REQUEST_OP, BytesField(arm, a))
  {
  }

  /** As TwoRecords, for the records of two arms. */
  lemma TwoArmRecords<M>(schema: Schema, apply: (M, Field) -> Result<M, Error>, m: M, m': M,
                         arm: FieldNumber, a: bytes, arm': FieldNumber, b: bytes, c: bytes)
    requires Reads(schema, BytesField(arm, a)) && Reads(schema, BytesField(arm', b))
    requires Reads(schema, BytesField(arm', c))
    requires apply(m, BytesField(arm, a)) == Ok(m') && apply(m', BytesField(arm', b)) == apply(m, BytesField(arm', c))
    ensures Decode(schema, apply, m, BytesRecord(arm, a) + BytesRecord(arm', b)) ==
      Decode(schema, apply, m, BytesRecord(arm', c))
  {
    TwoRecords(schema, apply, m, m', BytesField(arm, a), BytesField(arm', b), BytesField(arm', c));
  }

  lemma ArmApplies(m: RequestOp, arm: FieldNumber, a: bytes) returns (m': RequestOp)
    requires |a| < TWO_63 && 1 <= arm <= 3 && DecodeRequestOp(m, BytesRecord(arm, a)).Ok?
    ensures ApplyRequestOp(m, BytesField(arm, a)) == Ok(m')
  {
    OneRecord(REQUEST_OP, ApplyRequestOp, m, BytesField(arm, a));
    m' := ApplyRequestOp(m, BytesField(arm, a)).value;
  }

  /** Two records of one arm decode like one with both payloads. */
  lemma ArmMerges(m: RequestOp, arm: FieldNumber, a: bytes, b: bytes)
    requires |a| + |b| < TWO_63 && 1 <= arm <= 3
    requires DecodeRequestOp(m, BytesRecord(arm, a)).Ok?
    ensures DecodeRequestOp(m, BytesRecord(arm, a) + BytesRecord(arm, b)) == DecodeRequestOp(m, BytesRecord(arm, a + b))
  {
    var m' := ArmApplies(m, arm, a);
    ApplyArmTwice(m, m', arm, a, b);
    ArmIsRead(arm, a);
    ArmIsRead(arm, b);
    ArmIsRead(arm, a + b);
    TwoArmRecords(REQUEST_OP, ApplyRequestOp, m, m', arm, a, arm, b, a + b);
  }

  predicate InArm(r: Request, arm: FieldNumber) {
    (arm == 1 && r.RangeArm?) || (arm == 2 && r.PutArm?) || (arm == 3 && r.DeleteArm?)
  }

  lemma ApplyOtherArm(m: RequestOp, m': RequestOp, first: FieldNumber, last: FieldNumber, a: bytes, b: bytes)
    requires first in {1, 2, 3} && last in {1, 2, 3} && first != last && !InArm(m.request, last)
    requires ApplyRequestOp(m, BytesField(first, a)) == Ok(m')
    ensures ApplyRequestOp(m', BytesField(last, b)) == ApplyRequestOp(m, BytesField(last, b))
  {
    assert InArm(m'.request, first) && !InArm(m'.request, last);
  }

  /** A record of another arm drops what the first arm held. */
  lemma LastArmWins(m: RequestOp, first: FieldNumber, last: FieldNumber, a: bytes, b: bytes)
    requires |a| < TWO_63 && |b| < TWO_63 && first in {1, 2, 3} && last in {1, 2, 3} && first != last
    requires DecodeRequestOp(m, BytesRecord(first, a)).Ok? && !InArm(m.request, last)
    ensures DecodeRequestOp(m, BytesRecord(first, a) + BytesRecord(last, b)) == DecodeRequestOp(m, BytesRecord(last, b))
  {
    var m' := ArmApplies(m, first, a);
    ApplyOtherArm(m, m', first, last, a, b);
    ArmIsRead(first, a);
    ArmIsRead(last, b);
    TwoArmRecords(REQUEST_OP, ApplyRequestOp, m, m', first, a, last, b, b);
  }
}
