/**
 Round trips of the command codec: decoding what a message encodes to restores the message, for every
 message of any nesting whose unknown bytes are unknown records and whose set oneofs carry payloads.
 */
module Codec {
  import opened Common
  import opened Wire
  import opened Messages

  // ----- Chains of fields -----

  /** A field that is written at most once turns `m` into `m'`. */
  predicate Turns<M(==)>(apply: (M, Field) -> Result<M, Error>, m: M, fs: seq<WireField>, m': M) {
    |fs| <= 1 && if fs == [] then m' == m else apply(m, fs[0]).Ok? && apply(m, fs[0]).value == m'
  }

  lemma FoldTurns<M>(apply: (M, Field) -> Result<M, Error>, m: M, fs: seq<WireField>, m': M, rest: seq<WireField>)
    requires Turns(apply, m, fs, m')
    ensures Fold(apply, m, fs + rest) == Fold(apply, m', rest)
  {
    if fs == [] {
      assert fs + rest == rest;
    } else {
      assert (fs + rest)[1..] == rest;
    }
  }

  lemma FoldLast<M>(apply: (M, Field) -> Result<M, Error>, m: M, fs: seq<WireField>, m': M)
    requires Turns(apply, m, fs, m')
    ensures Fold(apply, m, fs) == Ok(m')
  {
    FoldTurns(apply, m, fs, m', []);
    assert fs + [] == fs;
  }

  lemma FoldThree<M>(apply: (M, Field) -> Result<M, Error>, ms: seq<M>, a: seq<WireField>, b: seq<WireField>,
                     c: seq<WireField>)
    requires |ms| == 4 && Turns(apply, ms[0], a, ms[1]) && Turns(apply, ms[1], b, ms[2])
    requires Turns(apply, ms[2], c, ms[3])
    ensures Fold(apply, ms[0], a + (b + c)) == Ok(ms[3])
  {
    FoldTurns(apply, ms[0], a, ms[1], b + c);
    FoldTurns(apply, ms[1], b, ms[2], c);
    FoldLast(apply, ms[2], c, ms[3]);
  }

  lemma FoldFour<M>(apply: (M, Field) -> Result<M, Error>, ms: seq<M>,
                    a: seq<WireField>, b: seq<WireField>, c: seq<WireField>, d: seq<WireField>)
    requires |ms| == 5 && Turns(apply, ms[0], a, ms[1]) && Turns(apply, ms[1], b, ms[2])
    requires Turns(apply, ms[2], c, ms[3])
    requires Turns(apply, ms[3], d, ms[4])
    ensures Fold(apply, ms[0], a + (b + (c + d))) == Ok(ms[4])
  {
    FoldTurns(apply, ms[0], a, ms[1], b + (c + d));
    FoldThree(apply, ms[1..], b, c, d);
  }

  lemma FoldFive<M>(apply: (M, Field) -> Result<M, Error>, ms: seq<M>,
                    a: seq<WireField>, b: seq<WireField>, c: seq<WireField>, d: seq<WireField>, e: seq<WireField>)
    requires |ms| == 6 && Turns(apply, ms[0], a, ms[1]) && Turns(apply, ms[1], b, ms[2])
    requires Turns(apply, ms[2], c, ms[3])
    requires Turns(apply, ms[3], d, ms[4]) && Turns(apply, ms[4], e, ms[5])
    ensures Fold(apply, ms[0], a + (b + (c + (d + e)))) == Ok(ms[5])
  {
    FoldTurns(apply, ms[0], a, ms[1], b + (c + (d + e)));
    FoldFour(apply, ms[1..], b, c, d, e);
  }

  // ----- Leaf messages -----

  lemma KeyValueFolds(m: KeyValue)
    ensures Fold(ApplyKeyValue, NEW_KEY_VALUE, KeyValueFields(m)) == Ok(m.(unknown := []))
  {
    var m1 := NEW_KEY_VALUE.(key := m.key);
    var m2 := m1.(createRevision := m.createRevision);
    var m3 := m2.(modRevision := m.modRevision);
    SignedRoundTrip(m.createRevision);
    SignedRoundTrip(m.modRevision);
    FoldFour(ApplyKeyValue, [NEW_KEY_VALUE, m1, m2, m3, m3.(value := m.value)],
             PlainBytes(1, m.key), PlainInt(2, m.createRevision), PlainInt(3, m.modRevision), PlainBytes(4, m.value));
  }

  lemma CompareFolds(m: Compare)
    ensures Fold(ApplyCompare, NEW_COMPARE, CompareFields(m)) == Ok(m.(unknown := []))
  {
    var m1 := NEW_COMPARE.(result := m.result);
    var m2 := m1.(target := m.target);
    var m3 := m2.(key := m.key);
    var m4 := m3.(rangeEnd := m.rangeEnd);
    SignedRoundTrip(m.result);
    SignedRoundTrip(m.target);
    FoldFive(ApplyCompare, [NEW_COMPARE, m1, m2, m3, m4, m4.(value := m.value)],
             PlainInt(1, m.result), PlainInt(2, m.target), PlainBytes(3, m.key), PlainBytes(64, m.rangeEnd),
               OptionalBytes(4, m.value));
  }

  lemma RangeFolds(m: RangeOp)
    ensures Fold(ApplyRange, NEW_RANGE, RangeFields(m)) == Ok(m.(unknown := []))
  {
    var m1 := NEW_RANGE.(key := m.key);
    var m2 := m1.(rangeEnd := m.rangeEnd);
    var m3 := m2.(limit := m.limit);
    var m4 := m3.(keysOnly := m.keysOnly);
    SignedRoundTrip(m.limit);
    FoldFive(ApplyRange, [NEW_RANGE, m1, m2, m3, m4, m4.(countOnly := m.countOnly)],
             PlainBytes(1, m.key), PlainBytes(2, m.rangeEnd), PlainInt(3, m.limit), PlainBool(4, m.keysOnly),
               PlainBool(5, m.countOnly));
  }

  lemma PutFolds(m: PutOp)
    ensures Fold(ApplyPut, NEW_PUT, PutFields(m)) == Ok(m.(unknown := []))
  {
    var m1 := NEW_PUT.(key := m.key);
    var m2 := m1.(value := m.value);
    FoldThree(ApplyPut, [NEW_PUT, m1, m2, m2.(prevKv := m.prevKv)],
              PlainBytes(1, m.key), PlainBytes(2, m.value), PlainBool(3, m.prevKv));
  }

  lemma DeleteFolds(m: DeleteOp)
    ensures Fold(ApplyDelete, NEW_DELETE, DeleteFields(m)) == Ok(m.(unknown := []))
  {
    var m1 := NEW_DELETE.(key := m.key);
    var m2 := m1.(rangeEnd := m.rangeEnd);
    var m3 := m2.(prevKv := m.prevKv);
    FoldFour(ApplyDelete, [NEW_DELETE, m1, m2, m3, m3.(count := m.count)],
             PlainBytes(1, m.key), PlainBytes(2, m.rangeEnd), PlainBool(4, m.prevKv), PlainBool(5, m.count));
  }

  lemma KeyValueKnown(m: KeyValue)
    ensures Known(KEY_VALUE, KeyValueFields(m))
  {
  }

  function KeyValueKeeper(): (k: Keeper<KeyValue>)
    ensures k.Lawful(ApplyKeyValue)
  {
    Keeper((x: KeyValue) => x.unknown, (x: KeyValue, u) => x.(unknown := u))
  }

  lemma KeyValueRoundTrip(m: KeyValue)
    requires UnknownRecords(KEY_VALUE, m.unknown) && |EncodeKeyValue(m)| < TWO_63
    ensures DecodeKeyValue(NEW_KEY_VALUE, EncodeKeyValue(m)) == Ok(m)
  {
    KeyValueFolds(m);
    KeyValueKnown(m);
    DecodeOfMessage(KEY_VALUE, ApplyKeyValue, KeyValueKeeper(),
                    NEW_KEY_VALUE, KeyValueFields(m), m.(unknown := []), m.unknown);
  }

  lemma CompareKnown(m: Compare)
    ensures Known(COMPARE, CompareFields(m))
  {
    var last := PlainBytes(64, m.rangeEnd) + OptionalBytes(4, m.value);
    KnownConcat(COMPARE, PlainBytes(3, m.key), last);
    KnownConcat(COMPARE, PlainInt(2, m.target), PlainBytes(3, m.key) + last);
  }

  function CompareKeeper(): (k: Keeper<Compare>)
    ensures k.Lawful(ApplyCompare)
  {
    Keeper((x: Compare) => x.unknown, (x: Compare, u) => x.(unknown := u))
  }

  lemma CompareRoundTrip(m: Compare)
    requires UnknownRecords(COMPARE, m.unknown) && |EncodeCompare(m)| < TWO_63
    ensures DecodeCompare(NEW_COMPARE, EncodeCompare(m)) == Ok(m)
  {
    CompareFolds(m);
    CompareKnown(m);
    DecodeOfMessage(COMPARE, ApplyCompare, CompareKeeper(),
                    NEW_COMPARE, CompareFields(m), m.(unknown := []), m.unknown);
  }

  lemma RangeKnown(m: RangeOp)
    ensures Known(RANGE, RangeFields(m))
  {
    var flags := PlainBool(4, m.keysOnly) + PlainBool(5, m.countOnly);
    KnownConcat(RANGE, PlainInt(3, m.limit), flags);
    KnownConcat(RANGE, PlainBytes(2, m.rangeEnd), PlainInt(3, m.limit) + flags);
  }

  function RangeKeeper(): (k: Keeper<RangeOp>)
    ensures k.Lawful(ApplyRange)
  {
    Keeper((x: RangeOp) => x.unknown, (x: RangeOp, u) => x.(unknown := u))
  }

  lemma RangeRoundTrip(m: RangeOp)
    requires UnknownRecords(RANGE, m.unknown) && |EncodeRange(m)| < TWO_63
    ensures DecodeRange(NEW_RANGE, EncodeRange(m)) == Ok(m)
  {
    RangeFolds(m);
    RangeKnown(m);
    DecodeOfMessage(RANGE, ApplyRange, RangeKeeper(),
                    NEW_RANGE, RangeFields(m), m.(unknown := []), m.unknown);
  }

  lemma PutKnown(m: PutOp)
    ensures Known(PUT, PutFields(m))
  {
  }

  function PutKeeper(): (k: Keeper<PutOp>)
    ensures k.Lawful(ApplyPut)
  {
    Keeper((x: PutOp) => x.unknown, (x: PutOp, u) => x.(unknown := u))
  }

  lemma PutRoundTrip(m: PutOp)
    requires UnknownRecords(PUT, m.unknown) && |EncodePut(m)| < TWO_63
    ensures DecodePut(NEW_PUT, EncodePut(m)) == Ok(m)
  {
    PutFolds(m);
    PutKnown(m);
    DecodeOfMessage(PUT, ApplyPut, PutKeeper(),
                    NEW_PUT, PutFields(m), m.(unknown := []), m.unknown);
  }

  lemma DeleteKnown(m: DeleteOp)
    ensures Known(DELETE, DeleteFields(m))
  {
  }

  function DeleteKeeper(): (k: Keeper<DeleteOp>)
    ensures k.Lawful(ApplyDelete)
  {
    Keeper((x: DeleteOp) => x.unknown, (x: DeleteOp, u) => x.(unknown := u))
  }

  lemma DeleteRoundTrip(m: DeleteOp)
    requires UnknownRecords(DELETE, m.unknown) && |EncodeDelete(m)| < TWO_63
    ensures DecodeDelete(NEW_DELETE, EncodeDelete(m)) == Ok(m)
  {
    DeleteFolds(m);
    DeleteKnown(m);
    DecodeOfMessage(DELETE, ApplyDelete, DeleteKeeper(),
                    NEW_DELETE, DeleteFields(m), m.(unknown := []), m.unknown);
  }

  // ----- Operations and transactions -----

  /** A set oneof carries a payload. */
  predicate CompleteRequest(r: Request) {
    match r
    case NoRequest => true
    case RangeArm(m) => m.Some?
    case PutArm(m) => m.Some?
    case DeleteArm(m) => m.Some?
  }

  ghost predicate CleanRequest(r: Request) {
    match r
    case NoRequest => true
    case RangeArm(m) => m.Some? ==> UnknownRecords(RANGE, m.value.unknown)
    case PutArm(m) => m.Some? ==> UnknownRecords(PUT, m.value.unknown)
    case DeleteArm(m) => m.Some? ==> UnknownRecords(DELETE, m.value.unknown)
  }

  ghost predicate CleanRequestOp(m: RequestOp) {
    CleanRequest(m.request) && UnknownRecords(REQUEST_OP, m.unknown)
  }

  predicate CompleteRequestOp(m: RequestOp) {
    CompleteRequest(m.request)
  }

  lemma RequestFolds(m: RequestOp)
    requires CompleteRequest(m.request) && CleanRequest(m.request) && |Records(RequestFields(m.request))| < TWO_63
    ensures Fold(ApplyRequestOp, NEW_REQUEST_OP, RequestFields(m.request)) == Ok(RequestOp(m.request, []))
  {
    var fs := RequestFields(m.request);
    if fs != [] {
      PayloadFits(fs, 0);
      match m.request
      case RangeArm(p) => RangeRoundTrip(p.value);
      case PutArm(p) => PutRoundTrip(p.value);
      case DeleteArm(p) => DeleteRoundTrip(p.value);
      case NoRequest =>
    }
  }

  function RequestOpKeeper(): (k: Keeper<RequestOp>)
    ensures k.Lawful(ApplyRequestOp)
  {
    Keeper((x: RequestOp) => x.unknown, (x: RequestOp, u) => x.(unknown := u))
  }

  lemma RequestOpRoundTrip(m: RequestOp)
    requires CompleteRequestOp(m) && CleanRequestOp(m) && |EncodeRequestOp(m)| < TWO_63
    ensures DecodeRequestOp(NEW_REQUEST_OP, EncodeRequestOp(m)) == Ok(m)
  {
    RequestFolds(m);
    assert Known(REQUEST_OP, RequestFields(m.request));
    DecodeOfMessage(REQUEST_OP, ApplyRequestOp, RequestOpKeeper(),
                    NEW_REQUEST_OP, RequestFields(m.request), RequestOp(m.request, []), m.unknown);
  }

  /** Decoding turns nil elements of repeated fields into empty messages. */
  function Present<M>(ms: seq<Option<M>>, blank: M): seq<Option<M>> {
    if |ms| == 0 then [] else [Some(OrNew(ms[0], blank))] + Present(ms[1..], blank)
  }

  ghost predicate CleanCompare(m: Compare) {
    UnknownRecords(COMPARE, m.unknown)
  }

  ghost predicate CleanKeyValue(m: KeyValue) {
    UnknownRecords(KEY_VALUE, m.unknown)
  }

  ghost predicate CleanTxn(m: Txn) {
    && (forall i :: 0 <= i < |m.compare| && m.compare[i].Some? ==> CleanCompare(m.compare[i].value))
    && (forall i :: 0 <= i < |m.success| && m.success[i].Some? ==> CleanRequestOp(m.success[i].value))
    && (forall i :: 0 <= i < |m.failure| && m.failure[i].Some? ==> CleanRequestOp(m.failure[i].value))
    && UnknownRecords(TXN, m.unknown)
  }

  predicate CompleteTxn(m: Txn) {
    && (forall i :: 0 <= i < |m.success| && m.success[i].Some? ==> CompleteRequestOp(m.success[i].value))
    && (forall i :: 0 <= i < |m.failure| && m.failure[i].Some? ==> CompleteRequestOp(m.failure[i].value))
  }

  function NormalTxn(m: Txn): Txn {
    m.(compare := Present(m.compare, NEW_COMPARE),
       success := Present(m.success, NEW_REQUEST_OP),
       failure := Present(m.failure, NEW_REQUEST_OP))
  }

  /** Repeated fields are the records of their elements, in order. */
  lemma {:induction false} RepeatedAt<M>(num: FieldNumber, ms: seq<Option<M>>, encode: M -> bytes, blank: M)
    ensures |Repeated(num, ms, encode)| == |ms| == |Present(ms, blank)|
    ensures forall i :: 0 <= i < |ms| ==> Repeated(num, ms, encode)[i] == BytesField(num, Body(ms[i], encode))
    ensures forall i :: 0 <= i < |ms| ==> Present(ms, blank)[i] == Some(OrNew(ms[i], blank))
  {
    if |ms| > 0 {
      RepeatedAt(num, ms[1..], encode, blank);
    }
  }

  lemma CompareApplies(x: Txn, e: Option<Compare>)
    requires |Body(e, EncodeCompare)| < TWO_63 && (e.Some? ==> CleanCompare(e.value))
    ensures ApplyTxn(x, BytesField(1, Body(e, EncodeCompare))) ==
      Ok(x.(compare := x.compare + [Some(OrNew(e, NEW_COMPARE))]))
  {
    if e.Some? {
      CompareRoundTrip(e.value);
    }
  }

  lemma RequestOpApplies(x: Txn, e: Option<RequestOp>)
    requires |Body(e, EncodeRequestOp)| < TWO_63 && (e.Some? ==> CleanRequestOp(e.value) && CompleteRequestOp(e.value))
    ensures ApplyTxn(x, BytesField(2, Body(e, EncodeRequestOp))) ==
      Ok(x.(success := x.success + [Some(OrNew(e, NEW_REQUEST_OP))]))
    ensures ApplyTxn(x, BytesField(3, Body(e, EncodeRequestOp))) ==
      Ok(x.(failure := x.failure + [Some(OrNew(e, NEW_REQUEST_OP))]))
  {
    if e.Some? {
      RequestOpRoundTrip(e.value);
    }
  }

  function PutCompare(m: Txn, e: Option<Compare>): Txn {
    m.(compare := m.compare + [e])
  }

  function PutSuccess(m: Txn, e: Option<RequestOp>): Txn {
    m.(success := m.success + [e])
  }

  function PutFailure(m: Txn, e: Option<RequestOp>): Txn {
    m.(failure := m.failure + [e])
  }

  lemma {:induction false} PutAllCompares(m: Txn, es: seq<Option<Compare>>)
    ensures PutAll(PutCompare, m, es) == m.(compare := m.compare + es)
    decreases |es|
  {
    if |es| > 0 {
      PutAllCompares(PutCompare(m, es[0]), es[1..]);
      assert m.compare + es == (m.compare + [es[0]]) + es[1..];
    } else {
      assert m.compare + es == m.compare;
    }
  }

  lemma {:induction false} PutAllSuccess(m: Txn, es: seq<Option<RequestOp>>)
    ensures PutAll(PutSuccess, m, es) == m.(success := m.success + es)
    decreases |es|
  {
    if |es| > 0 {
      PutAllSuccess(PutSuccess(m, es[0]), es[1..]);
      assert m.success + es == (m.success + [es[0]]) + es[1..];
    } else {
      assert m.success + es == m.success;
    }
  }

  lemma {:induction false} PutAllFailure(m: Txn, es: seq<Option<RequestOp>>)
    ensures PutAll(PutFailure, m, es) == m.(failure := m.failure + es)
    decreases |es|
  {
    if |es| > 0 {
      PutAllFailure(PutFailure(m, es[0]), es[1..]);
      assert m.failure + es == (m.failure + [es[0]]) + es[1..];
    } else {
      assert m.failure + es == m.failure;
    }
  }

  lemma ComparesFold(m: Txn, ms: seq<Option<Compare>>)
    requires forall i :: 0 <= i < |ms| && ms[i].Some? ==> CleanCompare(ms[i].value)
    requires |Records(Repeated(1, ms, EncodeCompare))| < TWO_63
    ensures Fold(ApplyTxn, m, Repeated(1, ms, EncodeCompare)) == Ok(m.(compare := m.compare + Present(ms, NEW_COMPARE)))
  {
    var fs, es := Repeated(1, ms, EncodeCompare), Present(ms, NEW_COMPARE);
    RepeatedAt(1, ms, EncodeCompare, NEW_COMPARE);
    forall x: Txn, i | 0 <= i < |fs|
      ensures ApplyTxn(x, fs[i]) == Ok(PutCompare(x, es[i]))
    {
      PayloadFits(fs, i);
      CompareApplies(x, ms[i]);
    }
    FoldOfElements(ApplyTxn, PutCompare, m, fs, es);
    PutAllCompares(m, es);
  }

  lemma SuccessFolds(m: Txn, ms: seq<Option<RequestOp>>)
    requires forall i :: 0 <= i < |ms| && ms[i].Some? ==> CleanRequestOp(ms[i].value) && CompleteRequestOp(ms[i].value)
    requires |Records(Repeated(2, ms, EncodeRequestOp))| < TWO_63
    ensures Fold(ApplyTxn, m, Repeated(2, ms, EncodeRequestOp)) ==
      Ok(m.(success := m.success + Present(ms, NEW_REQUEST_OP)))
  {
    var fs, es := Repeated(2, ms, EncodeRequestOp), Present(ms, NEW_REQUEST_OP);
    RepeatedAt(2, ms, EncodeRequestOp, NEW_REQUEST_OP);
    forall x: Txn, i | 0 <= i < |fs|
      ensures ApplyTxn(x, fs[i]) == Ok(PutSuccess(x, es[i]))
    {
      PayloadFits(fs, i);
      RequestOpApplies(x, ms[i]);
    }
    FoldOfElements(ApplyTxn, PutSuccess, m, fs, es);
    PutAllSuccess(m, es);
  }

  lemma FailureFolds(m: Txn, ms: seq<Option<RequestOp>>)
    requires forall i :: 0 <= i < |ms| && ms[i].Some? ==> CleanRequestOp(ms[i].value) && CompleteRequestOp(ms[i].value)
    requires |Records(Repeated(3, ms, EncodeRequestOp))| < TWO_63
    ensures Fold(ApplyTxn, m, Repeated(3, ms, EncodeRequestOp)) ==
      Ok(m.(failure := m.failure + Present(ms, NEW_REQUEST_OP)))
  {
    var fs, es := Repeated(3, ms, EncodeRequestOp), Present(ms, NEW_REQUEST_OP);
    RepeatedAt(3, ms, EncodeRequestOp, NEW_REQUEST_OP);
    forall x: Txn, i | 0 <= i < |fs|
      ensures ApplyTxn(x, fs[i]) == Ok(PutFailure(x, es[i]))
    {
      PayloadFits(fs, i);
      RequestOpApplies(x, ms[i]);
    }
    FoldOfElements(ApplyTxn, PutFailure, m, fs, es);
    PutAllFailure(m, es);
  }

  lemma {:induction false} RepeatedKnown<M>(schema: Schema, num: FieldNumber, ms: seq<Option<M>>, encode: M -> bytes)
    requires num in schema && schema[num].BytesKind?
    ensures Known(schema, Repeated(num, ms, encode))
  {
    if |ms| > 0 {
      RepeatedKnown(schema, num, ms[1..], encode);
    }
  }

  lemma FoldParts<M>(apply: (M, Field) -> Result<M, Error>, m0: M, m1: M, m2: M, m3: M,
                     a: seq<WireField>, b: seq<WireField>, c: seq<WireField>)
    requires Fold(apply, m0, a) == Ok(m1) && Fold(apply, m1, b) == Ok(m2) && Fold(apply, m2, c) == Ok(m3)
    ensures Fold(apply, m0, a + (b + c)) == Ok(m3)
  {
    FoldConcat(apply, m0, a, b + c);
    FoldConcat(apply, m1, b, c);
  }

  lemma PartsFit(a: seq<WireField>, b: seq<WireField>, c: seq<WireField>)
    ensures |Records(a + (b + c))| == |Records(a)| + |Records(b)| + |Records(c)|
  {
    RecordsConcat(a, b + c);
    RecordsConcat(b, c);
  }

  lemma TxnKnown(m: Txn)
    ensures Known(TXN, TxnFields(m))
  {
    RepeatedKnown(TXN, 1, m.compare, EncodeCompare);
    RepeatedKnown(TXN, 2, m.success, EncodeRequestOp);
    RepeatedKnown(TXN, 3, m.failure, EncodeRequestOp);
    KnownConcat(TXN, Repeated(2, m.success, EncodeRequestOp), Repeated(3, m.failure, EncodeRequestOp));
  }

  lemma TxnFolds(m: Txn)
    requires CleanTxn(m) && CompleteTxn(m) && |Records(TxnFields(m))| < TWO_63
    ensures Fold(ApplyTxn, NEW_TXN, TxnFields(m)) == Ok(NormalTxn(m).(unknown := []))
  {
    var c, s, f := Repeated(1, m.compare, EncodeCompare), Repeated(2, m.success, EncodeRequestOp),
      Repeated(3, m.failure, EncodeRequestOp);
    PartsFit(c, s, f);
    var m1 := NEW_TXN.(compare := NEW_TXN.compare + Present(m.compare, NEW_COMPARE));
    var m2 := m1.(success := m1.success + Present(m.success, NEW_REQUEST_OP));
    var m3 := m2.(failure := m2.failure + Present(m.failure, NEW_REQUEST_OP));
    ComparesFold(NEW_TXN, m.compare);
    SuccessFolds(m1, m.success);
    FailureFolds(m2, m.failure);
    FoldParts(ApplyTxn, NEW_TXN, m1, m2, m3, c, s, f);
    assert m3 == NormalTxn(m).(unknown := []);
  }

  function TxnKeeper(): (k: Keeper<Txn>)
    ensures k.Lawful(ApplyTxn)
  {
    Keeper((x: Txn) => x.unknown, (x: Txn, u) => x.(unknown := u))
  }

  lemma TxnRoundTrip(m: Txn)
    requires CleanTxn(m) && CompleteTxn(m) && |EncodeTxn(m)| < TWO_63
    ensures DecodeTxn(NEW_TXN, EncodeTxn(m)) == Ok(NormalTxn(m))
  {
    TxnFolds(m);
    TxnKnown(m);
    DecodeOfMessage(TXN, ApplyTxn, TxnKeeper(),
                    NEW_TXN, TxnFields(m), NormalTxn(m).(unknown := []), m.unknown);
  }
}
