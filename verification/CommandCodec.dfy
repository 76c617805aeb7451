/** The round trip of the recursive Command message. */
module CommandCodec {
  import opened Common
  import opened Wire
  import opened Messages
  import opened Codec

  /** Unknown bytes at every level are unknown records. */
  ghost predicate CleanCommand(m: Command)
    decreases m, 1
  {
    && (m.kv.Some? ==> CleanKeyValue(m.kv.value))
    && (forall i :: 0 <= i < |m.batch| && m.batch[i].Some? ==> CleanKeyValue(m.batch[i].value))
    && (m.txn.Some? ==> CleanTxn(m.txn.value))
    && CleanSequence(m.sequence)
    && UnknownRecords(COMMAND, m.unknown)
  }

  ghost predicate CleanSequence(ms: seq<Option<Command>>)
    decreases ms, 0
  {
    |ms| == 0 || (CleanElement(ms[0]) && CleanSequence(ms[1..]))
  }

  ghost predicate CleanElement(m: Option<Command>)
    decreases m, 2
  {
    m.Some? ==> CleanCommand(m.value)
  }

  /** Set oneofs at every level carry payloads. */
  predicate CompleteCommand(m: Command)
    decreases m, 1
  {
    (m.txn.Some? ==> CompleteTxn(m.txn.value)) && CompleteSequence(m.sequence)
  }

  predicate CompleteSequence(ms: seq<Option<Command>>)
    decreases ms, 0
  {
    |ms| == 0 || (CompleteElement(ms[0]) && CompleteSequence(ms[1..]))
  }

  predicate CompleteElement(m: Option<Command>)
    decreases m, 2
  {
    m.Some? ==> CompleteCommand(m.value)
  }

  /** Nil elements of repeated fields read back as empty messages; nothing else changes. */
  function NormalCommand(m: Command): Command
    decreases m, 1
  {
    m.(batch := Present(m.batch, NEW_KEY_VALUE),
       txn := if m.txn.Some? then Some(NormalTxn(m.txn.value)) else None,
       sequence := NormalSequence(m.sequence))
  }

  function NormalSequence(ms: seq<Option<Command>>): seq<Option<Command>>
    decreases ms, 0
  {
    if |ms| == 0 then [] else [Some(NormalElement(ms[0]))] + NormalSequence(ms[1..])
  }

  function NormalElement(m: Option<Command>): Command
    decreases m, 2
  {
    if m.Some? then NormalCommand(m.value) else NEW_COMMAND
  }

  // ----- The parts of a command -----

  lemma KvFolds(x: Command, kv: Option<KeyValue>)
    requires x.kv.None? && (kv.Some? ==> CleanKeyValue(kv.value))
    requires |Records(OptionalMessage(3, kv, EncodeKeyValue))| < TWO_63
    ensures Fold(ApplyCommand, x, OptionalMessage(3, kv, EncodeKeyValue)) == Ok(x.(kv := kv))
  {
    if kv.Some? {
      PayloadFits(OptionalMessage(3, kv, EncodeKeyValue), 0);
      KeyValueRoundTrip(kv.value);
    }
  }

  lemma TxnPartFolds(x: Command, txn: Option<Txn>)
    requires x.txn.None? && (txn.Some? ==> CleanTxn(txn.value) && CompleteTxn(txn.value))
    requires |Records(OptionalMessage(7, txn, EncodeTxn))| < TWO_63
    ensures Fold(ApplyCommand, x, OptionalMessage(7, txn, EncodeTxn)) ==
      Ok(x.(txn := if txn.Some? then Some(NormalTxn(txn.value)) else None))
  {
    if txn.Some? {
      PayloadFits(OptionalMessage(7, txn, EncodeTxn), 0);
      TxnRoundTrip(txn.value);
    }
  }

  function PutBatch(m: Command, e: Option<KeyValue>): Command {
    m.(batch := m.batch + [e])
  }

  lemma {:induction false} PutAllBatch(m: Command, es: seq<Option<KeyValue>>)
    ensures PutAll(PutBatch, m, es) == m.(batch := m.batch + es)
    decreases |es|
  {
    if |es| > 0 {
      PutAllBatch(PutBatch(m, es[0]), es[1..]);
      assert m.batch + es == (m.batch + [es[0]]) + es[1..];
    } else {
      assert m.batch + es == m.batch;
    }
  }

  lemma BatchApplies(x: Command, e: Option<KeyValue>)
    requires |Body(e, EncodeKeyValue)| < TWO_63 && (e.Some? ==> CleanKeyValue(e.value))
    ensures ApplyCommand(x, BytesField(6, Body(e, EncodeKeyValue))) == Ok(PutBatch(x, Some(OrNew(e, NEW_KEY_VALUE))))
  {
    if e.Some? {
      KeyValueRoundTrip(e.value);
    }
  }

  lemma BatchFolds(m: Command, ms: seq<Option<KeyValue>>)
    requires forall i :: 0 <= i < |ms| && ms[i].Some? ==> CleanKeyValue(ms[i].value)
    requires |Records(Repeated(6, ms, EncodeKeyValue))| < TWO_63
    ensures Fold(ApplyCommand, m, Repeated(6, ms, EncodeKeyValue)) ==
      Ok(m.(batch := m.batch + Present(ms, NEW_KEY_VALUE)))
  {
    var fs, es := Repeated(6, ms, EncodeKeyValue), Present(ms, NEW_KEY_VALUE);
    RepeatedAt(6, ms, EncodeKeyValue, NEW_KEY_VALUE);
    forall x: Command, i | 0 <= i < |fs|
      ensures ApplyCommand(x, fs[i]) == Ok(PutBatch(x, es[i]))
    {
      PayloadFits(fs, i);
      BatchApplies(x, ms[i]);
    }
    FoldOfElements(ApplyCommand, PutBatch, m, fs, es);
    PutAllBatch(m, es);
  }

  function PutSequence(m: Command, e: Option<Command>): Command {
    m.(sequence := m.sequence + [e])
  }

  lemma {:induction false} PutAllSequence(m: Command, es: seq<Option<Command>>)
    ensures PutAll(PutSequence, m, es) == m.(sequence := m.sequence + es)
    decreases |es|
  {
    if |es| > 0 {
      PutAllSequence(PutSequence(m, es[0]), es[1..]);
      assert m.sequence + es == (m.sequence + [es[0]]) + es[1..];
    } else {
      assert m.sequence + es == m.sequence;
    }
  }

  lemma {:induction false} SequenceAt(ms: seq<Option<Command>>)
    ensures |SequenceFields(ms)| == |ms| == |NormalSequence(ms)|
    ensures forall i :: 0 <= i < |ms| ==> SequenceFields(ms)[i] == BytesField(10, EncodeElement(ms[i]))
    ensures forall i :: 0 <= i < |ms| ==>
      NormalSequence(ms)[i] == Some(NormalElement(ms[i]))
    ensures CleanSequence(ms) ==> forall i :: 0 <= i < |ms| ==> CleanElement(ms[i])
    ensures CompleteSequence(ms) ==> forall i :: 0 <= i < |ms| ==> CompleteElement(ms[i])
  {
    if |ms| > 0 {
      SequenceAt(ms[1..]);
    }
  }

  lemma {:induction false} SequenceFolds(m: Command, ms: seq<Option<Command>>)
    requires CleanSequence(ms) && CompleteSequence(ms) && |Records(SequenceFields(ms))| < TWO_63
    ensures Fold(ApplyCommand, m, SequenceFields(ms)) == Ok(m.(sequence := m.sequence + NormalSequence(ms)))
    decreases ms, 0
  {
    var fs, es := SequenceFields(ms), NormalSequence(ms);
    SequenceAt(ms);
    forall x: Command, i | 0 <= i < |fs|
      ensures ApplyCommand(x, fs[i]) == Ok(PutSequence(x, es[i]))
    {
      PayloadFits(fs, i);
      ElementApplies(x, ms[i]);
    }
    FoldOfElements(ApplyCommand, PutSequence, m, fs, es);
    PutAllSequence(m, es);
  }

  lemma {:induction false} ElementApplies(x: Command, e: Option<Command>)
    requires CleanElement(e) && CompleteElement(e) && |EncodeElement(e)| < TWO_63
    ensures ApplyCommand(x, BytesField(10, EncodeElement(e))) == Ok(PutSequence(x, Some(NormalElement(e))))
    decreases e, 8
  {
    if e.Some? {
      CommandRoundTrip(e.value);
      ApplySequence(x, EncodeCommand(e.value), NormalCommand(e.value));
    } else {
      ApplySequence(x, [], NEW_COMMAND);
    }
  }

  lemma ApplySequence(x: Command, b: bytes, e: Command)
    requires DecodeCommand(NEW_COMMAND, b) == Ok(e)
    ensures ApplyCommand(x, BytesField(10, b)) == Ok(PutSequence(x, Some(e)))
  {
  }

  // ----- The whole command -----

  lemma FoldTwo<M>(apply: (M, Field) -> Result<M, Error>, m0: M, m1: M, m2: M, a: seq<WireField>, b: seq<WireField>)
    requires Fold(apply, m0, a) == Ok(m1) && Fold(apply, m1, b) == Ok(m2)
    ensures Fold(apply, m0, a + b) == Ok(m2)
  {
    FoldConcat(apply, m0, a, b);
  }

  /** RangeEnd to Count. */
  function LastFields(m: Command): seq<WireField> {
    OptionalBytes(8, m.rangeEnd) + (PlainBool(9, m.prevKvs) + (SequenceFields(m.sequence) + PlainBool(11, m.count)))
  }

  /** LeaderIndex to Count. */
  function MiddleFields(m: Command): seq<WireField> {
    OptionalUint(5, m.leaderIndex) +
      (Repeated(6, m.batch, EncodeKeyValue) + (OptionalMessage(7, m.txn, EncodeTxn) + LastFields(m)))
  }

  /** Sequence and Count. */
  lemma TailFieldsFold(x: Command, m: Command)
    requires CleanSequence(m.sequence) && CompleteSequence(m.sequence)
    requires |Records(SequenceFields(m.sequence))| < TWO_63
    requires x.sequence == [] && !x.count
    ensures Fold(ApplyCommand, x, SequenceFields(m.sequence) + PlainBool(11, m.count)) ==
      Ok(x.(sequence := NormalSequence(m.sequence), count := m.count))
    decreases m, 0
  {
    var x1 := x.(sequence := NormalSequence(m.sequence));
    SequenceFolds(x, m.sequence);
    assert [] + NormalSequence(m.sequence) == NormalSequence(m.sequence);
    FoldLast(ApplyCommand, x1, PlainBool(11, m.count), x1.(count := m.count));
    FoldTwo(ApplyCommand, x, x1, x1.(count := m.count), SequenceFields(m.sequence), PlainBool(11, m.count));
  }

  lemma FoldBeforeTwo<M>(apply: (M, Field) -> Result<M, Error>, m0: M, m1: M, m2: M, m3: M,
                         a: seq<WireField>, b: seq<WireField>, rest: seq<WireField>)
    requires Turns(apply, m0, a, m1) && Turns(apply, m1, b, m2) && Fold(apply, m2, rest) == Ok(m3)
    ensures Fold(apply, m0, a + (b + rest)) == Ok(m3)
  {
    FoldTurns(apply, m0, a, m1, b + rest);
    FoldTurns(apply, m1, b, m2, rest);
  }

  lemma FourPartsFit(a: seq<WireField>, b: seq<WireField>, c: seq<WireField>, d: seq<WireField>)
    ensures |Records(a + (b + (c + d)))| == |Records(a)| + |Records(b)| + |Records(c)| + |Records(d)|
  {
    PartsFit(a, b, c + d);
    RecordsConcat(c, d);
  }

  lemma SequenceFits(m: Command)
    ensures |Records(SequenceFields(m.sequence))| <= |Records(LastFields(m))|
  {
    FourPartsFit(OptionalBytes(8, m.rangeEnd), PlainBool(9, m.prevKvs), SequenceFields(m.sequence),
      PlainBool(11, m.count));
  }

  lemma PrevKvsAndTailFold(x: Command, m: Command)
    requires CleanSequence(m.sequence) && CompleteSequence(m.sequence)
    requires |Records(SequenceFields(m.sequence))| < TWO_63
    requires !x.prevKvs && x.sequence == [] && !x.count
    ensures Fold(ApplyCommand, x, PlainBool(9, m.prevKvs) + (SequenceFields(m.sequence) + PlainBool(11, m.count))) ==
      Ok(x.(prevKvs := m.prevKvs, sequence := NormalSequence(m.sequence), count := m.count))
    decreases m, 1
  {
    TailFieldsFold(x.(prevKvs := m.prevKvs), m);
    PrevKvsFolds(x, m.prevKvs, SequenceFields(m.sequence) + PlainBool(11, m.count));
  }

  lemma PrevKvsFolds(x: Command, b: bool, rest: seq<WireField>)
    requires !x.prevKvs
    ensures Fold(ApplyCommand, x, PlainBool(9, b) + rest) == Fold(ApplyCommand, x.(prevKvs := b), rest)
  {
    FoldTurns(ApplyCommand, x, PlainBool(9, b), x.(prevKvs := b), rest);
  }

  lemma RangeEndFolds(x: Command, b: Option<bytes>, rest: seq<WireField>)
    requires x.rangeEnd.None?
    ensures Fold(ApplyCommand, x, OptionalBytes(8, b) + rest) == Fold(ApplyCommand, x.(rangeEnd := b), rest)
  {
    FoldTurns(ApplyCommand, x, OptionalBytes(8, b), x.(rangeEnd := b), rest);
  }

  lemma LastFieldsFold(x: Command, m: Command)
    requires CleanSequence(m.sequence) && CompleteSequence(m.sequence) && |Records(LastFields(m))| < TWO_63
    requires x.rangeEnd.None? && !x.prevKvs && x.sequence == [] && !x.count
    ensures Fold(ApplyCommand, x, LastFields(m)) ==
      Ok(x.(rangeEnd := m.rangeEnd, prevKvs := m.prevKvs, sequence := NormalSequence(m.sequence), count := m.count))
    decreases m, 2
  {
    SequenceFits(m);
    PrevKvsAndTailFold(x.(rangeEnd := m.rangeEnd), m);
    RangeEndFolds(x, m.rangeEnd, PlainBool(9, m.prevKvs) + (SequenceFields(m.sequence) + PlainBool(11, m.count)));
  }

  lemma TxnAndLastFold(x: Command, m: Command)
    requires CleanCommand(m) && CompleteCommand(m)
    requires |Records(OptionalMessage(7, m.txn, EncodeTxn))| < TWO_63 && |Records(LastFields(m))| < TWO_63
    requires x.txn.None? && x.rangeEnd.None? && !x.prevKvs && x.sequence == [] && !x.count
    ensures Fold(ApplyCommand, x, OptionalMessage(7, m.txn, EncodeTxn) + LastFields(m)) ==
      Ok(NormalCommand(m).(table := x.table, kind := x.kind, kv := x.kv, leaderIndex := x.leaderIndex, batch := x.batch,
        unknown := x.unknown))
    decreases m, 3
  {
    var x1 := x.(txn := if m.txn.Some? then Some(NormalTxn(m.txn.value)) else None);
    var x2 := x1.(rangeEnd := m.rangeEnd, prevKvs := m.prevKvs, sequence := NormalSequence(m.sequence),
      count := m.count);
    TxnPartFolds(x, m.txn);
    LastFieldsFold(x1, m);
    FoldTwo(ApplyCommand, x, x1, x2, OptionalMessage(7, m.txn, EncodeTxn), LastFields(m));
  }

  lemma BatchAndLaterFold(x: Command, m: Command)
    requires CleanCommand(m) && CompleteCommand(m) && |Records(MiddleFields(m))| < TWO_63
    requires x == NEW_COMMAND.(table := x.table, kind := x.kind, kv := x.kv, leaderIndex := x.leaderIndex)
    ensures Fold(ApplyCommand, x, Repeated(6, m.batch, EncodeKeyValue) +
      (OptionalMessage(7, m.txn, EncodeTxn) + LastFields(m))) ==
      Ok(NormalCommand(m).(table := x.table, kind := x.kind, kv := x.kv, leaderIndex := x.leaderIndex, unknown := []))
    decreases m, 4
  {
    var x1 := x.(batch := Present(m.batch, NEW_KEY_VALUE));
    var a, b, c, d := OptionalUint(5, m.leaderIndex), Repeated(6, m.batch, EncodeKeyValue),
      OptionalMessage(7, m.txn, EncodeTxn), LastFields(m);
    FourPartsFit(a, b, c, d);
    BatchFolds(x, m.batch);
    assert x.batch + Present(m.batch, NEW_KEY_VALUE) == Present(m.batch, NEW_KEY_VALUE);
    TxnAndLastFold(x1, m);
    FoldConcat(ApplyCommand, x, b, c + d);
  }

  lemma MiddleFieldsFold(x: Command, m: Command)
    requires CleanCommand(m) && CompleteCommand(m) && |Records(MiddleFields(m))| < TWO_63
    requires x == NEW_COMMAND.(table := x.table, kind := x.kind, kv := x.kv)
    ensures Fold(ApplyCommand, x, MiddleFields(m)) ==
      Ok(NormalCommand(m).(table := x.table, kind := x.kind, kv := x.kv, unknown := []))
    decreases m, 5
  {
    BatchAndLaterFold(x.(leaderIndex := m.leaderIndex), m);
    LeaderIndexFolds(x, m.leaderIndex, Repeated(6, m.batch, EncodeKeyValue) +
      (OptionalMessage(7, m.txn, EncodeTxn) + LastFields(m)));
  }

  lemma LeaderIndexFolds(x: Command, index: Option<uint64>, rest: seq<WireField>)
    requires x.leaderIndex.None?
    ensures Fold(ApplyCommand, x, OptionalUint(5, index) + rest) == Fold(ApplyCommand, x.(leaderIndex := index), rest)
  {
    FoldTurns(ApplyCommand, x, OptionalUint(5, index), x.(leaderIndex := index), rest);
  }

  lemma CommandFolds(m: Command)
    requires CleanCommand(m) && CompleteCommand(m) && |Records(CommandFields(m))| < TWO_63
    ensures Fold(ApplyCommand, NEW_COMMAND, CommandFields(m)) == Ok(NormalCommand(m).(unknown := []))
    decreases m, 6
  {
    var x1 := NEW_COMMAND.(table := m.table);
    var x2 := x1.(kind := m.kind);
    var x3 := x2.(kv := m.kv);
    var a, b, c, d := PlainBytes(1, m.table), PlainInt(2, m.kind), OptionalMessage(3, m.kv, EncodeKeyValue),
      MiddleFields(m);
    FourPartsFit(a, b, c, d);
    SignedRoundTrip(m.kind);
    KvFolds(x2, m.kv);
    MiddleFieldsFold(x3, m);
    FoldTwo(ApplyCommand, x2, x3, NormalCommand(m).(unknown := []), c, d);
    FoldBeforeTwo(ApplyCommand, NEW_COMMAND, x1, x2, NormalCommand(m).(unknown := []), a, b, c + d);
  }

  lemma FourKnown(schema: Schema, a: seq<WireField>, b: seq<WireField>, c: seq<WireField>, d: seq<WireField>)
    requires Known(schema, a) && Known(schema, b) && Known(schema, c) && Known(schema, d)
    ensures Known(schema, a + (b + (c + d)))
  {
    KnownConcat(schema, c, d);
    KnownConcat(schema, b, c + d);
    KnownConcat(schema, a, b + (c + d));
  }

  lemma LastKnown(m: Command)
    ensures Known(COMMAND, LastFields(m))
  {
    SequenceAt(m.sequence);
    FourKnown(COMMAND, OptionalBytes(8, m.rangeEnd), PlainBool(9, m.prevKvs), SequenceFields(m.sequence),
      PlainBool(11, m.count));
  }

  lemma MiddleKnown(m: Command)
    ensures Known(COMMAND, MiddleFields(m))
  {
    RepeatedKnown(COMMAND, 6, m.batch, EncodeKeyValue);
    LastKnown(m);
    FourKnown(COMMAND, OptionalUint(5, m.leaderIndex), Repeated(6, m.batch, EncodeKeyValue),
      OptionalMessage(7, m.txn, EncodeTxn), LastFields(m));
  }

  lemma CommandKnown(m: Command)
    ensures Known(COMMAND, CommandFields(m))
  {
    MiddleKnown(m);
    FourKnown(COMMAND, PlainBytes(1, m.table), PlainInt(2, m.kind), OptionalMessage(3, m.kv, EncodeKeyValue),
      MiddleFields(m));
  }

  function CommandKeeper(): (k: Keeper<Command>)
    ensures k.Lawful(ApplyCommand)
  {
    Keeper((x: Command) => x.unknown, (x: Command, u) => x.(unknown := u))
  }

  /** Decoding an encoded command of any nesting into a fresh object restores it, presence included. */
  lemma {:induction false} CommandRoundTrip(m: Command)
    requires CleanCommand(m) && CompleteCommand(m) && |EncodeCommand(m)| < TWO_63
    ensures DecodeCommand(NEW_COMMAND, EncodeCommand(m)) == Ok(NormalCommand(m))
    decreases m, 7
  {
    CommandFolds(m);
    CommandKnown(m);
    DecodeOfMessage(COMMAND, ApplyCommand, CommandKeeper(), NEW_COMMAND, CommandFields(m),
      NormalCommand(m).(unknown := []), m.unknown);
    CommandDecodesByRecords(NEW_COMMAND, EncodeCommand(m));
  }
}
