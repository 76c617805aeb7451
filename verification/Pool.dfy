/**
 Commands recycled through the object pool. A pooled command keeps the backing arrays of Batch and
 Sequence with everything in their slots; UnmarshalVT takes the next slot into use instead of
 allocating, and ResetVT cuts the slices to length zero after resetting what they held.
 */
module Pool {
  import opened Common
  import opened Wire
  import opened Messages

  /**
   `batch` and `sequence` are whole backing arrays, of which the first `batchLen` and `sequenceLen` slots are in use.
   */
  datatype Pooled = Pooled(
    table: bytes,
    kind: int32,
    kv: Option<KeyValue>,
    leaderIndex: Option<uint64>,
    batch: seq<Option<KeyValue>>,
    batchLen: nat,
    txn: Option<Txn>,
    rangeEnd: Option<bytes>,
    prevKvs: bool,
    sequence: seq<Option<Pooled>>,
    sequenceLen: nat,
    count: bool,
    unknown: bytes)

  /** Slices do not reach beyond their backing arrays. */
  predicate InBounds(p: Pooled) {
    p.batchLen <= |p.batch| && p.sequenceLen <= |p.sequence|
  }

  const NEW_POOLED := Pooled([], 0, None, None, [], 0, None, None, false, [], 0, false, [])

  /** Go's choice of spare capacity when append has to grow a slice of the given length. */
  type Growth = nat -> nat

  /** Take one more slot into use: grow when full, fill a nil slot, otherwise reuse what is there. */
  function NextSlot<T>(slots: seq<Option<T>>, len: nat, blank: T, growth: Growth): (r: seq<Option<T>>)
    requires len <= |slots|
    ensures len < |r| && r[len].Some? && r[..len] == slots[..len]
    ensures forall i :: len < i < |r| ==> r[i].None? || (i < |slots| && r[i] == slots[i])
    ensures r[len].value == blank || (len < |slots| && r[len] == slots[len])
  {
    if len == |slots| then slots + [Some(blank)] + seq(growth(len), i => None)
    else if slots[len].None? then slots[len := Some(blank)]
    else slots
  }

  /** KeyValue.UnmarshalVT in place: what has been applied before an error stays. */
  function DecodeKeyValueInto(m: KeyValue, data: bytes): (r: (KeyValue, Option<Error>))
    decreases |data|
  {
    if |data| == 0 then (m, None)
    else
      match NextField(KEY_VALUE, data)
      case Err(e) => (m, Some(e))
      case Ok((f, rest)) => DecodeKeyValueInto(ApplyKeyValue(m, f).value, rest)
  }

  lemma {:induction false} DecodeKeyValueIntoAgrees(m: KeyValue, data: bytes)
    ensures DecodeKeyValue(m, data) ==
      match DecodeKeyValueInto(m, data)
      case (kv, None) => Ok(kv)
      case (_, Some(e)) => Err(e)
    decreases |data|
  {
    if |data| > 0 && NextField(KEY_VALUE, data).Ok? {
      var (f, rest) := NextField(KEY_VALUE, data).value;
      DecodeKeyValueIntoAgrees(ApplyKeyValue(m, f).value, rest);
    }
  }

  /** A pooled command with the fields of `m` that do not live in slots. */
  function WithScalars(p: Pooled, m: Command): Pooled {
    Pooled(m.table, m.kind, m.kv, m.leaderIndex, p.batch, p.batchLen, m.txn, m.rangeEnd, m.prevKvs, p.sequence,
      p.sequenceLen, m.count, m.unknown)
  }

  /** The fields of `p` that do not live in slots. */
  function Scalars(p: Pooled): Command {
    Command(p.table, p.kind, p.kv, p.leaderIndex, [], p.txn, p.rangeEnd, p.prevKvs, [], p.count, p.unknown)
  }

  /** One record applied to a pooled command in place. */
  function ApplyPooled(p: Pooled, f: Field, growth: Growth): (Pooled, Option<Error>)
    requires InBounds(p)
    decreases if f.BytesField? then |f.payload| else 0, 2
  {
    if f.BytesField? && f.num == 6 then
      var slots := NextSlot(p.batch, p.batchLen, NEW_KEY_VALUE, growth);
      var (kv, error) := DecodeKeyValueInto(slots[p.batchLen].value, f.payload);
      (p.(batch := slots[p.batchLen := Some(kv)], batchLen := p.batchLen + 1), error)
    else if f.BytesField? && f.num == 10 then
      var slots := NextSlot(p.sequence, p.sequenceLen, NEW_POOLED, growth);
      var (q, error) := DecodePooled(slots[p.sequenceLen].value, f.payload, growth);
      (p.(sequence := slots[p.sequenceLen := Some(q)], sequenceLen := p.sequenceLen + 1), error)
    else
      match ApplyCommand(Scalars(p), f)
      case Ok(m) => (WithScalars(p, m), None)
      case Err(e) => (p, Some(e))
  }

  /** UnmarshalVT into a pooled command; also what an error leaves behind. */
  function DecodePooled(p: Pooled, data: bytes, growth: Growth): (Pooled, Option<Error>)
    decreases |data|, 1
  {
    if |data| == 0 || !InBounds(p) then (p, None)
    else
      match NextField(COMMAND, data)
      case Err(e) => (p, Some(e))
      case Ok((f, rest)) =>
        var (p', error) := ApplyPooled(p, f, growth);
        if error.Some? then (p', error) else DecodePooled(p', rest, growth)
  }

  /** ResetVT: elements in use are reset, the slices are cut to length zero, a present RangeEnd stays present. */
  function Reset(p: Pooled): Pooled
    decreases p, 0
  {
    NEW_POOLED.(
      batch := seq(|p.batch|, i requires 0 <= i < |p.batch| =>
        if i < p.batchLen && p.batch[i].Some? then Some(NEW_KEY_VALUE) else p.batch[i]),
      rangeEnd := if p.rangeEnd.Some? then Some([]) else None,
      sequence := seq(|p.sequence|, i requires 0 <= i < |p.sequence| =>
        if i < p.sequenceLen then ResetSlot(p.sequence[i]) else p.sequence[i]))
  }

  function ResetSlot(p: Option<Pooled>): Option<Pooled>
    decreases p, 1
  {
    if p.Some? then Some(Reset(p.value)) else None
  }

  // ----- What the pool keeps -----

  predicate SpareKeyValue(kv: Option<KeyValue>) {
    kv.None? || kv == Some(NEW_KEY_VALUE)
  }

  /** Nothing shows but possibly a present, empty RangeEnd. */
  predicate Blank(p: Pooled) {
    p.batchLen == 0 && p.sequenceLen == 0 && (p.rangeEnd.None? || p.rangeEnd == Some([])) &&
    Scalars(p).(rangeEnd := None) == NEW_COMMAND
  }

  /** Slots in use are filled and spare slots are nil or reset, at every depth. */
  ghost predicate Tidy(p: Pooled)
    decreases p, 0
  {
    && InBounds(p)
    && (forall i :: 0 <= i < p.batchLen ==> p.batch[i].Some?)
    && (forall i :: p.batchLen <= i < |p.batch| ==> SpareKeyValue(p.batch[i]))
    && (forall i :: 0 <= i < p.sequenceLen ==> p.sequence[i].Some?)
    && (forall i :: 0 <= i < |p.sequence| ==> TidySlot(p.sequence[i], i >= p.sequenceLen))
  }

  ghost predicate TidySlot(p: Option<Pooled>, spare: bool)
    decreases p, 1
  {
    p.Some? ==> Tidy(p.value) && (spare ==> Blank(p.value))
  }

  lemma TidyNew()
    ensures Tidy(NEW_POOLED) && Blank(NEW_POOLED)
  {
  }

  lemma BatchStaysTidy(p: Pooled, kv: KeyValue, growth: Growth)
    requires Tidy(p)
    ensures var slots := NextSlot(p.batch, p.batchLen, NEW_KEY_VALUE, growth);
      && slots[p.batchLen] == Some(NEW_KEY_VALUE)
      && Tidy(p.(batch := slots[p.batchLen := Some(kv)], batchLen := p.batchLen + 1))
  {
    var slots := NextSlot(p.batch, p.batchLen, NEW_KEY_VALUE, growth);
    var p' := p.(batch := slots[p.batchLen := Some(kv)], batchLen := p.batchLen + 1);
    forall i | 0 <= i < p'.batchLen
      ensures p'.batch[i].Some?
    {
      assert i < p.batchLen ==> p'.batch[i] == slots[..p.batchLen][i] == p.batch[..p.batchLen][i];
    }
  }

  lemma NextElementIsBlank(p: Pooled, growth: Growth)
    requires Tidy(p)
    ensures var e := NextSlot(p.sequence, p.sequenceLen, NEW_POOLED, growth)[p.sequenceLen].value; Tidy(e) && Blank(e)
  {
    TidyNew();
  }

  lemma SequenceStaysTidy(p: Pooled, q: Pooled, growth: Growth)
    requires Tidy(p) && Tidy(q)
    ensures var slots := NextSlot(p.sequence, p.sequenceLen, NEW_POOLED, growth);
      Tidy(p.(sequence := slots[p.sequenceLen := Some(q)], sequenceLen := p.sequenceLen + 1))
  {
    var slots := NextSlot(p.sequence, p.sequenceLen, NEW_POOLED, growth);
    var p' := p.(sequence := slots[p.sequenceLen := Some(q)], sequenceLen := p.sequenceLen + 1);
    forall i | 0 <= i < |p'.sequence|
      ensures TidySlot(p'.sequence[i], i >= p'.sequenceLen) && (i < p'.sequenceLen ==> p'.sequence[i].Some?)
    {
      assert i < p.sequenceLen ==> p'.sequence[i] == slots[..p.sequenceLen][i] == p.sequence[..p.sequenceLen][i];
    }
  }

  /** Decoding, successful or not, leaves spare slots reset. */
  lemma {:induction false} DecodeStaysTidy(p: Pooled, data: bytes, growth: Growth)
    requires Tidy(p)
    ensures Tidy(DecodePooled(p, data, growth).0)
    decreases |data|, 1
  {
    if |data| > 0 && NextField(COMMAND, data).Ok? {
      var (f, rest) := NextField(COMMAND, data).value;
      ApplyStaysTidy(p, f, growth);
      var (p', error) := ApplyPooled(p, f, growth);
      if error.None? {
        DecodeStaysTidy(p', rest, growth);
      }
    }
  }

  lemma {:induction false} ApplyStaysTidy(p: Pooled, f: Field, growth: Growth)
    requires Tidy(p)
    ensures Tidy(ApplyPooled(p, f, growth).0)
    decreases if f.BytesField? then |f.payload| else 0, 2
  {
    if f.BytesField? && f.num == 6 {
      BatchStaysTidy(p, ApplyPooled(p, f, growth).0.batch[p.batchLen].value, growth);
    } else if f.BytesField? && f.num == 10 {
      NextElementIsBlank(p, growth);
      var e := NextSlot(p.sequence, p.sequenceLen, NEW_POOLED, growth)[p.sequenceLen].value;
      DecodeStaysTidy(e, f.payload, growth);
      SequenceStaysTidy(p, DecodePooled(e, f.payload, growth).0, growth);
    }
  }

  /** Resetting makes a command blank and keeps it tidy, with everything it holds. */
  lemma {:induction false} ResetIsBlank(p: Pooled)
    requires Tidy(p)
    ensures Tidy(Reset(p)) && Blank(Reset(p))
    decreases p, 0
  {
    var r := Reset(p);
    forall i | 0 <= i < |r.sequence|
      ensures TidySlot(r.sequence[i], true)
    {
      assert TidySlot(p.sequence[i], i >= p.sequenceLen);
      if i < p.sequenceLen {
        ResetSlotIsBlank(p.sequence[i]);
      }
    }
  }

  lemma {:induction false} ResetSlotIsBlank(p: Option<Pooled>)
    requires p.Some? && Tidy(p.value)
    ensures TidySlot(ResetSlot(p), true)
    decreases p, 1
  {
    ResetIsBlank(p.value);
  }

  // ----- Histories -----

  datatype Use = UnmarshalVT(data: bytes) | ReturnToPool

  function AfterUses(p: Pooled, uses: seq<Use>, growth: Growth): Pooled {
    if |uses| == 0 then p
    else
      var before := AfterUses(p, uses[..|uses| - 1], growth);
      match uses[|uses| - 1]
      case UnmarshalVT(data) => DecodePooled(before, data, growth).0
      case ReturnToPool => Reset(before)
  }

  /** Over any history, with any growth policy, spare slots stay reset at every depth. */
  lemma {:induction false} HistoryStaysTidy(uses: seq<Use>, growth: Growth)
    ensures Tidy(AfterUses(NEW_POOLED, uses, growth))
    decreases |uses|
  {
    if |uses| > 0 {
      HistoryStaysTidy(uses[..|uses| - 1], growth);
      var before := AfterUses(NEW_POOLED, uses[..|uses| - 1], growth);
      match uses[|uses| - 1]
      case UnmarshalVT(data) => DecodeStaysTidy(before, data, growth);
      case ReturnToPool => ResetIsBlank(before);
    }
  }

  // ----- Recycled and fresh -----

  /** The fields of `m` that do not live in slots; if `kept`, an absent RangeEnd is present and empty. */
  function Strip(m: Command, kept: bool): Command {
    m.(batch := [], sequence := [], rangeEnd := if kept && m.rangeEnd.None? then Some([]) else m.rangeEnd)
  }

  /**
   `p` shows `m`; if `kept`, a RangeEnd that `m` does not have shows as present and empty. In the nested commands
   that may happen too, unless `exact`.
   */
  ghost predicate Shows(p: Pooled, m: Command, kept: bool, exact: bool)
    decreases p, 0
  {
    && InBounds(p)
    && Scalars(p) == Strip(m, kept)
    && p.batch[..p.batchLen] == m.batch
    && p.sequenceLen == |m.sequence|
    && forall i :: 0 <= i < p.sequenceLen ==> ShowsSlot(p.sequence[i], m.sequence[i], exact)
  }

  ghost predicate ShowsSlot(p: Option<Pooled>, m: Option<Command>, exact: bool)
    decreases p, 1
  {
    p.Some? && m.Some? && (Shows(p.value, m.value, false, exact) || (!exact && Shows(p.value, m.value, true, exact)))
  }

  /** A result of decoding in place against the result of decoding afresh. */
  ghost predicate Agrees(r: (Pooled, Option<Error>), m: Result<Command, Error>, kept: bool, exact: bool) {
    match m
    case Ok(c) => r.1.None? && Shows(r.0, c, kept, exact)
    case Err(e) => r.1 == Some(e)
  }

  /** No spare slot, at any depth, keeps a RangeEnd. */
  ghost predicate Unkept(p: Pooled)
    decreases p, 0
  {
    forall i :: 0 <= i < |p.sequence| && p.sequenceLen <= i ==> UnkeptSlot(p.sequence[i])
  }

  ghost predicate UnkeptSlot(p: Option<Pooled>)
    decreases p, 1
  {
    p.Some? ==> p.value.rangeEnd.None? && Unkept(p.value)
  }

  /** A result agrees, and if no spare slot kept a RangeEnd then none does. */
  ghost predicate AgreesOn(r: (Pooled, Option<Error>), m: Result<Command, Error>, kept: bool, exact: bool) {
    Agrees(r, m, kept, exact) && (exact && m.Ok? ==> Unkept(r.0))
  }

  lemma BlankShowsNew(p: Pooled, exact: bool)
    requires Blank(p)
    ensures Shows(p, NEW_COMMAND, p.rangeEnd.Some?, exact)
  {
  }

  lemma BatchAgrees(p: Pooled, m: Command, kept: bool, exact: bool, b: bytes, growth: Growth)
    requires Tidy(p) && Shows(p, m, kept, exact)
    ensures Agrees(ApplyPooled(p, BytesField(6, b), growth), ApplyCommand(m, BytesField(6, b)), kept, exact)
    ensures ApplyPooled(p, BytesField(6, b), growth).0.sequence == p.sequence
    ensures ApplyPooled(p, BytesField(6, b), growth).0.sequenceLen == p.sequenceLen
  {
    BatchStaysTidy(p, NEW_KEY_VALUE, growth);
    DecodeKeyValueIntoAgrees(NEW_KEY_VALUE, b);
    var (p', error) := ApplyPooled(p, BytesField(6, b), growth);
    if error.None? {
      var m' := ApplyCommand(m, BytesField(6, b)).value;
      assert p'.batch[..p'.batchLen] == p.batch[..p.batchLen] + [p'.batch[p.batchLen]];
      assert m'.batch == m.batch + [p'.batch[p.batchLen]];
    }
  }

  /** `p` with its next sequence slot in use, holding `q`. */
  function WithElement(p: Pooled, q: Pooled, growth: Growth): Pooled
    requires p.sequenceLen <= |p.sequence|
  {
    var slots := NextSlot(p.sequence, p.sequenceLen, NEW_POOLED, growth);
    p.(sequence := slots[p.sequenceLen := Some(q)], sequenceLen := p.sequenceLen + 1)
  }

  /** What the next sequence slot holds when it is taken into use. */
  function NextElement(p: Pooled, growth: Growth): Pooled
    requires p.sequenceLen <= |p.sequence|
  {
    NextSlot(p.sequence, p.sequenceLen, NEW_POOLED, growth)[p.sequenceLen].value
  }

  lemma ElementShows(p: Pooled, m: Command, kept: bool, exact: bool, q: Pooled, c: Command, growth: Growth)
    requires Shows(p, m, kept, exact) && ShowsSlot(Some(q), Some(c), exact)
    ensures Shows(WithElement(p, q, growth), m.(sequence := m.sequence + [Some(c)]), kept, exact)
  {
    var slots := NextSlot(p.sequence, p.sequenceLen, NEW_POOLED, growth);
    var p', m' := WithElement(p, q, growth), m.(sequence := m.sequence + [Some(c)]);
    forall i | 0 <= i < p'.sequenceLen
      ensures ShowsSlot(p'.sequence[i], m'.sequence[i], exact)
    {
      assert i < p.sequenceLen ==> p'.sequence[i] == slots[..p.sequenceLen][i] == p.sequence[..p.sequenceLen][i];
    }
  }

  lemma ElementStaysUnkept(p: Pooled, q: Pooled, growth: Growth)
    requires Unkept(p) && p.sequenceLen <= |p.sequence|
    ensures Unkept(WithElement(p, q, growth))
    ensures NextElement(p, growth).rangeEnd.None? && Unkept(NextElement(p, growth))
  {
    var p' := WithElement(p, q, growth);
    forall i | 0 <= i < |p'.sequence| && p'.sequenceLen <= i
      ensures UnkeptSlot(p'.sequence[i])
    {
      assert p'.sequence[i].None? || (i < |p.sequence| && p'.sequence[i] == p.sequence[i]);
    }
    assert p.sequenceLen < |p.sequence| ==> UnkeptSlot(p.sequence[p.sequenceLen]);
  }

  ghost predicate TouchesNoSlot(f: Field) {
    f.BytesField? ==> f.num in {1, 3, 7, 8}
  }

  ghost predicate Commutes(m: Command, kept: bool, f: Field) {
    match ApplyCommand(m, f)
    case Ok(m') => ApplyCommand(Strip(m, kept), f) == Ok(Strip(m', kept)) && m'.batch == m.batch
      && m'.sequence == m.sequence
    case Err(e) => ApplyCommand(Strip(m, kept), f) == Err(e)
  }

  lemma StripCommutesVarint(m: Command, kept: bool, num: int, v: uint64)
    ensures Commutes(m, kept, VarintField(num, v))
  {
    var s := Strip(m, kept);
    if num == 2 {
      assert Strip(m.(kind := ToI32(v)), kept) == s.(kind := ToI32(v));
    } else if num == 5 {
      assert Strip(m.(leaderIndex := Some(v)), kept) == s.(leaderIndex := Some(v));
    } else if num == 9 {
      assert Strip(m.(prevKvs := v != 0), kept) == s.(prevKvs := v != 0);
    } else {
      assert Strip(m.(count := v != 0), kept) == s.(count := v != 0);
    }
  }

  lemma StripCommutesPlain(m: Command, kept: bool, b: bytes)
    ensures Commutes(m, kept, BytesField(1, b)) && Commutes(m, kept, BytesField(8, b))
    ensures Commutes(m, kept, UnknownField(b))
  {
  }

  lemma StripCommutesMessage(m: Command, kept: bool, b: bytes)
    ensures Commutes(m, kept, BytesField(3, b)) && Commutes(m, kept, BytesField(7, b))
  {
  }

  lemma StripCommutes(m: Command, kept: bool, f: Field)
    requires TouchesNoSlot(f)
    ensures Commutes(m, kept, f)
  {
    match f
    case UnknownField(raw) => StripCommutesPlain(m, kept, raw);
    case VarintField(num, v) => StripCommutesVarint(m, kept, num, v);
    case BytesField(num, b) =>
      StripCommutesPlain(m, kept, b);
      StripCommutesMessage(m, kept, b);
  }

  lemma ScalarsOnly(p: Pooled, f: Field, growth: Growth)
    requires InBounds(p) && TouchesNoSlot(f)
    ensures ApplyCommand(Scalars(p), f).Ok? ==>
      ApplyPooled(p, f, growth) == (WithScalars(p, ApplyCommand(Scalars(p), f).value), None)
    ensures ApplyCommand(Scalars(p), f).Err? ==>
      ApplyPooled(p, f, growth) == (p, Some(ApplyCommand(Scalars(p), f).error))
  {
  }

  lemma ScalarAgrees(p: Pooled, m: Command, kept: bool, exact: bool, f: Field, growth: Growth)
    requires Shows(p, m, kept, exact) && TouchesNoSlot(f)
    ensures Agrees(ApplyPooled(p, f, growth), ApplyCommand(m, f), kept, exact)
    ensures ApplyPooled(p, f, growth).0.sequence == p.sequence
    ensures ApplyPooled(p, f, growth).0.sequenceLen == p.sequenceLen
  {
    StripCommutes(m, kept, f);
    ScalarsOnly(p, f, growth);
    if ApplyCommand(m, f).Ok? {
      var m' := ApplyCommand(m, f).value;
      assert Scalars(WithScalars(p, Strip(m', kept))) == Strip(m', kept);
    }
  }

  lemma SameSlotsUnkept(p: Pooled, p': Pooled)
    requires Unkept(p) && p'.sequence == p.sequence && p'.sequenceLen == p.sequenceLen
    ensures Unkept(p')
  {
  }

  lemma {:induction false} ElementAgrees(p: Pooled, m: Command, kept: bool, exact: bool, b: bytes, growth: Growth)
    requires Tidy(p) && Shows(p, m, kept, exact) && (exact ==> Unkept(p))
    ensures AgreesOn(ApplyPooled(p, BytesField(10, b), growth), ApplyCommand(m, BytesField(10, b)), kept, exact)
    decreases |b|, 2
  {
    NextElementIsBlank(p, growth);
    var e := NextElement(p, growth);
    if exact {
      ElementStaysUnkept(p, DecodePooled(e, b, growth).0, growth);
    }
    BlankShowsNew(e, exact);
    DecodeAgrees(e, NEW_COMMAND, e.rangeEnd.Some?, exact, b, growth);
    var decoded := DecodeCommand(NEW_COMMAND, b);
    if decoded.Ok? {
      ElementShows(p, m, kept, exact, DecodePooled(e, b, growth).0, decoded.value, growth);
    }
  }

  lemma {:induction false} ApplyAgrees(p: Pooled, m: Command, kept: bool, exact: bool, f: Field, growth: Growth)
    requires Tidy(p) && Shows(p, m, kept, exact) && (exact ==> Unkept(p))
    requires f.BytesField? ==> f.num in COMMAND && COMMAND[f.num].BytesKind?
    ensures AgreesOn(ApplyPooled(p, f, growth), ApplyCommand(m, f), kept, exact)
    decreases if f.BytesField? then |f.payload| else 0, 3
  {
    if f.BytesField? && f.num == 10 {
      ElementAgrees(p, m, kept, exact, f.payload, growth);
    } else {
      if f.BytesField? && f.num == 6 {
        BatchAgrees(p, m, kept, exact, f.payload, growth);
      } else {
        ScalarAgrees(p, m, kept, exact, f, growth);
      }
      if exact {
        SameSlotsUnkept(p, ApplyPooled(p, f, growth).0);
      }
    }
  }

  lemma NextFieldKinds(data: bytes)
    requires NextField(COMMAND, data).Ok?
    ensures var f := NextField(COMMAND, data).value.0; f.BytesField? ==> f.num in COMMAND && COMMAND[f.num].BytesKind?
  {
  }

  lemma {:induction false} DecodeAgrees(p: Pooled, m: Command, kept: bool, exact: bool, data: bytes, growth: Growth)
    requires Tidy(p) && Shows(p, m, kept, exact) && (exact ==> Unkept(p))
    ensures AgreesOn(DecodePooled(p, data, growth), DecodeCommand(m, data), kept, exact)
    decreases |data|, 1
  {
    if |data| > 0 && NextField(COMMAND, data).Ok? {
      var (f, rest) := NextField(COMMAND, data).value;
      NextFieldKinds(data);
      ApplyAgrees(p, m, kept, exact, f, growth);
      ApplyStaysTidy(p, f, growth);
      var applied := ApplyCommand(m, f);
      if applied.Ok? {
        DecodeAgrees(ApplyPooled(p, f, growth).0, applied.value, kept, exact, rest, growth);
      }
    }
  }

  // ----- Inputs that tell a kept RangeEnd -----

  /** `k` empty elements of Sequence. */
  function Empties(k: nat): bytes {
    if k == 0 then [] else BytesRecord(10, []) + Empties(k - 1)
  }

  /** An input that uses up the slots before one that keeps a RangeEnd, and goes on in that one. */
  ghost function Telling(p: Pooled): bytes
    requires p.rangeEnd.Some? || !Unkept(p)
    decreases p, 0
  {
    if p.rangeEnd.Some? then []
    else
      var i :| 0 <= i < |p.sequence| && p.sequenceLen <= i && !UnkeptSlot(p.sequence[i]);
      Empties(i) + BytesRecord(10, TellingSlot(p.sequence[i]))
  }

  ghost function TellingSlot(p: Option<Pooled>): bytes
    requires !UnkeptSlot(p)
    decreases p, 1
  {
    Telling(p.value)
  }

  function BlankElements(k: nat): seq<Option<Command>> {
    seq(k, i => Some(NEW_COMMAND))
  }

  /** `p` with its next `k` sequence slots in use as they are. */
  function UseSlots(p: Pooled, k: nat, growth: Growth): (r: Pooled)
    requires p.sequenceLen + k <= |p.sequence|
    ensures |r.sequence| == |p.sequence| && r.sequenceLen == p.sequenceLen + k
    ensures forall i :: p.sequenceLen + k <= i < |p.sequence| ==> r.sequence[i] == p.sequence[i]
    ensures r == p.(sequence := r.sequence, sequenceLen := r.sequenceLen)
    decreases k
  {
    if k == 0 then p else UseSlots(WithElement(p, NextElement(p, growth), growth), k - 1, growth)
  }

  /** One turn of the loop. */
  lemma PooledTurn(p: Pooled, data: bytes, f: Field, rest: bytes, growth: Growth)
    requires |data| > 0 && InBounds(p) && NextField(COMMAND, data) == Ok((f, rest))
    requires ApplyPooled(p, f, growth).1.None?
    ensures DecodePooled(p, data, growth) == DecodePooled(ApplyPooled(p, f, growth).0, rest, growth)
  {
  }

  lemma FreshTurn(m: Command, data: bytes, f: Field, rest: bytes)
    requires |data| > 0 && NextField(COMMAND, data) == Ok((f, rest)) && ApplyCommand(m, f).Ok?
    ensures DecodeCommand(m, data) == DecodeCommand(ApplyCommand(m, f).value, rest)
  {
  }

  lemma PooledElement(p: Pooled, b: bytes, growth: Growth)
    requires InBounds(p) && DecodePooled(NextElement(p, growth), b, growth).1.None?
    ensures ApplyPooled(p, BytesField(10, b), growth) ==
      (WithElement(p, DecodePooled(NextElement(p, growth), b, growth).0, growth), None)
  {
  }

  lemma FreshElement(m: Command, b: bytes)
    requires DecodeCommand(NEW_COMMAND, b).Ok?
    ensures ApplyCommand(m, BytesField(10, b)) ==
      Ok(m.(sequence := m.sequence + [Some(DecodeCommand(NEW_COMMAND, b).value)]))
  {
  }

  lemma ElementField(b: bytes, rest: bytes)
    requires |b| < TWO_63
    ensures NextField(COMMAND, BytesRecord(10, b) + rest) == Ok((BytesField(10, b), rest))
    ensures |BytesRecord(10, b) + rest| > 0
  {
    NextFieldOfBytes(COMMAND, 10, b, rest);
  }

  lemma NoInput(p: Pooled, growth: Growth)
    ensures DecodePooled(p, [], growth) == (p, None) && DecodeCommand(NEW_COMMAND, []) == Ok(NEW_COMMAND)
  {
  }

  /** One empty element takes the next slot into use as it is. */
  lemma EmptyElement(p: Pooled, rest: bytes, growth: Growth)
    requires InBounds(p) && p.sequenceLen < |p.sequence|
    ensures DecodePooled(p, BytesRecord(10, []) + rest, growth) ==
      DecodePooled(WithElement(p, NextElement(p, growth), growth), rest, growth)
  {
    ElementField([], rest);
    NoInput(NextElement(p, growth), growth);
    PooledElement(p, [], growth);
    PooledTurn(p, BytesRecord(10, []) + rest, BytesField(10, []), rest, growth);
  }

  lemma EmptyElementAfresh(m: Command, rest: bytes)
    ensures DecodeCommand(m, BytesRecord(10, []) + rest) ==
      DecodeCommand(m.(sequence := m.sequence + [Some(NEW_COMMAND)]), rest)
  {
    ElementField([], rest);
    NoInput(NEW_POOLED, (n: nat) => 0);
    FreshElement(m, []);
    FreshTurn(m, BytesRecord(10, []) + rest, BytesField(10, []), rest);
  }

  lemma EmptiesFirst(k: nat, rest: bytes)
    requires k > 0
    ensures Empties(k) + rest == BytesRecord(10, []) + (Empties(k - 1) + rest)
  {
  }

  /** For any decoder that takes an empty element as the use of a slot, `k` of them use `k` slots. */
  lemma {:induction false} EmptiesUseSlots<R>(decode: (Pooled, bytes) -> R, p: Pooled, k: nat, rest: bytes,
                                              growth: Growth)
    requires forall q, tail :: InBounds(q) && q.sequenceLen < |q.sequence| ==>
      decode(q, BytesRecord(10, []) + tail) == decode(WithElement(q, NextElement(q, growth), growth), tail)
    requires InBounds(p) && p.sequenceLen + k <= |p.sequence|
    ensures decode(p, Empties(k) + rest) == decode(UseSlots(p, k, growth), rest)
    decreases k
  {
    if k == 0 {
      assert Empties(0) + rest == rest;
    } else {
      EmptiesFirst(k, rest);
      EmptiesUseSlots(decode, WithElement(p, NextElement(p, growth), growth), k - 1, rest, growth);
    }
  }

  lemma EmptyElementsInPlace(p: Pooled, k: nat, rest: bytes, growth: Growth)
    requires InBounds(p) && p.sequenceLen + k <= |p.sequence|
    ensures DecodePooled(p, Empties(k) + rest, growth) == DecodePooled(UseSlots(p, k, growth), rest, growth)
  {
    var decode := (q: Pooled, data: bytes) => DecodePooled(q, data, growth);
    forall q, tail | InBounds(q) && q.sequenceLen < |q.sequence|
      ensures decode(q, BytesRecord(10, []) + tail) == decode(WithElement(q, NextElement(q, growth), growth), tail)
    {
      EmptyElement(q, tail, growth);
    }
    EmptiesUseSlots(decode, p, k, rest, growth);
  }

  lemma {:induction false} EmptiesAddBlanks<R>(decode: (Command, bytes) -> R, m: Command, k: nat, rest: bytes)
    requires forall c, tail ::
      decode(c, BytesRecord(10, []) + tail) == decode(c.(sequence := c.sequence + [Some(NEW_COMMAND)]), tail)
    ensures decode(m, Empties(k) + rest) == decode(m.(sequence := m.sequence + BlankElements(k)), rest)
    decreases k
  {
    if k == 0 {
      assert Empties(0) + rest == rest;
      assert m.sequence + BlankElements(0) == m.sequence;
    } else {
      EmptiesFirst(k, rest);
      var m' := m.(sequence := m.sequence + [Some(NEW_COMMAND)]);
      EmptiesAddBlanks(decode, m', k - 1, rest);
      assert m'.sequence + BlankElements(k - 1) == m.sequence + BlankElements(k);
    }
  }

  lemma EmptyElementsAfresh(m: Command, k: nat, rest: bytes)
    ensures DecodeCommand(m, Empties(k) + rest) == DecodeCommand(m.(sequence := m.sequence + BlankElements(k)), rest)
  {
    forall c, tail
      ensures DecodeCommand(c, BytesRecord(10, []) + tail) ==
        DecodeCommand(c.(sequence := c.sequence + [Some(NEW_COMMAND)]), tail)
    {
      EmptyElementAfresh(c, tail);
    }
    EmptiesAddBlanks(DecodeCommand, m, k, rest);
  }

  /** A last element decoded into the slot that is next. */
  lemma LastElement(p: Pooled, b: bytes, q: Pooled, growth: Growth)
    requires InBounds(p) && |b| < TWO_63 && DecodePooled(NextElement(p, growth), b, growth) == (q, None)
    ensures DecodePooled(p, BytesRecord(10, b), growth) == (WithElement(p, q, growth), None)
  {
    var p' := WithElement(p, q, growth);
    ElementField(b, []);
    assert BytesRecord(10, b) + [] == BytesRecord(10, b);
    PooledElement(p, b, growth);
    PooledTurn(p, BytesRecord(10, b), BytesField(10, b), [], growth);
    NoInput(p', growth);
  }

  lemma LastElementAfresh(m: Command, b: bytes)
    requires |b| < TWO_63 && DecodeCommand(NEW_COMMAND, b).Ok?
    ensures DecodeCommand(m, BytesRecord(10, b)) ==
      Ok(m.(sequence := m.sequence + [Some(DecodeCommand(NEW_COMMAND, b).value)]))
  {
    ElementField(b, []);
    assert BytesRecord(10, b) + [] == BytesRecord(10, b);
    FreshElement(m, b);
    FreshTurn(m, BytesRecord(10, b), BytesField(10, b), []);
  }

  /** Decoding `data` into `p` does not give what decoding it into a new command gives. */
  ghost predicate Differs(p: Pooled, data: bytes, growth: Growth) {
    && DecodeCommand(NEW_COMMAND, data).Ok? && DecodePooled(p, data, growth).1.None?
    && !Shows(DecodePooled(p, data, growth).0, DecodeCommand(NEW_COMMAND, data).value, false, true)
  }

  lemma DiffersBy(p: Pooled, data: bytes, growth: Growth, p': Pooled, c: Command)
    requires DecodePooled(p, data, growth) == (p', None) && DecodeCommand(NEW_COMMAND, data) == Ok(c)
    requires !Shows(p', c, false, true)
    ensures Differs(p, data, growth)
  {
  }

  lemma UsedSlotIsNext(p: Pooled, k: nat, growth: Growth)
    requires InBounds(p) && p.sequenceLen == 0 && k < |p.sequence| && p.sequence[k].Some?
    ensures InBounds(UseSlots(p, k, growth)) && NextElement(UseSlots(p, k, growth), growth) == p.sequence[k].value
  {
  }

  lemma SlotDecoded(p: Pooled, k: nat, b: bytes, q: Pooled, growth: Growth)
    requires InBounds(p) && p.sequenceLen == 0 && k < |p.sequence| && p.sequence[k].Some? && |b| < TWO_63
    requires DecodePooled(p.sequence[k].value, b, growth) == (q, None)
    ensures DecodePooled(p, Empties(k) + BytesRecord(10, b), growth) ==
      (WithElement(UseSlots(p, k, growth), q, growth), None)
  {
    UsedSlotIsNext(p, k, growth);
    EmptyElementsInPlace(p, k, BytesRecord(10, b), growth);
    LastElement(UseSlots(p, k, growth), b, q, growth);
  }

  lemma SlotDecodedAfresh(k: nat, b: bytes, c: Command)
    requires |b| < TWO_63 && DecodeCommand(NEW_COMMAND, b) == Ok(c)
    ensures DecodeCommand(NEW_COMMAND, Empties(k) + BytesRecord(10, b)) ==
      Ok(NEW_COMMAND.(sequence := BlankElements(k) + [Some(c)]))
  {
    var m := NEW_COMMAND.(sequence := NEW_COMMAND.sequence + BlankElements(k));
    assert m.sequence == BlankElements(k);
    EmptyElementsAfresh(NEW_COMMAND, k, BytesRecord(10, b));
    LastElementAfresh(m, b);
  }

  /** A difference in the slot after the first `k` ones is a difference of the whole. */
  lemma SlotDiffers(p: Pooled, k: nat, b: bytes, q: Pooled, c: Command, growth: Growth)
    requires InBounds(p) && p.sequenceLen == 0 && k < |p.sequence| && p.sequence[k].Some? && |b| < TWO_63
    requires DecodePooled(p.sequence[k].value, b, growth) == (q, None) && DecodeCommand(NEW_COMMAND, b) == Ok(c)
    requires !Shows(q, c, false, true)
    ensures Differs(p, Empties(k) + BytesRecord(10, b), growth)
  {
    var used, m, data :=
      UseSlots(p, k, growth), NEW_COMMAND.(sequence := BlankElements(k)), Empties(k) + BytesRecord(10, b);
    SlotDecoded(p, k, b, q, growth);
    SlotDecodedAfresh(k, b, c);
    ElementDiffers(used, m, q, c, growth);
    DiffersBy(p, data, growth, WithElement(used, q, growth), NEW_COMMAND.(sequence := BlankElements(k) + [Some(c)]));
  }

  lemma ElementDiffers(p: Pooled, m: Command, q: Pooled, c: Command, growth: Growth)
    requires p.sequenceLen <= |p.sequence| && p.sequenceLen == |m.sequence| && !Shows(q, c, false, true)
    ensures !Shows(WithElement(p, q, growth), m.(sequence := m.sequence + [Some(c)]), false, true)
  {
    var k, p', m' := p.sequenceLen, WithElement(p, q, growth), m.(sequence := m.sequence + [Some(c)]);
    assert p'.sequence[k] == Some(q) && m'.sequence[k] == Some(c);
    assert !ShowsSlot(p'.sequence[k], m'.sequence[k], true);
  }

  lemma PayloadIsShorter(k: nat, b: bytes)
    ensures |b| < |Empties(k) + BytesRecord(10, b)|
  {
  }

  lemma {:induction false} TellingTells(p: Pooled, growth: Growth)
    requires Tidy(p) && Blank(p) && (p.rangeEnd.Some? || !Unkept(p)) && |Telling(p)| < TWO_63
    ensures Differs(p, Telling(p), growth)
    decreases p, 0
  {
    if p.rangeEnd.None? {
      var i :| 0 <= i < |p.sequence| && p.sequenceLen <= i && !UnkeptSlot(p.sequence[i]) &&
        Telling(p) == Empties(i) + BytesRecord(10, TellingSlot(p.sequence[i]));
      PayloadIsShorter(i, TellingSlot(p.sequence[i]));
      TellingSlotTells(p.sequence[i], growth);
      var b := TellingSlot(p.sequence[i]);
      SlotDiffers(p, i, b, DecodePooled(p.sequence[i].value, b, growth).0, DecodeCommand(NEW_COMMAND, b).value, growth);
    }
  }

  lemma {:induction false} TellingSlotTells(p: Option<Pooled>, growth: Growth)
    requires TidySlot(p, true) && !UnkeptSlot(p) && |TellingSlot(p)| < TWO_63
    ensures Differs(p.value, TellingSlot(p), growth)
    decreases p, 1
  {
    TellingTells(p.value, growth);
  }

  // ----- Recycling -----

  /**
   Decoding into a command taken from the pool, after any history of it, fails exactly when decoding into a
   new one does and otherwise shows the same message, but for RangeEnd: at the top level an absent RangeEnd
   reads as present and empty if and only if the object keeps one, and nested commands may read either way.
   */
  lemma RecycledDecodesLikeNew(uses: seq<Use>, data: bytes, growth: Growth)
    ensures var p := AfterUses(NEW_POOLED, uses + [ReturnToPool], growth);
      && Tidy(p) && Blank(p)
      && Agrees(DecodePooled(p, data, growth), DecodeCommand(NEW_COMMAND, data), p.rangeEnd.Some?, false)
  {
    HistoryStaysTidy(uses, growth);
    var before := AfterUses(NEW_POOLED, uses, growth);
    assert (uses + [ReturnToPool])[..|uses|] == uses;
    ResetIsBlank(before);
    BlankShowsNew(Reset(before), false);
    DecodeAgrees(Reset(before), NEW_COMMAND, before.rangeEnd.Some?, false, data, growth);
  }

  /**
   A recycled command decodes every input exactly like a new one if and only if neither it nor any spare slot at
   any depth keeps a RangeEnd. Where one does, Telling(p) is an input that shows it, as long as such an input fits
   a slice.
   */
  lemma RecycledIsExactIff(p: Pooled, growth: Growth)
    requires Tidy(p) && Blank(p)
    ensures p.rangeEnd.None? && Unkept(p) ==>
      forall data :: Agrees(DecodePooled(p, data, growth), DecodeCommand(NEW_COMMAND, data), false, true)
    ensures (p.rangeEnd.Some? || !Unkept(p)) && |Telling(p)| < TWO_63 ==>
      !Agrees(DecodePooled(p, Telling(p), growth), DecodeCommand(NEW_COMMAND, Telling(p)), false, true)
  {
    if p.rangeEnd.None? && Unkept(p) {
      BlankShowsNew(p, true);
      forall data
        ensures Agrees(DecodePooled(p, data, growth), DecodeCommand(NEW_COMMAND, data), false, true)
      {
        DecodeAgrees(p, NEW_COMMAND, false, true, data, growth);
      }
    } else if |Telling(p)| < TWO_63 {
      TellingTells(p, growth);
    }
  }

  lemma EmptyRangeEndRecord()
    ensures NextField(COMMAND, [0x42, 0x00]) == Ok((BytesField(8, []), []))
  {
    assert EncodeVarint(66) == [66] && EncodeVarint(0) == [0];
    assert BytesRecord(8, []) + [] == [0x42, 0x00];
    NextFieldOfBytes(COMMAND, 8, [], []);
  }

  /** A recycled command that once had a RangeEnd reads an empty input differently from a new one. */
  lemma RecycledRangeEndShows(growth: Growth)
    ensures var used := AfterUses(NEW_POOLED, [UnmarshalVT([0x42, 0x00]), ReturnToPool], growth);
      && DecodePooled(used, [], growth) == (NEW_POOLED.(rangeEnd := Some([])), None)
      && DecodeCommand(NEW_COMMAND, []) == Ok(NEW_COMMAND)
  {
    var first, kept := UnmarshalVT([0x42, 0x00]), NEW_POOLED.(rangeEnd := Some([]));
    var uses := [first, ReturnToPool];
    assert uses[..1] == [first] && [first][..0] == [];
    EmptyRangeEndRecord();
    assert ApplyPooled(NEW_POOLED, BytesField(8, []), growth) == (kept, None);
    assert DecodePooled(kept, [], growth) == (kept, None);
    assert DecodePooled(NEW_POOLED, first.data, growth) == (kept, None);
    assert Reset(kept) == kept;
  }
}
