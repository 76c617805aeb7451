/**
 The wire layer of the generated codec: base 128 varints, tags, length-delimited records and the
 skipping of unknown records, as the Protocol Buffers Encoding specification defines them ("Base 128
 Varints", "Message Structure", "Length-Delimited Records", "Groups") and as every UnmarshalVT of
 armadapb/mvcc_vtproto.pb.go reads them, one record per turn of its loop.
 */
module Wire {
  import opened Common

  type byte = b: int | 0 <= b < 256
  type bytes = seq<byte>

  const TWO_31: int := 0x8000_0000
  const TWO_32: int := 0x1_0000_0000
  const TWO_63: int := 0x8000_0000_0000_0000
  const TWO_64: int := 0x1_0000_0000_0000_0000

  type uint64 = x: int | 0 <= x < TWO_64
  type int64 = x: int | -TWO_63 <= x < TWO_63
  type int32 = x: int | -TWO_31 <= x < TWO_31

  /** Go's uint64(x) of a signed integer. */
  function ToU64(x: int64): uint64 {
    if x < 0 then x + TWO_64 else x
  }

  /** Go's int64(x) of an unsigned integer. */
  function ToI64(x: uint64): int64 {
    if x < TWO_63 then x else x - TWO_64
  }

  /** Go's int32(x) of an unsigned 64-bit integer. */
  function ToI32(x: uint64): int32 {
    var low := x % TWO_32;
    if low < TWO_31 then low else low - TWO_32
  }

  lemma SignedRoundTrip(x: int64)
    ensures ToI64(ToU64(x)) == x
    ensures ToU64(x) == 0 <==> x == 0
    ensures -TWO_31 <= x < TWO_31 ==> ToI32(ToU64(x)) == x
  {
    if -TWO_31 <= x < 0 {
      assert x + TWO_64 == (TWO_32 - 1) * TWO_32 + (x + TWO_32);
      assert (x + TWO_64) % TWO_32 == x + TWO_32;
    }
  }

  datatype Error =
    | IntOverflow
    | UnexpectedEOF
    | InvalidLength
    | UnexpectedEndOfGroup
    | EndGroupForNonGroup
    | IllegalTag
    | WrongWireType
    | IllegalWireType
    | NilDereference

  // ----- Varints -----

  function EncodeVarint(v: nat): (enc: bytes)
    ensures |enc| >= 1
  {
    if v < 128 then [v] else [v % 128 + 128] + EncodeVarint(v / 128)
  }

  function SizeOfVarint(v: nat): (n: nat)
    ensures n == |EncodeVarint(v)|
  {
    if v < 128 then 1 else 1 + SizeOfVarint(v / 128)
  }

  lemma {:induction false} SizeOfVarintMonotone(v: nat, w: nat)
    requires v <= w
    ensures SizeOfVarint(v) <= SizeOfVarint(w)
  {
    if v >= 128 {
      SizeOfVarintMonotone(v / 128, w / 128);
    }
  }

  /** A value below 128^n takes at most n groups: a uint64 takes at most 10. */
  lemma VarintFits(v: uint64)
    ensures |EncodeVarint(v)| <= 10
  {
    Groups(v, 10);
  }

  function Pow128(n: nat): nat {
    if n == 0 then 1 else 128 * Pow128(n - 1)
  }

  lemma {:induction false} Groups(v: nat, n: nat)
    requires n > 0 && v < Pow128(n)
    ensures |EncodeVarint(v)| <= n
  {
    if v >= 128 {
      Groups(v / 128, n - 1);
    }
  }

  /** What a varint loop leaves after it: the value and the bytes that follow. */
  datatype Varint = Varint(value: nat, rest: bytes)

  /** The groups of a varint, least significant first, of which `k` have been read already. */
  function ReadGroups(data: bytes, k: nat): (r: Result<Varint, Error>)
    ensures r.Ok? ==> |r.value.rest| < |data|
    decreases |data|
  {
    if k >= 10 then Err(IntOverflow)
    else if |data| == 0 then Err(UnexpectedEOF)
    else if data[0] < 128 then Ok(Varint(data[0], data[1..]))
    else
      var more :- ReadGroups(data[1..], k + 1);
      Ok(Varint(data[0] % 128 + 128 * more.value, more.rest))
  }

  /** A varint read into a 64-bit variable: at most ten groups, and bits beyond the 64th are lost. */
  function ReadVarint(data: bytes): (r: Result<(uint64, bytes), Error>)
    ensures r.Ok? ==> |r.value.1| < |data|
  {
    var v :- ReadGroups(data, 0);
    Ok((v.value % TWO_64, v.rest))
  }

  lemma FirstGroup(b: byte, tail: bytes, rest: bytes, k: nat)
    requires b >= 128 && k < 10 && ReadGroups(tail + rest, k + 1).Ok?
    ensures var more := ReadGroups(tail + rest, k + 1).value;
      ReadGroups([b] + tail + rest, k) == Ok(Varint(b % 128 + 128 * more.value, more.rest))
  {
    assert ([b] + tail + rest)[0] == b && ([b] + tail + rest)[1..] == tail + rest;
  }

  lemma GroupArithmetic(v: nat)
    ensures (v % 128 + 128) % 128 + 128 * (v / 128) == v
  {
  }

  lemma {:induction false} ReadGroupsOfEncoded(v: nat, rest: bytes, k: nat)
    requires k + |EncodeVarint(v)| <= 10
    ensures ReadGroups(EncodeVarint(v) + rest, k) == Ok(Varint(v, rest))
  {
    var enc := EncodeVarint(v);
    if v < 128 {
      assert (enc + rest)[1..] == rest;
    } else {
      ReadGroupsOfEncoded(v / 128, rest, k + 1);
      FirstGroup(enc[0], EncodeVarint(v / 128), rest, k);
      GroupArithmetic(v);
    }
  }

  /** Reading an encoded uint64 gives it back and stops right behind it. */
  lemma ReadVarintOfEncoded(v: uint64, rest: bytes)
    ensures ReadVarint(EncodeVarint(v) + rest) == Ok((v, rest))
  {
    VarintFits(v);
    ReadGroupsOfEncoded(v, rest, 0);
  }

  lemma {:induction false} ReadGroupsExtends(data: bytes, k: nat, more: bytes)
    requires ReadGroups(data, k).Ok?
    ensures ReadGroups(data + more, k) ==
      Ok(Varint(ReadGroups(data, k).value.value, ReadGroups(data, k).value.rest + more))
    decreases |data|
  {
    assert (data + more)[1..] == data[1..] + more;
    if data[0] >= 128 {
      ReadGroupsExtends(data[1..], k + 1, more);
    }
  }

  /** A varint that can be read is read the same whatever follows. */
  lemma ReadVarintExtends(data: bytes, more: bytes)
    requires ReadVarint(data).Ok?
    ensures ReadVarint(data + more) == Ok((ReadVarint(data).value.0, ReadVarint(data).value.1 + more))
  {
    ReadGroupsExtends(data, 0, more);
  }

  // ----- Length-delimited payloads -----

  /** A length and that many bytes. Go's int makes lengths of 2^63 and more negative. */
  function ReadPayload(data: bytes): (r: Result<(bytes, bytes), Error>)
    ensures r.Ok? ==> |r.value.0| + |r.value.1| < |data|
  {
    var (len, rest) :- ReadVarint(data);
    if len >= TWO_63 then Err(InvalidLength)
    else if len > |rest| then Err(UnexpectedEOF)
    else Ok((rest[..len], rest[len..]))
  }

  lemma ReadPayloadOfEncoded(payload: bytes, rest: bytes)
    requires |payload| < TWO_63
    ensures ReadPayload(EncodeVarint(|payload|) + payload + rest) == Ok((payload, rest))
  {
    var tail := payload + rest;
    ConcatAssociates(EncodeVarint(|payload|), payload, rest);
    ReadVarintOfEncoded(|payload|, tail);
    assert tail[..|payload|] == payload && tail[|payload|..] == rest;
  }

  lemma ReadPayloadExtends(data: bytes, more: bytes)
    requires ReadPayload(data).Ok?
    ensures ReadPayload(data + more) == Ok((ReadPayload(data).value.0, ReadPayload(data).value.1 + more))
  {
    ReadVarintExtends(data, more);
    var (len, rest) := ReadVarint(data).value;
    assert (rest + more)[..len] == rest[..len] && (rest + more)[len..] == rest[len..] + more;
  }

  // ----- Skipping unknown records -----

  /** What follows the record at the front of `data`, which lies inside `depth` open groups. */
  function SkipRecord(data: bytes, depth: nat): (r: Result<bytes, Error>)
    ensures r.Ok? ==> |r.value| < |data|
    decreases |data|
  {
    if |data| == 0 then Err(UnexpectedEOF)
    else
      var (wire, rest) :- ReadVarint(data);
      var wireType := wire % 8;
      if wireType == 3 then SkipRecord(rest, depth + 1)
      else if wireType == 4 then
        if depth == 0 then Err(UnexpectedEndOfGroup) else if depth == 1 then Ok(rest) else SkipRecord(rest, depth - 1)
      else
        var after :- SkipValue(wireType, rest);
        if depth == 0 then Ok(after) else SkipRecord(after, depth)
  }

  function SkipValue(wireType: nat, data: bytes): (r: Result<bytes, Error>)
    ensures r.Ok? ==> |r.value| <= |data|
  {
    if wireType == 0 then var (_, rest) :- ReadVarint(data); Ok(rest)
    else if wireType == 1 then if |data| < 8 then Err(UnexpectedEOF) else Ok(data[8..])
    else if wireType == 2 then var (_, rest) :- ReadPayload(data); Ok(rest)
    else if wireType == 5 then if |data| < 4 then Err(UnexpectedEOF) else Ok(data[4..])
    else Err(IllegalWireType)
  }

  lemma SkipValueExtends(wireType: nat, data: bytes, more: bytes)
    requires SkipValue(wireType, data).Ok?
    ensures SkipValue(wireType, data + more) == Ok(SkipValue(wireType, data).value + more)
  {
    if wireType == 0 {
      ReadVarintExtends(data, more);
    } else if wireType == 2 {
      ReadPayloadExtends(data, more);
    } else if wireType == 1 {
      assert (data + more)[8..] == data[8..] + more;
    } else {
      assert (data + more)[4..] == data[4..] + more;
    }
  }

  lemma {:induction false} SkipRecordExtends(data: bytes, depth: nat, more: bytes)
    requires SkipRecord(data, depth).Ok?
    ensures SkipRecord(data + more, depth) == Ok(SkipRecord(data, depth).value + more)
    decreases |data|
  {
    ReadVarintExtends(data, more);
    var (wire, rest) := ReadVarint(data).value;
    var wireType := wire % 8;
    if wireType == 3 {
      SkipRecordExtends(rest, depth + 1, more);
    } else if wireType == 4 {
      if depth > 1 {
        SkipRecordExtends(rest, depth - 1, more);
      }
    } else {
      SkipValueExtends(wireType, rest, more);
      if depth > 0 {
        SkipRecordExtends(SkipValue(wireType, rest).value, depth, more);
      }
    }
  }

  // ----- Records -----

  datatype Kind = VarintKind | BytesKind

  /** The fields a message type knows, with their wire types. */
  type Schema = map<int, Kind>

  datatype Field =
    | VarintField(num: int, value: uint64)
    | BytesField(num: int, payload: bytes)
    | UnknownField(raw: bytes)

  function WireType(k: Kind): nat {
    match k
    case VarintKind => 0
    case BytesKind => 2
  }

  /** One turn of an UnmarshalVT loop: the record at the front of `data` and what follows it. */
  function NextField(schema: Schema, data: bytes): (r: Result<(Field, bytes), Error>)
    ensures r.Ok? ==> |r.value.1| < |data|
    ensures r.Ok? && r.value.0.BytesField? ==> |r.value.0.payload| < |data|
  {
    var (wire, rest) :- ReadVarint(data);
    var num := ToI32(wire / 8);
    var wireType := wire % 8;
    if wireType == 4 then Err(EndGroupForNonGroup)
    else if num <= 0 then Err(IllegalTag)
    else if num !in schema then
      var after :- SkipRecord(data, 0);
      Ok((UnknownField(data[..|data| - |after|]), after))
    else if wireType != WireType(schema[num]) then Err(WrongWireType)
    else if schema[num].VarintKind? then
      var (v, after) :- ReadVarint(rest);
      Ok((VarintField(num, v), after))
    else
      var (payload, after) :- ReadPayload(rest);
      Ok((BytesField(num, payload), after))
  }

  /** A record that can be read is read the same whatever follows. */
  lemma NextFieldExtends(schema: Schema, data: bytes, more: bytes)
    requires NextField(schema, data).Ok?
    ensures NextField(schema, data + more) ==
      Ok((NextField(schema, data).value.0, NextField(schema, data).value.1 + more))
  {
    ReadVarintExtends(data, more);
    var (wire, rest) := ReadVarint(data).value;
    var num := ToI32(wire / 8);
    if num !in schema {
      SkipRecordExtends(data, 0, more);
      var after := SkipRecord(data, 0).value;
      assert (data + more)[..|data| - |after|] == data[..|data| - |after|];
    } else if schema[num].VarintKind? {
      ReadVarintExtends(rest, more);
    } else {
      ReadPayloadExtends(rest, more);
    }
  }

  // ----- Encoded records -----

  /** Field numbers the protocol allows; their tags fit 32 bits. */
  type FieldNumber = n: int | 1 <= n < 0x2000_0000 witness 1

  function VarintRecord(num: FieldNumber, v: uint64): bytes {
    EncodeVarint(num * 8) + EncodeVarint(v)
  }

  function BytesRecord(num: FieldNumber, payload: bytes): bytes {
    EncodeVarint(num * 8 + 2) + EncodeVarint(|payload|) + payload
  }

  /** A field that can be written: its number is legal, or it is a kept unknown record. */
  predicate Writable(f: Field) {
    f.UnknownField? || (1 <= f.num < 0x2000_0000)
  }

  type WireField = f: Field | Writable(f) witness UnknownField([])

  function Record(f: WireField): bytes {
    match f
    case VarintField(num, v) => VarintRecord(num, v)
    case BytesField(num, payload) => BytesRecord(num, payload)
    case UnknownField(raw) => raw
  }

  function ConcatMap<A>(f: A -> bytes, xs: seq<A>): bytes {
    if |xs| == 0 then [] else f(xs[0]) + ConcatMap(f, xs[1..])
  }

  lemma ConcatAssociates(a: bytes, b: bytes, c: bytes)
    ensures a + (b + c) == (a + b) + c
  {
  }

  lemma {:induction false} ConcatMapConcat<A>(f: A -> bytes, a: seq<A>, b: seq<A>)
    ensures ConcatMap(f, a + b) == ConcatMap(f, a) + ConcatMap(f, b)
  {
    if |a| == 0 {
      assert a + b == b;
    } else {
      ConcatMapConcat(f, a[1..], b);
      assert (a + b)[0] == a[0] && (a + b)[1..] == a[1..] + b;
      ConcatAssociates(f(a[0]), ConcatMap(f, a[1..]), ConcatMap(f, b));
    }
  }

  /** The bytes of a list of fields, in order. */
  function Records(fs: seq<WireField>): bytes {
    ConcatMap(Record, fs)
  }

  lemma RecordsConcat(a: seq<WireField>, b: seq<WireField>)
    ensures Records(a + b) == Records(a) + Records(b)
  {
    ConcatMapConcat(Record, a, b);
  }

  /** `schema` reads `f` back as `f`. */
  predicate Reads(schema: Schema, f: WireField) {
    match f
    case VarintField(num, _) => num in schema && schema[num].VarintKind?
    case BytesField(num, payload) => num in schema && schema[num].BytesKind? && |payload| < TWO_63
    case UnknownField(_) => false
  }

  lemma TagParts(num: FieldNumber, wireType: nat)
    requires wireType < 8
    ensures (num * 8 + wireType) / 8 == num && (num * 8 + wireType) % 8 == wireType && ToI32(num) == num
  {
  }

  /** A record starts with its tag; the value is read from what follows. */
  lemma NextFieldAfterTag(schema: Schema, num: FieldNumber, tail: bytes)
    requires num in schema
    ensures NextField(schema, EncodeVarint(num * 8 + WireType(schema[num])) + tail) ==
      if schema[num].VarintKind? then
        (var (v, after) :- ReadVarint(tail); Ok((VarintField(num, v), after)))
      else
        (var (payload, after) :- ReadPayload(tail); Ok((BytesField(num, payload), after)))
  {
    var tag := num * 8 + WireType(schema[num]);
    ReadVarintOfEncoded(tag, tail);
    TagParts(num, WireType(schema[num]));
  }

  lemma NextFieldOfVarint(schema: Schema, num: FieldNumber, v: uint64, rest: bytes)
    requires num in schema && schema[num].VarintKind?
    ensures NextField(schema, VarintRecord(num, v) + rest) == Ok((VarintField(num, v), rest))
  {
    var tail := EncodeVarint(v) + rest;
    assert VarintRecord(num, v) + rest == EncodeVarint(num * 8) + tail;
    NextFieldAfterTag(schema, num, tail);
    ReadVarintOfEncoded(v, rest);
  }

  lemma NextFieldOfBytes(schema: Schema, num: FieldNumber, payload: bytes, rest: bytes)
    requires num in schema && schema[num].BytesKind? && |payload| < TWO_63
    ensures NextField(schema, BytesRecord(num, payload) + rest) == Ok((BytesField(num, payload), rest))
  {
    var tail := EncodeVarint(|payload|) + payload + rest;
    assert BytesRecord(num, payload) + rest == EncodeVarint(num * 8 + 2) + tail;
    NextFieldAfterTag(schema, num, tail);
    ReadPayloadOfEncoded(payload, rest);
  }

  /** A written record is read back as the field it came from. */
  lemma NextFieldOfRecord(schema: Schema, f: WireField, rest: bytes)
    requires Reads(schema, f)
    ensures NextField(schema, Record(f) + rest) == Ok((f, rest))
  {
    match f
    case VarintField(num, v) => NextFieldOfVarint(schema, num, v, rest);
    case BytesField(num, payload) => NextFieldOfBytes(schema, num, payload, rest);
  }

  // ----- Unknown records -----

  /** `data` is a sequence of records of fields that `schema` does not know. */
  ghost predicate UnknownRecords(schema: Schema, data: bytes)
    decreases |data|
  {
    |data| == 0 ||
    (NextField(schema, data).Ok? && NextField(schema, data).value.0.UnknownField?
      && UnknownRecords(schema, NextField(schema, data).value.1))
  }

  ghost predicate IsSuffix(rest: bytes, data: bytes) {
    |rest| <= |data| && rest == data[|data| - |rest|..]
  }

  lemma SuffixTransitive(a: bytes, b: bytes, c: bytes)
    requires IsSuffix(a, b) && IsSuffix(b, c)
    ensures IsSuffix(a, c)
  {
  }

  lemma {:induction false} ReadGroupsSuffix(data: bytes, k: nat)
    requires ReadGroups(data, k).Ok?
    ensures IsSuffix(ReadGroups(data, k).value.rest, data)
    decreases |data|
  {
    if data[0] >= 128 {
      ReadGroupsSuffix(data[1..], k + 1);
      SuffixTransitive(ReadGroups(data, k).value.rest, data[1..], data);
    }
  }

  lemma SkipValueSuffix(wireType: nat, data: bytes)
    requires SkipValue(wireType, data).Ok?
    ensures IsSuffix(SkipValue(wireType, data).value, data)
  {
    if wireType == 0 || wireType == 2 {
      ReadGroupsSuffix(data, 0);
      if wireType == 2 {
        SuffixTransitive(SkipValue(wireType, data).value, ReadVarint(data).value.1, data);
      }
    }
  }

  lemma {:induction false} SkipRecordSuffix(data: bytes, depth: nat)
    requires SkipRecord(data, depth).Ok?
    ensures IsSuffix(SkipRecord(data, depth).value, data)
    decreases |data|
  {
    ReadGroupsSuffix(data, 0);
    var (wire, rest) := ReadVarint(data).value;
    var wireType := wire % 8;
    if wireType == 3 {
      SkipRecordSuffix(rest, depth + 1);
      SuffixTransitive(SkipRecord(data, depth).value, rest, data);
    } else if wireType == 4 {
      if depth > 1 {
        SkipRecordSuffix(rest, depth - 1);
        SuffixTransitive(SkipRecord(data, depth).value, rest, data);
      }
    } else {
      SkipValueSuffix(wireType, rest);
      var after := SkipValue(wireType, rest).value;
      SuffixTransitive(after, rest, data);
      if depth > 0 {
        SkipRecordSuffix(after, depth);
        SuffixTransitive(SkipRecord(data, depth).value, after, data);
      }
    }
  }

  /** An unknown record is kept byte for byte. */
  lemma UnknownIsKept(schema: Schema, data: bytes)
    requires NextField(schema, data).Ok? && NextField(schema, data).value.0.UnknownField?
    ensures NextField(schema, data).value.0.raw + NextField(schema, data).value.1 == data
  {
    SkipRecordSuffix(data, 0);
  }

  // ----- Decoding a message record by record -----

  /** An UnmarshalVT loop: records are applied to the message one by one. */
  function Decode<M>(schema: Schema, apply: (M, Field) -> Result<M, Error>, m: M, data: bytes): Result<M, Error>
    decreases |data|
  {
    if |data| == 0 then Ok(m)
    else
      var (f, rest) :- NextField(schema, data);
      var m' :- apply(m, f);
      Decode(schema, apply, m', rest)
  }

  /** Applying a list of fields to a message, without any bytes. */
  function Fold<M>(apply: (M, Field) -> Result<M, Error>, m: M, fs: seq<WireField>): Result<M, Error> {
    if |fs| == 0 then Ok(m)
    else
      var m' :- apply(m, fs[0]);
      Fold(apply, m', fs[1..])
  }

  lemma {:induction false} FoldConcat<M>(apply: (M, Field) -> Result<M, Error>, m: M, a: seq<WireField>,
                                         b: seq<WireField>)
    requires Fold(apply, m, a).Ok?
    ensures Fold(apply, m, a + b) == Fold(apply, Fold(apply, m, a).value, b)
    decreases |a|
  {
    if |a| == 0 {
      assert a + b == b;
    } else {
      assert (a + b)[1..] == a[1..] + b;
      FoldConcat(apply, apply(m, a[0]).value, a[1..], b);
    }
  }

  /** A decoder reads the concatenation of two inputs as the second one on top of the first one's result. */
  lemma {:induction false} DecodeMerges<M>(schema: Schema, apply: (M, Field) -> Result<M, Error>, m: M, a: bytes,
                                           b: bytes)
    requires Decode(schema, apply, m, a).Ok?
    ensures Decode(schema, apply, m, a + b) == Decode(schema, apply, Decode(schema, apply, m, a).value, b)
    decreases |a|
  {
    if |a| == 0 {
      assert a + b == b;
    } else {
      NextFieldExtends(schema, a, b);
      var (f, rest) := NextField(schema, a).value;
      DecodeMerges(schema, apply, apply(m, f).value, rest, b);
    }
  }

  /** Decoding written records is folding the fields they came from. */
  lemma {:induction false} DecodeOfRecords<M>(schema: Schema, apply: (M, Field) -> Result<M, Error>, m: M,
                                              fs: seq<WireField>, tail: bytes)
    requires forall i :: 0 <= i < |fs| ==> Reads(schema, fs[i])
    ensures Decode(schema, apply, m, Records(fs) + tail) ==
      (var m' :- Fold(apply, m, fs); Decode(schema, apply, m', tail))
    decreases |fs|
  {
    if |fs| == 0 {
      assert Records(fs) + tail == tail;
    } else {
      var after := Records(fs[1..]) + tail;
      assert Records(fs) + tail == Record(fs[0]) + after;
      NextFieldOfRecord(schema, fs[0], after);
      var m' := apply(m, fs[0]);
      if m'.Ok? {
        DecodeOfRecords(schema, apply, m'.value, fs[1..], tail);
      }
    }
  }

  /** How a message keeps its unknown bytes. */
  datatype Keeper<!M(!new)> = Keeper(get: M -> bytes, set_: (M, bytes) -> M) {
    ghost predicate Lawful(apply: (M, Field) -> Result<M, Error>) {
      && (forall x: M, raw: bytes :: apply(x, UnknownField(raw)) == Ok(set_(x, get(x) + raw)))
      && (forall x: M, u: bytes :: get(set_(x, u)) == u)
      && (forall x: M, u: bytes, v: bytes :: set_(set_(x, u), v) == set_(x, v))
      && (forall x: M :: set_(x, get(x)) == x)
    }
  }

  lemma {:induction false} DecodeOfUnknown<M(!new)>(schema: Schema, apply: (M, Field) -> Result<M, Error>,
                                                    keeper: Keeper<M>, m: M, data: bytes)
    requires UnknownRecords(schema, data) && keeper.Lawful(apply)
    ensures Decode(schema, apply, m, data) == Ok(keeper.set_(m, keeper.get(m) + data))
    decreases |data|
  {
    if |data| > 0 {
      var (f, rest) := NextField(schema, data).value;
      UnknownIsKept(schema, data);
      var m' := keeper.set_(m, keeper.get(m) + f.raw);
      assert apply(m, f) == Ok(m');
      DecodeOfUnknown(schema, apply, keeper, m', rest);
      ConcatAssociates(keeper.get(m), f.raw, rest);
    } else {
      assert keeper.get(m) + data == keeper.get(m);
    }
  }

  /** The length of each payload is at most the length of the whole encoding. */
  lemma {:induction false} PayloadFits(fs: seq<WireField>, i: nat)
    requires i < |fs| && fs[i].BytesField?
    ensures |fs[i].payload| <= |Records(fs)|
  {
    if i > 0 {
      PayloadFits(fs[1..], i - 1);
    }
  }

  ghost predicate Known(schema: Schema, fs: seq<WireField>) {
    forall i :: 0 <= i < |fs| ==>
      !fs[i].UnknownField? && fs[i].num in schema && (schema[fs[i].num].VarintKind? <==> fs[i].VarintField?)
  }

  lemma KnownConcat(schema: Schema, a: seq<WireField>, b: seq<WireField>)
    requires Known(schema, a) && Known(schema, b)
    ensures Known(schema, a + b)
  {
  }

  lemma AllRead(schema: Schema, fs: seq<WireField>)
    requires Known(schema, fs) && |Records(fs)| < TWO_63
    ensures forall i :: 0 <= i < |fs| ==> Reads(schema, fs[i])
  {
    forall i | 0 <= i < |fs|
      ensures Reads(schema, fs[i])
    {
      if fs[i].BytesField? {
        PayloadFits(fs, i);
      }
    }
  }

  /** Written fields followed by kept unknown records are read back as those fields and those records. */
  lemma DecodeOfMessage<M(!new)>(schema: Schema, apply: (M, Field) -> Result<M, Error>, keeper: Keeper<M>,
                                 blank: M, fs: seq<WireField>, folded: M, unknown: bytes)
    requires Known(schema, fs) && |Records(fs)| < TWO_63
    requires Fold(apply, blank, fs) == Ok(folded) && keeper.get(folded) == []
    requires UnknownRecords(schema, unknown) && keeper.Lawful(apply)
    ensures Decode(schema, apply, blank, Records(fs) + unknown) == Ok(keeper.set_(folded, unknown))
  {
    AllRead(schema, fs);
    DecodeOfRecords(schema, apply, blank, fs, unknown);
    DecodeOfUnknown(schema, apply, keeper, folded, unknown);
    assert [] + unknown == unknown;
  }

  // ----- Repeated fields -----

  /** Applying, one after the other, the elements of a repeated field. */
  function PutAll<M, E>(put: (M, E) -> M, m: M, es: seq<E>): M {
    if |es| == 0 then m else PutAll(put, put(m, es[0]), es[1..])
  }

  lemma {:induction false} FoldOfElements<M(!new), E>(apply: (M, Field) -> Result<M, Error>, put: (M, E) -> M, m: M,
                                                      fs: seq<WireField>, es: seq<E>)
    requires |fs| == |es|
    requires forall x: M, i :: 0 <= i < |fs| ==> apply(x, fs[i]) == Ok(put(x, es[i]))
    ensures Fold(apply, m, fs) == Ok(PutAll(put, m, es))
    decreases |fs|
  {
    if |fs| > 0 {
      assert apply(m, fs[0]) == Ok(put(m, es[0]));
      FoldOfElements(apply, put, put(m, es[0]), fs[1..], es[1..]);
    }
  }
}
