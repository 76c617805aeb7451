/** The generated unmarshallers as they run: one index moves over the input, and varints are summed up by shifting. */
module Unmarshal {
  import opened Common
  import opened Wire
  import opened Messages

  /** What reading from `index` with the shift loop has to do with the groups read so far. */
  ghost predicate Summed(data: bytes, start: nat, index: nat, k: nat, sum: nat)
    requires start <= index <= |data|
  {
    ReadGroups(data[start..], 0) ==
    match ReadGroups(data[index..], k)
    case Ok(more) => Ok(Varint(sum + Pow128(k) * more.value, more.rest))
    case Err(e) => Err(e)
  }

  lemma LastGroup(data: bytes, start: nat, index: nat, k: nat, sum: nat, group: nat)
    requires start <= index < |data| && k < 10 && Summed(data, start, index, k, sum)
    requires data[index] < 128 && group == Pow128(k) * (data[index] % 128)
    ensures ReadGroups(data[start..], 0) == Ok(Varint(sum + group, data[index + 1..]))
  {
    assert data[index..][0] == data[index] && data[index..][1..] == data[index + 1..];
    assert ReadGroups(data[index..], k) == Ok(Varint(data[index], data[index + 1..]));
  }

  lemma MoreGroups(data: bytes, start: nat, index: nat, k: nat, sum: nat, group: nat)
    requires start <= index < |data| && k < 10 && Summed(data, start, index, k, sum)
    requires data[index] >= 128 && group == Pow128(k) * (data[index] % 128)
    ensures Summed(data, start, index + 1, k + 1, sum + group)
  {
    assert data[index..][0] == data[index] && data[index..][1..] == data[index + 1..];
    var more := ReadGroups(data[index + 1..], k + 1);
    if more.Ok? {
      NextGroup(Pow128(k), data[index] % 128, more.value.value);
    }
  }

  lemma NextGroup(p: nat, b: nat, x: nat)
    ensures p * (b + 128 * x) == p * b + (128 * p) * x
  {
  }

  lemma KeepsLowBits(sum: nat, more: nat)
    ensures (sum % TWO_64 + more) % TWO_64 == (sum + more) % TWO_64
  {
  }

  lemma StartSum(data: bytes, start: nat)
    requires start <= |data|
    ensures Summed(data, start, start, 0, 0)
  {
  }

  lemma EleventhGroup(data: bytes, start: nat, index: nat, sum: nat)
    requires start <= index <= |data| && Summed(data, start, index, 10, sum)
    ensures ReadVarint(data[start..]) == Err(IntOverflow)
  {
  }

  lemma InputEnds(data: bytes, start: nat, k: nat, sum: nat)
    requires start <= |data| && k < 10 && Summed(data, start, |data|, k, sum)
    ensures ReadVarint(data[start..]) == Err(UnexpectedEOF)
  {
  }

  lemma SumIsRead(data: bytes, sum: nat, rest: bytes)
    requires ReadGroups(data, 0) == Ok(Varint(sum, rest))
    ensures ReadVarint(data) == Ok((sum % TWO_64, rest))
  {
  }

  /** The shift loop keeps the low 64 bits of the sum and refuses an eleventh byte. */
  method LoadVarint(data: bytes, start: nat) returns (r: Result<(uint64, nat), Error>)
    requires start <= |data|
    ensures r.Ok? ==> start < r.value.1 <= |data| && ReadVarint(data[start..]) == Ok((r.value.0, data[r.value.1..]))
    ensures r.Err? ==> ReadVarint(data[start..]) == Err(r.error)
  {
    StartSum(data, start);
    var wire: uint64 := 0;
    var index: nat, k: nat, weight: nat := start, 0, 1;
    ghost var sum: nat := 0;
    while true
      invariant start <= index <= |data| && k <= 10
      invariant weight == Pow128(k) && wire == sum % TWO_64
      invariant Summed(data, start, index, k, sum)
      decreases |data| - index
    {
      if k == 10 {
        EleventhGroup(data, start, index, sum);
        return Err(IntOverflow);
      }
      if index >= |data| {
        InputEnds(data, start, k, sum);
        return Err(UnexpectedEOF);
      }
      var b := data[index];
      var group: nat := weight * (b % 128);
      KeepsLowBits(sum, group);
      if b < 128 {
        LastGroup(data, start, index, k, sum, group);
        SumIsRead(data[start..], sum + group, data[index + 1..]);
        return Ok(((wire + group) % TWO_64, index + 1));
      }
      MoreGroups(data, start, index, k, sum, group);
      wire := (wire + group) % TWO_64;
      sum := sum + group;
      index, k, weight := index + 1, k + 1, 128 * weight;
    }
  }

  method LoadPayload(data: bytes, start: nat) returns (r: Result<(bytes, nat), Error>)
    requires start <= |data|
    ensures r.Ok? ==> start < r.value.1 <= |data| && ReadPayload(data[start..]) == Ok((r.value.0, data[r.value.1..]))
    ensures r.Err? ==> ReadPayload(data[start..]) == Err(r.error)
  {
    var length :- LoadVarint(data, start);
    var (len, index) := length;
    if len >= TWO_63 {
      return Err(InvalidLength);
    }
    var post := index + len;
    if post > |data| {
      return Err(UnexpectedEOF);
    }
    assert data[index..][..len] == data[index..post] && data[index..][len..] == data[post..];
    return Ok((data[index..post], post));
  }

  /** One turn of an unmarshalling loop. */
  method LoadField(schema: Schema, data: bytes, start: nat) returns (r: Result<(Field, nat), Error>)
    requires start <= |data|
    ensures r.Ok? ==>
      start < r.value.1 <= |data| && NextField(schema, data[start..]) == Ok((r.value.0, data[r.value.1..]))
    ensures r.Err? ==> NextField(schema, data[start..]) == Err(r.error)
  {
    var tag :- LoadVarint(data, start);
    var (wire, index) := tag;
    var num, wireType := ToI32(wire / 8), wire % 8;
    if wireType == 4 {
      return Err(EndGroupForNonGroup);
    }
    if num <= 0 {
      return Err(IllegalTag);
    }
    if num !in schema {
      var after :- SkipRecord(data[start..], 0);
      SkipRecordSuffix(data[start..], 0);
      var next := |data| - |after|;
      assert data[start..][..next - start] == data[start..next] && after == data[next..];
      return Ok((UnknownField(data[start..next]), next));
    }
    if wireType != WireType(schema[num]) {
      return Err(WrongWireType);
    }
    if schema[num].VarintKind? {
      var value :- LoadVarint(data, index);
      return Ok((VarintField(num, value.0), value.1));
    }
    var payload :- LoadPayload(data, index);
    return Ok((BytesField(num, payload.0), payload.1));
  }

  /** The loop of every generated UnmarshalVT; `apply` is its switch over field numbers. */
  method UnmarshalVT<M>(schema: Schema, apply: (M, Field) -> Result<M, Error>, m: M, data: bytes)
    returns (r: Result<M, Error>)
    ensures r == Decode(schema, apply, m, data)
  {
    var message, index := m, 0;
    assert data[0..] == data;
    while index < |data|
      invariant index <= |data|
      invariant Decode(schema, apply, message, data[index..]) == Decode(schema, apply, m, data)
    {
      var field :- LoadField(schema, data, index);
      message :- apply(message, field.0);
      index := field.1;
    }
    return Ok(message);
  }

  method UnmarshalCommand(m: Command, data: bytes) returns (r: Result<Command, Error>)
    ensures r == DecodeCommand(m, data)
  {
    CommandDecodesByRecords(m, data);
    r := UnmarshalVT(COMMAND, ApplyCommand, m, data);
  }
}
