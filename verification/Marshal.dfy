/**
 The generated marshallers as they run: each writes its message backwards into a buffer that already
 holds what comes after it. From the position it returns on, the buffer holds the message's encoding and
 then what was there before; bytes below that position are untouched.
 */
module Marshal {
  import opened Common
  import opened Wire
  import opened Messages
  import opened Codec
  import opened CommandCodec
  import opened Sizes

  /** The buffer still is `pre` below `i` and holds `content` from `i` on. */
  ghost predicate At(buf: array<byte>, pre: bytes, i: nat, content: bytes)
    reads buf
  {
    i <= |pre| && buf[..] == pre[..i] + content
  }

  ghost predicate Holds(buf: array<byte>, pre: bytes, i: nat, fs: seq<WireField>, tail: bytes)
    reads buf
  {
    At(buf, pre, i, Records(fs) + tail)
  }

  lemma Lengths(buf: array<byte>, pre: bytes, i: nat, content: bytes)
    requires At(buf, pre, i, content)
    ensures i + |content| == buf.Length && buf[i..] == content
    ensures forall k :: 0 <= k < i ==> buf[k] == pre[k]
  {
    assert buf[..][i..] == content;
  }

  lemma Assemble(buf: array<byte>, pre: bytes, i: nat, end: nat, b: bytes, content: bytes)
    requires i <= |pre| && i <= end <= buf.Length
    requires buf[..i] == pre[..i] && buf[i..end] == b && buf[end..] == content
    ensures At(buf, pre, i, b + content)
  {
    assert buf[..] == buf[..i] + (buf[i..end] + buf[end..]);
  }

  method PutRaw(buf: array<byte>, end: nat, b: bytes, ghost pre: bytes, ghost content: bytes) returns (i: nat)
    requires At(buf, pre, end, content) && |b| <= end
    modifies buf
    ensures i == end - |b| && At(buf, pre, i, b + content)
  {
    Lengths(buf, pre, end, content);
    i := end - |b|;
    forall k | 0 <= k < |b| {
      buf[i + k] := b[k];
    }
    Assemble(buf, pre, i, end, b, content);
  }

  method PutByte(buf: array<byte>, end: nat, b: byte, ghost pre: bytes, ghost content: bytes) returns (i: nat)
    requires At(buf, pre, end, content) && 1 <= end
    modifies buf
    ensures i == end - 1 && At(buf, pre, i, [b] + content)
  {
    Lengths(buf, pre, end, content);
    i := end - 1;
    buf[i] := b;
    Assemble(buf, pre, i, end, [b], content);
  }

  lemma OneGroup(done: bytes, rest: nat)
    requires rest >= 128
    ensures (done + [rest % 128 + 128]) + EncodeVarint(rest / 128) == done + EncodeVarint(rest)
  {
    assert EncodeVarint(rest) == [rest % 128 + 128] + EncodeVarint(rest / 128);
    ConcatAssociates(done, [rest % 128 + 128], EncodeVarint(rest / 128));
  }

  method PutVarint(buf: array<byte>, end: nat, v: nat, ghost pre: bytes, ghost content: bytes) returns (i: nat)
    requires At(buf, pre, end, content) && SizeOfVarint(v) <= end
    modifies buf
    ensures i == end - SizeOfVarint(v) && At(buf, pre, i, EncodeVarint(v) + content)
  {
    Lengths(buf, pre, end, content);
    i := end - SizeOfVarint(v);
    var at, rest := i, v;
    ghost var done: bytes := [];
    AddNothing(EncodeVarint(v));
    while rest >= 128
      invariant i <= at && at + SizeOfVarint(rest) == end
      invariant buf[i..at] == done && done + EncodeVarint(rest) == EncodeVarint(v)
      invariant buf[..i] == pre[..i] && buf[end..] == content
    {
      OneGroup(done, rest);
      buf[at] := rest % 128 + 128;
      done := done + [rest % 128 + 128];
      at, rest := at + 1, rest / 128;
    }
    buf[at] := rest;
    assert buf[i..end] == done + [rest];
    Assemble(buf, pre, i, end, EncodeVarint(v), content);
  }

  /** A one-byte tag, or the two bytes of field 64. */
  method PutTag(buf: array<byte>, end: nat, num: FieldNumber, wireType: nat, ghost pre: bytes, ghost content: bytes)
    returns (i: nat)
    requires wireType < 8 && (num < 16 || (num == 64 && wireType == 2))
    requires At(buf, pre, end, content) && (if num < 16 then 1 else 2) <= end
    modifies buf
    ensures i == end - |EncodeVarint(num * 8 + wireType)| && At(buf, pre, i, EncodeVarint(num * 8 + wireType) + content)
  {
    TagSize(num, wireType);
    if num < 16 {
      i := PutByte(buf, end, num * 8 + wireType, pre, content);
    } else {
      i := PutByte(buf, end, 0x04, pre, content);
      i := PutByte(buf, i, 0x82, pre, [0x04] + content);
      assert [0x82, 0x04] + content == [0x82] + ([0x04] + content);
    }
  }

  lemma ThreeParts(a: bytes, b: bytes, c: bytes, d: bytes)
    ensures a + (b + (c + d)) == (a + b + c) + d
  {
  }

  lemma RecordInFront(f: WireField, fs: seq<WireField>)
    ensures Records([f] + fs) == Record(f) + Records(fs)
  {
    RecordsConcat([f], fs);
    RecordsOfOne(f);
  }

  lemma BytesInFront(num: FieldNumber, b: bytes, fs: seq<WireField>, tail: bytes)
    ensures EncodeVarint(num * 8 + 2) + (EncodeVarint(|b|) + (b + (Records(fs) + tail))) ==
      Records([BytesField(num, b)] + fs) + tail
  {
    RecordInFront(BytesField(num, b), fs);
    ThreeParts(EncodeVarint(num * 8 + 2), EncodeVarint(|b|), b, Records(fs) + tail);
    ConcatAssociates(Record(BytesField(num, b)), Records(fs), tail);
  }

  lemma VarintInFront(num: FieldNumber, v: uint64, fs: seq<WireField>, tail: bytes)
    ensures EncodeVarint(num * 8) + (EncodeVarint(v) + (Records(fs) + tail)) ==
      Records([VarintField(num, v)] + fs) + tail
  {
    RecordInFront(VarintField(num, v), fs);
    ConcatAssociates(EncodeVarint(num * 8), EncodeVarint(v), Records(fs) + tail);
    ConcatAssociates(Record(VarintField(num, v)), Records(fs), tail);
  }

  /** Length and tag in front of a payload that has just been written. */
  method FinishBytes(buf: array<byte>, end: nat, num: FieldNumber, len: nat, ghost payload: bytes,
                     ghost pre: bytes, ghost fs: seq<WireField>, ghost tail: bytes) returns (i: nat)
    requires num < 16 || num == 64
    requires len == |payload| && |Records([BytesField(num, payload)])| <= end + len
    requires At(buf, pre, end, payload + (Records(fs) + tail))
    modifies buf
    ensures i == end + len - |Records([BytesField(num, payload)])|
    ensures Holds(buf, pre, i, [BytesField(num, payload)] + fs, tail)
  {
    BytesSize(num, payload);
    TagSize(num, 2);
    i := PutVarint(buf, end, len, pre, payload + (Records(fs) + tail));
    i := PutTag(buf, i, num, 2, pre, EncodeVarint(len) + (payload + (Records(fs) + tail)));
    BytesInFront(num, payload, fs, tail);
  }

  method PutBytesField(buf: array<byte>, end: nat, num: FieldNumber, b: bytes,
                       ghost pre: bytes, ghost fs: seq<WireField>, ghost tail: bytes) returns (i: nat)
    requires num < 16 || num == 64
    requires |Records([BytesField(num, b)])| <= end && Holds(buf, pre, end, fs, tail)
    modifies buf
    ensures i == end - |Records([BytesField(num, b)])| && Holds(buf, pre, i, [BytesField(num, b)] + fs, tail)
  {
    BytesSize(num, b);
    i := PutRaw(buf, end, b, pre, Records(fs) + tail);
    i := FinishBytes(buf, i, num, |b|, b, pre, fs, tail);
  }

  method PutVarintField(buf: array<byte>, end: nat, num: FieldNumber, v: uint64,
                        ghost pre: bytes, ghost fs: seq<WireField>, ghost tail: bytes) returns (i: nat)
    requires num < 16
    requires |Records([VarintField(num, v)])| <= end && Holds(buf, pre, end, fs, tail)
    modifies buf
    ensures i == end - |Records([VarintField(num, v)])| && Holds(buf, pre, i, [VarintField(num, v)] + fs, tail)
  {
    VarintSize(num, v);
    TagSize(num, 0);
    i := PutVarint(buf, end, v, pre, Records(fs) + tail);
    i := PutTag(buf, i, num, 0, pre, EncodeVarint(v) + (Records(fs) + tail));
    VarintInFront(num, v, fs, tail);
  }

  lemma NothingInFront(fs: seq<WireField>)
    ensures [] + fs == fs && |Records([])| == 0
  {
  }

  method PutPlainBytes(buf: array<byte>, end: nat, num: FieldNumber, x: bytes,
                   ghost pre: bytes, ghost fs: seq<WireField>, ghost tail: bytes) returns (i: nat)
    requires num < 16 || num == 64
    requires |Records(PlainBytes(num, x))| <= end && Holds(buf, pre, end, fs, tail)
    modifies buf
    ensures i == end - |Records(PlainBytes(num, x))| && Holds(buf, pre, i, PlainBytes(num, x) + fs, tail)
  {
    i := end;
    if |x| > 0 {
      i := PutBytesField(buf, end, num, x, pre, fs, tail);
    } else {
      NothingInFront(fs);
    }
  }

  method PutOptionalBytes(buf: array<byte>, end: nat, num: FieldNumber, x: Option<bytes>,
                   ghost pre: bytes, ghost fs: seq<WireField>, ghost tail: bytes) returns (i: nat)
    requires num < 16
    requires |Records(OptionalBytes(num, x))| <= end && Holds(buf, pre, end, fs, tail)
    modifies buf
    ensures i == end - |Records(OptionalBytes(num, x))| && Holds(buf, pre, i, OptionalBytes(num, x) + fs, tail)
  {
    i := end;
    if x.Some? {
      i := PutBytesField(buf, end, num, x.value, pre, fs, tail);
    } else {
      NothingInFront(fs);
    }
  }

  method PutPlainInt(buf: array<byte>, end: nat, num: FieldNumber, x: int64,
                   ghost pre: bytes, ghost fs: seq<WireField>, ghost tail: bytes) returns (i: nat)
    requires num < 16
    requires |Records(PlainInt(num, x))| <= end && Holds(buf, pre, end, fs, tail)
    modifies buf
    ensures i == end - |Records(PlainInt(num, x))| && Holds(buf, pre, i, PlainInt(num, x) + fs, tail)
  {
    i := end;
    if x != 0 {
      i := PutVarintField(buf, end, num, ToU64(x), pre, fs, tail);
    } else {
      NothingInFront(fs);
    }
  }

  method PutPlainBool(buf: array<byte>, end: nat, num: FieldNumber, x: bool,
                   ghost pre: bytes, ghost fs: seq<WireField>, ghost tail: bytes) returns (i: nat)
    requires num < 16
    requires |Records(PlainBool(num, x))| <= end && Holds(buf, pre, end, fs, tail)
    modifies buf
    ensures i == end - |Records(PlainBool(num, x))| && Holds(buf, pre, i, PlainBool(num, x) + fs, tail)
  {
    i := end;
    if x {
      i := PutVarintField(buf, end, num, 1, pre, fs, tail);
    } else {
      NothingInFront(fs);
    }
  }

  method PutOptionalUint(buf: array<byte>, end: nat, num: FieldNumber, x: Option<uint64>,
                   ghost pre: bytes, ghost fs: seq<WireField>, ghost tail: bytes) returns (i: nat)
    requires num < 16
    requires |Records(OptionalUint(num, x))| <= end && Holds(buf, pre, end, fs, tail)
    modifies buf
    ensures i == end - |Records(OptionalUint(num, x))| && Holds(buf, pre, i, OptionalUint(num, x) + fs, tail)
  {
    i := end;
    if x.Some? {
      i := PutVarintField(buf, end, num, x.value, pre, fs, tail);
    } else {
      NothingInFront(fs);
    }
  }

  /** The unknown bytes go at the very end of a message. */
  method PutUnknown(buf: array<byte>, end: nat, unknown: bytes, ghost pre: bytes, ghost tail: bytes) returns (i: nat)
    requires At(buf, pre, end, tail) && |unknown| <= end
    modifies buf
    ensures i == end - |unknown| && Holds(buf, pre, i, [], unknown + tail)
  {
    i := PutRaw(buf, end, unknown, pre, tail);
    assert Records([]) + (unknown + tail) == unknown + tail;
  }

  method MarshalKeyValue(m: KeyValue, buf: array<byte>, end: nat, ghost pre: bytes, ghost tail: bytes) returns (i: nat)
    requires At(buf, pre, end, tail) && |EncodeKeyValue(m)| <= end
    modifies buf
    ensures i == end - |EncodeKeyValue(m)| && At(buf, pre, i, EncodeKeyValue(m) + tail)
  {
    ghost var f1, f2, f3, f4 :=
      PlainBytes(1, m.key), PlainInt(2, m.createRevision), PlainInt(3, m.modRevision), PlainBytes(4, m.value);
    FourPartsFit(f1, f2, f3, f4);
    i := PutUnknown(buf, end, m.unknown, pre, tail);
    i := PutPlainBytes(buf, i, 4, m.value, pre, [], m.unknown + tail);
    AddNothing(f4);
    i := PutPlainInt(buf, i, 3, m.modRevision, pre, f4, m.unknown + tail);
    i := PutPlainInt(buf, i, 2, m.createRevision, pre, f3 + f4, m.unknown + tail);
    i := PutPlainBytes(buf, i, 1, m.key, pre, f2 + (f3 + f4), m.unknown + tail);
    ConcatAssociates(Records(KeyValueFields(m)), m.unknown, tail);
  }

  method MarshalCompare(m: Compare, buf: array<byte>, end: nat, ghost pre: bytes, ghost tail: bytes) returns (i: nat)
    requires At(buf, pre, end, tail) && |EncodeCompare(m)| <= end
    modifies buf
    ensures i == end - |EncodeCompare(m)| && At(buf, pre, i, EncodeCompare(m) + tail)
  {
    ghost var f1, f2, f3, f4, f5 :=
      PlainInt(1, m.result), PlainInt(2, m.target), PlainBytes(3, m.key), PlainBytes(64, m.rangeEnd),
        OptionalBytes(4, m.value);
    FivePartsFit(f1, f2, f3, f4, f5);
    i := PutUnknown(buf, end, m.unknown, pre, tail);
    i := PutOptionalBytes(buf, i, 4, m.value, pre, [], m.unknown + tail);
    AddNothing(f5);
    i := PutPlainBytes(buf, i, 64, m.rangeEnd, pre, f5, m.unknown + tail);
    i := PutPlainBytes(buf, i, 3, m.key, pre, f4 + f5, m.unknown + tail);
    i := PutPlainInt(buf, i, 2, m.target, pre, f3 + (f4 + f5), m.unknown + tail);
    i := PutPlainInt(buf, i, 1, m.result, pre, f2 + (f3 + (f4 + f5)), m.unknown + tail);
    ConcatAssociates(Records(CompareFields(m)), m.unknown, tail);
  }

  method MarshalRange(m: RangeOp, buf: array<byte>, end: nat, ghost pre: bytes, ghost tail: bytes) returns (i: nat)
    requires At(buf, pre, end, tail) && |EncodeRange(m)| <= end
    modifies buf
    ensures i == end - |EncodeRange(m)| && At(buf, pre, i, EncodeRange(m) + tail)
  {
    ghost var f1, f2, f3, f4, f5 :=
      PlainBytes(1, m.key), PlainBytes(2, m.rangeEnd), PlainInt(3, m.limit), PlainBool(4, m.keysOnly),
        PlainBool(5, m.countOnly);
    FivePartsFit(f1, f2, f3, f4, f5);
    i := PutUnknown(buf, end, m.unknown, pre, tail);
    i := PutPlainBool(buf, i, 5, m.countOnly, pre, [], m.unknown + tail);
    AddNothing(f5);
    i := PutPlainBool(buf, i, 4, m.keysOnly, pre, f5, m.unknown + tail);
    i := PutPlainInt(buf, i, 3, m.limit, pre, f4 + f5, m.unknown + tail);
    i := PutPlainBytes(buf, i, 2, m.rangeEnd, pre, f3 + (f4 + f5), m.unknown + tail);
    i := PutPlainBytes(buf, i, 1, m.key, pre, f2 + (f3 + (f4 + f5)), m.unknown + tail);
    ConcatAssociates(Records(RangeFields(m)), m.unknown, tail);
  }

  method MarshalPut(m: PutOp, buf: array<byte>, end: nat, ghost pre: bytes, ghost tail: bytes) returns (i: nat)
    requires At(buf, pre, end, tail) && |EncodePut(m)| <= end
    modifies buf
    ensures i == end - |EncodePut(m)| && At(buf, pre, i, EncodePut(m) + tail)
  {
    ghost var f1, f2, f3 := PlainBytes(1, m.key), PlainBytes(2, m.value), PlainBool(3, m.prevKv);
    PartsFit(f1, f2, f3);
    i := PutUnknown(buf, end, m.unknown, pre, tail);
    i := PutPlainBool(buf, i, 3, m.prevKv, pre, [], m.unknown + tail);
    AddNothing(f3);
    i := PutPlainBytes(buf, i, 2, m.value, pre, f3, m.unknown + tail);
    i := PutPlainBytes(buf, i, 1, m.key, pre, f2 + f3, m.unknown + tail);
    ConcatAssociates(Records(PutFields(m)), m.unknown, tail);
  }

  method MarshalDelete(m: DeleteOp, buf: array<byte>, end: nat, ghost pre: bytes, ghost tail: bytes) returns (i: nat)
    requires At(buf, pre, end, tail) && |EncodeDelete(m)| <= end
    modifies buf
    ensures i == end - |EncodeDelete(m)| && At(buf, pre, i, EncodeDelete(m) + tail)
  {
    ghost var f1, f2, f3, f4 :=
      PlainBytes(1, m.key), PlainBytes(2, m.rangeEnd), PlainBool(4, m.prevKv), PlainBool(5, m.count);
    FourPartsFit(f1, f2, f3, f4);
    i := PutUnknown(buf, end, m.unknown, pre, tail);
    i := PutPlainBool(buf, i, 5, m.count, pre, [], m.unknown + tail);
    AddNothing(f4);
    i := PutPlainBool(buf, i, 4, m.prevKv, pre, f4, m.unknown + tail);
    i := PutPlainBytes(buf, i, 2, m.rangeEnd, pre, f3 + f4, m.unknown + tail);
    i := PutPlainBytes(buf, i, 1, m.key, pre, f2 + (f3 + f4), m.unknown + tail);
    ConcatAssociates(Records(DeleteFields(m)), m.unknown, tail);
  }

  // ----- Nested messages -----

  lemma FieldsAssociate(a: seq<WireField>, b: seq<WireField>, c: seq<WireField>)
    ensures (a + b) + c == a + (b + c)
  {
  }

  method PutKeyValueMessage(buf: array<byte>, end: nat, num: FieldNumber, m: Option<KeyValue>,
                          ghost pre: bytes, ghost fs: seq<WireField>, ghost tail: bytes) returns (i: nat)
    requires num < 16
    requires |Records([BytesField(num, Body(m, EncodeKeyValue))])| <= end && Holds(buf, pre, end, fs, tail)
    modifies buf
    ensures i == end - |Records([BytesField(num, Body(m, EncodeKeyValue))])|
    ensures Holds(buf, pre, i, [BytesField(num, Body(m, EncodeKeyValue))] + fs, tail)
  {
    BytesSize(num, Body(m, EncodeKeyValue));
    var at := end;
    if m.Some? {
      at := MarshalKeyValue(m.value, buf, end, pre, Records(fs) + tail);
    } else {
      AddNothing(Records(fs) + tail);
    }
    i := FinishBytes(buf, at, num, end - at, Body(m, EncodeKeyValue), pre, fs, tail);
  }

  method PutCompareMessage(buf: array<byte>, end: nat, num: FieldNumber, m: Option<Compare>,
                          ghost pre: bytes, ghost fs: seq<WireField>, ghost tail: bytes) returns (i: nat)
    requires num < 16
    requires |Records([BytesField(num, Body(m, EncodeCompare))])| <= end && Holds(buf, pre, end, fs, tail)
    modifies buf
    ensures i == end - |Records([BytesField(num, Body(m, EncodeCompare))])|
    ensures Holds(buf, pre, i, [BytesField(num, Body(m, EncodeCompare))] + fs, tail)
  {
    BytesSize(num, Body(m, EncodeCompare));
    var at := end;
    if m.Some? {
      at := MarshalCompare(m.value, buf, end, pre, Records(fs) + tail);
    } else {
      AddNothing(Records(fs) + tail);
    }
    i := FinishBytes(buf, at, num, end - at, Body(m, EncodeCompare), pre, fs, tail);
  }

  method PutRangeMessage(buf: array<byte>, end: nat, num: FieldNumber, m: Option<RangeOp>,
                          ghost pre: bytes, ghost fs: seq<WireField>, ghost tail: bytes) returns (i: nat)
    requires num < 16
    requires |Records([BytesField(num, Body(m, EncodeRange))])| <= end && Holds(buf, pre, end, fs, tail)
    modifies buf
    ensures i == end - |Records([BytesField(num, Body(m, EncodeRange))])|
    ensures Holds(buf, pre, i, [BytesField(num, Body(m, EncodeRange))] + fs, tail)
  {
    BytesSize(num, Body(m, EncodeRange));
    var at := end;
    if m.Some? {
      at := MarshalRange(m.value, buf, end, pre, Records(fs) + tail);
    } else {
      AddNothing(Records(fs) + tail);
    }
    i := FinishBytes(buf, at, num, end - at, Body(m, EncodeRange), pre, fs, tail);
  }

  method PutPutMessage(buf: array<byte>, end: nat, num: FieldNumber, m: Option<PutOp>,
                          ghost pre: bytes, ghost fs: seq<WireField>, ghost tail: bytes) returns (i: nat)
    requires num < 16
    requires |Records([BytesField(num, Body(m, EncodePut))])| <= end && Holds(buf, pre, end, fs, tail)
    modifies buf
    ensures i == end - |Records([BytesField(num, Body(m, EncodePut))])|
    ensures Holds(buf, pre, i, [BytesField(num, Body(m, EncodePut))] + fs, tail)
  {
    BytesSize(num, Body(m, EncodePut));
    var at := end;
    if m.Some? {
      at := MarshalPut(m.value, buf, end, pre, Records(fs) + tail);
    } else {
      AddNothing(Records(fs) + tail);
    }
    i := FinishBytes(buf, at, num, end - at, Body(m, EncodePut), pre, fs, tail);
  }

  method PutDeleteMessage(buf: array<byte>, end: nat, num: FieldNumber, m: Option<DeleteOp>,
                          ghost pre: bytes, ghost fs: seq<WireField>, ghost tail: bytes) returns (i: nat)
    requires num < 16
    requires |Records([BytesField(num, Body(m, EncodeDelete))])| <= end && Holds(buf, pre, end, fs, tail)
    modifies buf
    ensures i == end - |Records([BytesField(num, Body(m, EncodeDelete))])|
    ensures Holds(buf, pre, i, [BytesField(num, Body(m, EncodeDelete))] + fs, tail)
  {
    BytesSize(num, Body(m, EncodeDelete));
    var at := end;
    if m.Some? {
      at := MarshalDelete(m.value, buf, end, pre, Records(fs) + tail);
    } else {
      AddNothing(Records(fs) + tail);
    }
    i := FinishBytes(buf, at, num, end - at, Body(m, EncodeDelete), pre, fs, tail);
  }

  /** A set arm is written even when its payload is nil. */
  method MarshalRequestOp(m: RequestOp, buf: array<byte>, end: nat, ghost pre: bytes, ghost tail: bytes)
    returns (i: nat)
    requires At(buf, pre, end, tail) && |EncodeRequestOp(m)| <= end
    modifies buf
    ensures i == end - |EncodeRequestOp(m)| && At(buf, pre, i, EncodeRequestOp(m) + tail)
  {
    i := PutUnknown(buf, end, m.unknown, pre, tail);
    match m.request {
      case NoRequest =>
      case RangeArm(p) =>
        i := PutRangeMessage(buf, i, 1, p, pre, [], m.unknown + tail);
      case PutArm(p) =>
        i := PutPutMessage(buf, i, 2, p, pre, [], m.unknown + tail);
      case DeleteArm(p) =>
        i := PutDeleteMessage(buf, i, 3, p, pre, [], m.unknown + tail);
    }
    AddNothing(RequestFields(m.request));
    ConcatAssociates(Records(RequestFields(m.request)), m.unknown, tail);
  }

  method PutRequestOpMessage(buf: array<byte>, end: nat, num: FieldNumber, m: Option<RequestOp>,
                          ghost pre: bytes, ghost fs: seq<WireField>, ghost tail: bytes) returns (i: nat)
    requires num < 16
    requires |Records([BytesField(num, Body(m, EncodeRequestOp))])| <= end && Holds(buf, pre, end, fs, tail)
    modifies buf
    ensures i == end - |Records([BytesField(num, Body(m, EncodeRequestOp))])|
    ensures Holds(buf, pre, i, [BytesField(num, Body(m, EncodeRequestOp))] + fs, tail)
  {
    BytesSize(num, Body(m, EncodeRequestOp));
    var at := end;
    if m.Some? {
      at := MarshalRequestOp(m.value, buf, end, pre, Records(fs) + tail);
    } else {
      AddNothing(Records(fs) + tail);
    }
    i := FinishBytes(buf, at, num, end - at, Body(m, EncodeRequestOp), pre, fs, tail);
  }

  lemma RepeatedStep<M>(num: FieldNumber, ms: seq<Option<M>>, encode: M -> bytes, k: nat, fs: seq<WireField>)
    requires k < |ms|
    ensures var here, later := [BytesField(num, Body(ms[k], encode))], Repeated(num, ms[k + 1..], encode);
      && Repeated(num, ms[k..], encode) + fs == here + (later + fs)
      && |Records(Repeated(num, ms[k..], encode))| == |Records(here)| + |Records(later)|
      && |Records(here)| + |Records(later)| <= |Records(Repeated(num, ms, encode))|
  {
    var here, later := [BytesField(num, Body(ms[k], encode))], Repeated(num, ms[k + 1..], encode);
    assert ms[k..][1..] == ms[k + 1..];
    RecordsConcat(here, later);
    FieldsAssociate(here, later, fs);
    RepeatedSuffix(num, ms, encode, k);
  }

  lemma {:induction false} RepeatedSuffix<M>(num: FieldNumber, ms: seq<Option<M>>, encode: M -> bytes, k: nat)
    requires k <= |ms|
    ensures |Records(Repeated(num, ms[k..], encode))| <= |Records(Repeated(num, ms, encode))|
    decreases |ms|
  {
    if k == 0 {
      assert ms[0..] == ms;
    } else {
      RepeatedSuffix(num, ms[1..], encode, k - 1);
      assert ms[1..][k - 1..] == ms[k..];
      RecordsConcat([BytesField(num, Body(ms[0], encode))], Repeated(num, ms[1..], encode));
    }
  }

  /** Elements are written from the last to the first. */
  method PutKeyValues(buf: array<byte>, end: nat, num: FieldNumber, ms: seq<Option<KeyValue>>,
                     ghost pre: bytes, ghost fs: seq<WireField>, ghost tail: bytes) returns (i: nat)
    requires num < 16
    requires |Records(Repeated(num, ms, EncodeKeyValue))| <= end && Holds(buf, pre, end, fs, tail)
    modifies buf
    ensures i == end - |Records(Repeated(num, ms, EncodeKeyValue))|
    ensures Holds(buf, pre, i, Repeated(num, ms, EncodeKeyValue) + fs, tail)
  {
    i := end;
    var k := |ms|;
    NothingInFront(fs);
    while k > 0
      invariant 0 <= k <= |ms|
      invariant i == end - |Records(Repeated(num, ms[k..], EncodeKeyValue))|
      invariant Holds(buf, pre, i, Repeated(num, ms[k..], EncodeKeyValue) + fs, tail)
    {
      k := k - 1;
      RepeatedStep(num, ms, EncodeKeyValue, k, fs);
      i := PutKeyValueMessage(buf, i, num, ms[k], pre, Repeated(num, ms[k + 1..], EncodeKeyValue) + fs, tail);
    }
    assert ms[0..] == ms;
  }

  /** Elements are written from the last to the first. */
  method PutCompares(buf: array<byte>, end: nat, num: FieldNumber, ms: seq<Option<Compare>>,
                     ghost pre: bytes, ghost fs: seq<WireField>, ghost tail: bytes) returns (i: nat)
    requires num < 16
    requires |Records(Repeated(num, ms, EncodeCompare))| <= end && Holds(buf, pre, end, fs, tail)
    modifies buf
    ensures i == end - |Records(Repeated(num, ms, EncodeCompare))|
    ensures Holds(buf, pre, i, Repeated(num, ms, EncodeCompare) + fs, tail)
  {
    i := end;
    var k := |ms|;
    NothingInFront(fs);
    while k > 0
      invariant 0 <= k <= |ms|
      invariant i == end - |Records(Repeated(num, ms[k..], EncodeCompare))|
      invariant Holds(buf, pre, i, Repeated(num, ms[k..], EncodeCompare) + fs, tail)
    {
      k := k - 1;
      RepeatedStep(num, ms, EncodeCompare, k, fs);
      i := PutCompareMessage(buf, i, num, ms[k], pre, Repeated(num, ms[k + 1..], EncodeCompare) + fs, tail);
    }
    assert ms[0..] == ms;
  }

  /** Elements are written from the last to the first. */
  method PutRequestOps(buf: array<byte>, end: nat, num: FieldNumber, ms: seq<Option<RequestOp>>,
                     ghost pre: bytes, ghost fs: seq<WireField>, ghost tail: bytes) returns (i: nat)
    requires num < 16
    requires |Records(Repeated(num, ms, EncodeRequestOp))| <= end && Holds(buf, pre, end, fs, tail)
    modifies buf
    ensures i == end - |Records(Repeated(num, ms, EncodeRequestOp))|
    ensures Holds(buf, pre, i, Repeated(num, ms, EncodeRequestOp) + fs, tail)
  {
    i := end;
    var k := |ms|;
    NothingInFront(fs);
    while k > 0
      invariant 0 <= k <= |ms|
      invariant i == end - |Records(Repeated(num, ms[k..], EncodeRequestOp))|
      invariant Holds(buf, pre, i, Repeated(num, ms[k..], EncodeRequestOp) + fs, tail)
    {
      k := k - 1;
      RepeatedStep(num, ms, EncodeRequestOp, k, fs);
      i := PutRequestOpMessage(buf, i, num, ms[k], pre, Repeated(num, ms[k + 1..], EncodeRequestOp) + fs, tail);
    }
    assert ms[0..] == ms;
  }

  method MarshalTxn(m: Txn, buf: array<byte>, end: nat, ghost pre: bytes, ghost tail: bytes) returns (i: nat)
    requires At(buf, pre, end, tail) && |EncodeTxn(m)| <= end
    modifies buf
    ensures i == end - |EncodeTxn(m)| && At(buf, pre, i, EncodeTxn(m) + tail)
  {
    ghost var f1, f2, f3 :=
      Repeated(1, m.compare, EncodeCompare), Repeated(2, m.success, EncodeRequestOp),
        Repeated(3, m.failure, EncodeRequestOp);
    PartsFit(f1, f2, f3);
    i := PutUnknown(buf, end, m.unknown, pre, tail);
    i := PutRequestOps(buf, i, 3, m.failure, pre, [], m.unknown + tail);
    AddNothing(f3);
    i := PutRequestOps(buf, i, 2, m.success, pre, f3, m.unknown + tail);
    i := PutCompares(buf, i, 1, m.compare, pre, f2 + f3, m.unknown + tail);
    ConcatAssociates(Records(TxnFields(m)), m.unknown, tail);
  }

  method PutTxnMessage(buf: array<byte>, end: nat, num: FieldNumber, m: Option<Txn>,
                          ghost pre: bytes, ghost fs: seq<WireField>, ghost tail: bytes) returns (i: nat)
    requires num < 16
    requires |Records([BytesField(num, Body(m, EncodeTxn))])| <= end && Holds(buf, pre, end, fs, tail)
    modifies buf
    ensures i == end - |Records([BytesField(num, Body(m, EncodeTxn))])|
    ensures Holds(buf, pre, i, [BytesField(num, Body(m, EncodeTxn))] + fs, tail)
  {
    BytesSize(num, Body(m, EncodeTxn));
    var at := end;
    if m.Some? {
      at := MarshalTxn(m.value, buf, end, pre, Records(fs) + tail);
    } else {
      AddNothing(Records(fs) + tail);
    }
    i := FinishBytes(buf, at, num, end - at, Body(m, EncodeTxn), pre, fs, tail);
  }

  // ----- Commands -----

  method PutElement(buf: array<byte>, end: nat, m: Option<Command>, ghost pre: bytes, ghost fs: seq<WireField>,
                    ghost tail: bytes) returns (i: nat)
    requires |Records([BytesField(10, EncodeElement(m))])| <= end && Holds(buf, pre, end, fs, tail)
    modifies buf
    ensures i == end - |Records([BytesField(10, EncodeElement(m))])|
    ensures Holds(buf, pre, i, [BytesField(10, EncodeElement(m))] + fs, tail)
    decreases m, 2
  {
    BytesSize(10, EncodeElement(m));
    var at := end;
    if m.Some? {
      at := MarshalCommand(m.value, buf, end, pre, Records(fs) + tail);
    } else {
      AddNothing(Records(fs) + tail);
    }
    i := FinishBytes(buf, at, 10, end - at, EncodeElement(m), pre, fs, tail);
  }

  lemma SequenceStep(ms: seq<Option<Command>>, k: nat, fs: seq<WireField>)
    requires k < |ms|
    ensures var here, later := [BytesField(10, EncodeElement(ms[k]))], SequenceFields(ms[k + 1..]);
      && SequenceFields(ms[k..]) + fs == here + (later + fs)
      && |Records(SequenceFields(ms[k..]))| == |Records(here)| + |Records(later)|
      && |Records(here)| + |Records(later)| <= |Records(SequenceFields(ms))|
  {
    var here, later := [BytesField(10, EncodeElement(ms[k]))], SequenceFields(ms[k + 1..]);
    assert ms[k..][1..] == ms[k + 1..];
    RecordsConcat(here, later);
    FieldsAssociate(here, later, fs);
    SequenceSuffix(ms, k);
  }

  lemma {:induction false} SequenceSuffix(ms: seq<Option<Command>>, k: nat)
    requires k <= |ms|
    ensures |Records(SequenceFields(ms[k..]))| <= |Records(SequenceFields(ms))|
    decreases |ms|
  {
    if k == 0 {
      assert ms[0..] == ms;
    } else {
      SequenceSuffix(ms[1..], k - 1);
      assert ms[1..][k - 1..] == ms[k..];
      RecordsConcat([BytesField(10, EncodeElement(ms[0]))], SequenceFields(ms[1..]));
    }
  }

  method PutSequence(buf: array<byte>, end: nat, ms: seq<Option<Command>>, ghost pre: bytes, ghost fs: seq<WireField>,
                     ghost tail: bytes) returns (i: nat)
    requires |Records(SequenceFields(ms))| <= end && Holds(buf, pre, end, fs, tail)
    modifies buf
    ensures i == end - |Records(SequenceFields(ms))| && Holds(buf, pre, i, SequenceFields(ms) + fs, tail)
    decreases ms, 0
  {
    i := end;
    var k := |ms|;
    NothingInFront(fs);
    while k > 0
      invariant 0 <= k <= |ms|
      invariant i == end - |Records(SequenceFields(ms[k..]))|
      invariant Holds(buf, pre, i, SequenceFields(ms[k..]) + fs, tail)
    {
      k := k - 1;
      SequenceStep(ms, k, fs);
      i := PutElement(buf, i, ms[k], pre, SequenceFields(ms[k + 1..]) + fs, tail);
    }
    assert ms[0..] == ms;
  }

  method PutKv(buf: array<byte>, end: nat, kv: Option<KeyValue>, ghost pre: bytes, ghost fs: seq<WireField>,
               ghost tail: bytes) returns (i: nat)
    requires |Records(OptionalMessage(3, kv, EncodeKeyValue))| <= end && Holds(buf, pre, end, fs, tail)
    modifies buf
    ensures i == end - |Records(OptionalMessage(3, kv, EncodeKeyValue))|
    ensures Holds(buf, pre, i, OptionalMessage(3, kv, EncodeKeyValue) + fs, tail)
  {
    i := end;
    if kv.Some? {
      i := PutKeyValueMessage(buf, end, 3, kv, pre, fs, tail);
    } else {
      NothingInFront(fs);
    }
  }

  method PutTxn(buf: array<byte>, end: nat, txn: Option<Txn>, ghost pre: bytes, ghost fs: seq<WireField>,
                ghost tail: bytes) returns (i: nat)
    requires |Records(OptionalMessage(7, txn, EncodeTxn))| <= end && Holds(buf, pre, end, fs, tail)
    modifies buf
    ensures i == end - |Records(OptionalMessage(7, txn, EncodeTxn))|
    ensures Holds(buf, pre, i, OptionalMessage(7, txn, EncodeTxn) + fs, tail)
  {
    i := end;
    if txn.Some? {
      i := PutTxnMessage(buf, end, 7, txn, pre, fs, tail);
    } else {
      NothingInFront(fs);
    }
  }

  /** Fields 8 to 11. */
  method PutLastFields(m: Command, buf: array<byte>, end: nat, ghost pre: bytes, ghost tail: bytes) returns (i: nat)
    requires |Records(LastFields(m))| <= end && Holds(buf, pre, end, [], tail)
    modifies buf
    ensures i == end - |Records(LastFields(m))| && Holds(buf, pre, i, LastFields(m), tail)
    decreases m, 0
  {
    ghost var f8, f9, f10, f11 :=
      OptionalBytes(8, m.rangeEnd), PlainBool(9, m.prevKvs), SequenceFields(m.sequence), PlainBool(11, m.count);
    FourPartsFit(f8, f9, f10, f11);
    i := PutPlainBool(buf, end, 11, m.count, pre, [], tail);
    AddNothing(f11);
    i := PutSequence(buf, i, m.sequence, pre, f11, tail);
    i := PutPlainBool(buf, i, 9, m.prevKvs, pre, f10 + f11, tail);
    i := PutOptionalBytes(buf, i, 8, m.rangeEnd, pre, f9 + (f10 + f11), tail);
  }

  /** Fields 5 to 11. */
  method PutMiddleFields(m: Command, buf: array<byte>, end: nat, ghost pre: bytes, ghost tail: bytes) returns (i: nat)
    requires |Records(MiddleFields(m))| <= end && Holds(buf, pre, end, [], tail)
    modifies buf
    ensures i == end - |Records(MiddleFields(m))| && Holds(buf, pre, i, MiddleFields(m), tail)
    decreases m, 1
  {
    ghost var f5, f6, f7, last :=
      OptionalUint(5, m.leaderIndex), Repeated(6, m.batch, EncodeKeyValue), OptionalMessage(7, m.txn, EncodeTxn),
        LastFields(m);
    FourPartsFit(f5, f6, f7, last);
    i := PutLastFields(m, buf, end, pre, tail);
    i := PutTxn(buf, i, m.txn, pre, last, tail);
    i := PutKeyValues(buf, i, 6, m.batch, pre, f7 + last, tail);
    i := PutOptionalUint(buf, i, 5, m.leaderIndex, pre, f6 + (f7 + last), tail);
  }

  method MarshalCommand(m: Command, buf: array<byte>, end: nat, ghost pre: bytes, ghost tail: bytes) returns (i: nat)
    requires At(buf, pre, end, tail) && |EncodeCommand(m)| <= end
    modifies buf
    ensures i == end - |EncodeCommand(m)| && At(buf, pre, i, EncodeCommand(m) + tail)
    decreases m, 2
  {
    ghost var f1, f2, f3, middle :=
      PlainBytes(1, m.table), PlainInt(2, m.kind), OptionalMessage(3, m.kv, EncodeKeyValue), MiddleFields(m);
    FourPartsFit(f1, f2, f3, middle);
    i := PutUnknown(buf, end, m.unknown, pre, tail);
    i := PutMiddleFields(m, buf, i, pre, m.unknown + tail);
    i := PutKv(buf, i, m.kv, pre, middle, m.unknown + tail);
    i := PutPlainInt(buf, i, 2, m.kind, pre, f3 + middle, m.unknown + tail);
    i := PutPlainBytes(buf, i, 1, m.table, pre, f2 + (f3 + middle), m.unknown + tail);
    ConcatAssociates(Records(CommandFields(m)), m.unknown, tail);
  }

  /** What stands in the buffer in the end, cut to its front. */
  lemma FrontOf(pre: bytes, i: nat, written: bytes, buf: bytes)
    requires |pre| == i + |written| && forall k :: 0 <= k < |pre| ==> pre[k] == 0
    requires buf == pre[..i] + (written + [])
    ensures |buf| == |pre| && buf[..|written|] == (Zeros(i) + written)[..|written|]
  {
    assert pre[..i] == Zeros(i);
    AddNothing(written);
  }

  lemma FrontIsMarshalled(m: Command, written: bytes, front: bytes)
    requires written == EncodeCommand(m) && |written| <= SizeCommand(m)
    requires front == (Zeros(SizeCommand(m) - |written|) + written)[..|written|]
    ensures front == Marshalled(m)
  {
  }

  lemma FitsInSize(m: Command)
    ensures |EncodeCommand(m)| <= SizeCommand(m)
  {
    CommandSize(m);
  }

  /** A zeroed buffer, written from its end, cut to the number of bytes written. */
  method MarshalToSized(m: Command, size: nat, ghost written: bytes) returns (data: bytes)
    requires written == EncodeCommand(m) && |written| <= size
    ensures data == (Zeros(size - |written|) + written)[..|written|]
  {
    var buf := new byte[size](_ => 0);
    ghost var pre := buf[..];
    AddNothing(pre);
    var i := MarshalCommand(m, buf, size, pre, []);
    FrontOf(pre, i, written, buf[..]);
    data := buf[..][..size - i];
  }

  method MarshalVT(m: Command) returns (data: bytes)
    ensures data == Marshalled(m)
  {
    FitsInSize(m);
    data := MarshalToSized(m, SizeCommand(m), EncodeCommand(m));
    FrontIsMarshalled(m, EncodeCommand(m), data);
  }
}
