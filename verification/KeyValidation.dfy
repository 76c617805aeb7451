/** The null-byte checks in front of the key space. Single-byte zero keys are wildcards in range requests. */
module KeyValidation {
  import opened Common
  import opened Wire
  import opened Messages
  import opened MvccKeys

  const WILDCARD: bytes := [0]

  datatype Violation = TableNotSet | KeyNotSet | KeyHasNull | RangeEndHasNull

  predicate RangeEndContainsNullByte(k: bytes) {
    if |k| == 1 && k[0] == 0 then false else 0 in k
  }

  predicate RangeKeyContainsNullByte(k: bytes, rangeEnd: bytes) {
    if |rangeEnd| > 0 && |k| == 1 && k[0] == 0 then false else 0 in k
  }

  /** A range request whose bounds are null-free keys or wildcards; a lone key is never a wildcard. */
  predicate RangeOk(k: bytes, rangeEnd: bytes) {
    (NullFree(k) || (k == WILDCARD && rangeEnd != [])) && (NullFree(rangeEnd) || rangeEnd == WILDCARD)
  }

  /** The bounds are refused exactly when they are not of that form. */
  lemma RangeChecks(k: bytes, rangeEnd: bytes)
    ensures !RangeKeyContainsNullByte(k, rangeEnd) && !RangeEndContainsNullByte(rangeEnd) <==> RangeOk(k, rangeEnd)
    ensures rangeEnd == [] && RangeOk(k, rangeEnd) ==> NullFree(k)
  {
    assert |k| == 1 && k[0] == 0 <==> k == WILDCARD;
    assert |rangeEnd| == 1 && rangeEnd[0] == 0 <==> rangeEnd == WILDCARD;
  }

  predicate RequestOk(r: Request) {
    match r
    case NoRequest => true
    case RangeArm(p) => p.Some? ==> RangeOk(p.value.key, p.value.rangeEnd)
    case PutArm(p) => p.Some? ==> NullFree(p.value.key)
    case DeleteArm(p) => p.Some? ==> RangeOk(p.value.key, p.value.rangeEnd)
  }

  function CheckRange(k: bytes, rangeEnd: bytes): Option<Violation> {
    if RangeKeyContainsNullByte(k, rangeEnd) then Some(KeyHasNull)
    else if RangeEndContainsNullByte(rangeEnd) then Some(RangeEndHasNull)
    else None
  }

  /** validateRequestOpKeys; a set arm without payload is not looked at. */
  function ValidateRequestOpKeys(op: RequestOp): (r: Option<Violation>)
    ensures r.None? <==> RequestOk(op.request)
  {
    match op.request
    case NoRequest => None
    case RangeArm(Some(p)) => RangeChecks(p.key, p.rangeEnd); CheckRange(p.key, p.rangeEnd)
    case PutArm(Some(p)) => if 0 in p.key then Some(KeyHasNull) else None
    case DeleteArm(Some(p)) => RangeChecks(p.key, p.rangeEnd); CheckRange(p.key, p.rangeEnd)
    case _ => None
  }

  method ValidateOps(ops: seq<RequestOp>) returns (r: Option<Violation>)
    ensures r.None? <==> forall i :: 0 <= i < |ops| ==> RequestOk(ops[i].request)
  {
    for i := 0 to |ops|
      invariant forall j :: 0 <= j < i ==> RequestOk(ops[j].request)
    {
      var violation := ValidateRequestOpKeys(ops[i]);
      if violation.Some? {
        return violation;
      }
    }
    return None;
  }

  /** validateTxnKeys: a transaction passes exactly when all keys in all its conditions and branches are in order. */
  method ValidateTxnKeys(compares: seq<Messages.Compare>, success: seq<RequestOp>, failure: seq<RequestOp>)
    returns (r: Option<Violation>)
    ensures r.None? <==>
      && (forall i :: 0 <= i < |compares| ==> RangeOk(compares[i].key, compares[i].rangeEnd))
      && (forall i :: 0 <= i < |success| ==> RequestOk(success[i].request))
      && (forall i :: 0 <= i < |failure| ==> RequestOk(failure[i].request))
  {
    for i := 0 to |compares|
      invariant forall j :: 0 <= j < i ==> RangeOk(compares[j].key, compares[j].rangeEnd)
    {
      RangeChecks(compares[i].key, compares[i].rangeEnd);
      var violation := CheckRange(compares[i].key, compares[i].rangeEnd);
      if violation.Some? {
        return violation;
      }
    }
    r := ValidateOps(success);
    if r.None? {
      r := ValidateOps(failure);
    }
  }

  /** KVServer.Put up to the call into storage. */
  function ValidatePut(table: bytes, k: bytes): (r: Option<Violation>)
    ensures r.None? <==> table != [] && k != [] && NullFree(k)
  {
    if |table| == 0 then Some(TableNotSet)
    else if |k| == 0 then Some(KeyNotSet)
    else if 0 in k then Some(KeyHasNull)
    else None
  }

  /** Keys that Put lets through are ordered, split and grouped as the key space needs. */
  lemma AcceptedKeysAreOrdered(table: bytes, u: bytes, s: uint64, table': bytes, u': bytes, s': uint64)
    requires ValidatePut(table, u).None? && ValidatePut(table', u').None?
    ensures var a, b := Physical(TYPE_USER, u, s), Physical(TYPE_USER, u', s');
      && CompareBytes(a, b) == CompareSplit(a, b) == (if u != u' then CompareBytes(u, u') else Sign(s', s))
      && (a[..Split(a)] == b[..Split(b)] <==> u == u')
      && (a == b <==> u == u' && s == s')
  {
    PhysicalOrder(TYPE_USER, u, s, TYPE_USER, u', s');
    SplitAgrees(TYPE_USER, u, s, TYPE_USER, u', s');
    SamePrefixIsSameKey(TYPE_USER, u, s, TYPE_USER, u', s');
    if Physical(TYPE_USER, u, s) == Physical(TYPE_USER, u', s') {
      PhysicalInjective(TYPE_USER, u, s, TYPE_USER, u', s');
    }
  }
}
