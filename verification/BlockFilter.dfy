/** The sequence number interval recorded for each block of a table, and the filter a sweep uses to skip blocks. */
module BlockFilter {
  import opened Wire
  import opened MvccKeys

  /** The half-open interval [lower, upper) of a block. */
  datatype Interval = Interval(lower: uint64, upper: uint64) {
    predicate IsEmpty() {
      lower >= upper
    }

    predicate Intersects(other: Interval) {
      upper > other.lower && lower < other.upper
    }

    function Union(other: Interval): Interval {
      if other.IsEmpty() then this
      else if IsEmpty() then other
      else
        Interval(if lower < other.lower then lower else other.lower, if upper > other.upper then upper else other.upper)
    }
  }

  const NOTHING := Interval(0, 0)

  /** A key that carries a sequence number for the filter. */
  predicate HasSeqno(k: bytes) {
    |k| > SEQ_LEN && k[0] == V2
  }

  /** MapPointKey: [seqno, seqno + 1) with the addition modulo 2^64. */
  function MapPointKey(k: bytes): Interval {
    if |k| <= SEQ_LEN || k[0] != V2 then NOTHING
    else Interval(SeqnoOf(k), (SeqnoOf(k) + 1) % TWO_64)
  }

  /** What the collector records for a block. */
  function Collect(block: seq<bytes>): Interval {
    if |block| == 0 then NOTHING else Collect(block[..|block| - 1]).Union(MapPointKey(block[|block| - 1]))
  }

  /** NewMVCCSeqnoFilter. */
  predicate Kept(block: seq<bytes>, gcIndex: uint64) {
    Collect(block).Intersects(Interval(0, gcIndex))
  }

  /** A key below the horizon. */
  predicate Old(k: bytes, gcIndex: uint64) {
    HasSeqno(k) && SeqnoOf(k) < gcIndex
  }

  predicate StartsBelow(i: Interval, bound: uint64) {
    !i.IsEmpty() && i.lower < bound
  }

  lemma UnionStartsBelow(i: Interval, j: Interval, bound: uint64)
    ensures StartsBelow(i.Union(j), bound) <==> StartsBelow(i, bound) || StartsBelow(j, bound)
    ensures i.Union(j).IsEmpty() ==> i.Union(j) == i
  {
  }

  lemma MapStartsBelow(k: bytes, bound: uint64)
    ensures StartsBelow(MapPointKey(k), bound) <==> Old(k, bound)
  {
  }

  ghost predicate HasOld(block: seq<bytes>, bound: uint64) {
    exists k :: k in block && Old(k, bound)
  }

  lemma HasOldAppend(front: seq<bytes>, last: bytes, bound: uint64)
    ensures HasOld(front + [last], bound) <==> HasOld(front, bound) || Old(last, bound)
  {
    if HasOld(front, bound) {
      var k :| k in front && Old(k, bound);
      assert k in front + [last];
    }
    assert last in front + [last];
  }

  /** A recorded interval starts below a bound exactly when some key of the block has its sequence number there. */
  lemma {:induction false} CollectIsMinimum(block: seq<bytes>, bound: uint64)
    ensures StartsBelow(Collect(block), bound) <==> HasOld(block, bound)
    ensures Collect(block).IsEmpty() ==> Collect(block) == NOTHING
    decreases |block|
  {
    if |block| > 0 {
      var front, last := block[..|block| - 1], block[|block| - 1];
      assert block == front + [last];
      CollectIsMinimum(front, bound);
      UnionStartsBelow(Collect(front), MapPointKey(last), bound);
      MapStartsBelow(last, bound);
      HasOldAppend(front, last, bound);
    }
  }

  /** A block is read exactly when it holds a key below the horizon. */
  lemma KeptIffOld(block: seq<bytes>, gcIndex: uint64)
    ensures Kept(block, gcIndex) <==> HasOld(block, gcIndex)
  {
    CollectIsMinimum(block, gcIndex);
  }

  function Concat(blocks: seq<seq<bytes>>): seq<bytes> {
    if |blocks| == 0 then [] else blocks[0] + Concat(blocks[1..])
  }

  /** The keys a filtered scan returns, block after block. */
  function Visited(blocks: seq<seq<bytes>>, gcIndex: uint64): seq<bytes> {
    if |blocks| == 0 then []
    else (if Kept(blocks[0], gcIndex) then blocks[0] else []) + Visited(blocks[1..], gcIndex)
  }

  /**
   However the keys are cut into blocks, a filtered scan returns every key below the horizon, and no key the table
   does not hold.
   */
  lemma {:induction false} VisitedHasAllOld(blocks: seq<seq<bytes>>, gcIndex: uint64, k: bytes)
    ensures k in Concat(blocks) && Old(k, gcIndex) ==> k in Visited(blocks, gcIndex)
    ensures k in Visited(blocks, gcIndex) ==> k in Concat(blocks)
    decreases |blocks|
  {
    if |blocks| > 0 {
      VisitedHasAllOld(blocks[1..], gcIndex, k);
      KeptIffOld(blocks[0], gcIndex);
    }
  }

  ghost predicate Sorted(keys: seq<bytes>) {
    forall i, j :: 0 <= i < j < |keys| ==> CompareBytes(keys[i], keys[j]) < 0
  }

  lemma SortedParts(a: seq<bytes>, b: seq<bytes>)
    requires Sorted(a + b)
    ensures Sorted(a) && Sorted(b)
    ensures forall x, y :: x in a && y in b ==> CompareBytes(x, y) < 0
  {
    forall i, j | 0 <= i < j < |a|
      ensures CompareBytes(a[i], a[j]) < 0
    {
      assert (a + b)[i] == a[i] && (a + b)[j] == a[j];
    }
    forall i, j | 0 <= i < j < |b|
      ensures CompareBytes(b[i], b[j]) < 0
    {
      assert (a + b)[|a| + i] == b[i] && (a + b)[|a| + j] == b[j];
    }
    forall x, y | x in a && y in b
      ensures CompareBytes(x, y) < 0
    {
      var i :| 0 <= i < |a| && a[i] == x;
      var j :| 0 <= j < |b| && b[j] == y;
      assert (a + b)[i] == x && (a + b)[|a| + j] == y;
    }
  }

  /** Skipping blocks keeps the order of what is left. */
  lemma {:induction false} VisitedIsSorted(blocks: seq<seq<bytes>>, gcIndex: uint64)
    requires Sorted(Concat(blocks))
    ensures Sorted(Visited(blocks, gcIndex))
    decreases |blocks|
  {
    if |blocks| > 0 {
      SortedParts(blocks[0], Concat(blocks[1..]));
      VisitedIsSorted(blocks[1..], gcIndex);
      var rest := Visited(blocks[1..], gcIndex);
      forall y | y in rest
        ensures y in Concat(blocks[1..])
      {
        VisitedHasAllOld(blocks[1..], gcIndex, y);
      }
      if Kept(blocks[0], gcIndex) {
        SortedJoin(blocks[0], rest);
      } else {
        assert Visited(blocks, gcIndex) == rest;
      }
    }
  }

  lemma SortedJoin(a: seq<bytes>, b: seq<bytes>)
    requires Sorted(a) && Sorted(b) && forall x, y :: x in a && y in b ==> CompareBytes(x, y) < 0
    ensures Sorted(a + b)
  {
    forall i, j | 0 <= i < j < |a + b|
      ensures CompareBytes((a + b)[i], (a + b)[j]) < 0
    {
      if i < |a| <= j {
        assert a[i] in a && b[j - |a|] in b;
      }
    }
  }
}
