/** What a garbage collection sweep leaves of a table. */
module GcTheorems {
  import opened Wire
  import opened MvccKeys
  import opened BlockFilter
  import opened GcSweep

  predicate IsUser(k: Key) {
    TypeOf(k) == TYPE_USER
  }

  /** `a` and `b` are versions of one user key. */
  predicate SameUser(a: Key, b: Key) {
    IsUser(a) && IsUser(b) && UserOf(a) == UserOf(b)
  }

  lemma SameUserPrefix(a: Key, b: Key)
    requires IsUser(a)
    ensures SameUser(a, b) <==> PrefixOf(a) == PrefixOf(b)
  {
    SamePrefix(a, b);
  }

  lemma SameVersion(a: Key, b: Key)
    requires SameUser(a, b) && SeqnoOf(a) == SeqnoOf(b)
    ensures a == b
  {
  }

  lemma OldIff(k: Key, gcIndex: uint64)
    ensures Old(k, gcIndex) <==> SeqnoOf(k) < gcIndex
  {
    PhysicalParts(TypeOf(k), UserOf(k), SeqnoOf(k));
  }

  // ----- Visible values -----

  /** No version of its user key in the table is newer than `k`. */
  ghost predicate IsLatest(table: Table, k: Key) {
    k in table && forall k' :: k' in table && SameUser(k, k') ==> SeqnoOf(k') <= SeqnoOf(k)
  }

  /** Reading user key `u` gives `v`. */
  ghost predicate Shows(table: Table, u: bytes, v: bytes) {
    exists k: Key :: IsLatest(table, k) && IsUser(k) && UserOf(k) == u && table[k] == Live(v)
  }

  ghost predicate Deleted(ranges: seq<Range>, k: Key) {
    exists r :: r in ranges && Covers(r, k)
  }

  ghost function Swept(table: Table, ranges: seq<Range>): Table {
    map k | k in table && !Deleted(ranges, k) :: table[k]
  }

  /** No version at or above the horizon is lost and other key types are left alone. */
  ghost predicate KeepsNew(table: Table, table': Table, gcIndex: uint64) {
    forall k :: k in table && (!IsUser(k) || SeqnoOf(k) >= gcIndex) ==> k in table'
  }

  /** No value appears or disappears. */
  ghost predicate KeepsValues(table: Table, table': Table) {
    forall u, v :: Shows(table, u, v) <==> Shows(table', u, v)
  }

  /**
   The newest old version is a value at sequence number 0 and nothing newer was seen: the number below it wraps around.
   */
  ghost predicate Wraps(table: Table, visited: seq<Key>, gcIndex: uint64, i: int)
    requires Scan(table, visited)
  {
    FirstOld(visited, gcIndex, i) && SeqnoOf(visited[i]) == 0 && !LiveAbove(visited, gcIndex, i)
      && table[visited[i]].Live?
  }

  ghost predicate NeverWraps(table: Table, visited: seq<Key>, gcIndex: uint64)
    requires Scan(table, visited)
  {
    forall i :: 0 <= i < |visited| ==> !Wraps(table, visited, gcIndex, i)
  }

  /** The scan returned every key below the horizon. */
  ghost predicate SeesOld(table: Table, visited: seq<Key>, gcIndex: uint64) {
    forall k :: k in table && Old(k, gcIndex) ==> k in visited
  }

  /** `ranges` is what a sweep over `visited` deletes. */
  ghost predicate Sweeps(table: Table, visited: seq<Key>, gcIndex: uint64, ranges: seq<Range>) {
    Scan(table, visited) && EmittedAll(table, visited, gcIndex, |visited|, ranges)
  }

  /** The range that deletes a key. */
  lemma DeletedBy(table: Table, visited: seq<Key>, gcIndex: uint64, ranges: seq<Range>, k: Key) returns (i: nat)
    requires Sweeps(table, visited, gcIndex, ranges) && Deleted(ranges, k)
    ensures FirstOld(visited, gcIndex, i)
    ensures SameUser(visited[i], k) && SeqnoOf(k) <= Cut(table, visited, gcIndex, i)
  {
    var r :| r in ranges && Covers(r, k);
    assert Emitted(table, visited, gcIndex, |visited|, r);
    i :| 0 <= i < |visited| && FirstOld(visited, gcIndex, i) && r == RangeAt(table, visited, gcIndex, i);
    RangeAtCovers(table, visited, gcIndex, i, k);
  }

  lemma Deletes(table: Table, visited: seq<Key>, gcIndex: uint64, ranges: seq<Range>, k: Key, i: nat)
    requires Sweeps(table, visited, gcIndex, ranges) && FirstOld(visited, gcIndex, i)
    requires SameUser(visited[i], k) && SeqnoOf(k) <= Cut(table, visited, gcIndex, i)
    ensures Deleted(ranges, k)
  {
    RangeAtCovers(table, visited, gcIndex, i, k);
    assert RangeAt(table, visited, gcIndex, i) in ranges;
  }

  lemma CutIsOld(table: Table, visited: seq<Key>, gcIndex: uint64, i: nat)
    requires Scan(table, visited) && FirstOld(visited, gcIndex, i) && !Wraps(table, visited, gcIndex, i)
    ensures Cut(table, visited, gcIndex, i) <= SeqnoOf(visited[i]) < gcIndex
  {
  }

  lemma NewStays(table: Table, visited: seq<Key>, gcIndex: uint64, ranges: seq<Range>, k: Key)
    requires Sweeps(table, visited, gcIndex, ranges) && NeverWraps(table, visited, gcIndex)
    requires k in table && (!IsUser(k) || SeqnoOf(k) >= gcIndex)
    ensures !Deleted(ranges, k)
  {
    if Deleted(ranges, k) {
      var i := DeletedBy(table, visited, gcIndex, ranges, k);
      CutIsOld(table, visited, gcIndex, i);
      assert false;
    }
  }

  /** The key above the horizon that the sweep had seen. */
  lemma AboveIsNewer(table: Table, visited: seq<Key>, gcIndex: uint64, i: nat) returns (k: Key)
    requires Scan(table, visited) && i < |visited| && LiveAbove(visited, gcIndex, i) && IsUser(visited[i])
    ensures k in table && SameUser(visited[i], k) && SeqnoOf(k) >= gcIndex
  {
    var j :| 0 <= j < i && PrefixOf(visited[j]) == PrefixOf(visited[i]) && SeqnoOf(visited[j]) >= gcIndex;
    SameUserPrefix(visited[i], visited[j]);
    k := visited[j];
  }

  /** A visible value is not deleted. */
  lemma LatestStays(table: Table, visited: seq<Key>, gcIndex: uint64, ranges: seq<Range>, k: Key)
    requires Sweeps(table, visited, gcIndex, ranges) && NeverWraps(table, visited, gcIndex)
    requires IsLatest(table, k) && table[k].Live?
    ensures !Deleted(ranges, k)
  {
    if Deleted(ranges, k) {
      var i := DeletedBy(table, visited, gcIndex, ranges, k);
      CutIsOld(table, visited, gcIndex, i);
      assert visited[i] in table && SeqnoOf(visited[i]) <= SeqnoOf(k);
      SameVersion(k, visited[i]);
      if LiveAbove(visited, gcIndex, i) {
        var newer := AboveIsNewer(table, visited, gcIndex, i);
      }
      assert false;
    }
  }

  /** What is deleted takes everything older along, so nothing old comes to light. */
  lemma NothingResurfaces(table: Table, visited: seq<Key>, gcIndex: uint64, ranges: seq<Range>, k: Key)
    requires Sweeps(table, visited, gcIndex, ranges) && IsLatest(Swept(table, ranges), k) && IsUser(k)
    ensures IsLatest(table, k)
  {
    forall k' | k' in table && SameUser(k, k')
      ensures SeqnoOf(k') <= SeqnoOf(k)
    {
      if SeqnoOf(k') > SeqnoOf(k) && Deleted(ranges, k') {
        var i := DeletedBy(table, visited, gcIndex, ranges, k');
        Deletes(table, visited, gcIndex, ranges, k, i);
        assert false;
      }
    }
  }

  lemma ShowsSame(table: Table, visited: seq<Key>, gcIndex: uint64, ranges: seq<Range>, u: bytes, v: bytes)
    requires Sweeps(table, visited, gcIndex, ranges) && NeverWraps(table, visited, gcIndex)
    ensures Shows(table, u, v) <==> Shows(Swept(table, ranges), u, v)
  {
    var table' := Swept(table, ranges);
    if Shows(table, u, v) {
      var k: Key :| IsLatest(table, k) && IsUser(k) && UserOf(k) == u && table[k] == Live(v);
      LatestStays(table, visited, gcIndex, ranges, k);
      assert IsLatest(table', k);
    }
    if Shows(table', u, v) {
      var k: Key :| IsLatest(table', k) && IsUser(k) && UserOf(k) == u && table'[k] == Live(v);
      NothingResurfaces(table, visited, gcIndex, ranges, k);
    }
  }

  lemma PreservedWithoutWrap(table: Table, visited: seq<Key>, gcIndex: uint64, ranges: seq<Range>)
    requires Sweeps(table, visited, gcIndex, ranges) && NeverWraps(table, visited, gcIndex)
    ensures KeepsNew(table, Swept(table, ranges), gcIndex) && KeepsValues(table, Swept(table, ranges))
  {
    forall k | k in table && (!IsUser(k) || SeqnoOf(k) >= gcIndex)
      ensures k in Swept(table, ranges)
    {
      NewStays(table, visited, gcIndex, ranges, k);
    }
    forall u: bytes, v: bytes
      ensures Shows(table, u, v) <==> Shows(Swept(table, ranges), u, v)
    {
      ShowsSame(table, visited, gcIndex, ranges, u, v);
    }
  }

  // ----- Wrap-around -----

  /** In a sorted scan, of two versions of one user key the newer comes first. */
  lemma NewerFirst(table: Table, visited: seq<Key>, i: nat, j: nat)
    requires Scan(table, visited) && i < |visited| && j < |visited| && SameUser(visited[i], visited[j])
    ensures SeqnoOf(visited[i]) > SeqnoOf(visited[j]) <==> i < j
  {
    var a, b := visited[i], visited[j];
    if i < j {
      PhysicalOrder(TypeOf(a), UserOf(a), SeqnoOf(a), TypeOf(b), UserOf(b), SeqnoOf(b));
    } else if j < i {
      PhysicalOrder(TypeOf(b), UserOf(b), SeqnoOf(b), TypeOf(a), UserOf(a), SeqnoOf(a));
    }
  }

  lemma NoOtherOld(table: Table, visited: seq<Key>, gcIndex: uint64, i: nat, k: Key)
    requires Scan(table, visited) && SeesOld(table, visited, gcIndex) && FirstOld(visited, gcIndex, i)
    requires k in table && SameUser(visited[i], k) && SeqnoOf(k) > SeqnoOf(visited[i])
    ensures SeqnoOf(k) >= gcIndex
  {
    if SeqnoOf(k) < gcIndex {
      var j := OldIsVisited(table, visited, gcIndex, k);
      SameUserPrefix(visited[i], k);
      NewerFirst(table, visited, j, i);
      assert false;
    }
  }

  /** Where the cut wraps around, every version of the user key is deleted. */
  lemma WrapDeletesAll(table: Table, visited: seq<Key>, gcIndex: uint64, ranges: seq<Range>, i: nat, k: Key)
    requires Sweeps(table, visited, gcIndex, ranges) && Wraps(table, visited, gcIndex, i) && SameUser(visited[i], k)
    ensures Deleted(ranges, k)
  {
    Deletes(table, visited, gcIndex, ranges, k, i);
  }

  lemma WrapIsLatest(table: Table, visited: seq<Key>, gcIndex: uint64, ranges: seq<Range>, i: nat)
    requires Sweeps(table, visited, gcIndex, ranges) && SeesOld(table, visited, gcIndex)
    requires Wraps(table, visited, gcIndex, i)
    requires KeepsNew(table, Swept(table, ranges), gcIndex)
    ensures IsLatest(table, visited[i])
  {
    forall k | k in table && SameUser(visited[i], k)
      ensures SeqnoOf(k) <= SeqnoOf(visited[i])
    {
      if SeqnoOf(k) > SeqnoOf(visited[i]) {
        NoOtherOld(table, visited, gcIndex, i, k);
        WrapDeletesAll(table, visited, gcIndex, ranges, i, k);
        assert false;
      }
    }
  }

  lemma WrapHides(table: Table, visited: seq<Key>, gcIndex: uint64, ranges: seq<Range>, i: nat, v: bytes)
    requires Sweeps(table, visited, gcIndex, ranges) && Wraps(table, visited, gcIndex, i)
    ensures !Shows(Swept(table, ranges), UserOf(visited[i]), v)
  {
    if Shows(Swept(table, ranges), UserOf(visited[i]), v) {
      var k: Key :| IsLatest(Swept(table, ranges), k) && IsUser(k) && UserOf(k) == UserOf(visited[i]);
      WrapDeletesAll(table, visited, gcIndex, ranges, i, k);
      assert false;
    }
  }

  lemma LostByWrap(table: Table, visited: seq<Key>, gcIndex: uint64, ranges: seq<Range>, i: nat)
    requires Sweeps(table, visited, gcIndex, ranges) && SeesOld(table, visited, gcIndex)
    requires Wraps(table, visited, gcIndex, i)
    requires KeepsNew(table, Swept(table, ranges), gcIndex)
    ensures !KeepsValues(table, Swept(table, ranges))
  {
    var u, v := UserOf(visited[i]), table[visited[i]].value;
    WrapIsLatest(table, visited, gcIndex, ranges, i);
    WrapHides(table, visited, gcIndex, ranges, i, v);
    assert Shows(table, u, v) && !Shows(Swept(table, ranges), u, v);
  }

  /**
   A sweep over a scan that returns every old key loses nothing if and only if no user key has a value at
   sequence number 0 as its newest old version with nothing newer in the scan.
   */
  lemma SweepPreservesIff(table: Table, visited: seq<Key>, gcIndex: uint64, ranges: seq<Range>)
    requires Sweeps(table, visited, gcIndex, ranges) && SeesOld(table, visited, gcIndex)
    ensures KeepsNew(table, Swept(table, ranges), gcIndex) && KeepsValues(table, Swept(table, ranges)) <==>
      NeverWraps(table, visited, gcIndex)
  {
    if NeverWraps(table, visited, gcIndex) {
      PreservedWithoutWrap(table, visited, gcIndex, ranges);
    } else if KeepsNew(table, Swept(table, ranges), gcIndex) {
      var i :| 0 <= i < |visited| && Wraps(table, visited, gcIndex, i);
      LostByWrap(table, visited, gcIndex, ranges, i);
    }
  }

  /** The table with one value for `u`, written at sequence number 0. */
  function OneValueAtZero(u: bytes, v: bytes): Table
    requires NullFree(u)
  {
    PhysicalDecodes(TYPE_USER, u, 0);
    var k: Key := Physical(TYPE_USER, u, 0);
    map[k := Live(v)]
  }

  /** A sweep empties that table, whatever the horizon. */
  lemma ValueAtZeroIsLost(u: bytes, v: bytes, gcIndex: uint64, visited: seq<Key>, ranges: seq<Range>)
    requires NullFree(u) && gcIndex > 0 && visited == [Physical(TYPE_USER, u, 0)]
    requires Sweeps(OneValueAtZero(u, v), visited, gcIndex, ranges)
    ensures Shows(OneValueAtZero(u, v), u, v) && Swept(OneValueAtZero(u, v), ranges) == map[]
  {
    var table := OneValueAtZero(u, v);
    PhysicalDecodes(TYPE_USER, u, 0);
    assert IsLatest(table, visited[0]);
    assert Wraps(table, visited, gcIndex, 0);
    WrapDeletesAll(table, visited, gcIndex, ranges, 0, visited[0]);
  }

  /** There is such a scan and such a sweep. */
  lemma OneValueIsScanned(u: bytes, v: bytes, gcIndex: uint64, visited: seq<Key>)
    requires NullFree(u) && gcIndex > 0 && visited == [Physical(TYPE_USER, u, 0)]
    ensures Scan(OneValueAtZero(u, v), visited)
    ensures Sweeps(OneValueAtZero(u, v), visited, gcIndex, [RangeAt(OneValueAtZero(u, v), visited, gcIndex, 0)])
  {
    var table := OneValueAtZero(u, v);
    PhysicalDecodes(TYPE_USER, u, 0);
    assert FirstOld(visited, gcIndex, 0);
    assert Emitted(table, visited, gcIndex, 1, RangeAt(table, visited, gcIndex, 0));
  }

  // ----- What is reclaimed -----

  /** The newest old version of the user key of a scanned old key. */
  lemma {:induction false} FindFirstOld(table: Table, visited: seq<Key>, gcIndex: uint64, j: nat) returns (i: nat)
    requires Scan(table, visited) && j < |visited| && IsUser(visited[j]) && SeqnoOf(visited[j]) < gcIndex
    ensures FirstOld(visited, gcIndex, i) && SameUser(visited[i], visited[j])
    ensures SeqnoOf(visited[j]) <= SeqnoOf(visited[i])
    decreases j
  {
    if FirstOld(visited, gcIndex, j) {
      i := j;
    } else {
      var j' :| 0 <= j' < j && PrefixOf(visited[j']) == PrefixOf(visited[j]) && SeqnoOf(visited[j']) < gcIndex;
      SameUserPrefix(visited[j], visited[j']);
      NewerFirst(table, visited, j', j);
      i := FindFirstOld(table, visited, gcIndex, j');
    }
  }

  lemma FirstOldOf(table: Table, visited: seq<Key>, gcIndex: uint64, k: Key) returns (i: nat)
    requires Scan(table, visited) && SeesOld(table, visited, gcIndex)
    requires k in table && IsUser(k) && SeqnoOf(k) < gcIndex
    ensures FirstOld(visited, gcIndex, i) && SameUser(visited[i], k) && SeqnoOf(k) <= SeqnoOf(visited[i])
  {
    var j := OldIsVisited(table, visited, gcIndex, k);
    i := FindFirstOld(table, visited, gcIndex, j);
  }

  lemma OldIsVisited(table: Table, visited: seq<Key>, gcIndex: uint64, k: Key) returns (j: nat)
    requires SeesOld(table, visited, gcIndex) && k in table && SeqnoOf(k) < gcIndex
    ensures j < |visited| && visited[j] == k
  {
    OldIff(k, gcIndex);
    j :| 0 <= j < |visited| && visited[j] == k;
  }

  /** Each old version that survives is the newest old one, a value, with nothing newer seen. */
  lemma Survivor(table: Table, visited: seq<Key>, gcIndex: uint64, ranges: seq<Range>, k: Key) returns (i: nat)
    requires Sweeps(table, visited, gcIndex, ranges) && SeesOld(table, visited, gcIndex)
    requires k in table && !Deleted(ranges, k) && IsUser(k) && SeqnoOf(k) < gcIndex
    ensures FirstOld(visited, gcIndex, i) && visited[i] == k
    ensures !LiveAbove(visited, gcIndex, i) && table[k].Live?
  {
    i := FirstOldOf(table, visited, gcIndex, k);
    if SeqnoOf(k) <= Cut(table, visited, gcIndex, i) {
      Deletes(table, visited, gcIndex, ranges, k, i);
      assert false;
    }
    SurvivorIsFirst(table, visited, gcIndex, i, k);
    SameVersion(visited[i], k);
  }

  lemma SurvivorIsFirst(table: Table, visited: seq<Key>, gcIndex: uint64, i: nat, k: Key)
    requires Scan(table, visited) && i < |visited|
    requires SeqnoOf(k) <= SeqnoOf(visited[i]) && SeqnoOf(k) > Cut(table, visited, gcIndex, i)
    ensures SeqnoOf(k) == SeqnoOf(visited[i]) && !LiveAbove(visited, gcIndex, i) && table[visited[i]].Live?
  {
  }

  /**
   Below the horizon at most one version of a user key survives. It is a value, not a tombstone, and if the scan
   skipped nothing then it is the latest version of its user key.
   */
  lemma SweepReclaims(table: Table, visited: seq<Key>, gcIndex: uint64, ranges: seq<Range>, k: Key)
    requires Sweeps(table, visited, gcIndex, ranges) && SeesOld(table, visited, gcIndex)
    requires k in Swept(table, ranges) && IsUser(k) && SeqnoOf(k) < gcIndex
    ensures table[k].Live?
    ensures forall k' :: k' in Swept(table, ranges) && SameUser(k, k') && SeqnoOf(k') < gcIndex ==> k' == k
    ensures (forall k' :: k' in table ==> k' in visited) ==> IsLatest(table, k)
  {
    var i := Survivor(table, visited, gcIndex, ranges, k);
    forall k' | k' in Swept(table, ranges) && SameUser(k, k') && SeqnoOf(k') < gcIndex
      ensures k' == k
    {
      var i' := Survivor(table, visited, gcIndex, ranges, k');
      SameUserPrefix(k, k');
      assert i == i';
    }
    if forall k' :: k' in table ==> k' in visited {
      forall k' | k' in table && SameUser(k, k')
        ensures SeqnoOf(k') <= SeqnoOf(k)
      {
        if SeqnoOf(k') > SeqnoOf(k) {
          NewerWasSeen(table, visited, gcIndex, i, k');
          assert false;
        }
      }
    }
  }

  lemma NewerWasSeen(table: Table, visited: seq<Key>, gcIndex: uint64, i: nat, k: Key)
    requires Scan(table, visited) && FirstOld(visited, gcIndex, i) && k in visited && SameUser(visited[i], k)
    requires SeqnoOf(k) > SeqnoOf(visited[i])
    ensures LiveAbove(visited, gcIndex, i)
  {
    var j :| 0 <= j < |visited| && visited[j] == k;
    SameUserPrefix(visited[i], k);
    NewerFirst(table, visited, j, i);
  }

  // ----- Through the block filter -----

  /** However a table is cut into blocks, a scan through the block filter is one the sweep can rely on. */
  lemma FilteredScan(table: Table, blocks: seq<seq<bytes>>, gcIndex: uint64, visited: seq<Key>)
    requires Sorted(Concat(blocks)) && visited == Visited(blocks, gcIndex)
    requires forall k: bytes :: k in Concat(blocks) <==> WellFormed(k) && k in table
    ensures Scan(table, visited) && SeesOld(table, visited, gcIndex)
  {
    VisitedIsSorted(blocks, gcIndex);
    forall k: Key
      ensures k in visited ==> k in table
      ensures k in table && Old(k, gcIndex) ==> k in visited
    {
      VisitedHasAllOld(blocks, gcIndex, k);
    }
  }
}
