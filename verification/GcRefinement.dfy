/** A sweep over physical keys is a step that replication allows. */
module GcRefinement {
  import opened Common
  import opened Wire
  import opened MvccKeys
  import opened BlockFilter
  import opened GcSweep
  import G = GcTheorems
  import R = Replication
  import P = ReplicationProtocol

  function Content(c: Cell): Option<bytes> {
    match c
    case Live(v) => Some(v)
    case Tombstone => None
  }

  function VersionOf(k: Key): R.Version {
    R.Version(UserOf(k), SeqnoOf(k))
  }

  /** `store` holds what the user keys of `table` hold. */
  ghost predicate Represents(table: Table, store: R.Store) {
    && (forall k :: k in table && G.IsUser(k) ==> VersionOf(k) in store && store[VersionOf(k)] == Content(table[k]))
    && (forall v :: v in store ==> exists k :: k in table && G.IsUser(k) && VersionOf(k) == v)
  }

  lemma KeyOf(table: Table, store: R.Store, v: R.Version) returns (k: Key)
    requires Represents(table, store) && v in store
    ensures k in table && G.IsUser(k) && VersionOf(k) == v && store[v] == Content(table[k])
  {
    k :| k in table && G.IsUser(k) && VersionOf(k) == v;
  }

  lemma LatestInStore(table: Table, store: R.Store, k: Key)
    requires Represents(table, store) && G.IsLatest(table, k) && G.IsUser(k)
    ensures R.IsLatest(store, UserOf(k), SeqnoOf(k)) && store[VersionOf(k)] == Content(table[k])
  {
    forall s: nat | R.Version(UserOf(k), s) in store
      ensures s <= SeqnoOf(k)
    {
      var k' := KeyOf(table, store, R.Version(UserOf(k), s));
      assert G.SameUser(k, k');
    }
  }

  lemma LatestInTable(table: Table, store: R.Store, u: bytes, s: nat) returns (k: Key)
    requires Represents(table, store) && R.IsLatest(store, u, s)
    ensures G.IsLatest(table, k) && G.IsUser(k) && UserOf(k) == u && store[R.Version(u, s)] == Content(table[k])
  {
    k := KeyOf(table, store, R.Version(u, s));
    forall k' | k' in table && G.SameUser(k, k')
      ensures SeqnoOf(k') <= SeqnoOf(k)
    {
      assert VersionOf(k') == R.Version(u, SeqnoOf(k'));
    }
  }

  ghost predicate StoreShows(store: R.Store, u: bytes, v: bytes) {
    exists s: nat :: R.IsLatest(store, u, s) && store[R.Version(u, s)] == Some(v)
  }

  lemma ShowsAgrees(table: Table, store: R.Store, u: bytes, v: bytes)
    requires Represents(table, store)
    ensures G.Shows(table, u, v) <==> StoreShows(store, u, v)
  {
    if G.Shows(table, u, v) {
      var k: Key :| G.IsLatest(table, k) && G.IsUser(k) && UserOf(k) == u && table[k] == Live(v);
      LatestInStore(table, store, k);
    }
    if StoreShows(store, u, v) {
      var s: nat :| R.IsLatest(store, u, s) && store[R.Version(u, s)] == Some(v);
      var k := LatestInTable(table, store, u, s);
    }
  }

  lemma ShowsStay(table: Table, table': Table, store: R.Store, store': R.Store, u: bytes, v: bytes)
    requires Represents(table, store) && Represents(table', store') && G.KeepsValues(table, table')
    ensures StoreShows(store, u, v) <==> StoreShows(store', u, v)
  {
    ShowsAgrees(table, store, u, v);
    ShowsAgrees(table', store', u, v);
  }

  lemma ReadsStay(store: R.Store, store': R.Store, kv: R.Kv)
    requires R.Shows(store, kv) && forall u, v :: StoreShows(store, u, v) <==> StoreShows(store', u, v)
    ensures R.Shows(store', kv)
  {
    forall u: bytes, v: bytes
      ensures R.Read(kv, u) == Some(v) <==> StoreShows(store', u, v)
    {
      assert R.Read(kv, u) == Some(v) <==> StoreShows(store, u, v);
    }
  }

  /** What the sweep keeps is what replication needs a collection step to keep. */
  lemma SweptReclaims(table: Table, table': Table, store: R.Store, store': R.Store, gcIndex: uint64)
    requires Represents(table, store) && Represents(table', store')
    requires forall k :: k in table' ==> k in table && table'[k] == table[k]
    requires G.KeepsNew(table, table', gcIndex) && G.KeepsValues(table, table')
    ensures R.Reclaims(store, store', gcIndex)
  {
    forall v | v in store'
      ensures v in store && store'[v] == store[v]
    {
      var k := KeyOf(table', store', v);
    }
    forall v | v in store && v.seqno >= gcIndex
      ensures v in store'
    {
      var k := KeyOf(table, store, v);
    }
    forall u: bytes, v: bytes
      ensures StoreShows(store, u, v) <==> StoreShows(store', u, v)
    {
      ShowsStay(table, table', store, store', u, v);
    }
    forall kv | R.Shows(store, kv)
      ensures R.Shows(store', kv)
    {
      ReadsStay(store, store', kv);
    }
  }

  /** Versions are numbered from 1 on, so the predecessor of a version's number is below it. */
  lemma NumberedNeverWraps(table: Table, store: R.Store, log: seq<R.Entry>, applied: nat, visited: seq<Key>,
                           gcIndex: uint64)
    requires Scan(table, visited) && Represents(table, store)
    requires applied <= |log| && R.RightVersions(store, log, applied)
    ensures G.NeverWraps(table, visited, gcIndex)
  {
    forall i | 0 <= i < |visited|
      ensures !G.Wraps(table, visited, gcIndex, i)
    {
      if G.IsUser(visited[i]) {
        assert VersionOf(visited[i]) in store;
      }
    }
  }

  /** The versions of `store` that are still in `table`. */
  ghost function Rest(store: R.Store, table: Table): R.Store {
    map v | v in store && HasVersion(table, v) :: store[v]
  }

  ghost predicate HasVersion(table: Table, v: R.Version) {
    exists k :: k in table && G.IsUser(k) && VersionOf(k) == v
  }

  lemma RestRepresents(table: Table, table': Table, store: R.Store)
    requires Represents(table, store) && forall k :: k in table' ==> k in table && table'[k] == table[k]
    ensures Represents(table', Rest(store, table'))
  {
    forall k | k in table' && G.IsUser(k)
      ensures VersionOf(k) in Rest(store, table') && Rest(store, table')[VersionOf(k)] == Content(table'[k])
    {
      assert HasVersion(table', VersionOf(k));
    }
    forall v | v in Rest(store, table')
      ensures exists k :: k in table' && G.IsUser(k) && VersionOf(k) == v
    {
      assert HasVersion(table', v);
    }
  }

  /** `ranges` is what a sweep through the filtered blocks of `table` deletes. */
  ghost predicate FilteredSweep(table: Table, blocks: seq<seq<bytes>>, visited: seq<Key>, gcIndex: uint64,
                                ranges: seq<Range>)
  {
    && Sorted(Concat(blocks)) && (forall k: bytes :: k in Concat(blocks) <==> WellFormed(k) && k in table)
    && visited == Visited(blocks, gcIndex)
    && Scan(table, visited) && EmittedAll(table, visited, gcIndex, |visited|, ranges)
  }

  /** The whole way: blocks, filter, sweep and range deletions give a collection step of the replicated store. */
  lemma FilteredSweepReclaims(table: Table, blocks: seq<seq<bytes>>, visited: seq<Key>, gcIndex: uint64,
                              ranges: seq<Range>, store: R.Store, log: seq<R.Entry>, applied: nat)
    requires FilteredSweep(table, blocks, visited, gcIndex, ranges) && Represents(table, store)
    requires applied <= |log| && R.RightVersions(store, log, applied)
    ensures var table' := G.Swept(table, ranges);
      Represents(table', Rest(store, table')) && R.Reclaims(store, Rest(store, table'), gcIndex)
  {
    var table' := G.Swept(table, ranges);
    G.FilteredScan(table, blocks, gcIndex, visited);
    NumberedNeverWraps(table, store, log, applied, visited, gcIndex);
    G.SweepPreservesIff(table, visited, gcIndex, ranges);
    RestRepresents(table, table', store);
    SweptReclaims(table, table', store, Rest(store, table'), gcIndex);
  }

  /** In every state a run can reach, a sweep up to the horizon is a step that can be taken, to another such state. */
  lemma SweepIsStep(s: P.State, table: Table, blocks: seq<seq<bytes>>, visited: seq<Key>, gcIndex: uint64,
                    ranges: seq<Range>)
    requires P.Inv(s) && s.leader.horizon == gcIndex
    requires FilteredSweep(table, blocks, visited, gcIndex, ranges) && Represents(table, s.leader.store)
    ensures var table' := G.Swept(table, ranges);
      var sweep := P.Sweep(Rest(s.leader.store, table'));
      && P.Enabled(s, sweep) && P.Inv(P.Next(s, sweep))
      && Represents(table', P.Next(s, sweep).leader.store)
  {
    var l, table' := s.leader, G.Swept(table, ranges);
    FilteredSweepReclaims(table, blocks, visited, gcIndex, ranges, l.store, P.Log(l), l.applied);
    P.StepKeepsInv(s, P.Sweep(Rest(l.store, table')));
  }
}
