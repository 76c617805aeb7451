/**
 How snapshots are read off the physical keys: the first key of each user key is its latest version, and the iterator
 then jumps to the next user key.
 */
module SnapshotScan {
  import opened Common
  import opened Wire
  import opened MvccKeys
  import opened BlockFilter
  import opened GcSweep
  import opened GcTheorems
  import G = GcRefinement
  import R = Replication
  import P = ReplicationProtocol

  /** A PUT or DELETE command of a snapshot. */
  datatype Record = Record(key: bytes, seqno: uint64, cell: Cell)

  function RecordOf(table: Table, k: Key): Record
    requires k in table
  {
    Record(UserOf(k), SeqnoOf(k), table[k])
  }

  /** An unfiltered scan of the whole table. */
  ghost predicate FullScan(table: Table, keys: seq<Key>) {
    Scan(table, keys) && forall k :: k in table ==> k in keys
  }

  // ----- The jump -----

  const ONES: bytes := [255, 255, 255, 255, 255, 255, 255, 255]

  lemma OnesIsZero()
    ensures StoredSeqno(0) == ONES
  {
    ZeroBytes(SEQ_LEN);
  }

  /** The prefix of a key followed by ones is its version 0, the last key with that prefix. */
  lemma SeekKey(k: Key)
    ensures WellFormed(PrefixOf(k) + ONES)
    ensures var s: Key := PrefixOf(k) + ONES; PrefixOf(s) == PrefixOf(k) && SeqnoOf(s) == 0
  {
    OnesIsZero();
    WellFormedParts(k);
    PhysicalDecodes(TypeOf(k), UserOf(k), 0);
  }

  lemma NothingAfterZero(k: Key, s: Key)
    requires PrefixOf(k) == PrefixOf(s) && SeqnoOf(s) == 0
    ensures CompareBytes(k, s) <= 0
  {
    SamePrefix(k, s);
    PhysicalOrder(TypeOf(k), UserOf(k), SeqnoOf(k), TypeOf(s), UserOf(s), SeqnoOf(s));
  }

  lemma UpToZero(a: Key, b: Key, s: Key)
    requires PrefixOf(a) == PrefixOf(s) && CompareBytes(a, b) < 0 && CompareBytes(b, s) <= 0
    ensures PrefixOf(b) == PrefixOf(a)
  {
    CompareEqual(b, s);
    if CompareBytes(b, s) < 0 {
      Between(a, b, s);
    }
  }

  /** All keys from `n` up to `m` have the prefix of key `n`, and no key from `m` on has. */
  ghost predicate IsGroup(keys: seq<Key>, n: nat, m: nat) {
    && n < m <= |keys|
    && (forall j :: n <= j < m ==> PrefixOf(keys[j]) == PrefixOf(keys[n]))
    && (forall j :: m <= j < |keys| ==> PrefixOf(keys[j]) != PrefixOf(keys[n]))
  }

  /** The iterator's SeekGE, from a key on. */
  method SeekFrom(keys: seq<Key>, n: nat, target: bytes) returns (m: nat)
    requires n <= |keys|
    ensures n <= m <= |keys|
    ensures forall j :: n <= j < m ==> CompareBytes(keys[j], target) < 0
    ensures m < |keys| ==> CompareBytes(keys[m], target) >= 0
  {
    m := n;
    while m < |keys| && CompareBytes(keys[m], target) < 0
      invariant n <= m <= |keys|
      invariant forall j :: n <= j < m ==> CompareBytes(keys[j], target) < 0
    {
      m := m + 1;
    }
  }

  /** iterNextUserKey. */
  method NextUserKey(table: Table, keys: seq<Key>, n: nat) returns (m: nat)
    requires Scan(table, keys) && n < |keys|
    ensures IsGroup(keys, n, m)
  {
    SeekKey(keys[n]);
    var seek: Key := PrefixOf(keys[n]) + ONES;
    m := SeekFrom(keys, n, seek);
    ghost var landed := m;
    if m < |keys| {
      if keys[m] == seek {
        m := m + 1;
      }
    }
    GroupFound(table, keys, n, landed, m, seek);
  }

  ghost predicate Landed(keys: seq<Key>, n: nat, landed: nat, m: nat, seek: Key) {
    && n <= landed <= m <= |keys|
    && (forall j :: n <= j < landed ==> CompareBytes(keys[j], seek) < 0)
    && (landed < |keys| ==> CompareBytes(keys[landed], seek) >= 0)
    && m == if landed < |keys| && keys[landed] == seek then landed + 1 else landed
  }

  lemma GroupFound(table: Table, keys: seq<Key>, n: nat, landed: nat, m: nat, seek: Key)
    requires Scan(table, keys) && n < |keys| && PrefixOf(seek) == PrefixOf(keys[n]) && SeqnoOf(seek) == 0
    requires Landed(keys, n, landed, m, seek)
    ensures IsGroup(keys, n, m)
  {
    forall j | n <= j < m
      ensures PrefixOf(keys[j]) == PrefixOf(keys[n])
    {
      GroupUpTo(keys, n, landed, m, seek, j);
    }
    forall j | m <= j < |keys|
      ensures PrefixOf(keys[j]) != PrefixOf(keys[n])
    {
      GroupEnds(keys, n, landed, m, seek, j);
    }
    assert n < m;
  }

  lemma GroupUpTo(keys: seq<Key>, n: nat, landed: nat, m: nat, seek: Key, j: nat)
    requires Sorted(keys) && n < |keys| && PrefixOf(seek) == PrefixOf(keys[n]) && Landed(keys, n, landed, m, seek)
    requires n <= j < m
    ensures PrefixOf(keys[j]) == PrefixOf(keys[n])
  {
    if n < j < landed {
      assert CompareBytes(keys[n], keys[j]) < 0;
      UpToZero(keys[n], keys[j], seek);
    } else if j == landed {
      assert keys[j] == seek;
    }
  }

  /** In a sorted scan what follows a key that is not below `target` is above it. */
  lemma LaterIsGreater(keys: seq<Key>, i: nat, j: nat, target: bytes)
    requires Sorted(keys) && i <= j < |keys| && CompareBytes(keys[i], target) >= 0 && (i == j ==> keys[j] != target)
    ensures CompareBytes(keys[j], target) > 0
  {
    var a, b: bytes := keys[i], keys[j];
    CompareFlips(a, target);
    CompareFlips(b, target);
    CompareEqual(b, target);
    if i < j && CompareBytes(b, target) <= 0 {
      CompareTransitive(b, target, a);
      CompareFlips(a, b);
      assert false;
    }
  }

  lemma GroupEnds(keys: seq<Key>, n: nat, landed: nat, m: nat, seek: Key, j: nat)
    requires Sorted(keys) && n < |keys| && PrefixOf(seek) == PrefixOf(keys[n]) && SeqnoOf(seek) == 0
    requires Landed(keys, n, landed, m, seek) && m <= j < |keys|
    ensures PrefixOf(keys[j]) != PrefixOf(keys[n])
  {
    LaterIsGreater(keys, landed, j, seek);
    if PrefixOf(keys[j]) == PrefixOf(seek) {
      NothingAfterZero(keys[j], seek);
      assert false;
    }
  }

  // ----- Snapshots -----

  /** User keys before `n` are not met again. */
  ghost predicate Done(keys: seq<Key>, n: nat) {
    forall i, j :: 0 <= i < n <= j < |keys| && IsUser(keys[i]) ==> !SameUser(keys[i], keys[j])
  }

  /** The records are those of the latest versions among the first `n` keys that `wanted` picks. */
  ghost predicate Collected(table: Table, keys: seq<Key>, n: nat, wanted: Record -> bool, records: seq<Record>) {
    AreLatest(table, wanted, records) && Recorded(table, keys, n, wanted, records)
  }

  lemma NothingNewer(table: Table, keys: seq<Key>, n: nat, j: nat)
    requires Scan(table, keys) && n < |keys| && j < |keys| && Done(keys, n) && SameUser(keys[n], keys[j])
    ensures SeqnoOf(keys[j]) <= SeqnoOf(keys[n])
  {
    if j < n {
      assert SameUser(keys[j], keys[n]);
      assert false;
    }
    NewerFirst(table, keys, n, j);
  }

  /** Where nothing of its user key came before, a key is the latest version. */
  lemma FirstIsLatest(table: Table, keys: seq<Key>, n: nat)
    requires FullScan(table, keys) && n < |keys| && Done(keys, n) && IsUser(keys[n])
    ensures IsLatest(table, keys[n])
  {
    forall k | k in table && SameUser(keys[n], k)
      ensures SeqnoOf(k) <= SeqnoOf(keys[n])
    {
      var j :| 0 <= j < |keys| && keys[j] == k;
      NothingNewer(table, keys, n, j);
    }
  }

  lemma SkipOther(table: Table, keys: seq<Key>, n: nat, wanted: Record -> bool, records: seq<Record>)
    requires n < |keys| && Collected(table, keys, n, wanted, records) && Done(keys, n) && !IsUser(keys[n])
    ensures Collected(table, keys, n + 1, wanted, records) && Done(keys, n + 1)
  {
  }

  lemma GroupIsDone(keys: seq<Key>, n: nat, m: nat)
    requires n < |keys| && Done(keys, n) && IsUser(keys[n]) && IsGroup(keys, n, m)
    ensures Done(keys, m)
  {
    forall i, j | 0 <= i < m <= j < |keys| && IsUser(keys[i])
      ensures !SameUser(keys[i], keys[j])
    {
      if n <= i {
        SameUserPrefix(keys[i], keys[j]);
      }
    }
  }

  lemma OnlyFirstIsLatest(table: Table, keys: seq<Key>, n: nat, m: nat, j: nat)
    requires n < |keys| && IsGroup(keys, n, m) && n <= j < m && IsUser(keys[n]) && IsLatest(table, keys[n])
    requires IsLatest(table, keys[j])
    ensures keys[j] == keys[n]
  {
    SameUserPrefix(keys[n], keys[j]);
    SameVersion(keys[n], keys[j]);
  }

  ghost predicate Recorded(table: Table, keys: seq<Key>, n: nat, wanted: Record -> bool, records: seq<Record>) {
    n <= |keys| && forall j ::
      0 <= j < n && IsLatest(table, keys[j]) && IsUser(keys[j]) && wanted(RecordOf(table, keys[j])) ==>
      RecordOf(table, keys[j]) in records
  }

  /** The latest version stands for its whole group. */
  lemma GroupIsRecorded(table: Table, keys: seq<Key>, n: nat, m: nat, wanted: Record -> bool, records: seq<Record>,
                        all: seq<Record>)
    requires n < |keys| && Recorded(table, keys, n, wanted, records) && IsGroup(keys, n, m)
    requires IsUser(keys[n]) && IsLatest(table, keys[n])
    requires all == if wanted(RecordOf(table, keys[n])) then records + [RecordOf(table, keys[n])] else records
    ensures Recorded(table, keys, m, wanted, all)
  {
    forall j | 0 <= j < m && IsLatest(table, keys[j]) && IsUser(keys[j]) && wanted(RecordOf(table, keys[j]))
      ensures RecordOf(table, keys[j]) in all
    {
      if n <= j {
        OnlyFirstIsLatest(table, keys, n, m, j);
      } else {
        assert RecordOf(table, keys[j]) in records;
      }
    }
  }

  ghost predicate AreLatest(table: Table, wanted: Record -> bool, records: seq<Record>) {
    forall r :: r in records ==> wanted(r) && IsOfLatest(table, r)
  }

  ghost predicate IsOfLatest(table: Table, r: Record) {
    exists k :: IsLatest(table, k) && IsUser(k) && RecordOf(table, k) == r
  }

  lemma OneMoreLatest(table: Table, wanted: Record -> bool, records: seq<Record>, k: Key)
    requires AreLatest(table, wanted, records) && IsLatest(table, k) && IsUser(k) && wanted(RecordOf(table, k))
    ensures AreLatest(table, wanted, records + [RecordOf(table, k)])
  {
    assert IsOfLatest(table, RecordOf(table, k));
  }

  /** No user key is recorded twice. */
  ghost predicate OnePerKey(records: seq<Record>) {
    forall i, j :: 0 <= i < j < |records| ==> records[i].key != records[j].key
  }

  /** The records are of user keys among the first `n` keys. */
  ghost predicate RecordsBefore(keys: seq<Key>, n: nat, records: seq<Record>) {
    n <= |keys| && forall r :: r in records ==> SeenUser(keys, n, r.key)
  }

  ghost predicate SeenUser(keys: seq<Key>, n: nat, u: bytes)
    requires n <= |keys|
  {
    exists j :: 0 <= j < n && IsUser(keys[j]) && UserOf(keys[j]) == u
  }

  lemma SeenStays(keys: seq<Key>, n: nat, m: nat, u: bytes)
    requires n <= m <= |keys| && SeenUser(keys, n, u)
    ensures SeenUser(keys, m, u)
  {
    var j :| 0 <= j < n && IsUser(keys[j]) && UserOf(keys[j]) == u;
    assert j < m;
  }

  lemma BeforeStays(keys: seq<Key>, n: nat, m: nat, records: seq<Record>)
    requires RecordsBefore(keys, n, records) && n <= m <= |keys|
    ensures RecordsBefore(keys, m, records)
  {
    forall r | r in records
      ensures SeenUser(keys, m, r.key)
    {
      SeenStays(keys, n, m, r.key);
    }
  }

  lemma NewUser(keys: seq<Key>, n: nat, u: bytes)
    requires n < |keys| && Done(keys, n) && IsUser(keys[n]) && SeenUser(keys, n, u)
    ensures u != UserOf(keys[n])
  {
    var j :| 0 <= j < n && IsUser(keys[j]) && UserOf(keys[j]) == u;
    assert !SameUser(keys[j], keys[n]);
  }

  lemma RecordNewUser(keys: seq<Key>, n: nat, m: nat, records: seq<Record>, r: Record)
    requires RecordsBefore(keys, n, records) && OnePerKey(records) && n < m <= |keys| && Done(keys, n)
    requires IsUser(keys[n]) && r.key == UserOf(keys[n])
    ensures OnePerKey(records + [r]) && RecordsBefore(keys, m, records + [r])
  {
    BeforeStays(keys, n, m, records);
    assert SeenUser(keys, m, r.key);
    forall i | 0 <= i < |records|
      ensures records[i].key != r.key
    {
      NewUser(keys, n, records[i].key);
    }
  }

  /** What the loop does with user keys: record the first of each, if wanted, and jump. */
  method CollectLatest(table: Table, keys: seq<Key>, wanted: Record -> bool) returns (records: seq<Record>)
    requires FullScan(table, keys)
    ensures Collected(table, keys, |keys|, wanted, records) && OnePerKey(records)
  {
    records := [];
    var n := 0;
    while n < |keys|
      invariant Collected(table, keys, n, wanted, records) && Done(keys, n)
      invariant RecordsBefore(keys, n, records) && OnePerKey(records)
    {
      if TypeOf(keys[n]) != TYPE_USER {
        SkipOther(table, keys, n, wanted, records);
        BeforeStays(keys, n, n + 1, records);
        n := n + 1;
        continue;
      }
      FirstIsLatest(table, keys, n);
      var m := NextUserKey(table, keys, n);
      var r := RecordOf(table, keys[n]);
      ghost var before := records;
      BeforeStays(keys, n, m, records);
      if wanted(r) {
        OneMoreLatest(table, wanted, records, keys[n]);
        RecordNewUser(keys, n, m, records, r);
        records := records + [r];
      }
      GroupIsRecorded(table, keys, n, m, wanted, before, records);
      GroupIsDone(keys, n, m);
      n := m;
    }
  }

  function Above(base: nat): Record -> bool {
    (r: Record) => r.seqno > base
  }

  function AliveOnly(): Record -> bool {
    (r: Record) => r.cell.Live?
  }

  /** commandIncrementalSnapshot: the latest version of each user key, if it is above the effective base. */
  method IncrementalSnapshot(table: Table, keys: seq<Key>, requestedBase: nat, gcHorizon: nat)
    returns (records: seq<Record>, base: nat)
    requires FullScan(table, keys)
    ensures base == R.EffectiveBase(requestedBase, gcHorizon)
    ensures Collected(table, keys, |keys|, Above(base), records) && OnePerKey(records)
  {
    base := requestedBase;
    if gcHorizon > 0 && base <= gcHorizon {
      base := gcHorizon + 1;
    }
    records := CollectLatest(table, keys, Above(base));
  }

  /** commandSnapshot: the latest version of each user key, if it is not a tombstone. */
  method FullSnapshot(table: Table, keys: seq<Key>) returns (records: seq<Record>)
    requires FullScan(table, keys)
    ensures Collected(table, keys, |keys|, AliveOnly(), records) && OnePerKey(records)
  {
    records := CollectLatest(table, keys, AliveOnly());
  }

  /** `w` is what a receiver of the records writes. */
  ghost predicate Carries(records: seq<Record>, w: R.Writes) {
    && (forall r :: r in records ==> r.key in w && w[r.key] == G.Content(r.cell))
    && (forall u :: u in w ==> exists r :: r in records && r.key == u)
  }

  lemma RecordSource(table: Table, keys: seq<Key>, wanted: Record -> bool, records: seq<Record>, r: Record)
    returns (k: Key)
    requires Collected(table, keys, |keys|, wanted, records) && r in records
    ensures wanted(r) && IsLatest(table, k) && IsUser(k) && RecordOf(table, k) == r
  {
    assert IsOfLatest(table, r);
    k :| IsLatest(table, k) && IsUser(k) && RecordOf(table, k) == r;
  }

  lemma LatestRecorded(table: Table, keys: seq<Key>, wanted: Record -> bool, records: seq<Record>, k: Key)
    requires FullScan(table, keys) && Collected(table, keys, |keys|, wanted, records)
    requires IsLatest(table, k) && IsUser(k) && wanted(RecordOf(table, k))
    ensures RecordOf(table, k) in records
  {
    var j :| 0 <= j < |keys| && keys[j] == k;
  }

  lemma DeltaSource(table: Table, keys: seq<Key>, base: nat, records: seq<Record>, store: R.Store, w: R.Writes,
                    u: bytes) returns (s: nat)
    requires Collected(table, keys, |keys|, Above(base), records) && G.Represents(table, store) && Carries(records, w)
    requires u in w
    ensures s > base && R.IsLatest(store, u, s) && store[R.Version(u, s)] == w[u]
  {
    var r :| r in records && r.key == u;
    var k := RecordSource(table, keys, Above(base), records, r);
    G.LatestInStore(table, store, k);
    s := r.seqno;
  }

  lemma DeltaComplete(table: Table, keys: seq<Key>, base: nat, records: seq<Record>, store: R.Store, w: R.Writes,
                      u: bytes, s: nat)
    requires FullScan(table, keys) && Collected(table, keys, |keys|, Above(base), records)
    requires G.Represents(table, store) && Carries(records, w) && s > base && R.IsLatest(store, u, s)
    ensures u in w
  {
    var k := G.LatestInTable(table, store, u, s);
    LatestRecorded(table, keys, Above(base), records, k);
    assert RecordOf(table, k).key == u;
  }

  /** The records of an incremental snapshot are the delta that replication asks for. */
  lemma RecordsAreDelta(table: Table, keys: seq<Key>, base: nat, records: seq<Record>, store: R.Store, w: R.Writes)
    requires FullScan(table, keys) && Collected(table, keys, |keys|, Above(base), records)
    requires G.Represents(table, store) && Carries(records, w)
    ensures R.IsDelta(store, base, w)
  {
    forall u | u in w
      ensures exists s: nat :: s > base && R.IsLatest(store, u, s) && store[R.Version(u, s)] == w[u]
    {
      var s := DeltaSource(table, keys, base, records, store, w, u);
    }
    forall u: bytes, s: nat | s > base && R.IsLatest(store, u, s)
      ensures u in w
    {
      DeltaComplete(table, keys, base, records, store, w, u, s);
    }
  }

  /** The records of a full snapshot are the contents of the table. */
  lemma RecordsAreContents(table: Table, keys: seq<Key>, records: seq<Record>, store: R.Store, w: R.Writes)
    requires FullScan(table, keys) && Collected(table, keys, |keys|, AliveOnly(), records)
    requires G.Represents(table, store) && Carries(records, w)
    ensures R.Shows(store, R.Write(map[], w))
  {
    forall u: bytes, v: bytes
      ensures u in w && w[u] == Some(v) <==> G.StoreShows(store, u, v)
    {
      if u in w && w[u] == Some(v) {
        RecordShows(table, keys, records, store, w, u, v);
      }
      if G.StoreShows(store, u, v) {
        ShownIsRecorded(table, keys, records, store, w, u, v);
      }
    }
    ContentsShow(store, w);
  }

  lemma ContentsShow(store: R.Store, w: R.Writes)
    requires forall u, v :: u in w && w[u] == Some(v) <==> G.StoreShows(store, u, v)
    ensures R.Shows(store, R.Write(map[], w))
  {
    var kv := R.Write(map[], w);
    forall u: bytes, v: bytes
      ensures R.Read(kv, u) == Some(v) <==> G.StoreShows(store, u, v)
    {
      assert R.Read(kv, u) == R.ReadAfter(map[], w, u);
      assert R.Read(map[], u) == None;
    }
  }

  lemma RecordShows(table: Table, keys: seq<Key>, records: seq<Record>, store: R.Store, w: R.Writes, u: bytes, v: bytes)
    requires Collected(table, keys, |keys|, AliveOnly(), records) && G.Represents(table, store) && Carries(records, w)
    requires u in w && w[u] == Some(v)
    ensures G.StoreShows(store, u, v)
  {
    var r :| r in records && r.key == u;
    var k := RecordSource(table, keys, AliveOnly(), records, r);
    G.LatestInStore(table, store, k);
  }

  lemma ShownIsRecorded(table: Table, keys: seq<Key>, records: seq<Record>, store: R.Store, w: R.Writes, u: bytes,
                        v: bytes)
    requires FullScan(table, keys) && Collected(table, keys, |keys|, AliveOnly(), records)
    requires G.Represents(table, store) && Carries(records, w) && G.StoreShows(store, u, v)
    ensures u in w && w[u] == Some(v)
  {
    var s: nat :| R.IsLatest(store, u, s) && store[R.Version(u, s)] == Some(v);
    var k := G.LatestInTable(table, store, u, s);
    LatestRecorded(table, keys, AliveOnly(), records, k);
  }

  // ----- Snapshots as steps of replication -----

  /** What a receiver writes, record by record. */
  function Carried(records: seq<Record>): R.Writes {
    if |records| == 0 then map[]
    else
      var last := records[|records| - 1];
      Carried(records[..|records| - 1])[last.key := G.Content(last.cell)]
  }

  /** With one record per user key it does not matter that later records overwrite earlier ones. */
  lemma {:induction false} CarriesCarried(records: seq<Record>)
    requires OnePerKey(records)
    ensures Carries(records, Carried(records))
  {
    if |records| > 0 {
      var n := |records| - 1;
      var front, last := records[..n], records[n];
      CarriesCarried(front);
      assert records == front + [last];
      forall u | u in Carried(records)
        ensures exists r :: r in records && r.key == u
      {
        if u != last.key {
          var r :| r in front && r.key == u;
          assert r in records;
        } else {
          assert last in records;
        }
      }
    }
  }

  /** An incremental scan that the guard admits is a step, and when it arrives the follower is up to date. */
  lemma IncrementalIsStep(s: P.State, table: Table, keys: seq<Key>, records: seq<Record>)
    requires P.Inv(s) && s.answer.None? && FullScan(table, keys) && G.Represents(table, s.leader.store)
    requires P.ReplyToIncremental(s.leader, s.follower.incarnation, s.follower.index) == P.Stream
    requires Collected(table, keys, |keys|, Above(R.EffectiveBase(s.follower.index, s.leader.horizon)), records)
    requires OnePerKey(records)
    ensures var ask := P.AskIncremental(Carried(records));
      && P.Enabled(s, ask) && P.Inv(P.Next(s, ask))
      && P.Enabled(P.Next(s, ask), P.Deliver(0))
      && P.Next(P.Next(s, ask), P.Deliver(0)).follower ==
         P.Follower(s.follower.incarnation, s.leader.applied, R.StateAfter(P.Log(s.leader), s.leader.applied))
  {
    var l, f, w := s.leader, s.follower, Carried(records);
    CarriesCarried(records);
    RecordsAreDelta(table, keys, R.EffectiveBase(f.index, l.horizon), records, l.store, w);
    P.StepKeepsInv(s, P.AskIncremental(w));
    R.DeltaIsRight(l.store, P.Log(l), l.applied, l.horizon, f.index, w);
  }

  /** A full scan is a step, and when it arrives the follower is up to date, whatever it held before. */
  lemma FullIsStep(s: P.State, table: Table, keys: seq<Key>, records: seq<Record>)
    requires P.Inv(s) && s.answer.None? && FullScan(table, keys) && G.Represents(table, s.leader.store)
    requires Collected(table, keys, |keys|, AliveOnly(), records) && OnePerKey(records)
    ensures var ask := P.AskFull(R.Write(map[], Carried(records)));
      && P.Enabled(s, ask) && P.Inv(P.Next(s, ask))
      && P.Enabled(P.Next(s, ask), P.Deliver(0))
      && P.Next(P.Next(s, ask), P.Deliver(0)).follower ==
         P.Follower(P.Current(s.leader), s.leader.applied, R.StateAfter(P.Log(s.leader), s.leader.applied))
  {
    var l, w := s.leader, Carried(records);
    CarriesCarried(records);
    RecordsAreContents(table, keys, records, l.store, w);
    P.StepKeepsInv(s, P.AskFull(R.Write(map[], w)));
    P.ShownIsState(l.store, R.Write(map[], w), R.StateAfter(P.Log(l), l.applied));
  }
}
