/**
 Leader-to-follower replication of one table name: a log of entries, the versioned store the leader
 builds from it, a collection horizon, re-creation of the table, and a follower that tails the log or
 restores full and incremental snapshots.
 */
module Replication {
  import opened Common
  import opened Wire

  // ----- Table contents -----

  /** What readers see. */
  type Kv = map<bytes, bytes>

  /** The keys one command writes; None deletes. */
  type Writes = map<bytes, Option<bytes>>

  /** A log entry: a command with its effect on the table, or a collection command, or nothing. */
  datatype Entry = Effect(effect: Kv -> Writes) | Collect | Dummy

  function WritesOf(e: Entry, kv: Kv): Writes {
    match e
    case Effect(effect) => effect(kv)
    case _ => map[]
  }

  function Read(kv: Kv, k: bytes): Option<bytes> {
    if k in kv then Some(kv[k]) else None
  }

  function ReadAfter(kv: Kv, w: Writes, k: bytes): Option<bytes> {
    if k in w then w[k] else Read(kv, k)
  }

  function Write(kv: Kv, w: Writes): (r: Kv)
    ensures forall k :: Read(r, k) == ReadAfter(kv, w, k)
  {
    map k | k in kv.Keys + w.Keys && ReadAfter(kv, w, k).Some? :: ReadAfter(kv, w, k).value
  }

  lemma SameReads(a: Kv, b: Kv)
    requires forall k :: Read(a, k) == Read(b, k)
    ensures a == b
  {
    forall k
      ensures k in a <==> k in b
    {
      assert Read(a, k) == Read(b, k);
    }
    forall k | k in a
      ensures a[k] == b[k]
    {
      assert Read(a, k) == Read(b, k);
    }
  }

  /** The contents after the first `n` entries. */
  function StateAfter(log: seq<Entry>, n: nat): Kv
    requires n <= |log|
  {
    if n == 0 then map[]
    else
      var before := StateAfter(log, n - 1);
      Write(before, WritesOf(log[n - 1], before))
  }

  /** What entry `i` writes. */
  function WritesAt(log: seq<Entry>, i: nat): Writes
    requires 1 <= i <= |log|
  {
    WritesOf(log[i - 1], StateAfter(log, i - 1))
  }

  lemma {:induction false} StateOfPrefix(log: seq<Entry>, more: seq<Entry>, n: nat)
    requires n <= |log|
    ensures StateAfter(log + more, n) == StateAfter(log, n)
  {
    if n > 0 {
      StateOfPrefix(log, more, n - 1);
    }
  }

  lemma WritesOfPrefix(log: seq<Entry>, more: seq<Entry>, i: nat)
    requires 1 <= i <= |log|
    ensures WritesAt(log + more, i) == WritesAt(log, i)
  {
    StateOfPrefix(log, more, i - 1);
  }

  /** A key that entries b+1 .. n do not write keeps its value. */
  lemma {:induction false} Untouched(log: seq<Entry>, b: nat, n: nat, k: bytes)
    requires b <= n <= |log| && forall i :: b < i <= n ==> k !in WritesAt(log, i)
    ensures Read(StateAfter(log, n), k) == Read(StateAfter(log, b), k)
    decreases n
  {
    if b < n {
      Untouched(log, b, n - 1, k);
      assert k !in WritesAt(log, n);
    }
  }

  /** The last of entries b+1 .. n to write a key decides its value. */
  lemma LastWriteDecides(log: seq<Entry>, s: nat, n: nat, k: bytes)
    requires 1 <= s <= n <= |log| && k in WritesAt(log, s) && forall i :: s < i <= n ==> k !in WritesAt(log, i)
    ensures Read(StateAfter(log, n), k) == WritesAt(log, s)[k]
  {
    Untouched(log, s, n, k);
  }

  lemma {:induction false} FindLastWrite(log: seq<Entry>, b: nat, n: nat, k: bytes) returns (s: nat)
    requires b <= n <= |log| && exists i :: b < i <= n && k in WritesAt(log, i)
    ensures b < s <= n && k in WritesAt(log, s) && forall i :: s < i <= n ==> k !in WritesAt(log, i)
    decreases n
  {
    if k in WritesAt(log, n) {
      s := n;
    } else {
      s := FindLastWrite(log, b, n - 1, k);
    }
  }

  // ----- The versioned store -----

  datatype Version = Version(key: bytes, seqno: nat)

  type Store = map<Version, Option<bytes>>

  /** `s` is the newest version of `k`. */
  ghost predicate IsLatest(store: Store, k: bytes, s: nat) {
    Version(k, s) in store && forall s': nat :: Version(k, s') in store ==> s' <= s
  }

  /** Reading the store at the latest versions gives `kv`. */
  ghost predicate Shows(store: Store, kv: Kv) {
    forall k, v :: Read(kv, k) == Some(v) <==> exists s: nat :: IsLatest(store, k, s) && store[Version(k, s)] == Some(v)
  }

  /** Entry `i` stamped with its index. */
  function Stamp(store: Store, i: nat, w: Writes): Store {
    map v | v in store.Keys + (set k | k in w :: Version(k, i)) ::
      if v.seqno == i && v.key in w then w[v.key] else store[v]
  }

  /** What a collection sweep may do: drop versions below the horizon as long as no reader notices. */
  ghost predicate Reclaims(store: Store, store': Store, horizon: nat) {
    && (forall v :: v in store' ==> v in store && store'[v] == store[v])
    && (forall v :: v in store && v.seqno >= horizon ==> v in store')
    && (forall kv :: Shows(store, kv) ==> Shows(store', kv))
  }

  /** Each version holds what the entry with its number wrote. */
  ghost predicate RightVersions(store: Store, log: seq<Entry>, applied: nat)
    requires applied <= |log|
  {
    forall v :: v in store ==>
      1 <= v.seqno <= applied && v.key in WritesAt(log, v.seqno) && store[v] == WritesAt(log, v.seqno)[v.key]
  }

  /** No version at or above the horizon is missing. */
  ghost predicate NoneMissing(store: Store, log: seq<Entry>, applied: nat, horizon: nat)
    requires applied <= |log|
  {
    forall k, s: nat :: 1 <= s <= applied && s >= horizon && k in WritesAt(log, s) ==> Version(k, s) in store
  }

  ghost predicate StoreOk(store: Store, log: seq<Entry>, applied: nat, horizon: nat)
    requires applied <= |log|
  {
    RightVersions(store, log, applied) && NoneMissing(store, log, applied, horizon)
      && Shows(store, StateAfter(log, applied))
  }

  // ----- Incremental snapshots -----

  /** The latest version of every key that has one above `base`. */
  ghost predicate IsDelta(store: Store, base: nat, w: Writes) {
    && (forall k :: k in w ==> exists s: nat :: s > base && IsLatest(store, k, s) && store[Version(k, s)] == w[k])
    && (forall k, s: nat :: s > base && IsLatest(store, k, s) ==> k in w)
  }

  /** The base commandIncrementalSnapshot really uses. */
  function EffectiveBase(base: nat, horizon: nat): nat {
    if horizon > 0 && base <= horizon then horizon + 1 else base
  }

  /** The guard of streamIncremental. */
  predicate Guarded(base: nat, horizon: nat) {
    horizon == 0 || base > horizon
  }

  lemma LatestOfWritten(store: Store, log: seq<Entry>, applied: nat, horizon: nat, k: bytes, s: nat)
    requires applied <= |log| && StoreOk(store, log, applied, horizon)
    requires 1 <= s <= applied && s >= horizon && k in WritesAt(log, s)
    requires forall i :: s < i <= applied ==> k !in WritesAt(log, i)
    ensures IsLatest(store, k, s) && store[Version(k, s)] == WritesAt(log, s)[k]
  {
    forall s': nat | Version(k, s') in store
      ensures s' <= s
    {
      var v := Version(k, s');
      assert v in store;
    }
  }

  lemma DeltaHasLatest(store: Store, base: nat, w: Writes, k: bytes, s: nat)
    requires IsDelta(store, base, w) && IsLatest(store, k, s) && s > base
    ensures k in w && w[k] == store[Version(k, s)]
  {
    var s': nat :| s' > base && IsLatest(store, k, s') && store[Version(k, s')] == w[k];
  }

  lemma DeltaLacksOlder(store: Store, log: seq<Entry>, applied: nat, horizon: nat, base: nat, w: Writes, k: bytes)
    requires applied <= |log| && StoreOk(store, log, applied, horizon) && IsDelta(store, base, w)
    requires forall i :: base < i <= applied ==> k !in WritesAt(log, i)
    ensures k !in w
  {
  }

  /** Above the horizon a delta brings the contents of its base to the present. */
  lemma DeltaReads(store: Store, log: seq<Entry>, applied: nat, horizon: nat, base: nat, w: Writes, k: bytes)
    requires applied <= |log| && StoreOk(store, log, applied, horizon)
    requires base <= applied && horizon <= base + 1 && IsDelta(store, base, w)
    ensures ReadAfter(StateAfter(log, base), w, k) == Read(StateAfter(log, applied), k)
  {
    if exists i :: base < i <= applied && k in WritesAt(log, i) {
      var s := FindLastWrite(log, base, applied, k);
      LatestOfWritten(store, log, applied, horizon, k, s);
      DeltaHasLatest(store, base, w, k, s);
      LastWriteDecides(log, s, applied, k);
    } else {
      Untouched(log, base, applied, k);
      DeltaLacksOlder(store, log, applied, horizon, base, w, k);
    }
  }

  lemma DeltaIsRight(store: Store, log: seq<Entry>, applied: nat, horizon: nat, base: nat, w: Writes)
    requires applied <= |log| && StoreOk(store, log, applied, horizon)
    requires base <= applied && Guarded(base, horizon) && IsDelta(store, EffectiveBase(base, horizon), w)
    ensures Write(StateAfter(log, base), w) == StateAfter(log, applied)
  {
    var a, b := Write(StateAfter(log, base), w), StateAfter(log, applied);
    forall k
      ensures Read(a, k) == Read(b, k)
    {
      DeltaReads(store, log, applied, horizon, base, w, k);
    }
    SameReads(a, b);
  }

  /** A log of `h` entries without effect, the last of which collects, and then one write. */
  function CollectThenWrite(h: nat): seq<Entry> {
    seq(h, i => if i + 1 == h then Collect else Dummy) + [Effect(kv => map[[1] := Some([7])])]
  }

  lemma {:induction false} NothingWritten(h: nat, n: nat)
    requires n <= h
    ensures StateAfter(CollectThenWrite(h), n) == map[]
  {
    if n > 0 {
      NothingWritten(h, n - 1);
      var w: Writes := map[];
      assert WritesAt(CollectThenWrite(h), n) == w;
      SameReads(Write(map[], w), map[]);
    }
  }

  /**
   Without the guard every base at or below a horizon fails: the snapshot starts above the entry that follows
   the horizon and loses what that entry wrote.
   */
  lemma UnguardedDeltaIsWrong(base: nat, h: nat) returns (log: seq<Entry>, store: Store, w: Writes)
    requires !Guarded(base, h)
    ensures |log| == h + 1 && log[h - 1] == Collect
    ensures StoreOk(store, log, h + 1, h) && IsDelta(store, EffectiveBase(base, h), w)
    ensures Write(StateAfter(log, base), w) != StateAfter(log, h + 1)
  {
    log, w := CollectThenWrite(h), map[];
    store := map[Version([1], h + 1) := Some([7])];
    CollectThenWriteStore(h, store);
    NothingWritten(h, base);
    SameReads(Write(map[], w), map[]);
  }

  lemma CollectThenWriteStore(h: nat, store: Store)
    requires store == map[Version([1], h + 1) := Some([7])]
    ensures StoreOk(store, CollectThenWrite(h), h + 1, h) && StateAfter(CollectThenWrite(h), h + 1) == map[[1] := [7]]
  {
    var log := CollectThenWrite(h);
    NothingWrittenBefore(h);
    OneVersionShows([1], [7], h + 1);
    assert NoneMissing(store, log, h + 1, h);
  }

  lemma NothingWrittenBefore(h: nat)
    ensures forall i: nat :: 1 <= i <= h ==> WritesAt(CollectThenWrite(h), i) == map[]
    ensures WritesAt(CollectThenWrite(h), h + 1) == map[[1] := Some([7])]
    ensures StateAfter(CollectThenWrite(h), h + 1) == map[[1] := [7]]
  {
    var log := CollectThenWrite(h);
    var written: Writes := map[[1] := Some([7])];
    NothingWritten(h, h);
    assert WritesAt(log, h + 1) == written;
    WriteOne([1], [7]);
    assert StateAfter(log, h + 1) == Write(map[], written);
    forall i: nat | 1 <= i <= h
      ensures WritesAt(log, i) == map[]
    {
      assert log[i - 1] == Collect || log[i - 1] == Dummy;
    }
  }

  lemma WriteOne(key: bytes, value: bytes)
    ensures Write(map[], map[key := Some(value)]) == map[key := value]
  {
    var kv: Kv, w: Writes := map[], map[key := Some(value)];
    SameReads(Write(kv, w), map[key := value]);
  }

  lemma OneVersionShows(key: bytes, value: bytes, s: nat)
    ensures Shows(map[Version(key, s) := Some(value)], map[key := value])
  {
    var store: Store, kv: Kv := map[Version(key, s) := Some(value)], map[key := value];
    assert IsLatest(store, key, s);
  }

  // ----- The store follows the log -----

  lemma StampedLatest(store: Store, i: nat, w: Writes, k: bytes, s: nat)
    requires forall v :: v in store ==> v.seqno < i
    ensures IsLatest(Stamp(store, i, w), k, s) <==> if k in w then s == i else IsLatest(store, k, s)
  {
    var store' := Stamp(store, i, w);
    if k in w {
      assert Version(k, i) in store';
    }
  }

  lemma StampedShows(store: Store, i: nat, w: Writes, kv: Kv)
    requires Shows(store, kv) && forall v :: v in store ==> v.seqno < i
    ensures Shows(Stamp(store, i, w), Write(kv, w))
  {
    var store', kv' := Stamp(store, i, w), Write(kv, w);
    forall k: bytes, v: bytes
      ensures Read(kv', k) == Some(v) <==> exists s: nat :: IsLatest(store', k, s) && store'[Version(k, s)] == Some(v)
    {
      assert Read(kv', k) == ReadAfter(kv, w, k);
      if k in w {
        StampedLatest(store, i, w, k, i);
        forall s: nat
          ensures IsLatest(store', k, s) ==> s == i
        {
          StampedLatest(store, i, w, k, s);
        }
      } else {
        forall s: nat
          ensures IsLatest(store', k, s) <==> IsLatest(store, k, s)
        {
          StampedLatest(store, i, w, k, s);
        }
      }
    }
  }

  lemma StampKeepsVersions(store: Store, log: seq<Entry>, applied: nat)
    requires applied < |log| && RightVersions(store, log, applied)
    ensures RightVersions(Stamp(store, applied + 1, WritesAt(log, applied + 1)), log, applied + 1)
  {
  }

  lemma StateStep(log: seq<Entry>, n: nat)
    requires n < |log|
    ensures StateAfter(log, n + 1) == Write(StateAfter(log, n), WritesAt(log, n + 1))
  {
  }

  lemma StampShowsState(store: Store, log: seq<Entry>, applied: nat)
    requires applied < |log| && Shows(store, StateAfter(log, applied))
    requires forall v :: v in store ==> v.seqno < applied + 1
    ensures Shows(Stamp(store, applied + 1, WritesAt(log, applied + 1)), StateAfter(log, applied + 1))
  {
    StateStep(log, applied);
    StampedShows(store, applied + 1, WritesAt(log, applied + 1), StateAfter(log, applied));
  }

  lemma StampMissesNone(store: Store, log: seq<Entry>, applied: nat, horizon: nat, horizon': nat)
    requires applied < |log| && NoneMissing(store, log, applied, horizon) && horizon <= horizon'
    ensures NoneMissing(Stamp(store, applied + 1, WritesAt(log, applied + 1)), log, applied + 1, horizon')
  {
    var store' := Stamp(store, applied + 1, WritesAt(log, applied + 1));
    forall k, s: nat | 1 <= s <= applied + 1 && s >= horizon' && k in WritesAt(log, s)
      ensures Version(k, s) in store'
    {
      if s <= applied {
        assert Version(k, s) in store;
      }
    }
  }

  lemma StampKeepsOk(store: Store, log: seq<Entry>, applied: nat, horizon: nat, horizon': nat)
    requires applied < |log| && StoreOk(store, log, applied, horizon) && horizon <= horizon'
    ensures StoreOk(Stamp(store, applied + 1, WritesAt(log, applied + 1)), log, applied + 1, horizon')
  {
    StampKeepsVersions(store, log, applied);
    StampMissesNone(store, log, applied, horizon, horizon');
    StampShowsState(store, log, applied);
  }

  lemma AppendKeepsOk(store: Store, log: seq<Entry>, e: Entry, applied: nat, horizon: nat)
    requires applied <= |log| && StoreOk(store, log, applied, horizon)
    ensures StoreOk(store, log + [e], applied, horizon)
  {
    forall i: nat | 1 <= i <= applied
      ensures WritesAt(log + [e], i) == WritesAt(log, i)
    {
      WritesOfPrefix(log, [e], i);
    }
    StateOfPrefix(log, [e], applied);
  }

  lemma ReclaimKeepsOk(store: Store, store': Store, log: seq<Entry>, applied: nat, horizon: nat)
    requires applied <= |log| && StoreOk(store, log, applied, horizon) && Reclaims(store, store', horizon)
    ensures StoreOk(store', log, applied, horizon)
  {
  }
}
