/**
 The set of shards that have work: setters add to one map under the lock while the one consumer empties the
 other map outside the lock and then swaps the two.
 */
module ReadyShards {
  import opened Wire

  // ----- Interleavings -----

  /** Two maps, the one setters use, and the 8-bit index of the last swap. */
  datatype State = State(map0: set<uint64>, map1: set<uint64>, ready: nat, index: byte) {
    function At(i: nat): set<uint64> {
      if i % 2 == 0 then map0 else map1
    }

    function With(i: nat, s: set<uint64>): State {
      if i % 2 == 0 then this.(map0 := s) else this.(map1 := s)
    }

    /** maps[(index+1)%2], with the addition in eight bits. */
    function Other(): nat {
      (index + 1) % 256 % 2
    }
  }

  const INIT := State({}, {}, 0, 0)

  /** setShardReady; one turn of the consumer's clearing loop; the consumer's critical section. */
  datatype Action = SetReady(shard: uint64) | Delete(shard: uint64) | Swap

  predicate Enabled(s: State, a: Action) {
    match a
    case SetReady(_) => true
    case Delete(shard) => shard in s.At(s.Other())
    case Swap => s.At(s.Other()) == {}
  }

  function Next(s: State, a: Action): State {
    match a
    case SetReady(shard) => s.With(s.ready, s.At(s.ready) + {shard})
    case Delete(shard) => s.With(s.Other(), s.At(s.Other()) - {shard})
    case Swap => s.(index := (s.index + 1) % 256, ready := (s.index + 1) % 256 % 2)
  }

  predicate ValidRun(s: State, run: seq<Action>)
    decreases |run|
  {
    |run| > 0 ==> Enabled(s, run[0]) && ValidRun(Next(s, run[0]), run[1..])
  }

  /** What the swaps of a run return. */
  function Returned(s: State, run: seq<Action>): seq<set<uint64>>
    decreases |run|
  {
    if |run| == 0 then []
    else (if run[0].Swap? then [s.At(s.ready)] else []) + Returned(Next(s, run[0]), run[1..])
  }

  /** What they should return: the shards set since the swap before. */
  function SetSince(since: set<uint64>, run: seq<Action>): seq<set<uint64>>
    decreases |run|
  {
    if |run| == 0 then []
    else
      match run[0]
      case SetReady(shard) => SetSince(since + {shard}, run[1..])
      case Delete(_) => SetSince(since, run[1..])
      case Swap => [since] + SetSince({}, run[1..])
  }

  predicate Inv(s: State, since: set<uint64>) {
    s.ready == s.index % 2 && s.At(s.ready) == since
  }

  /** Setters and the clearing loop never meet in one map, through every wrap of the index. */
  lemma NeverTheSameMap(s: State, since: set<uint64>)
    requires Inv(s, since)
    ensures s.Other() != s.ready && s.Other() < 2
  {
  }

  function Since(since: set<uint64>, a: Action): set<uint64> {
    match a
    case SetReady(shard) => since + {shard}
    case Delete(_) => since
    case Swap => {}
  }

  lemma StepKeepsInv(s: State, since: set<uint64>, a: Action)
    requires Inv(s, since) && Enabled(s, a)
    ensures Inv(Next(s, a), Since(since, a))
    ensures a.SetReady? ==> Next(s, a).At(s.Other()) == s.At(s.Other())
  {
    NeverTheSameMap(s, since);
  }

  /** Each swap returns exactly the shards set since the swap before it, however sets and deletions interleave. */
  lemma {:induction false} ReturnsWhatWasSet(s: State, since: set<uint64>, run: seq<Action>)
    requires Inv(s, since) && ValidRun(s, run)
    ensures Returned(s, run) == SetSince(since, run)
    decreases |run|
  {
    if |run| > 0 {
      StepKeepsInv(s, since, run[0]);
      ReturnsWhatWasSet(Next(s, run[0]), Since(since, run[0]), run[1..]);
    }
  }

  lemma ReturnsWhatWasSetFromInit(run: seq<Action>)
    requires ValidRun(INIT, run)
    ensures Returned(INIT, run) == SetSince({}, run)
  {
    ReturnsWhatWasSet(INIT, {}, run);
  }

  // ----- The maps as objects -----

  class ShardMap {
    var keys: set<uint64>

    constructor ()
      ensures keys == {}
    {
      keys := {};
    }
  }

  class ReadyShard {
    const map0: ShardMap
    const map1: ShardMap
    var ready: ShardMap
    var index: byte

    ghost predicate Valid()
      reads this
    {
      map0 != map1 && ready == if index % 2 == 0 then map0 else map1
    }

    function MapAt(i: nat): ShardMap {
      if i % 2 == 0 then map0 else map1
    }

    ghost function View(): State
      reads this, map0, map1
    {
      State(map0.keys, map1.keys, if ready == map0 then 0 else 1, index)
    }

    constructor ()
      ensures Valid() && View() == INIT && fresh(map0) && fresh(map1)
    {
      var first := new ShardMap();
      var second := new ShardMap();
      map0, map1, ready, index := first, second, first, 0;
    }

    method SetShardReady(shard: uint64)
      requires Valid()
      modifies ready
      ensures Valid() && View() == Next(old(View()), SetReady(shard))
    {
      ready.keys := ready.keys + {shard};
    }

    /** The map setters used until now; they go on with the other one, which has been emptied. */
    method GetReadyShards() returns (v: ShardMap)
      requires Valid()
      modifies this, map0, map1
      ensures Valid() && v == old(ready) && v.keys == old(ready.keys) && ready != v && ready.keys == {}
      ensures View() == Next(old(var s := View(); s.With(s.Other(), {})), Swap)
    {
      var m := MapAt((index + 1) % 256 % 2);
      while m.keys != {}
        invariant Valid() && ready == old(ready) && index == old(index) && m != ready
        invariant ready.keys == old(ready.keys)
        decreases |m.keys|
      {
        var k :| k in m.keys;
        m.keys := m.keys - {k};
      }
      v := ready;
      index := (index + 1) % 256;
      ready := MapAt(index % 2);
    }
  }
}
