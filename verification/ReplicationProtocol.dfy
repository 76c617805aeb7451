/** The leader, the follower and the one answer that may be on its way between them, as a state machine. */
module ReplicationProtocol {
  import opened Common
  import opened Replication

  /**
   One log per incarnation of the table; the last one is current. `compacted` entries are no longer in the log reader.
   */
  datatype Leader = Leader(logs: seq<seq<Entry>>, applied: nat, compacted: nat, horizon: nat, store: Store)

  datatype Follower = Follower(incarnation: nat, index: nat, kv: Kv)

  /** What the leader sends: log entries from `first` on, a whole table, or the changes since `base`. */
  datatype Message =
    | Entries(incarnation: nat, first: nat, entries: seq<Entry>)
    | Full(incarnation: nat, index: nat, kv: Kv)
    | Delta(incarnation: nat, base: nat, index: nat, writes: Writes)

  datatype State = State(leader: Leader, follower: Follower, answer: Option<Message>)

  datatype Action =
    | Append(entry: Entry)
    | ApplyNext
    | CompactLog(upTo: nat)
    | Sweep(swept: Store)
    | Recreate
    | AskTail(count: nat)
    | AskFull(kv: Kv)
    | AskIncremental(writes: Writes)
    | Deliver(received: nat)
    | Lose

  const INIT := State(Leader([[]], 0, 0, 0, map[]), Follower(0, 0, map[]), None)

  predicate HasLog(l: Leader) {
    |l.logs| > 0 && l.applied <= |l.logs[|l.logs| - 1]|
  }

  function Current(l: Leader): nat
    requires HasLog(l)
  {
    |l.logs| - 1
  }

  function Log(l: Leader): seq<Entry>
    requires HasLog(l)
  {
    l.logs[|l.logs| - 1]
  }

  // ----- The leader's answers -----

  datatype Reply = Aborted | OutOfRange | FailedPrecondition | LeaderBehind | UseSnapshot | Stream

  /** LogServer.Replicate before it reads the log, and what the log reader says first. */
  function ReplyToTail(l: Leader, incarnation: nat, leaderIndex: nat): Reply
    requires HasLog(l)
  {
    if incarnation != Current(l) then Aborted
    else if l.applied + 1 < leaderIndex then LeaderBehind
    else if l.horizon > 0 && leaderIndex <= l.horizon then UseSnapshot
    else if leaderIndex == l.applied + 1 then Stream
    else if |Log(l)| < leaderIndex then LeaderBehind
    else if leaderIndex < l.compacted + 1 then UseSnapshot
    else Stream
  }

  /** SnapshotServer.Stream and streamIncremental before they take the snapshot. */
  function ReplyToIncremental(l: Leader, incarnation: nat, leaderIndex: nat): Reply
    requires HasLog(l)
  {
    if incarnation != Current(l) then Aborted
    else if leaderIndex > l.applied then OutOfRange
    else if l.horizon > 0 && leaderIndex <= l.horizon then FailedPrecondition
    else Stream
  }

  // ----- Steps -----

  ghost predicate Enabled(s: State, a: Action)
    requires HasLog(s.leader)
  {
    var l, f := s.leader, s.follower;
    match a
    case Append(_) => true
    case ApplyNext => l.applied < |Log(l)|
    case CompactLog(upTo) => l.compacted <= upTo <= l.applied
    case Sweep(swept) => Reclaims(l.store, swept, l.horizon)
    case Recreate => true
    case AskTail(count) => s.answer.None? && ReplyToTail(l, f.incarnation, f.index + 1) == Stream
      && f.index + count <= l.applied
    case AskFull(kv) => s.answer.None? && Shows(l.store, kv)
    case AskIncremental(w) =>
      && s.answer.None? && ReplyToIncremental(l, f.incarnation, f.index) == Stream
      && IsDelta(l.store, EffectiveBase(f.index, l.horizon), w)
    case Deliver(received) => s.answer.Some? && (s.answer.value.Entries? ==> received <= |s.answer.value.entries|)
    case Lose => s.answer.Some?
  }

  /** Replaying entries on top of some contents. */
  function Replay(kv: Kv, entries: seq<Entry>): Kv
    decreases |entries|
  {
    if |entries| == 0 then kv else Replay(Write(kv, WritesOf(entries[0], kv)), entries[1..])
  }

  /** The follower on getting an answer, of which a stream of entries may have been cut short. */
  function Receive(f: Follower, m: Message, received: nat): Follower
    requires m.Entries? ==> received <= |m.entries|
  {
    match m
    case Entries(_, first, entries) => Follower(f.incarnation, f.index + received, Replay(f.kv, entries[..received]))
    case Full(incarnation, index, kv) => Follower(incarnation, index, kv)
    case Delta(_, _, index, w) => Follower(f.incarnation, index, Write(f.kv, w))
  }

  function ApplyOne(l: Leader): Leader
    requires HasLog(l) && l.applied < |Log(l)|
  {
    var i := l.applied + 1;
    l.(applied := i,
       horizon := if Log(l)[i - 1].Collect? then i else l.horizon,
       store := Stamp(l.store, i, WritesAt(Log(l), i)))
  }

  function Next(s: State, a: Action): State
    requires HasLog(s.leader) && Enabled(s, a)
  {
    var l, f := s.leader, s.follower;
    match a
    case Append(e) => s.(leader := l.(logs := l.logs[Current(l) := Log(l) + [e]]))
    case ApplyNext => s.(leader := ApplyOne(l))
    case CompactLog(upTo) => s.(leader := l.(compacted := upTo))
    case Sweep(swept) => s.(leader := l.(store := swept))
    case Recreate => s.(leader := Leader(l.logs + [[]], 0, 0, 0, map[]))
    case AskTail(count) => s.(answer := Some(Entries(f.incarnation, f.index + 1, Log(l)[f.index..f.index + count])))
    case AskFull(kv) => s.(answer := Some(Full(Current(l), l.applied, kv)))
    case AskIncremental(w) => s.(answer := Some(Delta(f.incarnation, f.index, l.applied, w)))
    case Deliver(received) => s.(follower := Receive(f, s.answer.value, received), answer := None)
    case Lose => s.(answer := None)
  }

  ghost predicate ValidRun(s: State, run: seq<Action>)
    decreases |run|
  {
    |run| > 0 ==> HasLog(s.leader) && Enabled(s, run[0]) && ValidRun(Next(s, run[0]), run[1..])
  }

  ghost function After(s: State, run: seq<Action>): State
    requires ValidRun(s, run)
    decreases |run|
  {
    if |run| == 0 then s else After(Next(s, run[0]), run[1..])
  }

  // ----- What every step keeps -----

  ghost predicate LeaderOk(l: Leader) {
    HasLog(l) && l.horizon <= l.applied && l.compacted <= l.applied && StoreOk(l.store, Log(l), l.applied, l.horizon)
  }

  /** `index` has been reached in `incarnation`. */
  ghost predicate Reached(l: Leader, incarnation: nat, index: nat)
    requires HasLog(l)
  {
    incarnation <= Current(l) && index <= |l.logs[incarnation]| && (incarnation == Current(l) ==> index <= l.applied)
  }

  /** `kv` is what the leader held after entry `index` of `incarnation`. */
  ghost predicate IsStateAt(l: Leader, incarnation: nat, index: nat, kv: Kv)
    requires HasLog(l)
  {
    Reached(l, incarnation, index) && kv == StateAfter(l.logs[incarnation], index)
  }

  ghost predicate MessageOk(l: Leader, f: Follower, m: Message)
    requires HasLog(l)
  {
    match m
    case Entries(incarnation, first, entries) =>
      && incarnation == f.incarnation && first == f.index + 1
      && Reached(l, incarnation, f.index + |entries|)
      && entries == l.logs[incarnation][f.index..f.index + |entries|]
    case Full(incarnation, index, kv) => IsStateAt(l, incarnation, index, kv)
    case Delta(incarnation, base, index, w) =>
      && incarnation == f.incarnation && base == f.index
      && IsStateAt(l, incarnation, index, Write(f.kv, w))
  }

  ghost predicate Inv(s: State) {
    && LeaderOk(s.leader)
    && IsStateAt(s.leader, s.follower.incarnation, s.follower.index, s.follower.kv)
    && (s.answer.Some? ==> MessageOk(s.leader, s.follower, s.answer.value))
  }

  /** What has been reached and written in any incarnation stays so. */
  ghost predicate Grows(l: Leader, l': Leader)
    requires HasLog(l) && HasLog(l')
  {
    && |l.logs| <= |l'.logs|
    && (|l.logs| == |l'.logs| ==> l.applied <= l'.applied)
    && forall c :: 0 <= c < |l.logs| ==> |l.logs[c]| <= |l'.logs[c]| && l'.logs[c][..|l.logs[c]|] == l.logs[c]
  }

  lemma StateGrows(l: Leader, l': Leader, incarnation: nat, index: nat, kv: Kv)
    requires HasLog(l) && HasLog(l') && Grows(l, l') && IsStateAt(l, incarnation, index, kv)
    ensures IsStateAt(l', incarnation, index, kv)
  {
    var log, log' := l.logs[incarnation], l'.logs[incarnation];
    assert log' == log + log'[|log|..];
    StateOfPrefix(log, log'[|log|..], index);
  }

  lemma MessageGrows(l: Leader, l': Leader, f: Follower, m: Message)
    requires HasLog(l) && HasLog(l') && Grows(l, l') && MessageOk(l, f, m)
    ensures MessageOk(l', f, m)
  {
    match m
    case Entries(incarnation, first, entries) =>
      var log, log' := l.logs[incarnation], l'.logs[incarnation];
      assert log'[..|log|][f.index..f.index + |entries|] == log'[f.index..f.index + |entries|];
    case Full(incarnation, index, kv) => StateGrows(l, l', incarnation, index, kv);
    case Delta(incarnation, base, index, w) => StateGrows(l, l', incarnation, index, Write(f.kv, w));
  }

  /** A step of the leader alone keeps the invariant if it keeps the leader in order and only grows. */
  lemma LeaderStep(s: State, l': Leader)
    requires Inv(s) && LeaderOk(l') && Grows(s.leader, l')
    ensures Inv(s.(leader := l'))
  {
    StateGrows(s.leader, l', s.follower.incarnation, s.follower.index, s.follower.kv);
    if s.answer.Some? {
      MessageGrows(s.leader, l', s.follower, s.answer.value);
    }
  }

  predicate ByLeader(a: Action) {
    a.Append? || a.ApplyNext? || a.CompactLog? || a.Sweep? || a.Recreate?
  }

  lemma AppendStep(l: Leader, e: Entry)
    requires LeaderOk(l)
    ensures var l' := l.(logs := l.logs[Current(l) := Log(l) + [e]]); LeaderOk(l') && Grows(l, l')
  {
    var l' := l.(logs := l.logs[Current(l) := Log(l) + [e]]);
    assert Log(l') == Log(l) + [e];
    AppendKeepsOk(l.store, Log(l), e, l.applied, l.horizon);
  }

  lemma ApplyStep(l: Leader)
    requires LeaderOk(l) && l.applied < |Log(l)|
    ensures LeaderOk(ApplyOne(l)) && Grows(l, ApplyOne(l))
  {
    StampKeepsOk(l.store, Log(l), l.applied, l.horizon, ApplyOne(l).horizon);
  }

  lemma EmptyStoreOk(l: Leader)
    requires HasLog(l)
    ensures LeaderOk(Leader(l.logs + [[]], 0, 0, 0, map[])) && Grows(l, Leader(l.logs + [[]], 0, 0, 0, map[]))
  {
  }

  lemma LeaderKeepsInv(s: State, a: Action)
    requires Inv(s) && Enabled(s, a) && ByLeader(a)
    ensures Inv(Next(s, a))
  {
    LeaderStaysOk(s, a);
    LeaderStep(s, Next(s, a).leader);
  }

  lemma LeaderStaysOk(s: State, a: Action)
    requires LeaderOk(s.leader) && Enabled(s, a) && ByLeader(a)
    ensures LeaderOk(Next(s, a).leader) && Grows(s.leader, Next(s, a).leader)
  {
    var l := s.leader;
    match a
    case Append(e) => AppendStep(l, e);
    case ApplyNext => ApplyStep(l);
    case CompactLog(upTo) =>
    case Sweep(swept) => ReclaimKeepsOk(l.store, swept, Log(l), l.applied, l.horizon);
    case Recreate => EmptyStoreOk(l);
  }

  lemma {:induction false} ReplayFollowsLog(log: seq<Entry>, n: nat, m: nat)
    requires n <= m <= |log|
    ensures Replay(StateAfter(log, n), log[n..m]) == StateAfter(log, m)
    decreases m - n
  {
    if n < m {
      assert log[n..m][1..] == log[n + 1..m];
      StateStep(log, n);
      ReplayFollowsLog(log, n + 1, m);
    }
  }

  lemma ShownIsState(store: Store, a: Kv, b: Kv)
    requires Shows(store, a) && Shows(store, b)
    ensures a == b
  {
    forall k
      ensures Read(a, k) == Read(b, k)
    {
      if Read(a, k).Some? {
        assert Read(b, k) == Some(Read(a, k).value);
      } else if Read(b, k).Some? {
        assert Read(a, k) == Some(Read(b, k).value);
      }
    }
    SameReads(a, b);
  }

  lemma AskKeepsInv(s: State, a: Action)
    requires Inv(s) && Enabled(s, a) && (a.AskTail? || a.AskFull? || a.AskIncremental?)
    ensures Inv(Next(s, a))
  {
    var l, f := s.leader, s.follower;
    match a
    case AskTail(count) =>
    case AskFull(kv) => ShownIsState(l.store, kv, StateAfter(Log(l), l.applied));
    case AskIncremental(w) => DeltaIsRight(l.store, Log(l), l.applied, l.horizon, f.index, w);
  }

  lemma DeliverKeepsInv(s: State, received: nat)
    requires Inv(s) && Enabled(s, Deliver(received))
    ensures Inv(Next(s, Deliver(received)))
  {
    var l, f, m := s.leader, s.follower, s.answer.value;
    if m.Entries? {
      var log := l.logs[f.incarnation];
      assert m.entries[..received] == log[f.index..f.index + received];
      ReplayFollowsLog(log, f.index, f.index + received);
    }
  }

  lemma StepKeepsInv(s: State, a: Action)
    requires Inv(s) && Enabled(s, a)
    ensures Inv(Next(s, a))
  {
    if ByLeader(a) {
      LeaderKeepsInv(s, a);
    } else if a.Deliver? {
      DeliverKeepsInv(s, a.received);
    } else if !a.Lose? {
      AskKeepsInv(s, a);
    }
  }

  lemma {:induction false} RunKeepsInv(s: State, run: seq<Action>)
    requires Inv(s) && ValidRun(s, run)
    ensures Inv(After(s, run))
    decreases |run|
  {
    if |run| > 0 {
      StepKeepsInv(s, run[0]);
      RunKeepsInv(Next(s, run[0]), run[1..]);
    }
  }

  lemma InitInv()
    ensures Inv(INIT)
  {
  }

  /** Over every run, a follower at index f holds what the leader of its incarnation held after entry f. */
  lemma FollowerHoldsLeaderState(run: seq<Action>)
    requires ValidRun(INIT, run)
    ensures var s := After(INIT, run);
      HasLog(s.leader) && IsStateAt(s.leader, s.follower.incarnation, s.follower.index, s.follower.kv)
  {
    InitInv();
    RunKeepsInv(INIT, run);
  }

  /**
   A follower asking for its next entry is never told that the leader is behind; it is served, sent to a snapshot, or
   its table is gone.
   */
  lemma NeverLeaderBehind(run: seq<Action>)
    requires ValidRun(INIT, run)
    ensures var s := After(INIT, run);
      && HasLog(s.leader)
      && ReplyToTail(s.leader, s.follower.incarnation, s.follower.index + 1) in {Aborted, UseSnapshot, Stream}
    ensures var s := After(INIT, run);
      HasLog(s.leader) && ReplyToIncremental(s.leader, s.follower.incarnation, s.follower.index) != OutOfRange
  {
    InitInv();
    RunKeepsInv(INIT, run);
  }
}
