/** What the log server streams, replayed by a follower, against the states of the replicated log. */
module StreamRefinement {
  import opened Common
  import opened Messages
  import S = LogServer
  import R = Replication
  import P = ReplicationProtocol

  /** What commands do to a table. */
  type Meaning = Command -> R.Entry

  ghost predicate Decodes(decode: S.Decoder, log: seq<S.LogEntry>) {
    S.LogOk(log) && forall i :: 0 <= i < |log| ==> S.EntryToCommand(decode, log[i]).Ok?
  }

  /** The log the follower should arrive at: every entry by what its command means. */
  function LogOf(decode: S.Decoder, log: seq<S.LogEntry>, meaning: Meaning): (r: seq<R.Entry>)
    requires Decodes(decode, log)
    ensures |r| == |log| && forall i :: 0 <= i < |log| ==> r[i] == meaning(S.EntryToCommand(decode, log[i]).value)
  {
    seq(|log|, i requires 0 <= i < |log| => meaning(S.EntryToCommand(decode, log[i]).value))
  }

  function EntriesOf(commands: seq<(Command, nat)>, meaning: Meaning): (r: seq<R.Entry>)
    ensures |r| == |commands| && forall i :: 0 <= i < |commands| ==> r[i] == meaning(commands[i].0)
  {
    seq(|commands|, i requires 0 <= i < |commands| => meaning(commands[i].0))
  }

  /** Every command reaches the follower exactly as it stands in the log. */
  lemma StreamIsLog(decode: S.Decoder, log: seq<S.LogEntry>, first: nat, commands: seq<(Command, nat)>,
                    meaning: Meaning)
    requires Decodes(decode, log) && S.AreEntries(decode, log, first, commands)
    ensures EntriesOf(commands, meaning) == LogOf(decode, log, meaning)[first - 1..first - 1 + |commands|]
  {
    var a, b := EntriesOf(commands, meaning), LogOf(decode, log, meaning)[first - 1..first - 1 + |commands|];
    forall i | 0 <= i < |a|
      ensures a[i] == b[i]
    {
      assert S.EntryToCommand(decode, log[first - 1 + i]) == Ok(commands[i].0);
    }
  }

  /** A stream that is cut short is a shorter stream. */
  lemma FrontIsLog(decode: S.Decoder, log: seq<S.LogEntry>, first: nat, commands: seq<(Command, nat)>, got: nat)
    requires S.LogOk(log) && S.AreEntries(decode, log, first, commands) && got <= |commands|
    ensures S.AreEntries(decode, log, first, commands[..got])
  {
  }

  lemma StretchReplays(log: seq<R.Entry>, f: nat, entries: seq<R.Entry>, kv: R.Kv)
    requires f + |entries| <= |log| && entries == log[f..f + |entries|] && kv == R.StateAfter(log, f)
    ensures P.Replay(kv, entries) == R.StateAfter(log, f + |entries|)
  {
    P.ReplayFollowsLog(log, f, f + |entries|);
  }

  /** A follower at index f that replays the part it got of a stream from f + 1 on holds the state after that part. */
  lemma StreamReplays(decode: S.Decoder, log: seq<S.LogEntry>, f: nat, commands: seq<(Command, nat)>, got: nat,
                      kv: R.Kv, meaning: Meaning)
    requires Decodes(decode, log) && S.AreEntries(decode, log, f + 1, commands) && got <= |commands|
    requires kv == R.StateAfter(LogOf(decode, log, meaning), f)
    ensures P.Replay(kv, EntriesOf(commands[..got], meaning)) == R.StateAfter(LogOf(decode, log, meaning), f + got)
  {
    FrontIsLog(decode, log, f + 1, commands, got);
    StreamIsLog(decode, log, f + 1, commands[..got], meaning);
    StretchReplays(LogOf(decode, log, meaning), f, EntriesOf(commands[..got], meaning), kv);
  }

  /** What the first response of a stream, or the status instead of it, says to the follower. */
  function ReplyOf(responses: seq<S.Response>, status: S.Status): Option<P.Reply> {
    if |responses| > 0 then
      match responses[0]
      case Commands(_, _) => Some(P.Stream)
      case UpToDate(_) => Some(P.Stream)
      case LeaderBehind => Some(P.LeaderBehind)
      case UseSnapshot => Some(P.UseSnapshot)
    else if status == S.Aborted then Some(P.Aborted)
    else None
  }

  /** The request finds the leader as it is; cluster ids tell incarnations apart. */
  ghost predicate Finds(env: S.Environment, l: P.Leader, req: S.Request, incarnation: nat) {
    && P.HasLog(l)
    && env.lookup.Found? && env.applied == Some(l.applied) && env.horizon == Some(l.horizon)
    && env.rFirst == l.compacted + 1 && env.rLast == |P.Log(l)|
    && (req.clusterId == env.lookup.clusterId <==> incarnation == P.Current(l))
  }

  /** Whatever the log server answers is what the replication protocol says; only a broken stream says nothing. */
  lemma RepliesAgree(req: S.Request, env: S.Environment, l: P.Leader, incarnation: nat,
                     responses: seq<S.Response>, status: S.Status)
    requires S.EnvironmentOk(env) && S.Answered(req, env, responses, status) && Finds(env, l, req, incarnation)
    requires req.leaderIndex > 0 && req.clusterId > 0
    ensures var reply := P.ReplyToTail(l, incarnation, req.leaderIndex);
      && ReplyOf(responses, status) in {None, Some(reply)}
      && (reply in {P.Aborted, P.LeaderBehind} ==> ReplyOf(responses, status) == Some(reply))
  {
  }

  /** A request that is answered with a stream has got past the guards. */
  lemma StreamIsOver(req: S.Request, env: S.Environment, responses: seq<S.Response>, status: S.Status)
    requires S.EnvironmentOk(env) && S.Answered(req, env, responses, status)
    requires ReplyOf(responses, status) == Some(P.Stream)
    ensures env.applied.Some? && S.StreamOk(env, env.applied.value, req.leaderIndex, responses)
  {
  }

  /** The commands of a stream are the entries of the log that follow on the follower's index. */
  lemma SentEntries(req: S.Request, env: S.Environment, responses: seq<S.Response>, status: S.Status, meaning: Meaning,
                    log: seq<R.Entry>, f: nat)
    requires S.EnvironmentOk(env) && S.Answered(req, env, responses, status)
    requires ReplyOf(responses, status) == Some(P.Stream) && req.leaderIndex == f + 1
    requires Decodes(env.decode, env.log) && LogOf(env.decode, env.log, meaning) == log
    ensures var n := |S.Sent(responses)|;
      && env.applied.Some? && f + n <= env.applied.value && f + n <= |log|
      && EntriesOf(S.Sent(responses), meaning) == log[f..f + n]
  {
    StreamIsOver(req, env, responses, status);
    StreamIsLog(env.decode, env.log, f + 1, S.Sent(responses), meaning);
  }

  /** Sending such entries and getting the first `got` of them. */
  lemma SendAndGet(s: P.State, entries: seq<R.Entry>, got: nat)
    requires P.Inv(s) && s.answer.None? && got <= |entries|
    requires P.ReplyToTail(s.leader, s.follower.incarnation, s.follower.index + 1) == P.Stream
    requires s.follower.index + |entries| <= s.leader.applied
    requires entries == P.Log(s.leader)[s.follower.index..s.follower.index + |entries|]
    ensures P.Enabled(s, P.AskTail(|entries|)) && P.Inv(P.Next(s, P.AskTail(|entries|)))
    ensures var s' := P.Next(s, P.AskTail(|entries|));
      && P.Enabled(s', P.Deliver(got))
      && P.Next(s', P.Deliver(got)).follower ==
         P.Follower(s.follower.incarnation, s.follower.index + got, P.Replay(s.follower.kv, entries[..got]))
  {
    P.StepKeepsInv(s, P.AskTail(|entries|));
  }

  /**
   A stream of the log server to a follower is a step of replication, and whatever part of it arrives is what the
   follower replays then.
   */
  lemma StreamIsStep(s: P.State, req: S.Request, env: S.Environment, responses: seq<S.Response>, status: S.Status,
                     meaning: Meaning, entries: seq<R.Entry>, got: nat)
    requires P.Inv(s) && s.answer.None? && S.EnvironmentOk(env) && Decodes(env.decode, env.log)
    requires Finds(env, s.leader, req, s.follower.incarnation) && LogOf(env.decode, env.log, meaning) == P.Log(s.leader)
    requires req.leaderIndex == s.follower.index + 1 && req.clusterId > 0
    requires S.Answered(req, env, responses, status) && ReplyOf(responses, status) == Some(P.Stream)
    requires entries == EntriesOf(S.Sent(responses), meaning) && got <= |entries|
    ensures P.Enabled(s, P.AskTail(|entries|)) && P.Inv(P.Next(s, P.AskTail(|entries|)))
    ensures var s' := P.Next(s, P.AskTail(|entries|));
      && P.Enabled(s', P.Deliver(got))
      && P.Next(s', P.Deliver(got)).follower ==
         P.Follower(s.follower.incarnation, s.follower.index + got, P.Replay(s.follower.kv, entries[..got]))
  {
    RepliesAgree(req, env, s.leader, s.follower.incarnation, responses, status);
    SentEntries(req, env, responses, status, meaning, P.Log(s.leader), s.follower.index);
    SendAndGet(s, entries, got);
  }
}
