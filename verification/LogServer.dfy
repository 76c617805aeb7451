/** LogServer.Replicate: the guards of one request and the loop that streams the log. */
module LogServer {
  import opened Common
  import opened Wire
  import opened Messages
  import opened CommandCodec

  datatype LogEntry = LogEntry(index: nat, encoded: bool, cmd: bytes)

  /** A Raft log: entry i + 1 at position i; an encoded entry starts with a one-byte header. */
  ghost predicate LogOk(log: seq<LogEntry>) {
    forall i :: 0 <= i < |log| ==> log[i].index == i + 1 < TWO_64 && (log[i].encoded ==> |log[i].cmd| > 0)
  }

  const DUMMY: int32 := 2

  /** How a command is read from bytes; nothing but EntryRoundTrip depends on which way that is. */
  type Decoder = bytes -> Result<Command, Error>

  function UnmarshalVT(b: bytes): Result<Command, Error> {
    DecodeCommand(NEW_COMMAND, b)
  }

  /** entryToCommand. */
  function EntryToCommand(decode: Decoder, e: LogEntry): Result<Command, Error>
    requires e.index < TWO_64 && (e.encoded ==> |e.cmd| > 0)
  {
    var cmd :- if e.encoded then decode(e.cmd[1..]) else Ok(NEW_COMMAND.(kind := DUMMY));
    Ok(cmd.(leaderIndex := Some(e.index)))
  }

  /** A command that was marshalled into a log entry comes back as it was, with the entry's index. */
  lemma EntryRoundTrip(e: LogEntry, header: byte, m: Command)
    requires e.index < TWO_64 && e.encoded && e.cmd == [header] + EncodeCommand(m)
    requires CleanCommand(m) && CompleteCommand(m) && |EncodeCommand(m)| < TWO_63
    ensures EntryToCommand(UnmarshalVT, e) == Ok(NormalCommand(m).(leaderIndex := Some(e.index)))
  {
    assert e.cmd[1..] == EncodeCommand(m);
    CommandRoundTrip(m);
  }

  datatype Request = Request(leaderIndex: uint64, clusterId: uint64)

  /** GetTable: the shard of the table's current incarnation, or why there is none. */
  datatype Lookup = Found(clusterId: uint64) | TableNotFound | Retry | Failed

  /**
   What the request finds: a failed read of an index is None. The log reader holds the entries from `rFirst` to
   `rLast` when it is first asked, and at least those up to `readable` whenever it is asked.
   */
  datatype Environment = Environment(lookup: Lookup, applied: Option<nat>, retry: bool, horizon: Option<nat>,
                                     log: seq<LogEntry>, decode: Decoder, readable: nat, rFirst: nat, rLast: nat)

  ghost predicate EnvironmentOk(env: Environment) {
    && LogOk(env.log) && env.readable <= env.rLast <= |env.log| && 1 <= env.rFirst
    && (env.applied.Some? ==> env.applied.value <= |env.log|)
  }

  datatype Response =
    | Commands(leaderIndex: nat, commands: seq<(Command, nat)>)
    | UpToDate(leaderIndex: nat)
    | UseSnapshot
    | LeaderBehind

  datatype Status = Closed | Broken | InvalidArgument | NotFound | Unavailable | FailedPrecondition | Aborted

  /** The commands of a stream, in order. */
  function Sent(responses: seq<Response>): seq<(Command, nat)> {
    if |responses| == 0 then []
    else
      var last := responses[|responses| - 1];
      Sent(responses[..|responses| - 1]) + if last.Commands? then last.commands else []
  }

  /** `commands` are the entries from `first` on, translated. */
  ghost predicate AreEntries(decode: Decoder, log: seq<LogEntry>, first: nat, commands: seq<(Command, nat)>)
    requires LogOk(log)
  {
    && 1 <= first && first - 1 + |commands| <= |log|
    && forall i :: 0 <= i < |commands| ==>
      EntryToCommand(decode, log[first - 1 + i]) == Ok(commands[i].0) && commands[i].1 == first + i
  }

  lemma EntriesJoin(decode: Decoder, log: seq<LogEntry>, first: nat, a: seq<(Command, nat)>, b: seq<(Command, nat)>)
    requires LogOk(log) && AreEntries(decode, log, first, a) && AreEntries(decode, log, first + |a|, b)
    ensures AreEntries(decode, log, first, a + b)
  {
    forall i | 0 <= i < |a + b|
      ensures EntryToCommand(decode, log[first - 1 + i]) == Ok((a + b)[i].0) && (a + b)[i].1 == first + i
    {
      if i >= |a| {
        assert (a + b)[i] == b[i - |a|];
        assert first - 1 + i == (first + |a|) - 1 + (i - |a|);
      }
    }
  }

  datatype Query = Got(entries: seq<LogEntry>) | LogBehind | LogAhead | QueryFailed

  /** What a request for [first, last) meets in a log reader that holds the entries from `rFirst` to `rLast`. */
  datatype Reading = NothingNew | TooEarly | TooLate | Held

  function Meets(rFirst: nat, rLast: nat, first: nat, last: nat): Reading {
    if first == last || rLast + 1 == first then NothingNew
    else if rLast < first then TooEarly
    else if first < rFirst then TooLate
    else Held
  }

  /** QueryRaftLog over [first, last): at least one entry where there is one, but as few as the size limit makes it. */
  method QueryRaftLog(log: seq<LogEntry>, rFirst: nat, rLast: nat, first: nat, last: nat) returns (r: Query)
    requires 1 <= first <= last <= |log| + 1 && 1 <= rFirst && rLast <= |log|
    ensures first == last ==> r == Got([])
    ensures r.LogBehind? ==> Meets(rFirst, rLast, first, last).TooEarly?
    ensures r.LogAhead? ==> Meets(rFirst, rLast, first, last).TooLate?
    ensures r.Got? ==> Meets(rFirst, rLast, first, last) == if r.entries == [] then NothingNew else Held
    ensures r.Got? ==> |r.entries| <= last - first && r.entries == log[first - 1..first - 1 + |r.entries|]
  {
    if first == last {
      return Got([]);
    }
    var broken: bool := *;
    if broken {
      return QueryFailed;
    }
    if rLast + 1 == first {
      return Got([]);
    }
    if rLast < first {
      return LogBehind;
    }
    if first < rFirst {
      return LogAhead;
    }
    var unread: bool, n: nat := *, *;
    if unread || !(1 <= n <= last - first && first - 1 + n <= rLast) {
      return QueryFailed;
    }
    return Got(log[first - 1..first - 1 + n]);
  }

  /** The loop over one batch of entries. */
  method Translate(decode: Decoder, log: seq<LogEntry>, first: nat, entries: seq<LogEntry>)
    returns (r: Result<seq<(Command, nat)>, Error>)
    requires LogOk(log) && 1 <= first && first - 1 + |entries| <= |log|
    requires entries == log[first - 1..first - 1 + |entries|]
    ensures r.Ok? ==> |r.value| == |entries| && AreEntries(decode, log, first, r.value)
    ensures r.Err? ==> exists i ::
      first - 1 <= i < first - 1 + |entries| && EntryToCommand(decode, log[i]) == Err(r.error)
  {
    var commands: seq<(Command, nat)> := [];
    for i := 0 to |entries|
      invariant |commands| == i && AreEntries(decode, log, first, commands)
    {
      assert entries[i] == log[first - 1 + i];
      var cmd := EntryToCommand(decode, entries[i]);
      if cmd.Err? {
        return Err(cmd.error);
      }
      commands := commands + [(cmd.value, entries[i].index)];
    }
    return Ok(commands);
  }

  /** What the stream of one request is, as long as it gets past the guards. */
  ghost predicate StreamOk(env: Environment, applied: nat, first: nat, responses: seq<Response>)
    requires LogOk(env.log)
  {
    && AreEntries(env.decode, env.log, first, Sent(responses))
    && first - 1 + |Sent(responses)| <= applied
    && forall i :: 0 <= i < |responses| && responses[i].Commands? ==>
      responses[i].leaderIndex == applied && |responses[i].commands| > 0
  }

  lemma SentMore(responses: seq<Response>, r: Response)
    ensures Sent(responses + [r]) == Sent(responses) + if r.Commands? then r.commands else []
  {
    assert (responses + [r])[..|responses|] == responses;
  }

  /** How a stream that got past the guards may end, when the log reader reaches the applied index. */
  ghost predicate EndsOk(env: Environment, applied: nat, first: nat, responses: seq<Response>) {
    |responses| > 0 ==>
      var last := responses[|responses| - 1];
      && (forall i :: 0 <= i < |responses| - 1 ==> responses[i].Commands?)
      && (env.readable >= applied && last.UpToDate? ==> first - 1 + |Sent(responses)| == applied)
      && (env.readable >= applied ==> !last.LeaderBehind?)
  }

  ghost predicate OnlyCommands(responses: seq<Response>) {
    forall i :: 0 <= i < |responses| ==> responses[i].Commands?
  }

  /** The first response is what the log reader makes it. */
  ghost predicate StartsOk(reading: Reading, responses: seq<Response>) {
    |responses| > 0 ==>
      match responses[0]
      case Commands(_, _) => reading.Held?
      case UpToDate(_) => reading.NothingNew?
      case LeaderBehind => reading.TooEarly?
      case UseSnapshot => reading.TooLate?
  }

  /** What the log reader makes of the first query of a request that got past the guards. */
  function FirstReading(env: Environment, applied: nat, first: nat): Reading {
    Meets(env.rFirst, env.rLast, first, applied + 1)
  }

  /** A stream that has not ended, and one that has. */
  ghost predicate Going(env: Environment, applied: nat, first: nat, responses: seq<Response>)
    requires LogOk(env.log)
  {
    && StreamOk(env, applied, first, responses) && OnlyCommands(responses)
    && StartsOk(FirstReading(env, applied, first), responses)
  }

  ghost predicate Over(env: Environment, applied: nat, first: nat, responses: seq<Response>)
    requires LogOk(env.log)
  {
    && StreamOk(env, applied, first, responses) && EndsOk(env, applied, first, responses)
    && StartsOk(FirstReading(env, applied, first), responses)
  }

  /** Ending the stream with a response that carries no commands. */
  lemma EndWith(env: Environment, applied: nat, first: nat, responses: seq<Response>, r: Response)
    requires LogOk(env.log) && Going(env, applied, first, responses) && !r.Commands?
    requires responses == [] ==> StartsOk(FirstReading(env, applied, first), [r])
    requires r.UpToDate? && env.readable >= applied ==> first - 1 + |Sent(responses)| == applied
    requires env.readable >= applied ==> !r.LeaderBehind?
    ensures Over(env, applied, first, responses + [r])
  {
    SentMore(responses, r);
    assert Sent(responses) + [] == Sent(responses);
  }

  lemma GoOnWith(env: Environment, applied: nat, first: nat, responses: seq<Response>, commands: seq<(Command, nat)>)
    requires LogOk(env.log) && Going(env, applied, first, responses) && |commands| > 0
    requires responses == [] ==> FirstReading(env, applied, first).Held?
    requires AreEntries(env.decode, env.log, first + |Sent(responses)|, commands)
    requires first - 1 + |Sent(responses)| + |commands| <= applied
    ensures var more := responses + [Commands(applied, commands)];
      Going(env, applied, first, more) && |Sent(more)| == |Sent(responses)| + |commands|
  {
    SentMore(responses, Commands(applied, commands));
    EntriesJoin(env.decode, env.log, first, Sent(responses), commands);
  }

  /** The response to a query that found nothing to send, if there is one. */
  method Finish(query: Query) returns (response: Option<Response>, status: Status)
    requires query.Got? ==> query.entries == []
    ensures status in {Closed, Broken}
    ensures response.Some? ==>
      match response.value
      case Commands(_, _) => false
      case UpToDate(_) => query.Got?
      case LeaderBehind => query.LogBehind?
      case UseSnapshot => query.LogAhead?
  {
    match query {
      case LogBehind => return Some(LeaderBehind), Closed;
      case LogAhead => return Some(UseSnapshot), Closed;
      case QueryFailed => return None, Closed;
      case Got(_) =>
        var readFails: bool, now: nat := *, *;
        if readFails {
          return None, Broken;
        }
        return Some(UpToDate(now)), Closed;
    }
  }

  /** The rest of the loop body when there is nothing to send. */
  method EndStream(env: Environment, applied: nat, first: nat, responses: seq<Response>, query: Query,
                   ghost met: Reading)
    returns (all: seq<Response>, status: Status)
    requires LogOk(env.log) && Going(env, applied, first, responses) && (query.Got? ==> query.entries == [])
    requires query.LogBehind? ==> met.TooEarly?
    requires query.LogAhead? ==> met.TooLate?
    requires query.Got? ==> met.NothingNew?
    requires responses == [] ==> met == FirstReading(env, applied, first)
    requires env.readable >= applied ==>
      !met.TooEarly? && (met.NothingNew? ==> first - 1 + |Sent(responses)| == applied)
    ensures Over(env, applied, first, all) && status in {Closed, Broken}
  {
    var response, ending := Finish(query);
    if response.None? {
      return responses, ending;
    }
    EndWith(env, applied, first, responses, response.value);
    return responses + [response.value], ending;
  }

  /** The rest of the loop body when there are entries to send. */
  method SendBatch(env: Environment, applied: nat, first: nat, responses: seq<Response>, next: nat,
                   entries: seq<LogEntry>) returns (response: Option<Response>)
    requires LogOk(env.log) && Going(env, applied, first, responses) && next == first + |Sent(responses)|
    requires responses == [] ==> FirstReading(env, applied, first).Held?
    requires |entries| > 0 && next - 1 + |entries| <= applied <= |env.log|
    requires entries == env.log[next - 1..next - 1 + |entries|]
    ensures response.Some? ==>
      var more := responses + [response.value];
      Going(env, applied, first, more) && |Sent(more)| == |Sent(responses)| + |entries|
  {
    var commands := Translate(env.decode, env.log, next, entries);
    var sendFails: bool := *;
    if commands.Err? || sendFails {
      return None;
    }
    GoOnWith(env, applied, first, responses, commands.value);
    return Some(Commands(applied, commands.value));
  }

  /**
   The streaming loop: consecutive entries from `first` on, none left out and none twice, through the applied
   index when the stream ends with an up-to-date response and a prefix of that otherwise.
   */
  method StreamLog(env: Environment, applied: nat, first: nat) returns (responses: seq<Response>, status: Status)
    requires EnvironmentOk(env) && env.applied == Some(applied) && 1 <= first <= applied + 1
    ensures Over(env, applied, first, responses) && status in {Closed, Broken}
  {
    responses, status := [], Closed;
    var next, last := first, applied + 1;
    var rFirst, rLast := env.rFirst, env.rLast;
    while true
      invariant next == first + |Sent(responses)| && next <= last && Going(env, applied, first, responses)
      invariant env.readable <= rLast <= |env.log| && 1 <= rFirst
      invariant responses == [] ==> rFirst == env.rFirst && rLast == env.rLast
      decreases last - next
    {
      var late: bool := *;
      if late {
        return responses, Closed;
      }
      var query := QueryRaftLog(env.log, rFirst, rLast, next, last);
      if !query.Got? || |query.entries| == 0 {
        responses, status := EndStream(env, applied, first, responses, query, Meets(rFirst, rLast, next, last));
        return;
      }
      var response := SendBatch(env, applied, first, responses, next, query.entries);
      if response.None? {
        return responses, Broken;
      }
      responses := responses + [response.value];
      next := Min(query.entries[|query.entries| - 1].index + 1, last);
      rFirst, rLast :| env.readable <= rLast <= |env.log| && 1 <= rFirst;
    }
  }

  /** The request is refused before anything is read. */
  function Refusal(req: Request, env: Environment): Option<Status> {
    if req.leaderIndex == 0 || req.clusterId == 0 then Some(InvalidArgument)
    else if env.lookup.TableNotFound? then Some(NotFound)
    else if env.lookup.Retry? then Some(Unavailable)
    else if env.lookup.Failed? then Some(FailedPrecondition)
    else if req.clusterId != env.lookup.clusterId then Some(Aborted)
    else if env.applied.None? then Some(if env.retry then Unavailable else FailedPrecondition)
    else None
  }

  /** The requested entry is at or below the collection horizon. */
  predicate BelowHorizon(req: Request, env: Environment) {
    env.horizon.Some? && env.horizon.value > 0 && req.leaderIndex <= env.horizon.value
  }

  /** What a request is answered with. */
  ghost predicate Answered(req: Request, env: Environment, responses: seq<Response>, status: Status)
    requires LogOk(env.log)
  {
    if Refusal(req, env).Some? then responses == [] && status == Refusal(req, env).value
    else
      var applied := env.applied.value;
      && status in {Closed, Broken}
      && if applied + 1 < req.leaderIndex then responses == [LeaderBehind]
         else if BelowHorizon(req, env) then responses == [UseSnapshot]
         else Over(env, applied, req.leaderIndex, responses)
  }

  method Replicate(req: Request, env: Environment) returns (responses: seq<Response>, status: Status)
    requires EnvironmentOk(env)
    ensures Answered(req, env, responses, status)
  {
    responses := [];
    if req.leaderIndex == 0 {
      return [], InvalidArgument;
    }
    if req.clusterId == 0 {
      return [], InvalidArgument;
    }
    match env.lookup {
      case TableNotFound => return [], NotFound;
      case Retry => return [], Unavailable;
      case Failed => return [], FailedPrecondition;
      case Found(clusterId) =>
        if req.clusterId != clusterId {
          return [], Aborted;
        }
    }
    if env.applied.None? {
      return [], if env.retry then Unavailable else FailedPrecondition;
    }
    var applied := env.applied.value;
    if applied + 1 < req.leaderIndex {
      return [LeaderBehind], Closed;
    }
    if env.horizon.Some? && env.horizon.value > 0 && req.leaderIndex <= env.horizon.value {
      return [UseSnapshot], Closed;
    }
    responses, status := StreamLog(env, applied, req.leaderIndex);
  }
}
