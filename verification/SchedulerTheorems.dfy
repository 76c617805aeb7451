/** What every run of the compaction scheduler guarantees. */
module SchedulerTheorems {
  import opened Common
  import opened SchedulerState
  import opened SchedulerProtocol

  lemma InitInv()
    ensures Inv(INIT)
  {
  }

  /** Every state that any interleaving reaches satisfies the invariant. */
  lemma ReachableInv(run: seq<Action>)
    requires ValidRun(INIT, run)
    ensures Inv(After(INIT, run))
  {
    InitInv();
    RunKeepsInv(INIT, run);
  }

  // ----- Conservation -----

  ghost function UncountedGrants(s: State): nat {
    if exists t :: t in s.threads && s.threads[t].pc.Accepted? then 1 else 0
  }

  lemma {:induction false} SumsEqual(regs: seq<Registration>)
    requires forall i :: 0 <= i < |regs| ==> regs[i].running == regs[i].live
    ensures SumRunning(regs) == SumLive(regs)
  {
    if |regs| > 0 {
      SumsEqual(regs[1..]);
    }
  }

  lemma Balance(s: State)
    requires Inv(s)
    ensures s.shared.running + UncountedGrants(s) == SumLive(s.shared.regs)
  {
    var regs := s.shared.regs;
    if t :| t in s.threads && s.threads[t].pc.Accepted? {
      var r := s.threads[t].pc.candidate.reg;
      assert PassOk(s.shared, s.threads[t].pc);
      assert HoldsUncounted(s, t, r);
      forall i: RegId | i < |regs| && i != r
        ensures Uncounted(s, i) == 0
      {
        forall u | u in s.threads
          ensures !HoldsUncounted(s, u, i)
        {
          assert InPass(s.threads[t].pc);
        }
      }
      var counted := regs[r := regs[r].(running := regs[r].running + 1)];
      SumUpdate(regs, r, counted[r]);
      SumsEqual(counted);
    } else {
      SumsEqual(regs);
    }
  }

  /**
   The global count is the sum of the per-registration counts, and with the grant in flight it is the number of grants
   not yet Done.
   */
  lemma AccountsBalance(run: seq<Action>)
    requires ValidRun(INIT, run)
    ensures var s := After(INIT, run);
      && s.shared.running == SumRunning(s.shared.regs)
      && s.shared.running + UncountedGrants(s) == SumLive(s.shared.regs)
  {
    ReachableInv(run);
    Balance(After(INIT, run));
  }

  // ----- One granter, one pass, one registration set per pass -----

  /**
   Across any number of empty and non-empty transitions, backgroundRunning tells whether the one granter goroutine is
   alive.
   */
  lemma GranterLifeCycle(run: seq<Action>)
    requires ValidRun(INIT, run)
    ensures var s := After(INIT, run);
      && (s.shared.registrations != {} ==> s.shared.backgroundRunning)
      && (s.shared.backgroundRunning <==> exists t :: t in s.threads && s.threads[t].background)
      && (forall t, u :: t in s.threads && u in s.threads && s.threads[t].background && s.threads[u].background ==>
        t == u)
      && (forall t, u :: ThreadInPass(s, t) && ThreadInPass(s, u) ==> t == u)
      && (forall r :: r in s.shared.registrations <==> 0 <= r < |s.shared.regs| && s.shared.regs[r].registered)
  {
    ReachableInv(run);
    var s := After(INIT, run);
    forall r: RegId | r < |s.shared.regs| && s.shared.regs[r].registered
      ensures r in s.shared.registrations
    {
      assert RegOk(s.shared, r);
    }
  }

  ghost predicate GrantingThroughout(s: State, run: seq<Action>)
    requires ValidRun(s, run)
    decreases |run|
  {
    s.shared.isGranting && (|run| > 0 ==> GrantingThroughout(Apply(s, run[0]), run[1..]))
  }

  lemma GrantingKeepsSet(s: State, a: Action)
    requires Inv(s) && Enabled(s, a) && s.shared.isGranting
    ensures Apply(s, a).shared.registrations == s.shared.registrations
  {
    if IsCall(a) {
      CallOnlyShrinks(s, a);
    } else {
      MoveIsLocal(s, a);
    }
  }

  /**
   No registration joins or leaves from the start of a grant pass to its end, although the pass releases the mutex.
   */
  lemma {:induction false} PassSeesOneSet(s: State, run: seq<Action>)
    requires Inv(s) && ValidRun(s, run) && GrantingThroughout(s, run)
    ensures After(s, run).shared.registrations == s.shared.registrations
    decreases |run|
  {
    if |run| > 0 {
      GrantingKeepsSet(s, run[0]);
      ApplyKeepsInv(s, run[0]);
      PassSeesOneSet(Apply(s, run[0]), run[1..]);
    }
  }

  // ----- No refused request is lost -----

  /** The DB and the generation of the question to which `a` brings the answer "no". */
  function Refused(s: State, a: Action): Option<(RegId, nat)>
    requires Enabled(s, a)
  {
    if a.Answer? && !a.waiting then Some((s.threads[a.t].pc.reg, s.threads[a.t].pc.generation))
    else if a.Reject? then Some((s.threads[a.t].pc.candidate.reg, s.threads[a.t].pc.candidate.generation))
    else None
  }

  /** `a` brings DB `r`'s "no" to a question asked when refusal `g` had already happened. */
  ghost predicate Answers(s: State, a: Action, r: RegId, g: nat)
    requires Enabled(s, a)
  {
    var q := Refused(s, a);
    q.Some? && q.value.0 == r && g <= q.value.1
  }

  /** `a` brings DB `r`'s "no" after the 64-bit generation has gone round at least once since the question. */
  ghost predicate Laps(s: State, a: Action, r: RegId)
    requires Enabled(s, a) && r < |s.shared.regs|
  {
    var q := Refused(s, a);
    q.Some? && q.value.0 == r && q.value.1 != s.shared.regs[r].generation
      && SameGeneration(q.value.1, s.shared.regs[r].generation)
  }

  /** No step answers a question asked since refusal `g`, and none comes a whole round of generations late. */
  ghost predicate StillOpen(s: State, run: seq<Action>, r: RegId, g: nat)
    requires ValidRun(s, run)
    decreases |run|
  {
    |run| == 0 ||
    (r < |s.shared.regs| && !Answers(s, run[0], r, g) && !Laps(s, run[0], r)
      && StillOpen(Apply(s, run[0]), run[1..], r, g))
  }

  lemma CallKeepsWaiting(s: State, a: Action, r: RegId)
    requires Enabled(s, a) && IsCall(a) && r < |s.shared.regs| && s.shared.regs[r].waiting
    ensures r < |Apply(s, a).shared.regs| && Apply(s, a).shared.regs[r].waiting
    ensures Apply(s, a).shared.regs[r].generation >= s.shared.regs[r].generation
  {
    if a.DoTrySchedule? {
      TryScheduleEffect(s.shared, a.r, a.own, a.allowed);
    }
  }

  lemma MoveEndsWaitingIff(s: State, a: Action, r: RegId)
    requires Enabled(s, a) && !IsCall(a) && !IsQuiet(a) && r < |s.shared.regs| && s.shared.regs[r].waiting
    ensures r < |Apply(s, a).shared.regs| && Apply(s, a).shared.regs[r].generation == s.shared.regs[r].generation
    ensures !Apply(s, a).shared.regs[r].waiting <==> LooksCurrent(s, a, r)
  {
  }

  /** `a` brings DB `r`'s "no" to a question of a generation that the code takes for the current one. */
  ghost predicate LooksCurrent(s: State, a: Action, r: RegId)
    requires Enabled(s, a) && r < |s.shared.regs|
  {
    var q := Refused(s, a);
    q.Some? && q.value.0 == r && SameGeneration(s.shared.regs[r].generation, q.value.1)
  }

  /** A waiting DB stops waiting exactly when it answers "no" to a question of a generation that looks current. */
  lemma WaitingEndsIff(s: State, a: Action, r: RegId)
    requires Enabled(s, a) && r < |s.shared.regs| && s.shared.regs[r].waiting
    ensures r < |Apply(s, a).shared.regs| && Apply(s, a).shared.regs[r].generation >= s.shared.regs[r].generation
    ensures !Apply(s, a).shared.regs[r].waiting <==> LooksCurrent(s, a, r)
  {
    if IsCall(a) {
      CallKeepsWaiting(s, a, r);
    } else if IsQuiet(a) {
      QuietMove(s, a);
    } else {
      MoveEndsWaitingIff(s, a, r);
    }
  }

  lemma {:induction false} OpenStaysWaiting(s: State, run: seq<Action>, r: RegId, g: nat)
    requires ValidRun(s, run) && StillOpen(s, run, r, g)
    requires r < |s.shared.regs| && s.shared.regs[r].waiting && g <= s.shared.regs[r].generation
    ensures r < |After(s, run).shared.regs| && After(s, run).shared.regs[r].waiting
    decreases |run|
  {
    if |run| > 0 {
      WaitingEndsIff(s, run[0], r);
      OpenStaysWaiting(Apply(s, run[0]), run[1..], r, g);
    }
  }

  /**
   After a refused TrySchedule of a registered DB, `waiting` stays true through every continuation until a pass
   gets a "no" from that DB to a question asked after the refusal, or one to an older question that comes exactly
   a multiple of 2^64 refusals late.
   */
  lemma RefusalIsNotLost(run: seq<Action>, r: RegId, own: int, allowed: Allowances, rest: seq<Action>)
    requires ValidRun(INIT, run)
    requires var s := After(INIT, run);
      && Enabled(s, DoTrySchedule(r, own, allowed))
      && s.shared.regs[r].registered
      && !TrySchedule(s.shared, r, own, allowed).0
    requires var s' := Apply(After(INIT, run), DoTrySchedule(r, own, allowed));
      ValidRun(s', rest) && StillOpen(s', rest, r, s'.shared.regs[r].generation)
    ensures var s := After(Apply(After(INIT, run), DoTrySchedule(r, own, allowed)), rest);
      r < |s.shared.regs| && s.shared.regs[r].waiting
  {
    var s := After(INIT, run);
    TryScheduleEffect(s.shared, r, own, allowed);
    var s' := Apply(s, DoTrySchedule(r, own, allowed));
    OpenStaysWaiting(s', rest, r, s'.shared.regs[r].generation);
  }

  /** A lap does lose the refusal: the question is older than the last refusal and yet its "no" ends the waiting. */
  lemma LapLosesRefusal(s: State, a: Action, r: RegId)
    requires Enabled(s, a) && r < |s.shared.regs| && s.shared.regs[r].waiting && PassesOk(s) && Laps(s, a, r)
    ensures r < |Apply(s, a).shared.regs| && !Apply(s, a).shared.regs[r].waiting
    ensures Refused(s, a).value.1 + GENERATIONS <= s.shared.regs[r].generation
  {
    WaitingEndsIff(s, a, r);
    assert PassOk(s.shared, s.threads[a.t].pc);
  }

  // ----- Limits -----

  ghost function StateAt(run: seq<Action>, k: nat): State
    requires ValidRun(INIT, run) && k <= |run|
  {
    PrefixValid(INIT, run, k);
    After(INIT, run[..k])
  }

  lemma {:induction false} PrefixValid(s: State, run: seq<Action>, k: nat)
    requires ValidRun(s, run) && k <= |run|
    ensures ValidRun(s, run[..k])
    ensures k < |run| ==> Enabled(After(s, run[..k]), run[k])
                          && ValidRun(s, run[..k + 1])
                          && After(s, run[..k + 1]) == Apply(After(s, run[..k]), run[k])
    decreases k
  {
    if k > 0 {
      PrefixValid(Apply(s, run[0]), run[1..], k - 1);
      assert run[..k][1..] == run[1..][..k - 1];
      if k < |run| {
        assert run[..k + 1][1..] == run[1..][..k];
      }
    } else if |run| > 0 {
      assert run[..1][1..] == [];
    }
  }

  predicate HasLimit(pc: Pc) {
    pc.Scanning? || pc.Polling? || pc.Offering? || pc.Accepted?
  }

  function Cite(c: Candidate): (RegId, int) {
    (c.reg, c.allowance)
  }

  /** The registrations a pass holds an allowance reading for, with the reading. */
  function Cited(pc: Pc): set<(RegId, int)> {
    match pc
    case Scanning(_, _, _, best) => if best.Some? then {Cite(best.value)} else {}
    case Polling(_, _, _, best, r, _, allowance) => {(r, allowance)} + if best.Some? then {Cite(best.value)} else {}
    case Offering(_, _, c) => {Cite(c)}
    case Accepted(_, _, c) => {Cite(c)}
    case _ => {}
  }

  /** A reading enters a program counter only by the action that makes it. */
  lemma ReadingsEnterByReading(s: State, a: Action, t: ThreadId)
    requires Enabled(s, a) && t in Apply(s, a).threads
    ensures var pc' := Apply(s, a).threads[t].pc;
      && (HasLimit(pc') ==>
            || (a.CheckLimit? && a.t == t && pc'.limit == Limit(s.shared, a.allowed))
            || (!(a.CheckLimit? && a.t == t) && t in s.threads && HasLimit(s.threads[t].pc)
              && pc'.limit == s.threads[t].pc.limit))
      && (forall c :: c in Cited(pc') ==>
            || (t in s.threads && c in Cited(s.threads[t].pc) && !(a.CheckLimit? && a.t == t))
            || (a == Ask(t, c.0) && c.1 == s.shared.regs[c.0].lastAllowed))
  {
    var s' := Apply(s, a);
    if IsCall(a) || a.t != t {
      assert t in s.threads ==> s'.threads[t] == s.threads[t];
    }
  }

  /** Step `j` is the last limit check of thread `t` before step `k`, and it read `limit`. */
  ghost predicate LimitReadAt(run: seq<Action>, j: nat, k: nat, t: ThreadId, limit: int)
    requires ValidRun(INIT, run) && k <= |run|
  {
    && j < k
    && run[j].CheckLimit? && run[j].t == t
    && Limit(StateAt(run, j).shared, run[j].allowed) == limit
    && forall i :: j < i < k ==> !(run[i].CheckLimit? && run[i].t == t)
  }

  /** At step `i` thread `t` asked DB `r`, whose recorded allowance was `allowance`. */
  ghost predicate AllowanceReadAt(run: seq<Action>, i: nat, t: ThreadId, r: RegId, allowance: int)
    requires ValidRun(INIT, run)
  {
    && i < |run|
    && run[i] == Ask(t, r)
    && r < |StateAt(run, i).shared.regs|
    && StateAt(run, i).shared.regs[r].lastAllowed == allowance
  }

  lemma {:induction false} LimitProvenance(run: seq<Action>, k: nat, t: ThreadId) returns (j: nat)
    requires ValidRun(INIT, run) && k <= |run|
    requires t in StateAt(run, k).threads && HasLimit(StateAt(run, k).threads[t].pc)
    ensures LimitReadAt(run, j, k, t, StateAt(run, k).threads[t].pc.limit)
    decreases k
  {
    assert run[..0] == [];
    PrefixValid(INIT, run, k - 1);
    ReadingsEnterByReading(StateAt(run, k - 1), run[k - 1], t);
    if run[k - 1].CheckLimit? && run[k - 1].t == t {
      j := k - 1;
    } else {
      j := LimitProvenance(run, k - 1, t);
    }
  }

  /** The question to a DB whose allowance a pass holds came after the last limit check of that pass. */
  lemma {:induction false} AllowanceProvenance(run: seq<Action>, k: nat, t: ThreadId, c: (RegId, int)) returns (i: nat)
    requires ValidRun(INIT, run) && k <= |run|
    requires t in StateAt(run, k).threads && c in Cited(StateAt(run, k).threads[t].pc)
    ensures i < k && AllowanceReadAt(run, i, t, c.0, c.1)
    ensures forall m :: i < m < k ==> !(run[m].CheckLimit? && run[m].t == t)
    decreases k
  {
    assert run[..0] == [];
    PrefixValid(INIT, run, k - 1);
    ReadingsEnterByReading(StateAt(run, k - 1), run[k - 1], t);
    if run[k - 1] == Ask(t, c.0) && c.1 == StateAt(run, k - 1).shared.regs[c.0].lastAllowed {
      i := k - 1;
    } else {
      i := AllowanceProvenance(run, k - 1, t, c);
    }
  }

  /**
   A counted grant leaves the global count within the limit its own pass read last (step `j`), and the
   DB's count within the allowance recorded when that pass asked the DB after that (step `i`), although
   the mutex was free in between.
   */
  lemma GrantWithinLimits(run: seq<Action>, k: nat) returns (r: RegId, j: nat, i: nat)
    requires ValidRun(INIT, run) && k < |run| && run[k].CountAccepted?
    ensures r < |StateAt(run, k).shared.regs| && StateAt(run, k + 1).shared == CountGrant(StateAt(run, k).shared, r)
    ensures j < i < k && run[j].CheckLimit? && run[i] == Ask(run[k].t, r)
    ensures LimitReadAt(run, j, k, run[k].t, Limit(StateAt(run, j).shared, run[j].allowed))
    ensures StateAt(run, k + 1).shared.running <= Limit(StateAt(run, j).shared, run[j].allowed)
    ensures r < |StateAt(run, i).shared.regs| && r < |StateAt(run, k + 1).shared.regs|
    ensures StateAt(run, k + 1).shared.regs[r].running <= StateAt(run, i).shared.regs[r].lastAllowed
  {
    PrefixValid(INIT, run, k);
    ReachableInv(run[..k]);
    var s := StateAt(run, k);
    var t := run[k].t;
    var pc := s.threads[t].pc;
    assert PassOk(s.shared, pc);
    r := pc.candidate.reg;
    j := LimitProvenance(run, k, t);
    i := AllowanceProvenance(run, k, t, Cite(pc.candidate));
  }

  // ----- The best candidate -----

  /** The candidate a pass holds, if it has one. */
  function Chosen(pc: Pc): Option<Candidate> {
    match pc
    case Scanning(_, _, _, best) => best
    case Polling(_, _, _, best, _, _, _) => best
    case Offering(_, _, c) => Some(c)
    case Accepted(_, _, c) => Some(c)
    case _ => None
  }

  /** The registrations a pass has yet to look at. */
  function ToVisit(pc: Pc): set<RegId> {
    if pc.Scanning? || pc.Polling? then pc.remaining else {}
  }

  predicate Visits(a: Action, t: ThreadId, r: RegId) {
    a == Skip(t, r) || a == Ask(t, r)
  }

  predicate SaysYes(a: Action, t: ThreadId) {
    a.Answer? && a.t == t && a.waiting
  }

  /** The step brings a DB's "yes" of which candidate `c` is made. */
  predicate Proposes(s: State, a: Action, t: ThreadId, c: Candidate) {
    && SaysYes(a, t) && t in s.threads && s.threads[t].pc.Polling?
    && c == Candidate(s.threads[t].pc.reg, s.threads[t].pc.generation, s.threads[t].pc.allowance, a.info)
  }

  lemma ScanMoves(s: State, a: Action, t: ThreadId)
    requires Enabled(s, a) && t in Apply(s, a).threads && HasLimit(Apply(s, a).threads[t].pc)
    requires !(a.CheckLimit? && a.t == t)
    ensures t in s.threads && HasLimit(s.threads[t].pc)
    ensures var pc, pc' := s.threads[t].pc, Apply(s, a).threads[t].pc;
      && (forall r :: r in ToVisit(pc) ==> r in ToVisit(pc') || Visits(a, t, r))
      && Chosen(pc') ==
         if SaysYes(a, t) then Better(Chosen(pc), Candidate(pc.reg, pc.generation, pc.allowance, a.info))
         else Chosen(pc)
  {
    ReadingsEnterByReading(s, a, t);
    if IsCall(a) || a.t != t {
      assert Apply(s, a).threads[t] == s.threads[t];
    }
  }

  /** No "yes" that thread `t` got between steps `j` and `k` has a higher priority than `best`. */
  ghost predicate Unbeaten(run: seq<Action>, j: nat, k: nat, t: ThreadId, best: Option<Candidate>)
    requires k <= |run|
  {
    forall m :: j < m < k && SaysYes(run[m], t) ==> best.Some? && !HigherPriority(run[m].info, best.value.info)
  }

  ghost predicate Proposed(run: seq<Action>, j: nat, k: nat, t: ThreadId, c: Candidate)
    requires ValidRun(INIT, run) && k <= |run|
  {
    exists i :: j < i < k && Proposes(StateAt(run, i), run[i], t, c)
  }

  ghost predicate Visited(run: seq<Action>, j: nat, k: nat, t: ThreadId, r: RegId)
    requires k <= |run|
  {
    exists m :: j < m < k && Visits(run[m], t, r)
  }

  /** What a pass that last checked the limit at step `j` has done by step `k`. */
  ghost predicate ScansWell(run: seq<Action>, j: nat, k: nat, t: ThreadId, pc: Pc)
    requires ValidRun(INIT, run) && j < k <= |run|
  {
    && Unbeaten(run, j, k, t, Chosen(pc))
    && (Chosen(pc).Some? ==> Proposed(run, j, k, t, Chosen(pc).value))
    && (forall r :: r in StateAt(run, j).shared.registrations ==> r in ToVisit(pc) || Visited(run, j, k, t, r))
  }

  lemma StillUnbeaten(run: seq<Action>, j: nat, k: nat, t: ThreadId, best: Option<Candidate>, c: Candidate)
    requires k < |run| && Unbeaten(run, j, k, t, best) && SaysYes(run[k], t) && c.info == run[k].info
    ensures Unbeaten(run, j, k + 1, t, Better(best, c))
  {
    var b := Better(best, c).value;
    forall m | j < m < k + 1 && SaysYes(run[m], t)
      ensures !HigherPriority(run[m].info, b.info)
    {
      HigherPriorityIsStrictWeakOrder(run[m].info, if best.Some? then best.value.info else c.info, b.info);
      HigherPriorityIsStrictWeakOrder(b.info, c.info, c.info);
    }
  }

  lemma StillProposed(run: seq<Action>, j: nat, k: nat, t: ThreadId, c: Candidate)
    requires ValidRun(INIT, run) && k < |run| && Proposed(run, j, k, t, c)
    ensures Proposed(run, j, k + 1, t, c)
  {
    var i :| j < i < k && Proposes(StateAt(run, i), run[i], t, c);
    assert i < k + 1;
  }

  lemma StillVisited(run: seq<Action>, j: nat, k: nat, t: ThreadId, r: RegId)
    requires k < |run| && Visited(run, j, k, t, r)
    ensures Visited(run, j, k + 1, t, r)
  {
    var m :| j < m < k && Visits(run[m], t, r);
    assert m < k + 1;
  }

  lemma ScanStepsWell(run: seq<Action>, j: nat, k: nat, t: ThreadId, pc: Pc, pc': Pc)
    requires ValidRun(INIT, run) && j < k < |run|
    requires var s := StateAt(run, k);
      && Enabled(s, run[k]) && t in s.threads && s.threads[t].pc == pc
      && t in Apply(s, run[k]).threads && Apply(s, run[k]).threads[t].pc == pc'
    requires HasLimit(pc') && !(run[k].CheckLimit? && run[k].t == t) && ScansWell(run, j, k, t, pc)
    ensures ScansWell(run, j, k + 1, t, pc')
  {
    var s, a := StateAt(run, k), run[k];
    ScanMoves(s, a, t);
    if SaysYes(a, t) {
      var c := Candidate(pc.reg, pc.generation, pc.allowance, a.info);
      StillUnbeaten(run, j, k, t, Chosen(pc), c);
      assert Proposes(s, a, t, c);
    }
    if Chosen(pc).Some? {
      StillProposed(run, j, k, t, Chosen(pc).value);
    }
    forall r | r in StateAt(run, j).shared.registrations && r !in ToVisit(pc')
      ensures Visited(run, j, k + 1, t, r)
    {
      if r in ToVisit(pc) {
        assert Visits(run[k], t, r);
      } else {
        StillVisited(run, j, k, t, r);
      }
    }
  }

  /** What is so right after a limit check. */
  lemma FreshScan(s: State, a: Action, t: ThreadId)
    requires Enabled(s, a) && a.CheckLimit? && a.t == t
    requires t in Apply(s, a).threads && HasLimit(Apply(s, a).threads[t].pc)
    ensures var pc := Apply(s, a).threads[t].pc; Chosen(pc).None? && ToVisit(pc) == s.shared.registrations
  {
  }

  lemma {:induction false} ScansSince(run: seq<Action>, j: nat, k: nat, t: ThreadId)
    requires ValidRun(INIT, run) && j < k <= |run| && run[j].CheckLimit? && run[j].t == t
    requires t in StateAt(run, k).threads && HasLimit(StateAt(run, k).threads[t].pc)
    requires forall i :: j < i < k ==> !(run[i].CheckLimit? && run[i].t == t)
    ensures ScansWell(run, j, k, t, StateAt(run, k).threads[t].pc)
    decreases k
  {
    PrefixValid(INIT, run, k - 1);
    var s, a, pc := StateAt(run, k - 1), run[k - 1], StateAt(run, k).threads[t].pc;
    if k - 1 == j {
      FreshScan(s, a, t);
    } else {
      ScanMoves(s, a, t);
      ScansSince(run, j, k - 1, t);
      ScanStepsWell(run, j, k - 1, t, s.threads[t].pc, pc);
    }
  }

  /**
   In every interleaving, what a pass holds is made of a "yes" of its present scan, no other "yes" of that scan has
   a higher priority, and every registration has been looked at or is yet to be.
   */
  lemma HoldsTheBest(run: seq<Action>, k: nat, t: ThreadId) returns (j: nat)
    requires ValidRun(INIT, run) && k <= |run|
    requires t in StateAt(run, k).threads && HasLimit(StateAt(run, k).threads[t].pc)
    ensures LimitReadAt(run, j, k, t, StateAt(run, k).threads[t].pc.limit)
    ensures ScansWell(run, j, k, t, StateAt(run, k).threads[t].pc)
  {
    j := LimitProvenance(run, k, t);
    ScansSince(run, j, k, t);
  }

  /** An offer goes to a best answer of a scan of all registrations, whatever happened during the scan. */
  lemma OfferGoesToTheBest(run: seq<Action>, k: nat, t: ThreadId) returns (j: nat, i: nat)
    requires ValidRun(INIT, run) && k <= |run|
    requires t in StateAt(run, k).threads && StateAt(run, k).threads[t].pc.Offering?
    ensures var c := StateAt(run, k).threads[t].pc.candidate;
      && j < i < k && run[j].CheckLimit? && run[j].t == t && Proposes(StateAt(run, i), run[i], t, c)
      && (forall m :: j < m < k ==> !(run[m].CheckLimit? && run[m].t == t))
      && (forall m :: j < m < k && SaysYes(run[m], t) ==> !HigherPriority(run[m].info, c.info))
      && (forall r :: r in StateAt(run, j).shared.registrations ==> Visited(run, j, k, t, r))
  {
    j := HoldsTheBest(run, k, t);
    var c := StateAt(run, k).threads[t].pc.candidate;
    i :| j < i < k && Proposes(StateAt(run, i), run[i], t, c);
  }

  // ----- Constant allowances -----

  /** Every DB always answers `allowed`. */
  ghost predicate Steady(a: Action, allowed: Allowances) {
    && (a.DoTrySchedule? ==> a.own == allowed(a.r) && a.allowed == allowed)
    && (a.DoUpdateAllowed? ==> a.own == allowed(a.r))
    && (a.CheckLimit? ==> a.allowed == allowed)
  }

  ghost predicate SteadyRun(run: seq<Action>, allowed: Allowances) {
    forall i :: 0 <= i < |run| ==> Steady(run[i], allowed)
  }

  /** The registrations that ever had a DB. */
  function EverRegistered(sh: Shared): set<RegId> {
    set r | 0 <= r < |sh.regs| && sh.regs[r].hasDb
  }

  /** The largest allowance of all DBs that ever registered. */
  function NodeCap(sh: Shared, allowed: Allowances): nat {
    MaxAllowed(allowed, EverRegistered(sh), |sh.regs|)
  }

  predicate RegCapped(reg: Registration, cap: int) {
    reg.lastAllowed <= Max(0, cap) && reg.running <= Max(0, cap)
  }

  ghost predicate RegsCapped(sh: Shared, allowed: Allowances) {
    forall r :: 0 <= r < |sh.regs| ==> RegCapped(sh.regs[r], allowed(r))
  }

  ghost predicate PcCapped(pc: Pc, cap: int, allowed: Allowances) {
    && (HasLimit(pc) ==> pc.limit <= cap)
    && (forall c :: c in Cited(pc) ==> c.1 <= Max(0, allowed(c.0)))
  }

  ghost predicate Capped(s: State, allowed: Allowances) {
    && s.shared.running <= NodeCap(s.shared, allowed)
    && RegsCapped(s.shared, allowed)
    && (forall t :: t in s.threads ==> PcCapped(s.threads[t].pc, NodeCap(s.shared, allowed), allowed))
  }

  lemma {:induction false} MaxAllowedMonotone(allowed: Allowances, ids: set<RegId>, ids': set<RegId>, n: nat, n': nat)
    requires ids <= ids' && n <= n'
    ensures MaxAllowed(allowed, ids, n) <= MaxAllowed(allowed, ids', n')
    decreases n'
  {
    if n < n' {
      MaxAllowedMonotone(allowed, ids, ids', n, n' - 1);
    } else if n > 0 {
      MaxAllowedMonotone(allowed, ids, ids', n - 1, n' - 1);
    }
  }

  lemma LimitWithinCap(s: State, allowed: Allowances)
    requires LifeCycle(s)
    ensures Limit(s.shared, allowed) <= NodeCap(s.shared, allowed)
  {
    forall r | r in s.shared.registrations
      ensures r in EverRegistered(s.shared)
    {
      assert RegOk(s.shared, r);
    }
    MaxAllowedMonotone(allowed, s.shared.registrations, EverRegistered(s.shared), |s.shared.regs|, |s.shared.regs|);
  }

  /** A registration never loses its DB field. */
  lemma DbsStay(s: State, a: Action)
    requires Enabled(s, a)
    ensures |s.shared.regs| <= |Apply(s, a).shared.regs|
    ensures forall r :: 0 <= r < |s.shared.regs| && s.shared.regs[r].hasDb ==> Apply(s, a).shared.regs[r].hasDb
  {
    if a.DoTrySchedule? {
      TryScheduleEffect(s.shared, a.r, a.own, a.allowed);
    } else if IsQuiet(a) {
      QuietMove(s, a);
    }
  }

  lemma CapGrows(s: State, a: Action, allowed: Allowances)
    requires Enabled(s, a)
    ensures NodeCap(s.shared, allowed) <= NodeCap(Apply(s, a).shared, allowed)
  {
    DbsStay(s, a);
    MaxAllowedMonotone(allowed, EverRegistered(s.shared), EverRegistered(Apply(s, a).shared), |s.shared.regs|,
      |Apply(s, a).shared.regs|);
  }

  lemma SteadyCallKeepsRegs(s: State, a: Action, allowed: Allowances)
    requires RegsCapped(s.shared, allowed) && Enabled(s, a) && Steady(a, allowed) && IsCall(a) && !a.DoTrySchedule?
    ensures RegsCapped(Apply(s, a).shared, allowed) && Apply(s, a).shared.running <= s.shared.running
  {
    var sh, sh' := s.shared, Apply(s, a).shared;
    forall r | 0 <= r < |sh'.regs|
      ensures RegCapped(sh'.regs[r], allowed(r))
    {
      assert r < |sh.regs| ==> RegCapped(sh.regs[r], allowed(r));
    }
  }

  lemma SteadyTryScheduleKeepsRegs(s: State, a: Action, allowed: Allowances)
    requires RegsCapped(s.shared, allowed) && Enabled(s, a) && Steady(a, allowed) && a.DoTrySchedule?
    ensures RegsCapped(Apply(s, a).shared, allowed)
    ensures Apply(s, a).shared.running <= Max(s.shared.running, Limit(s.shared, allowed))
  {
    var sh, sh' := s.shared, Apply(s, a).shared;
    TryScheduleEffect(sh, a.r, a.own, a.allowed);
    forall r | 0 <= r < |sh'.regs|
      ensures RegCapped(sh'.regs[r], allowed(r))
    {
      assert RegCapped(sh.regs[r], allowed(r));
    }
  }

  lemma SteadyCountKeepsRegs(s: State, a: Action, allowed: Allowances)
    requires PassesOk(s) && Capped(s, allowed) && Enabled(s, a) && a.CountAccepted?
    ensures RegsCapped(Apply(s, a).shared, allowed) && Apply(s, a).shared.running <= NodeCap(s.shared, allowed)
  {
    var sh, sh', pc := s.shared, Apply(s, a).shared, s.threads[a.t].pc;
    assert PassOk(sh, pc) && PcCapped(pc, NodeCap(sh, allowed), allowed);
    assert Cite(pc.candidate) in Cited(pc);
    forall r | 0 <= r < |sh'.regs|
      ensures RegCapped(sh'.regs[r], allowed(r))
    {
      assert RegCapped(sh.regs[r], allowed(r));
    }
  }

  /** Moves other than counting change no count, and record at most what the DBs answer. */
  lemma SteadyMoveKeepsRegs(s: State, a: Action, allowed: Allowances)
    requires RegsCapped(s.shared, allowed) && Enabled(s, a) && Steady(a, allowed) && !IsCall(a) && !a.CountAccepted?
    ensures RegsCapped(Apply(s, a).shared, allowed) && Apply(s, a).shared.running == s.shared.running
  {
    var sh, sh' := s.shared, Apply(s, a).shared;
    if IsQuiet(a) {
      QuietMove(s, a);
    }
    forall r | 0 <= r < |sh'.regs|
      ensures RegCapped(sh'.regs[r], allowed(r))
    {
      assert RegCapped(sh.regs[r], allowed(r));
    }
  }

  lemma SteadyKeepsPcs(s: State, a: Action, allowed: Allowances, t: ThreadId)
    requires LifeCycle(s) && Capped(s, allowed) && Enabled(s, a) && Steady(a, allowed)
    requires t in Apply(s, a).threads
    ensures PcCapped(Apply(s, a).threads[t].pc, NodeCap(Apply(s, a).shared, allowed), allowed)
  {
    CapGrows(s, a, allowed);
    LimitWithinCap(s, allowed);
    ReadingsEnterByReading(s, a, t);
    if t in s.threads {
      assert PcCapped(s.threads[t].pc, NodeCap(s.shared, allowed), allowed);
    }
    if a.Ask? {
      assert RegCapped(s.shared.regs[a.r], allowed(a.r));
    }
  }

  lemma SteadyKeepsRegs(s: State, a: Action, allowed: Allowances)
    requires Inv(s) && Capped(s, allowed) && Enabled(s, a) && Steady(a, allowed)
    ensures RegsCapped(Apply(s, a).shared, allowed)
    ensures Apply(s, a).shared.running <= NodeCap(Apply(s, a).shared, allowed)
  {
    CapGrows(s, a, allowed);
    LimitWithinCap(s, allowed);
    if a.DoTrySchedule? {
      SteadyTryScheduleKeepsRegs(s, a, allowed);
    } else if IsCall(a) {
      SteadyCallKeepsRegs(s, a, allowed);
    } else if a.CountAccepted? {
      SteadyCountKeepsRegs(s, a, allowed);
    } else {
      SteadyMoveKeepsRegs(s, a, allowed);
    }
  }

  lemma {:induction false} SteadyRunKeepsCapped(s: State, run: seq<Action>, allowed: Allowances)
    requires Inv(s) && Capped(s, allowed) && ValidRun(s, run) && SteadyRun(run, allowed)
    ensures Capped(After(s, run), allowed)
    decreases |run|
  {
    if |run| > 0 {
      var a := run[0];
      ApplyKeepsInv(s, a);
      SteadyKeepsRegs(s, a, allowed);
      forall t | t in Apply(s, a).threads
        ensures PcCapped(Apply(s, a).threads[t].pc, NodeCap(Apply(s, a).shared, allowed), allowed)
      {
        SteadyKeepsPcs(s, a, allowed, t);
      }
      SteadyRunKeepsCapped(Apply(s, a), run[1..], allowed);
    }
  }

  /** What the counts are held to also holds with the grant in flight. */
  lemma InFlightIsCapped(s: State, allowed: Allowances, t: ThreadId)
    requires PassesOk(s) && Capped(s, allowed) && t in s.threads && s.threads[t].pc.Accepted?
    ensures s.shared.running < NodeCap(s.shared, allowed)
    ensures var r := s.threads[t].pc.candidate.reg; r < |s.shared.regs| && s.shared.regs[r].running < Max(0, allowed(r))
  {
    var pc := s.threads[t].pc;
    assert PassOk(s.shared, pc) && PcCapped(pc, NodeCap(s.shared, allowed), allowed);
    assert Cite(pc.candidate) in Cited(pc);
  }

  /**
   While every DB keeps its allowance, and whoever comes and goes, the compactions in progress on the node,
   counted or not, never exceed the largest allowance of all DBs that ever registered, and no DB has more in
   progress than its own.
   */
  lemma NodeStaysWithinCap(run: seq<Action>, allowed: Allowances)
    requires ValidRun(INIT, run) && SteadyRun(run, allowed)
    ensures var s := After(INIT, run);
      && SumLive(s.shared.regs) <= NodeCap(s.shared, allowed)
      && forall r :: 0 <= r < |s.shared.regs| ==> s.shared.regs[r].live <= Max(0, allowed(r))
  {
    InitInv();
    SteadyRunKeepsCapped(INIT, run, allowed);
    AccountsBalance(run);
    ReachableInv(run);
    var s := After(INIT, run);
    forall t | t in s.threads && s.threads[t].pc.Accepted?
      ensures s.shared.running < NodeCap(s.shared, allowed)
      ensures var r := s.threads[t].pc.candidate.reg;
        r < |s.shared.regs| && s.shared.regs[r].running < Max(0, allowed(r))
    {
      InFlightIsCapped(s, allowed, t);
    }
    forall r | 0 <= r < |s.shared.regs|
      ensures s.shared.regs[r].live <= Max(0, allowed(r))
    {
      assert RegCapped(s.shared.regs[r], allowed(r));
    }
  }

  // ----- The limit of the moment -----

  /** The compactions in progress are within the limit that the registered DBs give right now. */
  ghost predicate Within(s: State, allowed: Allowances) {
    SumLive(s.shared.regs) <= Limit(s.shared, allowed)
  }

  /** What an owner can check before its DB leaves: the others' allowances cover all that is in progress. */
  predicate Covered(s: State, r: RegId, allowed: Allowances) {
    SumLive(s.shared.regs) <= MaxAllowed(allowed, s.shared.registrations - {r}, |s.shared.regs|)
  }

  /** The step is not the departure of a DB whose allowance is needed. */
  ghost predicate LeavesCovered(s: State, a: Action, allowed: Allowances) {
    a.LeaveUnregister? ==> Covered(s, a.r, allowed)
  }

  /** A pass acts on the limit of the moment. */
  ghost predicate LimitsCurrent(s: State, allowed: Allowances) {
    forall t :: t in s.threads && HasLimit(s.threads[t].pc) ==> s.threads[t].pc.limit == Limit(s.shared, allowed)
  }

  /** The limit does not depend on registrations without a DB. */
  lemma {:induction false} LimitOfMore(allowed: Allowances, ids: set<RegId>, n: nat, n': nat)
    requires n <= n' && forall r :: r in ids ==> r < n
    ensures MaxAllowed(allowed, ids, n) == MaxAllowed(allowed, ids, n')
    decreases n'
  {
    if n < n' {
      LimitOfMore(allowed, ids, n, n' - 1);
    }
  }

  /** While the set stays the same, so does the limit. */
  lemma SameSetSameLimit(s: State, a: Action, allowed: Allowances)
    requires LifeCycle(s) && Enabled(s, a) && Apply(s, a).shared.registrations == s.shared.registrations
    ensures Limit(Apply(s, a).shared, allowed) == Limit(s.shared, allowed)
  {
    DbsStay(s, a);
    LimitOfMore(allowed, s.shared.registrations, |s.shared.regs|, |Apply(s, a).shared.regs|);
  }

  lemma StepKeepsLimitsCurrent(s: State, a: Action, allowed: Allowances)
    requires Inv(s) && LimitsCurrent(s, allowed) && Enabled(s, a) && Steady(a, allowed)
    ensures LimitsCurrent(Apply(s, a), allowed)
  {
    var s' := Apply(s, a);
    forall t | t in s'.threads && HasLimit(s'.threads[t].pc)
      ensures s'.threads[t].pc.limit == Limit(s'.shared, allowed)
    {
      ReadingsEnterByReading(s, a, t);
      PassThreadGrants(s, a, t);
      GrantingKeepsSet(s, a);
      SameSetSameLimit(s, a, allowed);
    }
  }

  lemma PassThreadGrants(s: State, a: Action, t: ThreadId)
    requires OnePass(s) && Enabled(s, a) && t in Apply(s, a).threads && HasLimit(Apply(s, a).threads[t].pc)
    ensures s.shared.isGranting
  {
    ReadingsEnterByReading(s, a, t);
    assert t in s.threads && InPass(s.threads[t].pc);
  }

  /** Only a registration or a departure changes the set. */
  lemma OthersKeepSet(s: State, a: Action)
    requires Enabled(s, a) && !a.LeaveRegister? && !a.LeaveUnregister?
    ensures Apply(s, a).shared.registrations == s.shared.registrations
  {
    if a.DoTrySchedule? {
      TryScheduleEffect(s.shared, a.r, a.own, a.allowed);
    } else if !IsCall(a) {
      MoveIsLocal(s, a);
    }
  }

  /** Only a granted TrySchedule and an accepted offer add a compaction. */
  lemma CallAddsLive(s: State, a: Action)
    requires Enabled(s, a) && IsCall(a)
    ensures SumLive(Apply(s, a).shared.regs) <= SumLive(s.shared.regs) +
      if a.DoTrySchedule? && TrySchedule(s.shared, a.r, a.own, a.allowed).0 then 1 else 0
    ensures a.LeaveUnregister? ==> SumLive(Apply(s, a).shared.regs) == SumLive(s.shared.regs)
  {
    var sh, sh' := s.shared, Apply(s, a).shared;
    if a.DoTrySchedule? {
      TryScheduleEffect(sh, a.r, a.own, a.allowed);
      SumUpdate(sh.regs, a.r, sh'.regs[a.r]);
      SumAgrees(sh.regs[a.r := sh'.regs[a.r]], sh'.regs);
    } else if a.NewScheduler? {
      SumAppend(sh.regs, FRESH);
    } else {
      OtherCallEffect(s, a);
      SumUpdate(sh.regs, a.r, sh'.regs[a.r]);
    }
  }

  lemma MoveAddsLive(s: State, a: Action)
    requires Enabled(s, a) && !IsCall(a)
    ensures SumLive(Apply(s, a).shared.regs) == SumLive(s.shared.regs) + if a.Accept? then 1 else 0
  {
    var sh, sh' := s.shared, Apply(s, a).shared;
    if a.Accept? {
      var r := s.threads[a.t].pc.candidate.reg;
      SumUpdate(sh.regs, r, sh'.regs[r]);
    } else if IsQuiet(a) {
      QuietMove(s, a);
    } else {
      LiveAgrees(sh.regs, sh'.regs);
    }
  }

  lemma {:induction false} LiveAgrees(a: seq<Registration>, b: seq<Registration>)
    requires |a| == |b| && forall i :: 0 <= i < |a| ==> a[i].live == b[i].live
    ensures SumLive(a) == SumLive(b)
  {
    if |a| > 0 {
      LiveAgrees(a[1..], b[1..]);
    }
  }

  lemma OutsidePassAllCounted(s: State)
    requires Inv(s) && !s.shared.isGranting
    ensures SumLive(s.shared.regs) == s.shared.running
  {
    Balance(s);
  }

  /** While a pass makes an offer, all grants are counted and there is room for one more. */
  lemma OfferHasRoom(s: State, t: ThreadId, allowed: Allowances)
    requires Inv(s) && LimitsCurrent(s, allowed) && t in s.threads && s.threads[t].pc.Offering?
    ensures SumLive(s.shared.regs) < Limit(s.shared, allowed)
  {
    Balance(s);
    assert PassOk(s.shared, s.threads[t].pc);
    forall u | u in s.threads
      ensures !s.threads[u].pc.Accepted?
    {
      assert InPass(s.threads[t].pc);
    }
  }

  lemma SetStaysWithin(s: State, a: Action, allowed: Allowances)
    requires Inv(s) && LimitsCurrent(s, allowed) && Within(s, allowed) && Enabled(s, a) && Steady(a, allowed)
    requires !a.LeaveRegister? && !a.LeaveUnregister?
    ensures Within(Apply(s, a), allowed)
  {
    OthersKeepSet(s, a);
    SameSetSameLimit(s, a, allowed);
    if a.DoTrySchedule? {
      CallAddsLive(s, a);
      TryScheduleEffect(s.shared, a.r, a.own, a.allowed);
      if TrySchedule(s.shared, a.r, a.own, a.allowed).0 {
        OutsidePassAllCounted(s);
      }
    } else if IsCall(a) {
      CallAddsLive(s, a);
    } else {
      MoveAddsLive(s, a);
      if a.Accept? {
        OfferHasRoom(s, a.t, allowed);
      }
    }
  }

  /** A step keeps the bound if and only if it is not the departure of a DB whose allowance is needed. */
  lemma StepStaysWithinIff(s: State, a: Action, allowed: Allowances)
    requires Inv(s) && LimitsCurrent(s, allowed) && Within(s, allowed) && Enabled(s, a) && Steady(a, allowed)
    ensures Within(Apply(s, a), allowed) <==> LeavesCovered(s, a, allowed)
  {
    if a.LeaveUnregister? {
      CallAddsLive(s, a);
    } else if a.LeaveRegister? {
      CallAddsLive(s, a);
      var n := |s.shared.regs|;
      MaxAllowedMonotone(allowed, s.shared.registrations, Apply(s, a).shared.registrations, n, n);
    } else {
      SetStaysWithin(s, a, allowed);
    }
  }

  ghost predicate WithinThroughout(s: State, run: seq<Action>, allowed: Allowances)
    requires ValidRun(s, run)
    decreases |run|
  {
    Within(s, allowed) && (|run| > 0 ==> WithinThroughout(Apply(s, run[0]), run[1..], allowed))
  }

  ghost predicate CoveredRun(s: State, run: seq<Action>, allowed: Allowances)
    requires ValidRun(s, run)
    decreases |run|
  {
    |run| > 0 ==> LeavesCovered(s, run[0], allowed) && CoveredRun(Apply(s, run[0]), run[1..], allowed)
  }

  lemma {:induction false} WithinThroughoutIff(s: State, run: seq<Action>, allowed: Allowances)
    requires Inv(s) && LimitsCurrent(s, allowed) && Within(s, allowed) && ValidRun(s, run) && SteadyRun(run, allowed)
    ensures WithinThroughout(s, run, allowed) <==> CoveredRun(s, run, allowed)
    decreases |run|
  {
    if |run| > 0 {
      var s' := Apply(s, run[0]);
      StepStaysWithinIff(s, run[0], allowed);
      if Within(s', allowed) {
        ApplyKeepsInv(s, run[0]);
        StepKeepsLimitsCurrent(s, run[0], allowed);
        WithinThroughoutIff(s', run[1..], allowed);
      }
    }
  }

  /**
   While every DB keeps its allowance, the compactions in progress are within the limit of the moment at all times
   if and only if each DB that leaves is one whose allowance is not needed then.
   */
  lemma SteadyWithinLimitIff(run: seq<Action>, allowed: Allowances)
    requires ValidRun(INIT, run) && SteadyRun(run, allowed)
    ensures WithinThroughout(INIT, run, allowed) <==> CoveredRun(INIT, run, allowed)
  {
    InitInv();
    WithinThroughoutIff(INIT, run, allowed);
  }

  lemma {:induction false} WithinAtTheEnd(s: State, run: seq<Action>, allowed: Allowances)
    requires ValidRun(s, run) && WithinThroughout(s, run, allowed)
    ensures Within(After(s, run), allowed)
    decreases |run|
  {
    if |run| > 0 {
      WithinAtTheEnd(Apply(s, run[0]), run[1..], allowed);
    }
  }

  /** No DB leaves. */
  ghost predicate NoDepartures(run: seq<Action>) {
    forall i :: 0 <= i < |run| ==> !run[i].LeaveUnregister?
  }

  lemma {:induction false} NobodyLeaves(s: State, run: seq<Action>, allowed: Allowances)
    requires ValidRun(s, run) && NoDepartures(run)
    ensures CoveredRun(s, run, allowed)
    decreases |run|
  {
    if |run| > 0 {
      NobodyLeaves(Apply(s, run[0]), run[1..], allowed);
    }
  }

  /** If no DB leaves, the bound always holds. */
  lemma SteadyNodeStaysWithinLimit(run: seq<Action>, allowed: Allowances)
    requires ValidRun(INIT, run) && SteadyRun(run, allowed) && NoDepartures(run)
    ensures SumLive(After(INIT, run).shared.regs) <= Limit(After(INIT, run).shared, allowed)
  {
    NobodyLeaves(INIT, run, allowed);
    SteadyWithinLimitIff(run, allowed);
    WithinAtTheEnd(INIT, run, allowed);
  }

  const ONE := Registration(true, true, 0, false, 0, 0, NoCall, 0)

  /** One registered DB and the granter it brought along. */
  const ALONE := State(Shared([ONE], {0}, 0, false, true), map[0 := Thread(true, Idle)])

  lemma RegisterOne()
    ensures var run := [NewScheduler, EnterRegister(0), LeaveRegister(0, 0)];
      ValidRun(INIT, run) && After(INIT, run) == ALONE
  {
    var s1 := Apply(INIT, NewScheduler);
    var s2 := Apply(s1, EnterRegister(0));
    assert Apply(s2, LeaveRegister(0, 0)) == ALONE;
    Prepend(s2, LeaveRegister(0, 0), []);
    Prepend(s1, EnterRegister(0), [LeaveRegister(0, 0)]);
    Prepend(INIT, NewScheduler, [EnterRegister(0), LeaveRegister(0, 0)]);
  }

  /** The DB gets one grant and leaves with it. */
  lemma GrantAndLeave(allowed: Allowances)
    requires allowed(0) == 1
    ensures var run := [DoTrySchedule(0, 1, allowed), EnterUnregister(0), LeaveUnregister(0)];
      && ValidRun(ALONE, run)
      && After(ALONE, run).shared.registrations == {}
      && After(ALONE, run).shared.regs == [ONE.(registered := false, running := 1, lastAllowed := 1, live := 1)]
  {
    assert MaxAllowed(allowed, {0}, 0) == 0;
    assert MaxAllowed(allowed, {0}, 1) == 1;
    var s1 := Apply(ALONE, DoTrySchedule(0, 1, allowed));
    assert s1.shared.regs == [ONE.(running := 1, lastAllowed := 1, live := 1)];
    var s2 := Apply(s1, EnterUnregister(0));
    Prepend(s2, LeaveUnregister(0), []);
    Prepend(s1, EnterUnregister(0), [LeaveUnregister(0)]);
    Prepend(ALONE, DoTrySchedule(0, 1, allowed), [EnterUnregister(0), LeaveUnregister(0)]);
  }

  lemma {:induction false} RunsJoin(s: State, a: seq<Action>, b: seq<Action>)
    requires ValidRun(s, a) && ValidRun(After(s, a), b)
    ensures ValidRun(s, a + b) && After(s, a + b) == After(After(s, a), b)
    decreases |a|
  {
    if |a| == 0 {
      assert a + b == b;
    } else {
      assert (a + b)[1..] == a[1..] + b;
      RunsJoin(Apply(s, a[0]), a[1..], b);
    }
  }

  /**
   The limit of the moment needs the DBs to stay: a DB that leaves with a compaction in progress takes its allowance
   with it.
   */
  lemma DepartureExceedsLimit(allowed: Allowances)
    requires allowed(0) == 1
    ensures var run := [NewScheduler, EnterRegister(0), LeaveRegister(0, 0)] +
                       [DoTrySchedule(0, 1, allowed), EnterUnregister(0), LeaveUnregister(0)];
      && ValidRun(INIT, run) && SteadyRun(run, allowed)
      && SumLive(After(INIT, run).shared.regs) == 1 && Limit(After(INIT, run).shared, allowed) == 0
  {
    RegisterOne();
    GrantAndLeave(allowed);
    RunsJoin(INIT, [NewScheduler, EnterRegister(0), LeaveRegister(0, 0)],
             [DoTrySchedule(0, 1, allowed), EnterUnregister(0), LeaveUnregister(0)]);
    MaxAllowedOfNone(allowed, 1);
  }

  lemma Prepend(s: State, a: Action, rest: seq<Action>)
    requires Enabled(s, a) && ValidRun(Apply(s, a), rest)
    ensures ValidRun(s, [a] + rest) && After(s, [a] + rest) == After(Apply(s, a), rest)
  {
    assert ([a] + rest)[1..] == rest;
  }

  // ----- A lap -----

  ghost function Repeat(a: Action, n: nat): seq<Action> {
    if n == 0 then [] else [a] + Repeat(a, n - 1)
  }

  /** The one DB has been refused `g` times, and a pass has asked it after the first time and waits for its answer. */
  function Asked(g: nat, allowed: Allowances): State {
    State(Shared([ONE.(waiting := true, generation := g, lastAllowed := allowed(0))], {0}, 0, true, true),
          map[0 := Thread(true, Polling({0}, Max(0, allowed(0)), {}, None, 0, 1, allowed(0)))])
  }

  /** The pass has begun, and the DB has been refused once. */
  const ENTERED := State(Shared([ONE.(waiting := true, generation := 1)], {0}, 0, true, true),
                         map[0 := Thread(true, AtLimit({0}))])

  function AskRun(allowed: Allowances): seq<Action> {
    [DoTrySchedule(0, 0, allowed), Wake(0), Enter(0)] + [CheckLimit(0, allowed), Ask(0, 0)]
  }

  lemma RefuseAndEnter(allowed: Allowances)
    ensures var run := [DoTrySchedule(0, 0, allowed), Wake(0), Enter(0)];
      ValidRun(ALONE, run) && After(ALONE, run) == ENTERED
  {
    var s1 := Apply(ALONE, DoTrySchedule(0, 0, allowed));
    assert s1.shared.regs == [ONE.(waiting := true, generation := 1)];
    var s2 := Apply(s1, Wake(0));
    assert Apply(s2, Enter(0)) == ENTERED;
    Prepend(s2, Enter(0), []);
    Prepend(s1, Wake(0), [Enter(0)]);
    Prepend(ALONE, DoTrySchedule(0, 0, allowed), [Wake(0), Enter(0)]);
  }

  lemma CheckAndAsk(allowed: Allowances)
    requires allowed(0) > 0
    ensures var run := [CheckLimit(0, allowed), Ask(0, 0)];
      ValidRun(ENTERED, run) && After(ENTERED, run) == Asked(1, allowed)
  {
    assert MaxAllowed(allowed, {0}, 0) == 0;
    assert MaxAllowed(allowed, {0}, 1) == allowed(0);
    var s1 := Apply(ENTERED, CheckLimit(0, allowed));
    assert s1.shared.regs == [ONE.(waiting := true, generation := 1, lastAllowed := allowed(0))];
    assert {0} - {0} == {};
    assert Apply(s1, Ask(0, 0)) == Asked(1, allowed);
    Prepend(s1, Ask(0, 0), []);
    Prepend(ENTERED, CheckLimit(0, allowed), [Ask(0, 0)]);
  }

  lemma AskAlone(allowed: Allowances)
    requires allowed(0) > 0
    ensures ValidRun(ALONE, AskRun(allowed)) && After(ALONE, AskRun(allowed)) == Asked(1, allowed)
  {
    RefuseAndEnter(allowed);
    CheckAndAsk(allowed);
    RunsJoin(ALONE, [DoTrySchedule(0, 0, allowed), Wake(0), Enter(0)], [CheckLimit(0, allowed), Ask(0, 0)]);
  }

  /** Refusals while the pass waits for the answer. */
  lemma {:induction false} RefuseMore(g: nat, n: nat, allowed: Allowances)
    ensures ValidRun(Asked(g, allowed), Repeat(DoTrySchedule(0, 0, allowed), n))
    ensures After(Asked(g, allowed), Repeat(DoTrySchedule(0, 0, allowed), n)) == Asked(g + n, allowed)
    decreases n
  {
    if n > 0 {
      var a, s := DoTrySchedule(0, 0, allowed), Asked(g, allowed);
      assert Apply(s, a) == Asked(g + 1, allowed);
      RefuseMore(g + 1, n - 1, allowed);
      Prepend(s, a, Repeat(a, n - 1));
    }
  }

  /** A run on which a refusal is lost: the answer to the question comes 2^64 refusals late and ends the waiting. */
  lemma LapIsReached(allowed: Allowances, info: WaitingInfo)
    requires allowed(0) > 0
    ensures var run := [NewScheduler, EnterRegister(0), LeaveRegister(0, 0)] + AskRun(allowed) +
                       Repeat(DoTrySchedule(0, 0, allowed), GENERATIONS);
      && ValidRun(INIT, run) && After(INIT, run) == Asked(GENERATIONS + 1, allowed)
      && var s := After(INIT, run);
        && s.shared.regs[0].waiting && Enabled(s, Answer(0, false, info)) && Laps(s, Answer(0, false, info), 0)
        && !Apply(s, Answer(0, false, info)).shared.regs[0].waiting
  {
    var register, ask := [NewScheduler, EnterRegister(0), LeaveRegister(0, 0)], AskRun(allowed);
    RegisterOne();
    AskAlone(allowed);
    RefuseMore(1, GENERATIONS, allowed);
    RunsJoin(INIT, register, ask);
    RunsJoin(INIT, register + ask, Repeat(DoTrySchedule(0, 0, allowed), GENERATIONS));
    assert SameGeneration(GENERATIONS + 1, 1);
  }
}
