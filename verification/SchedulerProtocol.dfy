/**
 The compaction scheduler as a concurrent protocol. An action is what one thread does between two
 points where the coordinator mutex is free, or one move of a grant pass that holds the mutex; every
 interleaving of actions is a run. Grant passes release the mutex while they ask a DB (Polling,
 Offering, Accepted), and a DB may call Done on a grant before the pass has counted it.

 Threads are background granter goroutines and other callers of tryGrant. What a pass has read is
 kept in its program counter: the registration set it started with, the limit it checked against and
 the allowance each candidate was checked against.
 */
module SchedulerProtocol {
  import opened Common
  import opened SchedulerState

  type ThreadId = nat

  datatype Candidate = Candidate(reg: RegId, generation: nat, allowance: int, info: WaitingInfo)

  datatype Pc =
    | Idle                                   // background granter, waiting for a tick or a poke
    | Entering                               // about to lock in tryGrant
    | AtLimit(members: set<RegId>)           // holds the mutex at the loop head
    | Scanning(members: set<RegId>, limit: int, remaining: set<RegId>, best: Option<Candidate>)
    | Polling(members: set<RegId>, limit: int, remaining: set<RegId>, best: Option<Candidate>,
              reg: RegId, generation: nat, allowance: int)
    | Offering(members: set<RegId>, limit: int, candidate: Candidate)
    | Accepted(members: set<RegId>, limit: int, candidate: Candidate)
    | Checking                               // background granter, about to look for an empty set

  predicate InPass(pc: Pc) {
    pc.AtLimit? || pc.Scanning? || pc.Polling? || pc.Offering? || pc.Accepted?
  }

  predicate HoldsMutex(pc: Pc) {
    pc.AtLimit? || pc.Scanning?
  }

  datatype Thread = Thread(background: bool, pc: Pc)

  datatype State = State(shared: Shared, threads: map<ThreadId, Thread>)

  const INIT := State(EMPTY, map[])

  datatype Action =
    | NewScheduler
    | EnterRegister(r: RegId)
    | LeaveRegister(r: RegId, spawned: ThreadId)
    | EnterUnregister(r: RegId)
    | LeaveUnregister(r: RegId)
    | DoTrySchedule(r: RegId, own: int, allowed: Allowances)
    | DoUpdateAllowed(r: RegId, own: int)
    | DoDone(r: RegId)
    | CallTryGrant(t: ThreadId)
    | Wake(t: ThreadId)
    | Enter(t: ThreadId)
    | CheckLimit(t: ThreadId, allowed: Allowances)
    | Skip(t: ThreadId, r: RegId)
    | Ask(t: ThreadId, r: RegId)
    | Answer(t: ThreadId, waiting: bool, info: WaitingInfo)
    | EndScan(t: ThreadId)
    | Accept(t: ThreadId)
    | CountAccepted(t: ThreadId)
    | Reject(t: ThreadId)
    | CheckEmpty(t: ThreadId)

  ghost predicate MutexFree(s: State) {
    forall t :: t in s.threads ==> !HoldsMutex(s.threads[t].pc)
  }

  predicate At(s: State, t: ThreadId) {
    t in s.threads
  }

  /**
   When an action can happen. A call that would panic is not an action; a call that waits on the condition variable
   waits in Leave.
   */
  ghost predicate Enabled(s: State, a: Action) {
    var sh := s.shared;
    match a
    case NewScheduler => true
    case EnterRegister(r) =>
      r < |sh.regs| && MutexFree(s) && sh.regs[r].call.NoCall? && !sh.regs[r].registered && !sh.regs[r].hasDb
    case LeaveRegister(r, spawned) =>
      r < |sh.regs| && MutexFree(s) && sh.regs[r].call.Registering? && !sh.isGranting && spawned !in s.threads
    case EnterUnregister(r) =>
      r < |sh.regs| && MutexFree(s) && sh.regs[r].call.NoCall? && sh.regs[r].registered
    case LeaveUnregister(r) =>
      r < |sh.regs| && MutexFree(s) && sh.regs[r].call.Unregistering? && !sh.isGranting
    case DoTrySchedule(r, _, _) => r < |sh.regs| && MutexFree(s)
    case DoUpdateAllowed(r, _) => r < |sh.regs| && MutexFree(s)
    case DoDone(r) => r < |sh.regs| && MutexFree(s) && sh.regs[r].live > 0
    case CallTryGrant(t) => t !in s.threads
    case Wake(t) => At(s, t) && s.threads[t].pc.Idle?
    case Enter(t) => At(s, t) && s.threads[t].pc.Entering? && MutexFree(s)
    case CheckLimit(t, _) => At(s, t) && s.threads[t].pc.AtLimit?
    case Skip(t, r) =>
      At(s, t) && s.threads[t].pc.Scanning? && r in s.threads[t].pc.remaining && r < |sh.regs| && !Eligible(sh, r)
    case Ask(t, r) =>
      At(s, t) && s.threads[t].pc.Scanning? && r in s.threads[t].pc.remaining && r < |sh.regs| && Eligible(sh, r)
    case Answer(t, _, _) =>
      At(s, t) && s.threads[t].pc.Polling? && MutexFree(s) && s.threads[t].pc.reg < |sh.regs|
    case EndScan(t) => At(s, t) && s.threads[t].pc.Scanning? && s.threads[t].pc.remaining == {}
    case Accept(t) => At(s, t) && s.threads[t].pc.Offering? && s.threads[t].pc.candidate.reg < |sh.regs|
    case CountAccepted(t) =>
      At(s, t) && s.threads[t].pc.Accepted? && MutexFree(s) && s.threads[t].pc.candidate.reg < |sh.regs|
    case Reject(t) =>
      At(s, t) && s.threads[t].pc.Offering? && MutexFree(s) && s.threads[t].pc.candidate.reg < |sh.regs|
    case CheckEmpty(t) => At(s, t) && s.threads[t].pc.Checking? && MutexFree(s)
  }

  function Goto(s: State, t: ThreadId, pc: Pc): State
    requires t in s.threads
  {
    s.(threads := s.threads[t := s.threads[t].(pc := pc)])
  }

  function Exit(s: State, t: ThreadId): State {
    s.(threads := s.threads - {t})
  }

  /** Return from tryGrant. */
  function Return(s: State, t: ThreadId): State
    requires t in s.threads
  {
    if s.threads[t].background then Goto(s, t, Checking) else Exit(s, t)
  }

  /** The deferred end of a pass: isGranting is cleared and the waiters are woken. */
  function EndPass(s: State, t: ThreadId): State
    requires t in s.threads
  {
    Return(s.(shared := s.shared.(isGranting := false)), t)
  }

  function WithReg(s: State, r: RegId, reg: Registration): State
    requires r < |s.shared.regs|
  {
    s.(shared := SetReg(s.shared, r, reg))
  }

  function Better(best: Option<Candidate>, c: Candidate): Option<Candidate> {
    if best.None? || HigherPriority(c.info, best.value.info) then Some(c) else best
  }

  ghost function Apply(s: State, a: Action): State
    requires Enabled(s, a)
  {
    var sh := s.shared;
    match a
    case NewScheduler => s.(shared := sh.(regs := sh.regs + [FRESH]))
    case EnterRegister(r) => WithReg(s, r, sh.regs[r].(call := Registering))
    case LeaveRegister(r, spawned) =>
      State(FinishRegister(sh, r),
            if sh.backgroundRunning then s.threads else s.threads[spawned := Thread(true, Idle)])
    case EnterUnregister(r) => WithReg(s, r, sh.regs[r].(call := Unregistering))
    case LeaveUnregister(r) => s.(shared := FinishUnregister(sh, r))
    case DoTrySchedule(r, own, allowed) => s.(shared := TrySchedule(sh, r, own, allowed).1)
    case DoUpdateAllowed(r, own) => s.(shared := UpdateAllowed(sh, r, own))
    case DoDone(r) => s.(shared := Done(sh, r))
    case CallTryGrant(t) => s.(threads := s.threads[t := Thread(false, Entering)])
    case Wake(t) => Goto(s, t, Entering)
    case Enter(t) =>
      if sh.isGranting then Return(s, t)
      else Goto(s.(shared := sh.(isGranting := true)), t, AtLimit(sh.registrations))
    case CheckLimit(t, allowed) =>
      var members := s.threads[t].pc.members;
      var s' := s.(shared := ReadLimits(sh, allowed));
      var limit := Limit(sh, allowed);
      if sh.running < limit then Goto(s', t, Scanning(members, limit, sh.registrations, None)) else EndPass(s', t)
    case Skip(t, r) =>
      var pc := s.threads[t].pc;
      Goto(s, t, Scanning(pc.members, pc.limit, pc.remaining - {r}, pc.best))
    case Ask(t, r) =>
      var pc := s.threads[t].pc;
      Goto(s, t, Polling(pc.members, pc.limit, pc.remaining - {r}, pc.best,
                         r, sh.regs[r].generation, sh.regs[r].lastAllowed))
    case Answer(t, waiting, info) =>
      var pc := s.threads[t].pc;
      var c := Candidate(pc.reg, pc.generation, pc.allowance, info);
      if waiting then Goto(s, t, Scanning(pc.members, pc.limit, pc.remaining, Better(pc.best, c)))
      else Goto(s.(shared := NegativeAnswer(sh, pc.reg, pc.generation)), t,
                Scanning(pc.members, pc.limit, pc.remaining, pc.best))
    case EndScan(t) =>
      var pc := s.threads[t].pc;
      if pc.best.None? then EndPass(s, t) else Goto(s, t, Offering(pc.members, pc.limit, pc.best.value))
    case Accept(t) =>
      var pc := s.threads[t].pc;
      var r := pc.candidate.reg;
      Goto(WithReg(s, r, sh.regs[r].(live := sh.regs[r].live + 1)), t, Accepted(pc.members, pc.limit, pc.candidate))
    case CountAccepted(t) =>
      var pc := s.threads[t].pc;
      Goto(s.(shared := CountGrant(sh, pc.candidate.reg)), t, AtLimit(pc.members))
    case Reject(t) =>
      var pc := s.threads[t].pc;
      Goto(s.(shared := NegativeAnswer(sh, pc.candidate.reg, pc.candidate.generation)), t, AtLimit(pc.members))
    case CheckEmpty(t) =>
      if sh.registrations == {} then Exit(s.(shared := sh.(backgroundRunning := false)), t) else Goto(s, t, Idle)
  }

  // ----- Runs -----

  ghost predicate ValidRun(s: State, run: seq<Action>)
    decreases |run|
  {
    |run| == 0 || (Enabled(s, run[0]) && ValidRun(Apply(s, run[0]), run[1..]))
  }

  ghost function After(s: State, run: seq<Action>): State
    requires ValidRun(s, run)
    decreases |run|
  {
    if |run| == 0 then s else After(Apply(s, run[0]), run[1..])
  }

  // ----- The invariant -----

  /** The grant that `t`'s DB has accepted and the pass has not counted yet belongs to `r`. */
  predicate HoldsUncounted(s: State, t: ThreadId, r: RegId)
    requires t in s.threads
  {
    s.threads[t].pc.Accepted? && s.threads[t].pc.candidate.reg == r
  }

  ghost function Uncounted(s: State, r: RegId): nat {
    if exists t :: t in s.threads && HoldsUncounted(s, t, r) then 1 else 0
  }

  ghost predicate Conserved(s: State) {
    && s.shared.running == SumRunning(s.shared.regs)
    && (forall r :: 0 <= r < |s.shared.regs| ==> s.shared.regs[r].running + Uncounted(s, r) == s.shared.regs[r].live)
  }

  ghost predicate LifeCycle(s: State) {
    && (forall r :: r in s.shared.registrations ==> r < |s.shared.regs| && s.shared.regs[r].registered)
    && (forall r :: 0 <= r < |s.shared.regs| ==> RegOk(s.shared, r))
    && (s.shared.registrations != {} ==> s.shared.backgroundRunning)
  }

  predicate RegOk(sh: Shared, r: RegId)
    requires r < |sh.regs|
  {
    var reg := sh.regs[r];
    && (reg.registered ==> reg.hasDb && r in sh.registrations)
    && (reg.call.Registering? ==> !reg.registered && !reg.hasDb)
    && (reg.call.Unregistering? ==> reg.registered)
  }

  ghost predicate OneGranter(s: State) {
    && (s.shared.backgroundRunning <==> exists t :: t in s.threads && s.threads[t].background)
    && (forall t, u :: t in s.threads && u in s.threads && s.threads[t].background && s.threads[u].background ==>
      t == u)
    && (forall t :: t in s.threads && (s.threads[t].pc.Idle? || s.threads[t].pc.Checking?) ==> s.threads[t].background)
  }

  ghost predicate OnePass(s: State) {
    && (s.shared.isGranting <==> exists t :: t in s.threads && InPass(s.threads[t].pc))
    && (forall t, u :: t in s.threads && u in s.threads && InPass(s.threads[t].pc) && InPass(s.threads[u].pc) ==>
      t == u)
  }

  /** What holds of a candidate from the moment it is checked until its grant is counted. */
  predicate CandidateOk(sh: Shared, r: RegId, generation: nat, allowance: int) {
    r < |sh.regs| && r in sh.registrations && generation <= sh.regs[r].generation && sh.regs[r].running < allowance
  }

  predicate PassOk(sh: Shared, pc: Pc) {
    InPass(pc) ==>
      && pc.members == sh.registrations
      && (!pc.AtLimit? ==> sh.running < pc.limit)
      && (pc.Scanning? || pc.Polling? ==> pc.remaining <= sh.registrations)
      && ((pc.Scanning? || pc.Polling?) && pc.best.Some? ==>
            CandidateOk(sh, pc.best.value.reg, pc.best.value.generation, pc.best.value.allowance))
      && (pc.Polling? ==> CandidateOk(sh, pc.reg, pc.generation, pc.allowance))
      && (pc.Offering? || pc.Accepted? ==>
            CandidateOk(sh, pc.candidate.reg, pc.candidate.generation, pc.candidate.allowance))
  }

  ghost predicate PassesOk(s: State) {
    forall t :: t in s.threads ==> PassOk(s.shared, s.threads[t].pc)
  }

  ghost predicate Inv(s: State) {
    Conserved(s) && LifeCycle(s) && OneGranter(s) && OnePass(s) && PassesOk(s)
  }

  // ----- Preservation -----

  /** Actions of API callers; the others are moves of a thread inside or around tryGrant. */
  predicate IsCall(a: Action) {
    a.NewScheduler? || a.EnterRegister? || a.LeaveRegister? || a.EnterUnregister? || a.LeaveUnregister? ||
    a.DoTrySchedule? || a.DoUpdateAllowed? || a.DoDone?
  }

  /** While a pass runs, nothing but the pass itself makes a running count or the registration set grow. */
  predicate OnlyShrinks(a: Shared, b: Shared) {
    && b.registrations == a.registrations
    && b.isGranting == a.isGranting
    && b.backgroundRunning == a.backgroundRunning
    && b.running <= a.running
    && |a.regs| <= |b.regs|
    && forall r :: 0 <= r < |a.regs| ==>
      b.regs[r].running <= a.regs[r].running && a.regs[r].generation <= b.regs[r].generation
  }

  lemma CallOnlyShrinks(s: State, a: Action)
    requires Enabled(s, a) && IsCall(a) && s.shared.isGranting
    ensures OnlyShrinks(s.shared, Apply(s, a).shared) && Apply(s, a).threads == s.threads
  {
    if a.DoTrySchedule? {
      TryScheduleEffect(s.shared, a.r, a.own, a.allowed);
    }
  }

  lemma PassOkIsStable(a: Shared, b: Shared, pc: Pc)
    requires PassOk(a, pc) && OnlyShrinks(a, b)
    ensures PassOk(b, pc)
  {
  }

  lemma CallKeepsThreadInvariants(s: State, a: Action)
    requires Inv(s) && Enabled(s, a) && IsCall(a)
    ensures OneGranter(Apply(s, a)) && OnePass(Apply(s, a)) && PassesOk(Apply(s, a))
  {
    var s' := Apply(s, a);
    if s.shared.isGranting {
      CallOnlyShrinks(s, a);
      forall t | t in s.threads
        ensures PassOk(s'.shared, s'.threads[t].pc)
      {
        PassOkIsStable(s.shared, s'.shared, s.threads[t].pc);
      }
    } else {
      CallOutsidePass(s, a);
    }
  }

  lemma CallOutsidePass(s: State, a: Action)
    requires OneGranter(s) && OnePass(s) && Enabled(s, a) && IsCall(a) && !s.shared.isGranting
    ensures OneGranter(Apply(s, a)) && OnePass(Apply(s, a)) && PassesOk(Apply(s, a))
  {
    var s' := Apply(s, a);
    assert forall t :: t in s.threads ==> !InPass(s.threads[t].pc);
    if a.LeaveRegister? && !s.shared.backgroundRunning {
      assert s'.threads[a.spawned].background;
    } else {
      if a.DoTrySchedule? {
        TryScheduleEffect(s.shared, a.r, a.own, a.allowed);
      }
      assert s'.threads == s.threads;
      assert s'.shared.backgroundRunning == s.shared.backgroundRunning && !s'.shared.isGranting;
    }
  }

  lemma TryScheduleKeepsLifeCycle(s: State, a: Action)
    requires LifeCycle(s) && Enabled(s, a) && a.DoTrySchedule?
    ensures LifeCycle(Apply(s, a))
  {
    var sh := s.shared;
    var sh' := Apply(s, a).shared;
    TryScheduleEffect(sh, a.r, a.own, a.allowed);
    forall r | 0 <= r < |sh'.regs|
      ensures RegOk(sh', r)
    {
      assert RegOk(sh, r);
    }
  }

  lemma OtherCallKeepsLifeCycle(s: State, a: Action)
    requires LifeCycle(s) && Enabled(s, a) && IsCall(a) && !a.DoTrySchedule?
    ensures LifeCycle(Apply(s, a))
  {
    var sh := s.shared;
    var sh' := Apply(s, a).shared;
    forall r | 0 <= r < |sh'.regs|
      ensures RegOk(sh', r)
    {
      assert r < |sh.regs| ==> RegOk(sh, r);
    }
  }

  lemma OnlyPassKeepsUncounted(s: State, s': State)
    requires forall t :: t in s.threads && s.threads[t].pc.Accepted? ==>
      t in s'.threads && s'.threads[t].pc == s.threads[t].pc
    requires forall t :: t in s'.threads && s'.threads[t].pc.Accepted? ==>
      t in s.threads && s.threads[t].pc == s'.threads[t].pc
    ensures forall r: RegId :: Uncounted(s', r) == Uncounted(s, r)
  {
    forall r: RegId
      ensures Uncounted(s', r) == Uncounted(s, r)
    {
      if t :| t in s.threads && HoldsUncounted(s, t, r) {
        assert HoldsUncounted(s', t, r);
      }
      if t :| t in s'.threads && HoldsUncounted(s', t, r) {
        assert HoldsUncounted(s, t, r);
      }
    }
  }

  lemma TryScheduleConserves(s: Shared, r: RegId, own: int, allowed: Allowances)
    requires r < |s.regs|
    ensures var s' := TrySchedule(s, r, own, allowed).1;
      && s'.running - SumRunning(s'.regs) == s.running - SumRunning(s.regs)
      && forall i :: 0 <= i < |s.regs| ==> s'.regs[i].running - s'.regs[i].live == s.regs[i].running - s.regs[i].live
  {
    var s' := TrySchedule(s, r, own, allowed).1;
    TryScheduleEffect(s, r, own, allowed);
    var counted := s.regs[r := s'.regs[r]];
    SumUpdate(s.regs, r, s'.regs[r]);
    SumAgrees(counted, s'.regs);
  }

  lemma CallKeepsConserved(s: State, a: Action)
    requires Inv(s) && Enabled(s, a) && IsCall(a)
    ensures Conserved(Apply(s, a))
  {
    var sh := s.shared;
    var s' := Apply(s, a);
    if a.DoTrySchedule? {
      TryScheduleConserves(sh, a.r, a.own, a.allowed);
      OnlyPassKeepsUncounted(s, s');
    } else if a.NewScheduler? {
      OnlyPassKeepsUncounted(s, s');
      SumAppend(sh.regs, FRESH);
      forall t | t in s.threads
        ensures !HoldsUncounted(s, t, |sh.regs|)
      {
        assert PassOk(sh, s.threads[t].pc);
      }
    } else {
      OtherCallKeepsConserved(s, a);
    }
  }

  lemma OtherCallEffect(s: State, a: Action)
    requires Enabled(s, a) && IsCall(a) && !a.DoTrySchedule? && !a.NewScheduler?
    ensures var s' := Apply(s, a);
      && |s'.shared.regs| == |s.shared.regs|
      && s'.shared.regs == s.shared.regs[a.r := s'.shared.regs[a.r]]
      && s'.shared.running - s.shared.running == s'.shared.regs[a.r].running - s.shared.regs[a.r].running
      && s'.shared.running - s.shared.running == s'.shared.regs[a.r].live - s.shared.regs[a.r].live
  {
  }

  lemma OtherCallKeepsConserved(s: State, a: Action)
    requires Conserved(s) && Enabled(s, a) && IsCall(a) && !a.DoTrySchedule? && !a.NewScheduler?
    ensures Conserved(Apply(s, a))
  {
    var s' := Apply(s, a);
    OtherCallEffect(s, a);
    assert s'.threads == s.threads || (a.LeaveRegister? && s'.threads == s.threads[a.spawned := Thread(true, Idle)]);
    OnlyPassKeepsUncounted(s, s');
    OneRegKeepsConserved(s, s', a.r);
  }

  lemma OneRegKeepsConserved(s: State, s': State, r: RegId)
    requires Conserved(s) && r < |s.shared.regs| == |s'.shared.regs|
    requires forall i: RegId :: Uncounted(s', i) == Uncounted(s, i)
    requires s'.shared.regs == s.shared.regs[r := s'.shared.regs[r]]
    requires s'.shared.running - s.shared.running == s'.shared.regs[r].running - s.shared.regs[r].running
    requires s'.shared.running - s.shared.running == s'.shared.regs[r].live - s.shared.regs[r].live
    ensures Conserved(s')
  {
    SumUpdate(s.shared.regs, r, s'.shared.regs[r]);
  }

  /** A move changes one thread's program counter, starts a manual caller or ends a thread. */
  ghost predicate MovesOnly(s: State, s': State, t: ThreadId) {
    && (forall u :: u != t ==> (u in s.threads <==> u in s'.threads))
    && (forall u :: u != t && u in s.threads ==> s'.threads[u] == s.threads[u])
    && (t in s.threads && t in s'.threads ==> s'.threads[t].background == s.threads[t].background)
  }

  /**
   While the mover is not the pass thread the shared state is untouched, except by the last background granter's exit.
   */
  lemma MoveIsLocal(s: State, a: Action)
    requires Enabled(s, a) && !IsCall(a)
    ensures MovesOnly(s, Apply(s, a), a.t)
    ensures s.shared.registrations == Apply(s, a).shared.registrations
    ensures |s.shared.regs| == |Apply(s, a).shared.regs|
  {
  }

  predicate IsGranter(s: State, t: ThreadId) {
    t in s.threads && s.threads[t].background
  }

  /** Only the exit of a background granter changes backgroundRunning, and only background granters idle. */
  lemma MoverTogglesGranter(s: State, a: Action)
    requires OneGranter(s) && Enabled(s, a) && !IsCall(a)
    ensures IsGranter(Apply(s, a), a.t) ==> IsGranter(s, a.t)
    ensures IsGranter(s, a.t) && !IsGranter(Apply(s, a), a.t) ==> !Apply(s, a).shared.backgroundRunning
    ensures !IsGranter(s, a.t) || IsGranter(Apply(s, a), a.t) ==>
      Apply(s, a).shared.backgroundRunning == s.shared.backgroundRunning
    ensures a.t in Apply(s, a).threads ==>
      var pc := Apply(s, a).threads[a.t].pc; pc.Idle? || pc.Checking? ==> IsGranter(Apply(s, a), a.t)
  {
  }

  lemma OneGranterAfterMove(s: State, s': State, t: ThreadId)
    requires OneGranter(s) && MovesOnly(s, s', t)
    requires IsGranter(s', t) ==> IsGranter(s, t)
    requires IsGranter(s, t) && !IsGranter(s', t) ==> !s'.shared.backgroundRunning
    requires !IsGranter(s, t) || IsGranter(s', t) ==> s'.shared.backgroundRunning == s.shared.backgroundRunning
    requires t in s'.threads && (s'.threads[t].pc.Idle? || s'.threads[t].pc.Checking?) ==> IsGranter(s', t)
    ensures OneGranter(s')
  {
    if s'.shared.backgroundRunning {
      var u :| u in s.threads && s.threads[u].background;
      assert u in s'.threads && s'.threads[u].background;
    }
  }

  lemma MoveKeepsOneGranter(s: State, a: Action)
    requires Inv(s) && Enabled(s, a) && !IsCall(a)
    ensures OneGranter(Apply(s, a))
  {
    MoveIsLocal(s, a);
    MoverTogglesGranter(s, a);
    OneGranterAfterMove(s, Apply(s, a), a.t);
  }

  predicate ThreadInPass(s: State, t: ThreadId) {
    t in s.threads && InPass(s.threads[t].pc)
  }

  /** isGranting follows the mover into and out of its pass. */
  lemma MoverTogglesGranting(s: State, a: Action)
    requires OnePass(s) && Enabled(s, a) && !IsCall(a)
    ensures ThreadInPass(s, a.t) ==> (Apply(s, a).shared.isGranting <==> ThreadInPass(Apply(s, a), a.t))
    ensures !ThreadInPass(s, a.t) && ThreadInPass(Apply(s, a), a.t) ==>
      !s.shared.isGranting && Apply(s, a).shared.isGranting
    ensures !ThreadInPass(s, a.t) && !ThreadInPass(Apply(s, a), a.t) ==>
      Apply(s, a).shared.isGranting == s.shared.isGranting
  {
  }

  lemma MoveKeepsOnePass(s: State, a: Action)
    requires Inv(s) && Enabled(s, a) && !IsCall(a)
    ensures OnePass(Apply(s, a))
  {
    MoveIsLocal(s, a);
    MoverTogglesGranting(s, a);
    OnePassAfterMove(s, Apply(s, a), a.t);
  }

  lemma OnePassAfterMove(s: State, s': State, t: ThreadId)
    requires OnePass(s) && MovesOnly(s, s', t)
    requires ThreadInPass(s, t) ==> (s'.shared.isGranting <==> ThreadInPass(s', t))
    requires !ThreadInPass(s, t) && ThreadInPass(s', t) ==> !s.shared.isGranting && s'.shared.isGranting
    requires !ThreadInPass(s, t) && !ThreadInPass(s', t) ==> s'.shared.isGranting == s.shared.isGranting
    ensures OnePass(s')
  {
    if s'.shared.isGranting && !ThreadInPass(s', t) {
      var u :| u in s.threads && InPass(s.threads[u].pc);
      assert u in s'.threads && InPass(s'.threads[u].pc);
    }
  }

  /** The mover's own pass facts, from its own facts before. */
  lemma QuietMoverPassOk(s: State, a: Action)
    requires LifeCycle(s) && PassesOk(s) && Enabled(s, a) && IsQuiet(a)
    ensures a.t in Apply(s, a).threads ==> PassOk(Apply(s, a).shared, Apply(s, a).threads[a.t].pc)
  {
    assert a.t in s.threads ==> PassOk(s.shared, s.threads[a.t].pc);
  }

  lemma LoudMoverPassOk(s: State, a: Action)
    requires LifeCycle(s) && PassesOk(s) && Enabled(s, a) && !IsCall(a) && !IsQuiet(a)
    ensures a.t in Apply(s, a).threads ==> PassOk(Apply(s, a).shared, Apply(s, a).threads[a.t].pc)
  {
    assert PassOk(s.shared, s.threads[a.t].pc);
  }

  lemma MoveKeepsPassesOk(s: State, a: Action)
    requires Inv(s) && Enabled(s, a) && !IsCall(a)
    ensures PassesOk(Apply(s, a))
  {
    var s' := Apply(s, a);
    MoveIsLocal(s, a);
    if IsQuiet(a) {
      QuietMoverPassOk(s, a);
    } else {
      LoudMoverPassOk(s, a);
    }
    forall t | t in s'.threads && t != a.t
      ensures PassOk(s'.shared, s'.threads[t].pc)
    {
      if a.t in s.threads && InPass(s.threads[a.t].pc) {
        assert !InPass(s.threads[t].pc);
      } else {
        assert PassOk(s.shared, s.threads[t].pc);
        assert OnlyShrinks(s.shared, s'.shared) || !s.shared.isGranting || a.CheckEmpty?;
      }
    }
  }

  /** Moves that leave the registrations and the counts alone. */
  predicate IsQuiet(a: Action) {
    a.CallTryGrant? || a.Wake? || a.Enter? || a.Skip? || a.Ask? || a.EndScan? || a.CheckEmpty?
  }

  lemma QuietMove(s: State, a: Action)
    requires Enabled(s, a) && IsQuiet(a)
    ensures var sh' := Apply(s, a).shared;
      sh' == s.shared.(isGranting := sh'.isGranting, backgroundRunning := sh'.backgroundRunning)
    ensures s.shared.registrations != {} ==> Apply(s, a).shared.backgroundRunning == s.shared.backgroundRunning
  {
  }

  lemma MoveKeepsLifeCycle(s: State, a: Action)
    requires LifeCycle(s) && PassesOk(s) && Enabled(s, a) && !IsCall(a)
    ensures LifeCycle(Apply(s, a))
  {
    if IsQuiet(a) {
      QuietMove(s, a);
      forall r | 0 <= r < |s.shared.regs|
        ensures RegOk(Apply(s, a).shared, r)
      {
        assert RegOk(s.shared, r);
      }
    } else {
      LoudMoveKeepsLifeCycle(s, a);
    }
  }

  lemma LoudMoveKeepsLifeCycle(s: State, a: Action)
    requires LifeCycle(s) && PassesOk(s) && Enabled(s, a) && !IsCall(a) && !IsQuiet(a)
    ensures LifeCycle(Apply(s, a))
  {
    var sh := s.shared;
    var sh' := Apply(s, a).shared;
    assert PassOk(sh, s.threads[a.t].pc);
    forall r | 0 <= r < |sh'.regs|
      ensures RegOk(sh', r)
    {
      assert RegOk(sh, r);
    }
  }

  /** One pass thread moves into or out of Accepted: only its own registration is affected. */
  lemma UncountedAt(s: State, s': State, t: ThreadId)
    requires OnePass(s) && t in s.threads && t in s'.threads && MovesOnly(s, s', t)
    requires s.threads[t].pc.Offering? || s.threads[t].pc.Accepted?
    ensures forall r: RegId :: Uncounted(s, r) == if HoldsUncounted(s, t, r) then 1 else 0
    ensures forall r: RegId :: Uncounted(s', r) == if HoldsUncounted(s', t, r) then 1 else 0
  {
    forall u | u in s.threads && u != t
      ensures !s.threads[u].pc.Accepted?
    {
      assert InPass(s.threads[t].pc);
    }
  }

  /** Apart from accepting and counting a grant, no move touches a count or an accepted grant. */
  lemma OtherMovesKeepCounts(s: State, a: Action)
    requires Enabled(s, a) && !IsCall(a) && !a.Accept? && !a.CountAccepted?
    ensures var sh' := Apply(s, a).shared;
      && sh'.running == s.shared.running && |sh'.regs| == |s.shared.regs|
      && forall r :: 0 <= r < |sh'.regs| ==>
        sh'.regs[r].running == s.shared.regs[r].running && sh'.regs[r].live == s.shared.regs[r].live
    ensures a.t in s.threads ==> !s.threads[a.t].pc.Accepted?
    ensures a.t in Apply(s, a).threads ==> !Apply(s, a).threads[a.t].pc.Accepted?
  {
    if IsQuiet(a) {
      QuietMove(s, a);
    }
  }

  lemma MoveKeepsConserved(s: State, a: Action)
    requires Inv(s) && Enabled(s, a) && !IsCall(a)
    ensures Conserved(Apply(s, a))
  {
    var sh := s.shared;
    var s' := Apply(s, a);
    MoveIsLocal(s, a);
    if a.Accept? || a.CountAccepted? {
      AcceptKeepsConserved(s, a);
    } else {
      OtherMovesKeepCounts(s, a);
      OnlyPassKeepsUncounted(s, s');
      SumAgrees(sh.regs, s'.shared.regs);
    }
  }

  lemma AcceptKeepsConserved(s: State, a: Action)
    requires Conserved(s) && OnePass(s) && Enabled(s, a) && (a.Accept? || a.CountAccepted?)
    ensures Conserved(Apply(s, a))
  {
    var s' := Apply(s, a);
    var r := s.threads[a.t].pc.candidate.reg;
    SumUpdate(s.shared.regs, r, s'.shared.regs[r]);
    UncountedAt(s, s', a.t);
  }

  lemma ApplyKeepsInv(s: State, a: Action)
    requires Inv(s) && Enabled(s, a)
    ensures Inv(Apply(s, a))
  {
    if IsCall(a) {
      CallKeepsThreadInvariants(s, a);
      if a.DoTrySchedule? {
        TryScheduleKeepsLifeCycle(s, a);
      } else {
        OtherCallKeepsLifeCycle(s, a);
      }
      CallKeepsConserved(s, a);
    } else {
      MoveKeepsOneGranter(s, a);
      MoveKeepsOnePass(s, a);
      MoveKeepsPassesOk(s, a);
      MoveKeepsLifeCycle(s, a);
      MoveKeepsConserved(s, a);
    }
  }

  lemma {:induction false} RunKeepsInv(s: State, run: seq<Action>)
    requires Inv(s) && ValidRun(s, run)
    ensures Inv(After(s, run))
    decreases |run|
  {
    if |run| > 0 {
      ApplyKeepsInv(s, run[0]);
      RunKeepsInv(Apply(s, run[0]), run[1..]);
    }
  }
}
