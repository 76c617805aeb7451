/** An undisturbed pass of the coordinator object is a run of one thread of the protocol. */
module GrantPass {
  import opened Common
  import opened SchedulerState
  import opened SchedulerProtocol
  import T = SchedulerTheorems
  import C = CompactionCoordinator

  /** No other thread holds the mutex. */
  ghost predicate Alone(s: State, t: ThreadId) {
    t in s.threads && forall u :: u in s.threads && u != t ==> !HoldsMutex(s.threads[u].pc)
  }

  /** `s` with thread `t` at `pc` and shared state `sh`. */
  function Put(s: State, t: ThreadId, sh: Shared, pc: Pc): State
    requires t in s.threads
  {
    Goto(s.(shared := sh), t, pc)
  }

  lemma PutIsAlone(s: State, t: ThreadId, sh: Shared, pc: Pc)
    requires Alone(s, t)
    ensures !HoldsMutex(pc) ==> MutexFree(Put(s, t, sh, pc))
  {
  }

  /** All steps are moves of thread `t`. */
  ghost predicate MovesOf(run: seq<Action>, t: ThreadId) {
    forall i :: 0 <= i < |run| ==> !IsCall(run[i]) && run[i].t == t
  }

  /** `run` takes thread `t` alone from `s` to `s'`. */
  ghost predicate Leads(s: State, run: seq<Action>, t: ThreadId, s': State) {
    ValidRun(s, run) && After(s, run) == s' && MovesOf(run, t)
  }

  lemma OneMove(s: State, a: Action, t: ThreadId, s': State)
    requires Enabled(s, a) && Apply(s, a) == s' && !IsCall(a) && a.t == t
    ensures Leads(s, [a], t, s')
  {
    T.Prepend(s, a, []);
    assert [a] + [] == [a];
  }

  lemma Then(s: State, a: seq<Action>, t: ThreadId, s': State, b: seq<Action>, s'': State)
    requires Leads(s, a, t, s') && Leads(s', b, t, s'')
    ensures Leads(s, a + b, t, s'')
  {
    T.RunsJoin(s, a, b);
  }

  /** The same scan with these left to visit and this choice. */
  function Scan(pc: Pc, remaining: set<RegId>, best: Option<Candidate>): Pc
    requires pc.Scanning?
  {
    Scanning(pc.members, pc.limit, remaining, best)
  }

  // ----- One registration -----

  /** Asking `r`, which is eligible, and getting its answer. */
  lemma AskOne(s: State, t: ThreadId, sh: Shared, pc: Pc, r: RegId, yes: bool, info: WaitingInfo)
    returns (run: seq<Action>)
    requires Alone(s, t) && pc.Scanning? && r in pc.remaining && r < |sh.regs| && Eligible(sh, r)
    ensures var c := Candidate(r, sh.regs[r].generation, sh.regs[r].lastAllowed, info);
      Leads(Put(s, t, sh, pc), run, t,
            Put(s, t, if yes then sh else NegativeAnswer(sh, r, sh.regs[r].generation),
                Scan(pc, pc.remaining - {r}, if yes then Better(pc.best, c) else pc.best)))
  {
    var s1 := Put(s, t, sh, pc);
    var asking := Polling(pc.members, pc.limit, pc.remaining - {r}, pc.best,
                          r, sh.regs[r].generation, sh.regs[r].lastAllowed);
    var s2 := Put(s, t, sh, asking);
    assert Apply(s1, Ask(t, r)) == s2;
    OneMove(s1, Ask(t, r), t, s2);
    PutIsAlone(s, t, sh, asking);
    var a := Answer(t, yes, info);
    var s3 := Apply(s2, a);
    OneMove(s2, a, t, s3);
    Then(s1, [Ask(t, r)], t, s2, [a], s3);
    run := [Ask(t, r)] + [a];
  }

  /** Nobody left in `todo` has a "yes" that beats `best`. */
  ghost predicate NoneBeats(sh: Shared, answers: C.Answers, todo: set<RegId>, best: Option<Candidate>) {
    forall r :: r in todo && r < |sh.regs| && Eligible(sh, r) && answers(r).0 ==>
      best.Some? && !HigherPriority(answers(r).1, best.value.info)
  }

  lemma VisitOne(s: State, t: ThreadId, sh: Shared, answers: C.Answers, done: set<RegId>, pc: Pc, r: RegId)
    returns (run: seq<Action>)
    requires Alone(s, t) && pc.Scanning? && r in pc.remaining && r < |sh.regs| && r !in done
    requires NoneBeats(sh, answers, pc.remaining, pc.best)
    ensures Leads(Put(s, t, C.AfterScan(sh, answers, done), pc), run, t,
                  Put(s, t, C.AfterScan(sh, answers, done + {r}), Scan(pc, pc.remaining - {r}, pc.best)))
  {
    var sh1 := C.AfterScan(sh, answers, done);
    C.ScanStep(sh, answers, done, r);
    if Eligible(sh, r) {
      run := AskOne(s, t, sh1, pc, r, answers(r).0, answers(r).1);
    } else {
      var s1, s2 := Put(s, t, sh1, pc), Put(s, t, sh1, Scan(pc, pc.remaining - {r}, pc.best));
      assert Apply(s1, Skip(t, r)) == s2;
      OneMove(s1, Skip(t, r), t, s2);
      run := [Skip(t, r)];
    }
  }

  // ----- One scan -----

  lemma {:induction false} VisitAll(s: State, t: ThreadId, sh: Shared, answers: C.Answers, done: set<RegId>, pc: Pc)
    returns (run: seq<Action>)
    requires Alone(s, t) && pc.Scanning? && pc.remaining !! done && forall r :: r in pc.remaining ==> r < |sh.regs|
    requires NoneBeats(sh, answers, pc.remaining, pc.best)
    ensures Leads(Put(s, t, C.AfterScan(sh, answers, done), pc), run, t,
                  Put(s, t, C.AfterScan(sh, answers, done + pc.remaining), Scan(pc, {}, pc.best)))
    decreases |pc.remaining|
  {
    var s1 := Put(s, t, C.AfterScan(sh, answers, done), pc);
    if pc.remaining == {} {
      run := [];
      assert done + pc.remaining == done;
    } else {
      var r :| r in pc.remaining;
      var pc' := Scan(pc, pc.remaining - {r}, pc.best);
      var first := VisitOne(s, t, sh, answers, done, pc, r);
      var rest := VisitAll(s, t, sh, answers, done + {r}, pc');
      assert done + {r} + pc'.remaining == done + pc.remaining;
      Then(s1, first, t, Put(s, t, C.AfterScan(sh, answers, done + {r}), pc'), rest,
           Put(s, t, C.AfterScan(sh, answers, done + pc.remaining), Scan(pc, {}, pc.best)));
      run := first + rest;
    }
  }

  /** A scan in which everyone asked says no ends the pass. */
  lemma ScanInVain(s: State, t: ThreadId, sh: Shared, answers: C.Answers, limit: int) returns (run: seq<Action>)
    requires Alone(s, t) && (forall r :: r in sh.registrations ==> r < |sh.regs|)
    requires C.Polled(sh, answers, sh.registrations) == map[]
    ensures Leads(Put(s, t, sh, Scanning(sh.registrations, limit, sh.registrations, None)), run, t,
                  Return(s.(shared := C.AfterScan(sh, answers, sh.registrations).(isGranting := false)), t))
  {
    var ids := sh.registrations;
    var pc := Scanning(ids, limit, ids, None);
    var sh' := C.AfterScan(sh, answers, ids);
    C.NothingScanned(sh, answers);
    var polled := C.Polled(sh, answers, ids);
    forall r | r in ids && r < |sh.regs| && Eligible(sh, r)
      ensures !answers(r).0
    {
      assert r in polled <==> answers(r).0;
    }
    var scan := VisitAll(s, t, sh, answers, {}, pc);
    assert {} + ids == ids;
    var s2 := Put(s, t, sh', Scan(pc, {}, pc.best));
    EndsPass(s, t, sh', Scan(pc, {}, pc.best), EndScan(t));
    Then(Put(s, t, sh, pc), scan, t, s2, [EndScan(t)], Return(s.(shared := sh'.(isGranting := false)), t));
    run := scan + [EndScan(t)];
  }

  lemma EndsPass(s: State, t: ThreadId, sh: Shared, pc: Pc, a: Action)
    requires Alone(s, t) && pc.Scanning? && pc.remaining == {} && pc.best.None? && a == EndScan(t)
    ensures Leads(Put(s, t, sh, pc), [a], t, Return(s.(shared := sh.(isGranting := false)), t))
  {
    var s1, s2 := Put(s, t, sh, pc), Return(s.(shared := sh.(isGranting := false)), t);
    ReturnForgets(s, t, sh.(isGranting := false), pc);
    assert Apply(s1, a) == EndPass(s1, t);
    OneMove(s1, a, t, s2);
  }

  /** Where a thread has been does not matter once it has returned. */
  lemma ReturnForgets(s: State, t: ThreadId, sh: Shared, pc: Pc)
    requires t in s.threads
    ensures Return(Put(s, t, sh, pc), t) == Return(s.(shared := sh), t)
  {
    assert Put(s, t, sh, pc).threads - {t} == s.threads - {t};
    assert Put(s, t, sh, pc).threads[t := s.threads[t].(pc := Checking)] ==
      s.threads[t := s.threads[t].(pc := Checking)];
  }

  /** A scan that asks the chosen one first arrives at it. */
  lemma ScanForBest(s: State, t: ThreadId, sh: Shared, answers: C.Answers, limit: int, o: C.Offer, c: Candidate)
    returns (run: seq<Action>)
    requires Alone(s, t) && (forall r :: r in sh.registrations ==> r < |sh.regs|) && C.BestOf(sh, answers, o)
    requires c == Candidate(o.reg, o.generation, sh.regs[o.reg].lastAllowed, o.polled[o.reg])
    ensures Leads(Put(s, t, sh, Scanning(sh.registrations, limit, sh.registrations, None)), run, t,
                  Put(s, t, C.AfterScan(sh, answers, sh.registrations), Scanning(sh.registrations, limit, {}, Some(c))))
  {
    var ids, r := sh.registrations, o.reg;
    var pc := Scanning(ids, limit, ids, None);
    var pc' := Scan(pc, ids - {r}, Some(c));
    assert r in C.Polled(sh, answers, ids);
    var first := AskOne(s, t, sh, pc, r, true, answers(r).1);
    C.NothingScanned(sh, answers);
    C.ScanStep(sh, answers, {}, r);
    assert {} + {r} == {r};
    forall q | q in ids && q < |sh.regs| && Eligible(sh, q) && answers(q).0
      ensures !HigherPriority(answers(q).1, c.info)
    {
      assert q in o.polled && o.polled[q] == answers(q).1;
    }
    var rest := VisitAll(s, t, sh, answers, {r}, pc');
    assert {r} + pc'.remaining == ids;
    Then(Put(s, t, sh, pc), first, t, Put(s, t, sh, pc'), rest,
         Put(s, t, C.AfterScan(sh, answers, ids), Scan(pc', {}, pc'.best)));
    run := first + rest;
  }

  // ----- One offer -----

  lemma AcceptedOffer(s: State, t: ThreadId, sh: Shared, pc: Pc) returns (run: seq<Action>)
    requires Alone(s, t) && pc.Offering? && pc.candidate.reg < |sh.regs|
    ensures Leads(Put(s, t, sh, pc), run, t, Put(s, t, C.Granted(sh, pc.candidate.reg), AtLimit(pc.members)))
  {
    var r := pc.candidate.reg;
    var sh1 := SetReg(sh, r, sh.regs[r].(live := sh.regs[r].live + 1));
    var pc1 := Accepted(pc.members, pc.limit, pc.candidate);
    var s1, s2, s3 := Put(s, t, sh, pc), Put(s, t, sh1, pc1), Put(s, t, C.Granted(sh, r), AtLimit(pc.members));
    assert Apply(s1, Accept(t)) == s2;
    OneMove(s1, Accept(t), t, s2);
    PutIsAlone(s, t, sh1, pc1);
    assert CountGrant(sh1, r) == C.Granted(sh, r);
    assert Apply(s2, CountAccepted(t)) == s3;
    OneMove(s2, CountAccepted(t), t, s3);
    Then(s1, [Accept(t)], t, s2, [CountAccepted(t)], s3);
    run := [Accept(t)] + [CountAccepted(t)];
  }

  lemma MakeOffer(s: State, t: ThreadId, sh: Shared, pc: Pc, o: C.Offer, accepted: bool) returns (run: seq<Action>)
    requires Alone(s, t) && pc.Offering? && o.reg == pc.candidate.reg < |sh.regs|
    requires o.generation == pc.candidate.generation
    ensures Leads(Put(s, t, sh, pc), run, t, Put(s, t, C.AfterOffer(sh, o, accepted), AtLimit(pc.members)))
  {
    if accepted {
      run := AcceptedOffer(s, t, sh, pc);
    } else {
      PutIsAlone(s, t, sh, pc);
      var s1, s2 := Put(s, t, sh, pc), Put(s, t, C.AfterOffer(sh, o, false), AtLimit(pc.members));
      assert Apply(s1, Reject(t)) == s2;
      OneMove(s1, Reject(t), t, s2);
      run := [Reject(t)];
    }
  }

  /** A scan, its choice and the offer. */
  lemma ScanAndOffer(s: State, t: ThreadId, sh: Shared, answers: C.Answers, limit: int, o: C.Offer, accepted: bool)
    returns (run: seq<Action>)
    requires Alone(s, t) && (forall r :: r in sh.registrations ==> r < |sh.regs|) && C.BestOf(sh, answers, o)
    ensures Leads(Put(s, t, sh, Scanning(sh.registrations, limit, sh.registrations, None)), run, t,
                  Put(s, t, C.AfterOffer(C.AfterScan(sh, answers, sh.registrations), o, accepted),
                      AtLimit(sh.registrations)))
  {
    var ids, sh' := sh.registrations, C.AfterScan(sh, answers, sh.registrations);
    var c := Candidate(o.reg, o.generation, sh.regs[o.reg].lastAllowed, o.polled[o.reg]);
    var s1 := Put(s, t, sh, Scanning(ids, limit, ids, None));
    var s2 := Put(s, t, sh', Scanning(ids, limit, {}, Some(c)));
    var s3 := Put(s, t, sh', Offering(ids, limit, c));
    var s4 := Put(s, t, C.AfterOffer(sh', o, accepted), AtLimit(ids));
    var scan := ScanForBest(s, t, sh, answers, limit, o, c);
    assert Apply(s2, EndScan(t)) == s3;
    OneMove(s2, EndScan(t), t, s3);
    var offer := MakeOffer(s, t, sh', Offering(ids, limit, c), o, accepted);
    Then(s1, scan, t, s2, [EndScan(t)], s3);
    Then(s1, scan + [EndScan(t)], t, s3, offer, s4);
    run := scan + [EndScan(t)] + offer;
  }

  // ----- One pass -----

  /** The limit check below the limit. */
  lemma CheckGoesOn(s: State, t: ThreadId, sh: Shared, allowed: Allowances)
    requires Alone(s, t) && sh.running < Limit(sh, allowed)
    ensures Leads(Put(s, t, sh, AtLimit(sh.registrations)), [CheckLimit(t, allowed)], t,
                  Put(s, t, ReadLimits(sh, allowed),
                      Scanning(sh.registrations, Limit(sh, allowed), sh.registrations, None)))
  {
    var s1 := Put(s, t, sh, AtLimit(sh.registrations));
    OneMove(s1, CheckLimit(t, allowed), t,
            Put(s, t, ReadLimits(sh, allowed),
                Scanning(sh.registrations, Limit(sh, allowed), sh.registrations, None)));
  }

  lemma CheckEnds(s: State, t: ThreadId, sh: Shared, allowed: Allowances)
    requires Alone(s, t) && sh.running >= Limit(sh, allowed)
    ensures Leads(Put(s, t, sh, AtLimit(sh.registrations)), [CheckLimit(t, allowed)], t,
                  Return(s.(shared := ReadLimits(sh, allowed).(isGranting := false)), t))
  {
    var s1 := Put(s, t, sh, AtLimit(sh.registrations));
    ReturnForgets(s, t, ReadLimits(sh, allowed).(isGranting := false), AtLimit(sh.registrations));
    OneMove(s1, CheckLimit(t, allowed), t, Return(s.(shared := ReadLimits(sh, allowed).(isGranting := false)), t));
  }

  ghost predicate CanPass(s: State, t: ThreadId) {
    && Alone(s, t) && s.threads[t].pc.Entering? && !s.shared.isGranting
    && forall r :: r in s.shared.registrations ==> r < |s.shared.regs|
  }

  lemma EnterPass(s: State, t: ThreadId)
    requires CanPass(s, t)
    ensures Leads(s, [Enter(t)], t, Put(s, t, s.shared.(isGranting := true), AtLimit(s.shared.registrations)))
  {
    OneMove(s, Enter(t), t, Put(s, t, s.shared.(isGranting := true), AtLimit(s.shared.registrations)));
  }

  /** The moves up to the limit check that follows `offers`. */
  lemma {:induction false} ReachCheck(s: State, t: ThreadId, allowed: Allowances, scans: nat -> C.Answers,
                                      accepts: nat -> bool, offers: seq<C.Offer>) returns (run: seq<Action>)
    requires CanPass(s, t) && C.AllBest(s.shared, allowed, scans, accepts, offers)
    ensures Leads(s, run, t,
                  Put(s, t, C.AtCheck(s.shared, allowed, scans, accepts, offers), AtLimit(s.shared.registrations)))
    decreases |offers|
  {
    if |offers| == 0 {
      EnterPass(s, t);
      run := [Enter(t)];
    } else {
      var n := |offers| - 1;
      var before := offers[..n];
      FrontIsBest(s.shared, allowed, scans, accepts, offers, n);
      var first := ReachCheck(s, t, allowed, scans, accepts, before);
      var sh := C.AtCheck(s.shared, allowed, scans, accepts, before);
      var last := CheckAndOffer(s, t, allowed, sh, scans(n), offers[n], accepts(n));
      Then(s, first, t, Put(s, t, sh, AtLimit(sh.registrations)), last,
           Put(s, t, C.AtCheck(s.shared, allowed, scans, accepts, offers), AtLimit(sh.registrations)));
      run := first + last;
    }
  }

  lemma FrontIsBest(s0: Shared, allowed: Allowances, scans: nat -> C.Answers, accepts: nat -> bool,
                    offers: seq<C.Offer>, n: nat)
    requires C.AllBest(s0, allowed, scans, accepts, offers) && n + 1 == |offers|
    ensures C.AllBest(s0, allowed, scans, accepts, offers[..n])
    ensures C.BestAt(s0, allowed, scans, accepts, offers, n)
  {
    forall i | 0 <= i < n
      ensures C.BestAt(s0, allowed, scans, accepts, offers[..n], i)
    {
      assert C.BestAt(s0, allowed, scans, accepts, offers, i);
      assert offers[..n][..i] == offers[..i];
    }
  }

  lemma CheckAndOffer(s: State, t: ThreadId, allowed: Allowances, sh: Shared, answers: C.Answers, o: C.Offer,
                      accepted: bool) returns (run: seq<Action>)
    requires Alone(s, t) && (forall r :: r in sh.registrations ==> r < |sh.regs|)
    requires sh.running < Limit(sh, allowed) && C.BestOf(ReadLimits(sh, allowed), answers, o)
    ensures Leads(Put(s, t, sh, AtLimit(sh.registrations)), run, t,
                  Put(s, t, C.AfterOffer(C.AfterScan(ReadLimits(sh, allowed), answers, sh.registrations), o, accepted),
                      AtLimit(sh.registrations)))
  {
    var sh1 := ReadLimits(sh, allowed);
    var ids, limit := sh.registrations, Limit(sh, allowed);
    CheckGoesOn(s, t, sh, allowed);
    var offer := ScanAndOffer(s, t, sh1, answers, limit, o, accepted);
    Then(Put(s, t, sh, AtLimit(ids)), [CheckLimit(t, allowed)], t, Put(s, t, sh1, Scanning(ids, limit, ids, None)),
         offer, Put(s, t, C.AfterOffer(C.AfterScan(sh1, answers, ids), o, accepted), AtLimit(ids)));
    run := [CheckLimit(t, allowed)] + offer;
  }

  lemma LastScan(s: State, t: ThreadId, allowed: Allowances, sh: Shared, answers: C.Answers) returns (run: seq<Action>)
    requires Alone(s, t) && (forall r :: r in sh.registrations ==> r < |sh.regs|)
    requires sh.running < Limit(sh, allowed)
    requires C.Polled(ReadLimits(sh, allowed), answers, sh.registrations) == map[]
    ensures Leads(Put(s, t, sh, AtLimit(sh.registrations)), run, t,
                  Return(s.(shared := C.AfterScan(ReadLimits(sh, allowed), answers,
                    sh.registrations).(isGranting := false)), t))
  {
    var sh1 := ReadLimits(sh, allowed);
    var ids, limit := sh.registrations, Limit(sh, allowed);
    CheckGoesOn(s, t, sh, allowed);
    var scan := ScanInVain(s, t, sh1, answers, limit);
    Then(Put(s, t, sh, AtLimit(ids)), [CheckLimit(t, allowed)], t, Put(s, t, sh1, Scanning(ids, limit, ids, None)),
         scan, Return(s.(shared := C.AfterScan(sh1, answers, ids).(isGranting := false)), t));
    run := [CheckLimit(t, allowed)] + scan;
  }

  /** What TryGrant does, one thread of the protocol does in the same circumstances. */
  lemma TryGrantIsRun(s: State, t: ThreadId, allowed: Allowances, scans: nat -> C.Answers, accepts: nat -> bool,
                      offers: seq<C.Offer>, s': Shared) returns (run: seq<Action>)
    requires CanPass(s, t) && C.AllBest(s.shared, allowed, scans, accepts, offers)
    requires C.EndsIn(s.shared, allowed, scans, accepts, offers, s')
    ensures ValidRun(s, run) && MovesOf(run, t) && After(s, run) == Return(s.(shared := s'), t)
  {
    var sh := C.AtCheck(s.shared, allowed, scans, accepts, offers);
    var first := ReachCheck(s, t, allowed, scans, accepts, offers);
    var last: seq<Action>;
    if sh.running >= Limit(s.shared, allowed) {
      CheckEnds(s, t, sh, allowed);
      last := [CheckLimit(t, allowed)];
    } else {
      last := LastScan(s, t, allowed, sh, scans(|offers|));
    }
    Then(s, first, t, Put(s, t, sh, AtLimit(s.shared.registrations)), last, Return(s.(shared := s'), t));
    run := first + last;
  }
}
