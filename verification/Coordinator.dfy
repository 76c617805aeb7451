/**
 The coordinator object of pebble/compaction.go. Each method is one call made while no other thread
 interferes, except where it waits for a grant pass to end; its effect on the shared state is the one the
 concurrent protocol uses for the same critical section. What the DBs answer is given by parameters.
 */
module CompactionCoordinator {
  import opened Common
  import opened SchedulerState

  /** What each DB would answer to GetWaitingCompaction in one scan. */
  type Answers = RegId -> (bool, WaitingInfo)

  /** One offer of a pass: the chosen registration, when it was asked, and all answers "waiting" of that scan. */
  datatype Offer = Offer(reg: RegId, generation: nat, polled: map<RegId, WaitingInfo>)

  /** The chosen one answered, and no other answer of its scan has a higher priority. */
  ghost predicate IsBest(o: Offer) {
    o.reg in o.polled && forall q :: q in o.polled ==> !HigherPriority(o.polled[q], o.polled[o.reg])
  }

  /** The registrations among `ids` that a scan from state `s` asks and that answer "waiting", with their answers. */
  function Polled(s: Shared, answers: Answers, ids: set<RegId>): map<RegId, WaitingInfo> {
    map r | r in ids && r < |s.regs| && Eligible(s, r) && answers(r).0 :: answers(r).1
  }

  /** A scan of `ids` ends the waiting of those that are asked and answer "no", and changes nothing else. */
  function AfterScan(s: Shared, answers: Answers, ids: set<RegId>): (s': Shared)
    ensures |s'.regs| == |s.regs|
  {
    s.(regs := seq(|s.regs|, i requires 0 <= i < |s.regs| =>
      if i in ids && Eligible(s, i) && !answers(i).0 then s.regs[i].(waiting := false) else s.regs[i]))
  }

  /** `o` is a best answer of a scan of all registrations from state `s`. */
  ghost predicate BestOf(s: Shared, answers: Answers, o: Offer) {
    && o.polled == Polled(s, answers, s.registrations) && IsBest(o)
    && o.reg < |s.regs| && o.generation == s.regs[o.reg].generation
  }

  function Granted(s: Shared, r: RegId): Shared
    requires r < |s.regs|
  {
    SetReg(s, r, s.regs[r].(running := s.regs[r].running + 1, live := s.regs[r].live + 1)).(running := s.running + 1)
  }

  /** The outcome of an offer: a counted grant, or the end of the waiting. */
  function AfterOffer(s: Shared, o: Offer, accepted: bool): (s': Shared)
    ensures |s'.regs| == |s.regs|
  {
    if o.reg >= |s.regs| then s
    else if accepted then Granted(s, o.reg)
    else NegativeAnswer(s, o.reg, o.generation)
  }

  /** Where a pass from `s0` checks the limit after `offers`. */
  function AtCheck(s0: Shared, allowed: Allowances, scans: nat -> Answers, accepts: nat -> bool,
                   offers: seq<Offer>): (s: Shared)
    ensures |s.regs| == |s0.regs| && s.registrations == s0.registrations && s.isGranting
  {
    if |offers| == 0 then s0.(isGranting := true)
    else
      var n := |offers| - 1;
      var s := ReadLimits(AtCheck(s0, allowed, scans, accepts, offers[..n]), allowed);
      AfterOffer(AfterScan(s, scans(n), s.registrations), offers[n], accepts(n))
  }

  /** Where it makes the scan that follows: all allowances have just been read. */
  function AtScan(s0: Shared, allowed: Allowances, scans: nat -> Answers, accepts: nat -> bool,
                  offers: seq<Offer>): (s: Shared)
    ensures |s.regs| == |s0.regs|
  {
    ReadLimits(AtCheck(s0, allowed, scans, accepts, offers), allowed)
  }

  /** Offer `i` was made below the limit and went to a best answer of its own scan. */
  ghost predicate BestAt(s0: Shared, allowed: Allowances, scans: nat -> Answers, accepts: nat -> bool,
                         offers: seq<Offer>, i: nat)
    requires i < |offers|
  {
    var s := AtScan(s0, allowed, scans, accepts, offers[..i]);
    s.running < Limit(s0, allowed) && BestOf(s, scans(i), offers[i])
  }

  ghost predicate AllBest(s0: Shared, allowed: Allowances, scans: nat -> Answers, accepts: nat -> bool,
                          offers: seq<Offer>) {
    forall i :: 0 <= i < |offers| ==> BestAt(s0, allowed, scans, accepts, offers, i)
  }

  /** A pass with those offers ends in `s'`: at the limit, or after a scan in which everyone asked says no. */
  ghost predicate EndsIn(s0: Shared, allowed: Allowances, scans: nat -> Answers, accepts: nat -> bool,
                         offers: seq<Offer>, s': Shared) {
    var s := AtScan(s0, allowed, scans, accepts, offers);
    if s.running >= Limit(s0, allowed) then s' == s.(isGranting := false)
    else
      && s' == AfterScan(s, scans(|offers|), s.registrations).(isGranting := false)
      && Polled(s, scans(|offers|), s.registrations) == map[]
  }

  ghost function WaitingSet(s: Shared): set<RegId> {
    set r | r in s.registrations && r < |s.regs| && s.regs[r].waiting
  }

  /** What the owner of `r` finds after waiting for a pass to end. */
  ghost predicate Waited(s: Shared, s': Shared, r: RegId) {
    && r < |s.regs| <= |s'.regs| && !s'.isGranting && (!s.isGranting ==> s' == s)
    && (forall q :: q in s'.registrations ==> q < |s'.regs|)
    && s'.regs[r].registered == s.regs[r].registered && s'.regs[r].hasDb == s.regs[r].hasDb
    && s'.regs[r].call == s.regs[r].call
  }

  class Coordinator {
    var regs: seq<Registration>
    var registrations: set<RegId>
    var running: int
    var isGranting: bool
    var backgroundRunning: bool

    function View(): Shared
      reads this
    {
      Shared(regs, registrations, running, isGranting, backgroundRunning)
    }

    ghost predicate Valid()
      reads this
    {
      forall r :: r in registrations ==> r < |regs|
    }

    constructor ()
      ensures Valid() && View() == EMPTY
    {
      regs, registrations, running := [], {}, 0;
      isGranting, backgroundRunning := false, false;
    }

    method NewScheduler() returns (r: RegId)
      requires Valid()
      modifies this
      ensures Valid() && r == |old(regs)|
      ensures View() == old(View()).(regs := old(regs) + [FRESH])
    {
      r := |regs|;
      regs := regs + [FRESH];
    }

    /**
     The wait on the condition variable: other threads may go on to state `woke`, but each registration has one owner.
     */
    method AwaitPass(r: RegId, woke: Shared)
      requires Valid() && Waited(View(), woke, r)
      modifies this
      ensures Valid() && View() == woke
    {
      if isGranting {
        regs, registrations, running := woke.regs, woke.registrations, woke.running;
        isGranting, backgroundRunning := woke.isGranting, woke.backgroundRunning;
      }
    }

    /**
     Registering a reused registration panics and changes nothing; otherwise it waits for a pass to end and registers.
     */
    method Register(r: RegId, woke: Shared) returns (panics: bool, spawns: bool)
      requires Valid() && Waited(View(), woke, r) && regs[r].call.NoCall?
      modifies this
      ensures Valid()
      ensures panics == (old(regs[r].registered) || old(regs[r].hasDb))
      ensures View() == if panics then old(View()) else FinishRegister(woke, r)
      ensures spawns == (!panics && !woke.backgroundRunning)
    {
      panics, spawns := regs[r].registered || regs[r].hasDb, false;
      if !panics {
        AwaitPass(r, woke);
        regs := regs[r := regs[r].(hasDb := true, registered := true)];
        registrations := registrations + {r};
        if !backgroundRunning {
          backgroundRunning := true;
          spawns := true;
        }
      }
    }

    method Unregister(r: RegId, woke: Shared) returns (panics: bool)
      requires Valid() && Waited(View(), woke, r) && regs[r].call.NoCall?
      modifies this
      ensures Valid()
      ensures panics == !old(regs[r].registered)
      ensures View() == if panics then old(View()) else FinishUnregister(woke, r)
    {
      panics := !regs[r].registered;
      if !panics {
        AwaitPass(r, woke);
        regs := regs[r := regs[r].(registered := false)];
        registrations := registrations - {r};
      }
    }

    /** Records every registered DB's allowance and returns the largest, in whatever order the map yields them. */
    method GlobalLimitLocked(allowed: Allowances) returns (limit: int)
      requires Valid()
      modifies this
      ensures Valid()
      ensures limit == Limit(old(View()), allowed)
      ensures View() == ReadLimits(old(View()), allowed)
    {
      limit := 0;
      ghost var done: set<RegId> := {};
      var todo := registrations;
      MaxAllowedOfNone(allowed, |regs|);
      RecordNone(regs, allowed);
      while todo != {}
        invariant done == registrations - todo && todo <= registrations == old(registrations)
        invariant regs == Record(old(regs), allowed, done) && limit == MaxAllowed(allowed, done, |regs|)
        invariant running == old(running) && isGranting == old(isGranting)
        invariant backgroundRunning == old(backgroundRunning)
        decreases |todo|
      {
        var r :| r in todo;
        var answer := allowed(r);
        RecordOne(old(regs), allowed, done, r);
        MaxAllowedExtends(allowed, done, r, |regs|);
        regs := regs[r := regs[r].(lastAllowed := answer)];
        limit := if answer > limit then answer else limit;
        todo, done := todo - {r}, done + {r};
      }
      assert done == registrations;
    }

    method TrySchedule(r: RegId, own: int, allowed: Allowances) returns (granted: bool)
      requires Valid() && r < |regs|
      modifies this
      ensures Valid()
      ensures (granted, View()) == SchedulerState.TrySchedule(old(View()), r, own, allowed)
    {
      if !regs[r].registered {
        return false;
      }
      if isGranting {
        regs := regs[r := MarkWaiting(regs[r])];
        return false;
      }
      regs := regs[r := regs[r].(lastAllowed := own)];
      if regs[r].running < own {
        var limit := GlobalLimitLocked(allowed);
        if running < limit {
          regs := regs[r := regs[r].(running := regs[r].running + 1)];
          running := running + 1;
          regs := regs[r := regs[r].(live := regs[r].live + 1)];
          return true;
        }
      }
      regs := regs[r := MarkWaiting(regs[r])];
      return false;
    }

    method UpdateGetAllowedWithoutPermission(r: RegId, own: int) returns (pokes: bool)
      requires Valid() && r < |regs|
      modifies this
      ensures Valid() && View() == UpdateAllowed(old(View()), r, own)
      ensures pokes == (old(regs[r].registered) && own > old(regs[r].lastAllowed))
    {
      pokes := false;
      if regs[r].registered {
        pokes := own > regs[r].lastAllowed;
        regs := regs[r := regs[r].(lastAllowed := own)];
      }
    }

    method Done(r: RegId)
      requires Valid() && r < |regs| && regs[r].live > 0
      modifies this
      ensures Valid() && View() == SchedulerState.Done(old(View()), r)
    {
      regs := regs[r := regs[r].(running := regs[r].running - 1, live := regs[r].live - 1)];
      running := running - 1;
    }

    method NoteNegativeAnswer(r: RegId, asked: nat)
      requires Valid() && r < |regs|
      modifies this
      ensures Valid() && View() == NegativeAnswer(old(View()), r, asked)
    {
      if regs[r].generation % GENERATIONS == asked % GENERATIONS {
        regs := regs[r := regs[r].(waiting := false)];
      }
    }

    /**
     Asks exactly the eligible registrations and picks an answer that no other answer beats; a "no" ends the waiting.
     */
    method BestCandidateLocked(answers: Answers) returns (best: Option<Offer>)
      requires Valid()
      modifies this
      ensures Valid() && View() == AfterScan(old(View()), answers, old(registrations))
      ensures best.Some? ==> BestOf(old(View()), answers, best.value)
      ensures best.None? ==> Polled(old(View()), answers, old(registrations)) == map[]
    {
      best := None;
      ghost var s := View();
      ghost var done: set<RegId> := {};
      var polled: map<RegId, WaitingInfo> := map[];
      var todo := registrations;
      NothingScanned(s, answers);
      while todo != {}
        invariant done == registrations - todo && todo <= registrations && Valid()
        invariant View() == AfterScan(s, answers, done) && polled == Polled(s, answers, done)
        invariant BestSoFar(s, polled, best)
        decreases |todo|
      {
        var r :| r in todo;
        ScanStep(s, answers, done, r);
        if regs[r].waiting && regs[r].running < regs[r].lastAllowed {
          var generation := regs[r].generation;
          var (waiting, info) := answers(r);
          if waiting {
            BetterSoFar(s, polled, best, r, info);
            polled := polled[r := info];
            if best.None? || HigherPriority(info, best.value.polled[best.value.reg]) {
              best := Some(Offer(r, generation, polled));
            } else {
              best := Some(best.value.(polled := polled));
            }
          } else {
            NoteNegativeAnswer(r, generation);
          }
        }
        todo, done := todo - {r}, done + {r};
      }
      assert done == registrations;
    }

    /** Calls the chosen DB's Schedule; an accepted grant is counted, a refused one ends that registration's waiting. */
    method MakeOffer(o: Offer, accepted: bool)
      requires Valid() && o.reg < |regs|
      modifies this
      ensures Valid() && View() == AfterOffer(old(View()), o, accepted)
    {
      if accepted {
        regs := regs[o.reg := regs[o.reg].(running := regs[o.reg].running + 1, live := regs[o.reg].live + 1)];
        running := running + 1;
      } else {
        NoteNegativeAnswer(o.reg, o.generation);
      }
    }

    /**
     A grant pass that no other thread disturbs, with fixed allowances and any answers: it ends, every offer went
     to a best answer of its scan, and it stops at the limit or when everyone asked says no.
     */
    method TryGrant(allowed: Allowances, scans: nat -> Answers, accepts: nat -> bool) returns (offers: seq<Offer>)
      requires Valid() && !isGranting
      modifies this
      ensures Valid() && AllBest(old(View()), allowed, scans, accepts, offers)
      ensures EndsIn(old(View()), allowed, scans, accepts, offers, View())
      ensures running <= Max(old(running), Limit(old(View()), allowed))
      ensures running - SumRunning(regs) == old(running) - SumRunning(old(regs))
    {
      offers := [];
      ghost var s0 := View();
      ghost var limit := Limit(s0, allowed);
      isGranting := true;
      PassReads(s0, View(), limit, allowed);
      var l := GlobalLimitLocked(allowed);
      while running < l
        invariant Valid() && isGranting && l == limit
        invariant View() == AtScan(s0, allowed, scans, accepts, offers)
        invariant PassState(s0, View(), limit) && AllBest(s0, allowed, scans, accepts, offers)
        decreases limit - running + |WaitingSet(View())|
      {
        ghost var s := View();
        var n := |offers|;
        var best := BestCandidateLocked(scans(n));
        PassScans(s0, s, scans(n), limit);
        if best.None? {
          break;
        }
        MakeOffer(best.value, accepts(n));
        PassOffers(s0, s, scans(n), limit, best.value, accepts(n));
        PassReads(s0, View(), limit, allowed);
        l := GlobalLimitLocked(allowed);
        OneMoreOffer(s0, allowed, scans, accepts, offers, best.value);
        offers := offers + [best.value];
      }
      isGranting := false;
    }
  }

  // ----- One scan -----

  lemma NothingScanned(s: Shared, answers: Answers)
    ensures AfterScan(s, answers, {}) == s && Polled(s, answers, {}) == map[]
  {
  }

  /** Asking one more registration, which the others have left as it was. */
  lemma ScanStep(s: Shared, answers: Answers, done: set<RegId>, r: RegId)
    requires r < |s.regs| && r !in done
    ensures AfterScan(s, answers, done).regs[r] == s.regs[r]
    ensures AfterScan(s, answers, done + {r}) ==
      if Eligible(s, r) && !answers(r).0 then NegativeAnswer(AfterScan(s, answers, done), r, s.regs[r].generation)
      else AfterScan(s, answers, done)
    ensures Polled(s, answers, done + {r}) ==
      if Eligible(s, r) && answers(r).0 then Polled(s, answers, done)[r := answers(r).1] else Polled(s, answers, done)
  {
  }

  /** `best` is the best of the answers so far. */
  ghost predicate BestSoFar(s: Shared, polled: map<RegId, WaitingInfo>, best: Option<Offer>) {
    && (best.None? ==> polled == map[])
    && (best.Some? ==>
          && best.value.polled == polled && IsBest(best.value)
          && best.value.reg < |s.regs| && best.value.generation == s.regs[best.value.reg].generation)
  }

  lemma BetterSoFar(s: Shared, polled: map<RegId, WaitingInfo>, best: Option<Offer>, r: RegId, info: WaitingInfo)
    requires BestSoFar(s, polled, best) && r < |s.regs| && r !in polled
    ensures var polled' := polled[r := info];
      BestSoFar(s, polled',
                if best.None? || HigherPriority(info, best.value.polled[best.value.reg])
                then Some(Offer(r, s.regs[r].generation, polled'))
                else Some(best.value.(polled := polled')))
  {
    var polled' := polled[r := info];
    if best.Some? && HigherPriority(info, best.value.polled[best.value.reg]) {
      forall q | q in polled'
        ensures !HigherPriority(polled'[q], info)
      {
        if q != r {
          HigherPriorityIsStrictWeakOrder(polled[q], info, polled[best.value.reg]);
        }
      }
    }
  }

  // ----- One pass -----

  /** Where a pass that started in `s0` can be at its loop head. */
  ghost predicate PassState(s0: Shared, s: Shared, limit: int) {
    && s.registrations == s0.registrations && |s.regs| == |s0.regs|
    && s.running <= Max(s0.running, limit)
    && s.running - SumRunning(s.regs) == s0.running - SumRunning(s0.regs)
  }

  lemma PassReads(s0: Shared, s: Shared, limit: int, allowed: Allowances)
    requires PassState(s0, s, limit) && limit == Limit(s0, allowed)
    ensures PassState(s0, ReadLimits(s, allowed), limit) && Limit(s, allowed) == limit
    ensures |WaitingSet(ReadLimits(s, allowed))| == |WaitingSet(s)|
  {
    var s' := ReadLimits(s, allowed);
    SumAgrees(s.regs, s'.regs);
    assert WaitingSet(s') == WaitingSet(s);
  }

  lemma PassScans(s0: Shared, s: Shared, answers: Answers, limit: int)
    requires PassState(s0, s, limit)
    ensures var s' := AfterScan(s, answers, s.registrations);
      PassState(s0, s', limit) && |WaitingSet(s')| <= |WaitingSet(s)|
  {
    var s' := AfterScan(s, answers, s.registrations);
    SumAgrees(s.regs, s'.regs);
    SubsetSize(WaitingSet(s'), WaitingSet(s));
  }

  /**
   An offer to a waiting registration, asked in its present generation, uses up one running slot or one waiting
   registration.
   */
  lemma OfferUsesUp(s: Shared, o: Offer, accepted: bool)
    requires o.reg in WaitingSet(s) && o.generation == s.regs[o.reg].generation
    ensures var s' := AfterOffer(s, o, accepted);
      && s'.registrations == s.registrations && s'.running == s.running + (if accepted then 1 else 0)
      && s'.running - SumRunning(s'.regs) == s.running - SumRunning(s.regs)
      && |WaitingSet(s')| == |WaitingSet(s)| - (if accepted then 0 else 1)
  {
    var s' := AfterOffer(s, o, accepted);
    assert s'.regs == s.regs[o.reg := s'.regs[o.reg]];
    SumUpdate(s.regs, o.reg, s'.regs[o.reg]);
    if accepted {
      assert WaitingSet(s') == WaitingSet(s);
    } else {
      assert WaitingSet(s') == WaitingSet(s) - {o.reg};
    }
  }

  lemma BestIsWaiting(s: Shared, answers: Answers, o: Offer)
    requires BestOf(s, answers, o)
    ensures var scanned := AfterScan(s, answers, s.registrations);
      o.reg in WaitingSet(scanned) && o.generation == scanned.regs[o.reg].generation
  {
    assert o.reg in Polled(s, answers, s.registrations);
  }

  lemma PassOffers(s0: Shared, s: Shared, answers: Answers, limit: int, o: Offer, accepted: bool)
    requires PassState(s0, s, limit) && BestOf(s, answers, o) && s.running < limit
    ensures var s' := AfterOffer(AfterScan(s, answers, s.registrations), o, accepted);
      && PassState(s0, s', limit)
      && limit - s'.running + |WaitingSet(s')| < limit - s.running + |WaitingSet(s)|
  {
    PassScans(s0, s, answers, limit);
    BestIsWaiting(s, answers, o);
    OfferUsesUp(AfterScan(s, answers, s.registrations), o, accepted);
  }

  lemma BestAtExtends(s0: Shared, allowed: Allowances, scans: nat -> Answers, accepts: nat -> bool, offers: seq<Offer>,
                      o: Offer, i: nat)
    requires i < |offers| && BestAt(s0, allowed, scans, accepts, offers, i)
    ensures BestAt(s0, allowed, scans, accepts, offers + [o], i)
  {
    assert (offers + [o])[..i] == offers[..i];
  }

  lemma OneMoreOffer(s0: Shared, allowed: Allowances, scans: nat -> Answers, accepts: nat -> bool, offers: seq<Offer>,
                     o: Offer)
    requires AllBest(s0, allowed, scans, accepts, offers)
    requires BestOf(AtScan(s0, allowed, scans, accepts, offers), scans(|offers|), o)
    requires AtScan(s0, allowed, scans, accepts, offers).running < Limit(s0, allowed)
    ensures AllBest(s0, allowed, scans, accepts, offers + [o])
    ensures var s, n := AtScan(s0, allowed, scans, accepts, offers), |offers|;
      AtScan(s0, allowed, scans, accepts, offers + [o]) ==
        ReadLimits(AfterOffer(AfterScan(s, scans(n), s.registrations), o, accepts(n)), allowed)
  {
    assert (offers + [o])[..|offers|] == offers;
    forall i | 0 <= i < |offers|
      ensures BestAt(s0, allowed, scans, accepts, offers + [o], i)
    {
      BestAtExtends(s0, allowed, scans, accepts, offers, o, i);
    }
    assert BestAt(s0, allowed, scans, accepts, offers + [o], |offers|);
  }

  lemma SubsetSize(a: set<RegId>, b: set<RegId>)
    requires a <= b
    ensures |a| <= |b|
  {
    assert b == a + (b - a);
  }
}
