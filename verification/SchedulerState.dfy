/**
 The state that the coordinator mutex of pebble/compaction.go protects, and the effect of each of
 its critical sections on it. A registration is named by its position in `regs`, which lists every
 registration ever created by NewScheduler. Answers of the registered DBs are parameters.

 Two fields of a registration are history, not code: `live` (grants handed to the DB and not yet Done)
 and `call` (the Register or Unregister call its one owner is in). `generation` counts all refusals; the
 code's waitingGeneration is its value modulo 2^64.
 */
module SchedulerState {
  import opened Common

  /** waitingGeneration is a uint64: generations are compared modulo this. */
  const GENERATIONS: nat := 0x1_0000_0000_0000_0000

  type RegId = nat

  /** One answer per registration: GetAllowedWithoutPermission of its DB. */
  type Allowances = RegId -> int

  datatype WaitingInfo = WaitingInfo(optional: bool, priority: int, score: real)

  datatype Call = NoCall | Registering | Unregistering

  datatype Registration = Registration(
    hasDb: bool,
    registered: bool,
    running: int,
    waiting: bool,
    generation: nat,
    lastAllowed: int,
    call: Call,
    live: nat)

  const FRESH := Registration(false, false, 0, false, 0, 0, NoCall, 0)

  datatype Shared = Shared(
    regs: seq<Registration>,
    registrations: set<RegId>,
    running: int,
    isGranting: bool,
    backgroundRunning: bool)

  const EMPTY := Shared([], {}, 0, false, false)

  // ----- Priorities -----

  /** Required before optional, then higher priority, then higher score. */
  predicate HigherPriority(a: WaitingInfo, b: WaitingInfo) {
    if a.optional != b.optional then !a.optional
    else if a.priority != b.priority then a.priority > b.priority
    else a.score > b.score
  }

  /** HigherPriority is a strict weak order: the best of a scan does not depend on the scan's order. */
  lemma HigherPriorityIsStrictWeakOrder(a: WaitingInfo, b: WaitingInfo, c: WaitingInfo)
    ensures !HigherPriority(a, a)
    ensures HigherPriority(a, b) ==> !HigherPriority(b, a)
    ensures HigherPriority(a, b) && HigherPriority(b, c) ==> HigherPriority(a, c)
    ensures !HigherPriority(a, b) && !HigherPriority(b, c) ==> !HigherPriority(a, c)
  {
  }

  // ----- Limits -----

  /** The largest allowance among the registrations below `n`, at least 0. */
  function MaxAllowed(allowed: Allowances, ids: set<RegId>, n: nat): (limit: nat)
  {
    if n == 0 then 0
    else
      var rest := MaxAllowed(allowed, ids, n - 1);
      if n - 1 in ids && allowed(n - 1) > rest then allowed(n - 1) else rest
  }

  /** What a running maximum over `ids` in any order arrives at. */
  ghost predicate IsLimit(limit: int, allowed: Allowances, ids: set<RegId>) {
    && 0 <= limit
    && (forall r :: r in ids ==> allowed(r) <= limit)
    && (limit == 0 || exists r :: r in ids && allowed(r) == limit)
  }

  lemma {:induction false} MaxAllowedIsLimit(allowed: Allowances, ids: set<RegId>, n: nat)
    requires forall r :: r in ids ==> r < n
    ensures IsLimit(MaxAllowed(allowed, ids, n), allowed, ids)
  {
    if n > 0 {
      var below := ids - {n - 1};
      MaxAllowedIsLimit(allowed, below, n - 1);
      MaxAllowedIgnores(allowed, ids, n - 1);
      var limit := MaxAllowed(allowed, ids, n);
      if n - 1 in ids && allowed(n - 1) == limit {
      } else if limit != 0 {
        var r :| r in below && allowed(r) == limit;
        assert r in ids;
      }
    }
  }

  lemma {:induction false} MaxAllowedIgnores(allowed: Allowances, ids: set<RegId>, n: nat)
    ensures MaxAllowed(allowed, ids, n) == MaxAllowed(allowed, ids - {n}, n)
  {
    MaxAllowedDependsBelow(allowed, ids, ids - {n}, n);
  }

  lemma {:induction false} MaxAllowedDependsBelow(allowed: Allowances, ids: set<RegId>, ids': set<RegId>, n: nat)
    requires forall r :: r < n ==> (r in ids <==> r in ids')
    ensures MaxAllowed(allowed, ids, n) == MaxAllowed(allowed, ids', n)
  {
    if n > 0 {
      MaxAllowedDependsBelow(allowed, ids, ids', n - 1);
    }
  }

  /** The node-wide limit: the maximum allowance of the registered DBs. */
  function Limit(s: Shared, allowed: Allowances): (limit: nat) {
    MaxAllowed(allowed, s.registrations, |s.regs|)
  }

  /** Taking the maximum with one more answer extends the limit by that registration, whatever the order. */
  lemma {:induction false} MaxAllowedExtends(allowed: Allowances, ids: set<RegId>, r: RegId, n: nat)
    requires r < n
    ensures MaxAllowed(allowed, ids + {r}, n) == Max(MaxAllowed(allowed, ids, n), allowed(r))
  {
    if r == n - 1 {
      MaxAllowedDependsBelow(allowed, ids, ids + {r}, n - 1);
    } else {
      MaxAllowedExtends(allowed, ids, r, n - 1);
    }
  }

  lemma {:induction false} MaxAllowedOfNone(allowed: Allowances, n: nat)
    ensures MaxAllowed(allowed, {}, n) == 0
  {
    if n > 0 {
      MaxAllowedOfNone(allowed, n - 1);
    }
  }

  /** The registrations with the allowances of `ids` recorded. */
  function Record(regs: seq<Registration>, allowed: Allowances, ids: set<RegId>): (regs': seq<Registration>)
    ensures |regs'| == |regs|
  {
    seq(|regs|, i requires 0 <= i < |regs| =>
      if i in ids then regs[i].(lastAllowed := allowed(i)) else regs[i])
  }

  lemma RecordNone(regs: seq<Registration>, allowed: Allowances)
    ensures Record(regs, allowed, {}) == regs
  {
  }

  lemma RecordOne(regs: seq<Registration>, allowed: Allowances, ids: set<RegId>, r: RegId)
    requires r < |regs|
    ensures var before := Record(regs, allowed, ids);
      before[r := before[r].(lastAllowed := allowed(r))] == Record(regs, allowed, ids + {r})
  {
  }

  /** globalLimitLocked also records every answer it read. */
  function ReadLimits(s: Shared, allowed: Allowances): (s': Shared)
    ensures |s'.regs| == |s.regs|
  {
    s.(regs := Record(s.regs, allowed, s.registrations))
  }

  // ----- Critical sections -----

  function MarkWaiting(r: Registration): Registration {
    r.(waiting := true, generation := r.generation + 1)
  }

  function SetReg(s: Shared, r: RegId, reg: Registration): Shared
    requires r < |s.regs|
  {
    s.(regs := s.regs[r := reg])
  }

  /** One more running compaction for `r`. */
  function CountGrant(s: Shared, r: RegId): Shared
    requires r < |s.regs|
  {
    SetReg(s, r, s.regs[r].(running := s.regs[r].running + 1)).(running := s.running + 1)
  }

  function FinishRegister(s: Shared, r: RegId): Shared
    requires r < |s.regs|
  {
    SetReg(s, r, s.regs[r].(hasDb := true, registered := true, call := NoCall))
      .(registrations := s.registrations + {r}, backgroundRunning := true)
  }

  function FinishUnregister(s: Shared, r: RegId): Shared
    requires r < |s.regs|
  {
    SetReg(s, r, s.regs[r].(registered := false, call := NoCall)).(registrations := s.registrations - {r})
  }

  /** The first allowance read by TrySchedule is `own`; the limit loop then reads `allowed`. */
  function TrySchedule(s: Shared, r: RegId, own: int, allowed: Allowances): (res: (bool, Shared))
    requires r < |s.regs|
    ensures |res.1.regs| == |s.regs|
  {
    var reg := s.regs[r];
    if !reg.registered then (false, s)
    else if s.isGranting then (false, SetReg(s, r, MarkWaiting(reg)))
    else
      var s1 := SetReg(s, r, reg.(lastAllowed := own));
      if reg.running >= own then (false, SetReg(s1, r, MarkWaiting(s1.regs[r])))
      else
        var s2 := ReadLimits(s1, allowed);
        if s.running < Limit(s1, allowed) then
          var s3 := CountGrant(s2, r);
          (true, SetReg(s3, r, s3.regs[r].(live := s3.regs[r].live + 1)))
        else (false, SetReg(s2, r, MarkWaiting(s2.regs[r])))
  }

  /** Two states of a registration that differ at most in the recorded allowance. */
  predicate SameButAllowance(a: Registration, b: Registration) {
    b == a.(lastAllowed := b.lastAllowed)
  }

  /**
   TrySchedule grants one compaction to `r`, or marks `r` waiting, or does nothing; the rest of the state
   keeps all but recorded allowances.
   */
  lemma TryScheduleEffect(s: Shared, r: RegId, own: int, allowed: Allowances)
    requires r < |s.regs|
    ensures var (granted, s') := TrySchedule(s, r, own, allowed);
      && |s'.regs| == |s.regs|
      && s' == s.(regs := s'.regs, running := s.running + if granted then 1 else 0)
      && (forall i :: 0 <= i < |s.regs| && i != r ==> SameButAllowance(s.regs[i], s'.regs[i]))
      && SameButAllowance(
           if granted then s.regs[r].(running := s.regs[r].running + 1, live := s.regs[r].live + 1)
           else if s.regs[r].registered then MarkWaiting(s.regs[r])
           else s.regs[r],
           s'.regs[r])
      && (granted ==> s.regs[r].registered && !s.isGranting && s.regs[r].running < own && s.running < Limit(s, allowed))
  {
  }

  function UpdateAllowed(s: Shared, r: RegId, own: int): Shared
    requires r < |s.regs|
  {
    if s.regs[r].registered then SetReg(s, r, s.regs[r].(lastAllowed := own)) else s
  }

  function Done(s: Shared, r: RegId): Shared
    requires r < |s.regs| && s.regs[r].live > 0
  {
    SetReg(s, r, s.regs[r].(running := s.regs[r].running - 1, live := s.regs[r].live - 1))
      .(running := s.running - 1)
  }

  /** Generations that the code cannot tell apart. */
  predicate SameGeneration(a: nat, b: nat) {
    a % GENERATIONS == b % GENERATIONS
  }

  /** A negative answer to a question asked at generation `asked` clears `waiting` unless the generation has changed. */
  function NegativeAnswer(s: Shared, r: RegId, asked: nat): Shared
    requires r < |s.regs|
  {
    if SameGeneration(s.regs[r].generation, asked) then SetReg(s, r, s.regs[r].(waiting := false)) else s
  }

  predicate Eligible(s: Shared, r: RegId)
    requires r < |s.regs|
  {
    s.regs[r].waiting && s.regs[r].running < s.regs[r].lastAllowed
  }

  // ----- Sums over all registrations ever created -----

  function SumRunning(regs: seq<Registration>): int {
    if |regs| == 0 then 0 else regs[0].running + SumRunning(regs[1..])
  }

  function SumLive(regs: seq<Registration>): nat {
    if |regs| == 0 then 0 else regs[0].live + SumLive(regs[1..])
  }

  lemma {:induction false} SumUpdate(regs: seq<Registration>, i: nat, reg: Registration)
    requires i < |regs|
    ensures SumRunning(regs[i := reg]) == SumRunning(regs) - regs[i].running + reg.running
    ensures SumLive(regs[i := reg]) == SumLive(regs) - regs[i].live + reg.live
  {
    if i > 0 {
      SumUpdate(regs[1..], i - 1, reg);
      assert regs[i := reg][1..] == regs[1..][i - 1 := reg];
    } else {
      assert regs[0 := reg][1..] == regs[1..];
    }
  }

  lemma {:induction false} SumAppend(regs: seq<Registration>, reg: Registration)
    ensures SumRunning(regs + [reg]) == SumRunning(regs) + reg.running
    ensures SumLive(regs + [reg]) == SumLive(regs) + reg.live
  {
    if |regs| > 0 {
      SumAppend(regs[1..], reg);
      assert (regs + [reg])[1..] == regs[1..] + [reg];
    } else {
      assert regs + [reg] == [reg];
    }
  }

  lemma {:induction false} SumAgrees(a: seq<Registration>, b: seq<Registration>)
    requires |a| == |b|
    requires forall i :: 0 <= i < |a| ==> a[i].running == b[i].running && a[i].live == b[i].live
    ensures SumRunning(a) == SumRunning(b) && SumLive(a) == SumLive(b)
  {
    if |a| > 0 {
      SumAgrees(a[1..], b[1..]);
    }
  }
}
