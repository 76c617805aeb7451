/**
 The double-buffered proposal queue as a value, and what holds over every run of it. Its methods hold one mutex, so a
 run is a sequence of calls.
 */
module EntryQueueSpec {
  import opened Common
  import opened Wire

  datatype Entry = Entry(id: nat, cmd: Option<bytes>)

  const BLANK := Entry(0, None)

  /** `left` and `right` have `size` slots each; `idx` entries are pending in the one that is written. */
  datatype Queue = Queue(
    size: nat,
    left: seq<Entry>,
    right: seq<Entry>,
    leftInWrite: bool,
    stopped: bool,
    paused: bool,
    idx: nat,
    oldIdx: nat,
    cycle: uint64,
    lazyFreeCycle: uint64)
  {
    function Target(): seq<Entry> {
      if leftInWrite then left else right
    }

    function Other(): seq<Entry> {
      if leftInWrite then right else left
    }

    ghost predicate Valid() {
      |left| == size && |right| == size && idx <= size && oldIdx <= size
    }

    function WithTarget(s: seq<Entry>): Queue {
      if leftInWrite then this.(left := s) else this.(right := s)
    }

    /** What has been added and not yet taken. */
    function Pending(): seq<Entry>
      requires idx <= |Target()|
    {
      Target()[..idx]
    }
  }

  function New(size: nat, lazyFreeCycle: uint64): (q: Queue)
    ensures q.Valid() && InPhase(q) && Clean(q)
  {
    var blank := seq(size, i => BLANK);
    Queue(size, blank, blank, false, false, false, 0, 0, 0, lazyFreeCycle)
  }

  predicate Accepts(q: Queue) {
    !q.paused && q.idx < q.size && !q.stopped
  }

  function Added(q: Queue, e: Entry): Queue
    requires q.Valid()
  {
    if Accepts(q) then q.WithTarget(q.Target()[q.idx := e]).(idx := q.idx + 1) else q
  }

  /** The first `n` slots without their commands. */
  function Cleared(s: seq<Entry>, n: nat): (r: seq<Entry>)
    requires n <= |s|
    ensures |r| == |s| && forall i :: 0 <= i < |s| ==> r[i] == if i < n then s[i].(cmd := None) else s[i]
  {
    seq(|s|, i requires 0 <= i < |s| => if i < n then s[i].(cmd := None) else s[i])
  }

  /** How many slots of the new write buffer a get clears. */
  function ClearCount(q: Queue): nat {
    if q.lazyFreeCycle == 0 then 0
    else if q.lazyFreeCycle == 1 then q.oldIdx
    else if q.cycle % q.lazyFreeCycle == 0 then q.size
    else 0
  }

  function Swapped(q: Queue, paused: bool): Queue {
    q.(paused := paused, cycle := (q.cycle + 1) % TWO_64, idx := 0, leftInWrite := !q.leftInWrite)
  }

  function Got(q: Queue, paused: bool): Queue
    requires q.Valid()
  {
    var s := Swapped(q, paused);
    s.WithTarget(Cleared(s.Target(), ClearCount(s))).(oldIdx := q.idx)
  }

  // ----- Runs -----

  datatype Call = Add(entry: Entry) | Get(paused: bool) | Close

  function Step(q: Queue, c: Call): (q': Queue)
    requires q.Valid()
    ensures q'.Valid() && q'.size == q.size && q'.lazyFreeCycle == q.lazyFreeCycle
  {
    match c
    case Add(e) => Added(q, e)
    case Get(paused) => Got(q, paused)
    case Close => q.(stopped := true)
  }

  function Run(q: Queue, calls: seq<Call>): (q': Queue)
    requires q.Valid()
    ensures q'.Valid() && q'.size == q.size && q'.lazyFreeCycle == q.lazyFreeCycle
    decreases |calls|
  {
    if |calls| == 0 then q else Run(Step(q, calls[0]), calls[1..])
  }

  /** The entries that add accepted, in order. */
  function Accepted(q: Queue, calls: seq<Call>): seq<Entry>
    requires q.Valid()
    decreases |calls|
  {
    if |calls| == 0 then []
    else (if calls[0].Add? && Accepts(q) then [calls[0].entry] else []) + Accepted(Step(q, calls[0]), calls[1..])
  }

  /** The entries that the gets returned, in order. */
  function Taken(q: Queue, calls: seq<Call>): seq<Entry>
    requires q.Valid()
    decreases |calls|
  {
    if |calls| == 0 then []
    else (if calls[0].Get? then q.Pending() else []) + Taken(Step(q, calls[0]), calls[1..])
  }

  lemma StepPending(q: Queue, c: Call)
    requires q.Valid()
    ensures Step(q, c).Pending() ==
      match c
      case Add(e) => q.Pending() + (if Accepts(q) then [e] else [])
      case Get(_) => []
      case Close => q.Pending()
  {
  }

  lemma Regroup(a: seq<Entry>, b: seq<Entry>, c: seq<Entry>)
    ensures a + (b + c) == (a + b) + c && a + [] == a && [] + a == a
  {
  }

  /**
   Nothing is lost, invented, doubled or reordered: what was pending and accepted is what was taken and what is
   pending.
   */
  lemma {:induction false} Conservation(q: Queue, calls: seq<Call>)
    requires q.Valid()
    ensures q.Pending() + Accepted(q, calls) == Taken(q, calls) + Run(q, calls).Pending()
    decreases |calls|
  {
    if |calls| == 0 {
      Regroup(q.Pending(), [], []);
    } else {
      var c, q', rest := calls[0], Step(q, calls[0]), calls[1..];
      StepPending(q, c);
      Conservation(q', rest);
      var accepted, taken, left := Accepted(q', rest), Taken(q', rest), Run(q', rest).Pending();
      Regroup(accepted, [], []);
      Regroup(taken, [], []);
      match c
      case Add(e) => Regroup(q.Pending(), if Accepts(q) then [e] else [], accepted);
      case Get(_) => Regroup(q.Pending(), taken, left);
      case Close =>
    }
  }

  lemma ConservationFromNew(size: nat, lazyFreeCycle: uint64, calls: seq<Call>)
    ensures var q := New(size, lazyFreeCycle); Accepted(q, calls) == Taken(q, calls) + Run(q, calls).Pending()
  {
    var q := New(size, lazyFreeCycle);
    Conservation(q, calls);
    assert q.Pending() == [];
    Regroup(Accepted(q, calls), [], []);
  }

  /** What a get returned stays as it is until the next get. */
  lemma {:induction false} ReturnedSliceIsStable(q: Queue, paused: bool, calls: seq<Call>)
    requires q.Valid() && forall i :: 0 <= i < |calls| ==> !calls[i].Get?
    ensures var q' := Run(Got(q, paused), calls); q'.Other()[..q.idx] == q.Pending() && q'.leftInWrite == !q.leftInWrite
  {
    OtherIsStable(Got(q, paused), calls);
  }

  lemma {:induction false} OtherIsStable(q: Queue, calls: seq<Call>)
    requires q.Valid() && forall i :: 0 <= i < |calls| ==> !calls[i].Get?
    ensures Run(q, calls).Other() == q.Other() && Run(q, calls).leftInWrite == q.leftInWrite
    decreases |calls|
  {
    if |calls| > 0 {
      OtherIsStable(Step(q, calls[0]), calls[1..]);
    }
  }

  // ----- Lazy clearing -----

  /** `left` is written exactly in odd cycles. */
  ghost predicate InPhase(q: Queue) {
    q.leftInWrite <==> q.cycle % 2 == 1
  }

  lemma {:induction false} StaysInPhase(q: Queue, calls: seq<Call>)
    requires q.Valid() && InPhase(q)
    ensures InPhase(Run(q, calls))
    decreases |calls|
  {
    if |calls| > 0 {
      StaysInPhase(Step(q, calls[0]), calls[1..]);
    }
  }

  ghost predicate NilFrom(s: seq<Entry>, n: nat) {
    forall i :: n <= i < |s| ==> s[i].cmd.None?
  }

  /** Slots beyond the live entries hold no command. */
  ghost predicate Clean(q: Queue) {
    NilFrom(q.Target(), q.idx) && NilFrom(q.Other(), q.oldIdx)
  }

  lemma StepKeepsClean(q: Queue, c: Call)
    requires q.Valid() && Clean(q) && q.lazyFreeCycle == 1
    ensures Clean(Step(q, c)) && (c.Get? ==> NilFrom(Step(q, c).Target(), 0))
  {
  }

  /**
   With a cycle of one, slots beyond the live entries never hold a command, and after a get the write buffer holds none
   at all.
   */
  lemma {:induction false} EagerClearing(q: Queue, calls: seq<Call>)
    requires q.Valid() && Clean(q) && q.lazyFreeCycle == 1
    ensures Clean(Run(q, calls))
    ensures |calls| > 0 && calls[|calls| - 1].Get? ==> NilFrom(Run(q, calls).Target(), 0)
    decreases |calls|
  {
    if |calls| > 0 {
      StepKeepsClean(q, calls[0]);
      EagerClearing(Step(q, calls[0]), calls[1..]);
    }
  }

  function Gets(calls: seq<Call>): nat {
    if |calls| == 0 then 0 else (if calls[0].Get? then 1 else 0) + Gets(calls[1..])
  }

  lemma SwappedPhase(q: Queue, paused: bool)
    requires InPhase(q)
    ensures InPhase(Swapped(q, paused))
  {
  }

  /** A get at which the whole new write buffer is cleared. */
  lemma GetClears(q: Queue, paused: bool)
    requires q.Valid() && InPhase(q) && q.lazyFreeCycle > 1
    ensures var c := Got(q, paused).cycle;
      c % q.lazyFreeCycle == 0 ==> NilFrom(if c % 2 == 1 then Got(q, paused).left else Got(q, paused).right, 0)
  {
    SwappedPhase(q, paused);
  }

  lemma StepPhase(q: Queue, c: Call)
    requires q.Valid() && InPhase(q)
    ensures InPhase(Step(q, c))
    ensures Step(q, c).cycle == if !c.Get? then q.cycle else if q.cycle + 1 < TWO_64 then q.cycle + 1 else 0
  {
  }

  /** Cycle `c` is among the `n` that follow on `cycle`, before or after the counter wraps around. */
  predicate Follows(cycle: uint64, n: nat, c: uint64, wrapped: bool) {
    if wrapped then TWO_64 + c <= cycle + n else cycle < c <= cycle + n
  }

  /** The get that moves the queue to a given cycle. */
  lemma {:induction false} ReachCycle(q: Queue, calls: seq<Call>, c: uint64, wrapped: bool) returns (k: nat)
    requires q.Valid() && InPhase(q) && Follows(q.cycle, Gets(calls), c, wrapped)
    ensures k < |calls| && calls[k].Get? && InPhase(Run(q, calls[..k]))
    ensures Run(q, calls[..k + 1]) == Step(Run(q, calls[..k]), calls[k]) && Run(q, calls[..k + 1]).cycle == c
    decreases |calls|
  {
    var q' := Step(q, calls[0]);
    StepPhase(q, calls[0]);
    if calls[0].Get? && c == q'.cycle && (wrapped <==> c == 0) {
      k := 0;
      assert calls[..1][1..] == [];
    } else {
      var k' := ReachCycle(q', calls[1..], c, wrapped && !(calls[0].Get? && q'.cycle == 0));
      k := k' + 1;
      assert calls[..k][1..] == calls[1..][..k'];
      assert calls[..k + 1][1..] == calls[1..][..k' + 1];
    }
  }

  lemma DivisionIsUnique(x: nat, n: nat, q: nat, r: nat)
    requires n > 0 && x == n * q + r && r < n
    ensures x % n == r
  {
    var d := x / n - q;
    assert n * d == r - x % n;
    assert d >= 1 ==> n * d >= n;
    assert d <= -1 ==> n * d + n <= 0;
  }

  lemma MultipleAbove(c: nat, n: nat) returns (m: nat)
    requires n > 0
    ensures c < m <= c + n && m % n == 0 && (m + n) % n == 0
  {
    var q := c / n;
    m := n * q + n;
    assert n * (q + 1) == n * q + n;
    assert n * (q + 2) == n * (q + 1) + n;
    DivisionIsUnique(m, n, q + 1, 0);
    DivisionIsUnique(m + n, n, q + 2, 0);
  }

  /** Among 2n consecutive numbers, for odd n, there are multiples of n of either parity. */
  lemma Multiples(c: nat, n: nat) returns (odd: nat, even: nat)
    requires n % 2 == 1
    ensures c < odd <= c + 2 * n && odd % n == 0 && odd % 2 == 1
    ensures c < even <= c + 2 * n && even % n == 0 && even % 2 == 0
  {
    var m := MultipleAbove(c, n);
    if m % 2 == 1 {
      odd, even := m, m + n;
    } else {
      odd, even := m + n, m;
    }
  }

  /** In a cycle that the setting divides, the buffer then written is wholly cleared. */
  lemma ClearedAt(q: Queue, calls: seq<Call>, c: uint64, wrapped: bool) returns (k: nat)
    requires q.Valid() && InPhase(q) && q.lazyFreeCycle > 1 && Follows(q.cycle, Gets(calls), c, wrapped)
    requires c % q.lazyFreeCycle == 0
    ensures k <= |calls| && NilFrom(if c % 2 == 1 then Run(q, calls[..k]).left else Run(q, calls[..k]).right, 0)
  {
    var i := ReachCycle(q, calls, c, wrapped);
    GetClears(Run(q, calls[..i]), calls[i].paused);
    k := i + 1;
  }

  /** With an odd cycle above one, the right buffer is wholly cleared at some point within any 2n gets. */
  lemma OddCycleClearsRight(q: Queue, calls: seq<Call>) returns (k: nat)
    requires q.Valid() && InPhase(q) && q.lazyFreeCycle > 1 && q.lazyFreeCycle % 2 == 1
    requires Gets(calls) >= 2 * q.lazyFreeCycle
    ensures k <= |calls| && NilFrom(Run(q, calls[..k]).right, 0)
  {
    var odd, even := Multiples(q.cycle, q.lazyFreeCycle);
    if even < TWO_64 {
      k := ClearedAt(q, calls, even, false);
    } else {
      k := ClearedAt(q, calls, 0, true);
    }
  }

  /** None of the next `n` cycles is both odd and a multiple of the setting. */
  ghost predicate NoOddMultiple(q: Queue, n: nat)
    requires q.lazyFreeCycle > 0
  {
    forall c: uint64, wrapped :: Follows(q.cycle, n, c, wrapped) && c % 2 == 1 ==> c % q.lazyFreeCycle != 0
  }

  lemma StepKeepsNoOddMultiple(q: Queue, get: Call, n: nat)
    requires q.Valid() && InPhase(q) && q.lazyFreeCycle > 0 && get.Get? && NoOddMultiple(q, n + 1)
    ensures NoOddMultiple(Step(q, get), n)
  {
    var q' := Step(q, get);
    StepPhase(q, get);
    forall c: uint64, wrapped: bool | Follows(q'.cycle, n, c, wrapped) && c % 2 == 1
      ensures c % q.lazyFreeCycle != 0
    {
      assert q'.cycle == 0 ==> Follows(q.cycle, n + 1, c, true);
      assert q'.cycle != 0 ==> Follows(q.cycle, n + 1, c, wrapped);
    }
  }

  /** A get to a cycle that is not both leaves the left buffer alone. */
  lemma GetKeepsLeft(q: Queue, get: Call, n: nat)
    requires q.Valid() && InPhase(q) && q.lazyFreeCycle > 1 && get.Get? && n > 0 && NoOddMultiple(q, n)
    ensures Step(q, get).left == q.left
  {
    var s := Swapped(q, get.paused);
    StepPhase(q, get);
    SwappedPhase(q, get.paused);
    assert Follows(q.cycle, n, s.cycle, s.cycle == 0);
    if s.cycle % 2 == 1 {
      assert Cleared(s.Target(), 0) == s.Target();
    }
  }

  /** Every entry that is added brings a command. */
  ghost predicate AddsCommands(calls: seq<Call>) {
    forall i :: 0 <= i < |calls| && calls[i].Add? ==> calls[i].entry.cmd.Some?
  }

  lemma AddKeepsCommand(q: Queue, e: Entry)
    requires q.Valid() && e.cmd.Some? && !NilFrom(q.left, 0)
    ensures !NilFrom(Added(q, e).left, 0)
  {
    var i :| 0 <= i < |q.left| && q.left[i].cmd.Some?;
    assert Added(q, e).left[i].cmd.Some?;
  }

  /** A command in the left buffer stays or makes room for another one until the buffer is cleared. */
  lemma {:induction false} LeftKeepsCommand(q: Queue, calls: seq<Call>, k: nat)
    requires q.Valid() && InPhase(q) && q.lazyFreeCycle > 1 && k <= |calls| && NoOddMultiple(q, Gets(calls))
    requires AddsCommands(calls) && !NilFrom(q.left, 0)
    ensures !NilFrom(Run(q, calls[..k]).left, 0)
    decreases k
  {
    if k > 0 {
      var c, q' := calls[0], Step(q, calls[0]);
      StepPhase(q, c);
      if c.Get? {
        GetKeepsLeft(q, c, Gets(calls));
        StepKeepsNoOddMultiple(q, c, Gets(calls) - 1);
      } else if c.Add? {
        AddKeepsCommand(q, c.entry);
      }
      LeftKeepsCommand(q', calls[1..], k - 1);
      assert calls[..k][1..] == calls[1..][..k - 1];
    }
  }

  /** The first odd multiple of `n` above `c`. */
  function NextOddMultiple(c: nat, n: nat): nat
    requires n > 0
  {
    if c < n then n else c + 2 * n - (c - n) % (2 * n)
  }

  lemma MultipliesInOrder(p: nat, a: int, b: int)
    requires a <= b
    ensures p * a <= p * b
  {
  }

  lemma OddMultiple(n: nat, e: nat, m: nat)
    requires n % 2 == 1 && m == n + 2 * n * e
    ensures m % n == 0 && m % 2 == 1
  {
    assert 2 * n * e == n * (2 * e) == 2 * (n * e);
    assert m == n * (2 * e + 1);
    DivisionIsUnique(m, n, 2 * e + 1, 0);
  }

  lemma OddMultipleForm(n: nat, m: nat) returns (e: nat)
    requires n % 2 == 1 && m % n == 0 && m % 2 == 1
    ensures m == n + 2 * n * e
  {
    var h := m / n;
    assert m == n * h;
    e := h / 2;
    assert n * (2 * e) == 2 * (n * e);
    assert n * (2 * e + 1) == 2 * n * e + n;
  }

  lemma NextOddMultipleIsOne(c: nat, n: nat)
    requires n % 2 == 1
    ensures var m := NextOddMultiple(c, n); c < m <= c + 2 * n && m % n == 0 && m % 2 == 1
  {
    if c >= n {
      var p := 2 * n;
      var d := (c - n) / p;
      assert c - n == p * d + (c - n) % p;
      assert p * (d + 1) == p * d + p;
      OddMultiple(n, d + 1, NextOddMultiple(c, n));
    } else {
      OddMultiple(n, 0, n);
    }
  }

  lemma NextOddMultipleIsFirst(c: nat, n: nat, m: nat)
    requires n % 2 == 1 && c < m && m % n == 0 && m % 2 == 1
    ensures NextOddMultiple(c, n) <= m
  {
    var p := 2 * n;
    var e := OddMultipleForm(n, m);
    if c >= n {
      NextStep(c - n, p, e);
    } else {
      MultipliesInOrder(p, 0, e);
    }
  }

  lemma NextStep(x: nat, p: nat, e: nat)
    requires p > 0 && x < p * e
    ensures x + p - x % p <= p * e
  {
    var d := x / p;
    assert x == p * d + x % p;
    if e <= d {
      MultipliesInOrder(p, e, d);
    } else {
      MultipliesInOrder(p, d + 1, e);
      assert p * (d + 1) == p * d + p;
    }
  }

  /** How many gets it takes from cycle `c` on until one clears the left buffer, for an odd setting `n`. */
  function LeftWait(c: uint64, n: uint64): nat
    requires n > 0
  {
    if NextOddMultiple(c, n) < TWO_64 then NextOddMultiple(c, n) - c else TWO_64 + n - c
  }

  lemma NoneBeforeLeftWait(q: Queue, k: nat)
    requires q.lazyFreeCycle % 2 == 1 && k < LeftWait(q.cycle, q.lazyFreeCycle)
    ensures NoOddMultiple(q, k)
  {
    var n := q.lazyFreeCycle;
    forall c: uint64, wrapped: bool | Follows(q.cycle, k, c, wrapped) && c % 2 == 1
      ensures c % n != 0
    {
      if c % n == 0 {
        if wrapped {
          NextOddMultipleIsFirst(0, n, c);
        } else {
          NextOddMultipleIsFirst(q.cycle, n, c);
        }
      }
    }
  }

  /**
   With an odd cycle n above one, a left buffer that holds a command is wholly cleared at some point of a run if and
   only if the run has at least LeftWait gets.
   */
  lemma LeftClearedIff(q: Queue, calls: seq<Call>)
    requires q.Valid() && InPhase(q) && q.lazyFreeCycle > 1 && q.lazyFreeCycle % 2 == 1
    requires !NilFrom(q.left, 0) && AddsCommands(calls)
    ensures (exists k :: 0 <= k <= |calls| && NilFrom(Run(q, calls[..k]).left, 0)) <==>
      Gets(calls) >= LeftWait(q.cycle, q.lazyFreeCycle)
  {
    if Gets(calls) >= LeftWait(q.cycle, q.lazyFreeCycle) {
      var k := LeftClearedAfterWait(q, calls);
    } else {
      NoneBeforeLeftWait(q, Gets(calls));
      forall k | 0 <= k <= |calls|
        ensures !NilFrom(Run(q, calls[..k]).left, 0)
      {
        LeftKeepsCommand(q, calls, k);
      }
    }
  }

  lemma LeftClearedAfterWait(q: Queue, calls: seq<Call>) returns (k: nat)
    requires q.Valid() && InPhase(q) && q.lazyFreeCycle > 1 && q.lazyFreeCycle % 2 == 1
    requires Gets(calls) >= LeftWait(q.cycle, q.lazyFreeCycle)
    ensures k <= |calls| && NilFrom(Run(q, calls[..k]).left, 0)
  {
    var n := q.lazyFreeCycle;
    var next := NextOddMultiple(q.cycle, n);
    NextOddMultipleIsOne(q.cycle, n);
    if next < TWO_64 {
      k := ClearedAt(q, calls, next, false);
    } else {
      assert n % n == 0;
      k := ClearedAt(q, calls, n, true);
    }
  }

  /** That is within 3n gets always, and within 2n unless no odd multiple is left and the wrap is more than n away. */
  lemma LeftWaitBounds(c: uint64, n: uint64)
    requires n % 2 == 1
    ensures LeftWait(c, n) <= 3 * n
    ensures LeftWait(c, n) <= 2 * n <==> NextOddMultiple(c, n) < TWO_64 || TWO_64 <= c + n
  {
    NextOddMultipleIsOne(c, n);
  }

  /** So the left buffer is cleared within 2n gets where the counter does not wrap around, and within 3n anyway. */
  lemma OddCycleClearsLeft(q: Queue, calls: seq<Call>) returns (k: nat)
    requires q.Valid() && InPhase(q) && q.lazyFreeCycle > 1 && q.lazyFreeCycle % 2 == 1
    requires Gets(calls) >= if q.cycle + 2 * q.lazyFreeCycle < TWO_64 then 2 * q.lazyFreeCycle else 3 * q.lazyFreeCycle
    ensures k <= |calls| && NilFrom(Run(q, calls[..k]).left, 0)
  {
    NextOddMultipleIsOne(q.cycle, q.lazyFreeCycle);
    LeftWaitBounds(q.cycle, q.lazyFreeCycle);
    k := LeftClearedAfterWait(q, calls);
  }

  /** 2n gets through the wrap are not always enough: with a cycle of 7, nine gets before the wrap, it takes 16. */
  lemma WrapDelaysLeft(q: Queue, calls: seq<Call>, k: nat)
    requires q.Valid() && InPhase(q) && q.lazyFreeCycle == 7 && q.cycle == TWO_64 - 9
    requires !NilFrom(q.left, 0) && AddsCommands(calls) && Gets(calls) == 2 * q.lazyFreeCycle && k <= |calls|
    ensures LeftWait(q.cycle, q.lazyFreeCycle) == 16 && !NilFrom(Run(q, calls[..k]).left, 0)
  {
    assert (q.cycle - 7) % 14 == 0;
    LeftClearedIff(q, calls);
  }

  /** With an even cycle the left buffer is never cleared. */
  lemma EvenCycleSkipsLeft(q: Queue, paused: bool)
    requires q.Valid() && InPhase(q) && q.lazyFreeCycle % 2 == 0
    ensures Got(q, paused).left == q.left
  {
    var s := Swapped(q, paused);
    SwappedPhase(q, paused);
    if ClearCount(s) == 0 {
      assert Cleared(s.Target(), 0) == s.Target();
    } else {
      EvenMultiple(s.cycle, q.lazyFreeCycle);
    }
  }

  /** With an even cycle the right buffer is wholly cleared within any n gets. */
  lemma EvenCycleClearsRight(q: Queue, calls: seq<Call>) returns (k: nat)
    requires q.Valid() && InPhase(q) && q.lazyFreeCycle > 0 && q.lazyFreeCycle % 2 == 0
    requires Gets(calls) >= q.lazyFreeCycle
    ensures k <= |calls| && NilFrom(Run(q, calls[..k]).right, 0)
  {
    var n := q.lazyFreeCycle;
    var m := MultipleAbove(q.cycle, n);
    EvenMultiple(m, n);
    if m < TWO_64 {
      k := ClearedAt(q, calls, m, false);
    } else {
      k := ClearedAt(q, calls, 0, true);
    }
  }

  lemma EvenMultiple(c: nat, n: nat)
    requires n > 0 && n % 2 == 0 && c % n == 0
    ensures c % 2 == 0
  {
    assert c == n * (c / n);
    assert n == 2 * (n / 2);
    var h, k := n / 2, c / n;
    assert c == 2 * h * k;
    assert c == 2 * (h * k);
  }
}
