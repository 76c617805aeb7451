/** The queue as it runs: two arrays, of which one is written while the other belongs to the last get. */
module EntryQueueClass {
  import opened Common
  import opened Wire
  import opened EntryQueueSpec

  class EntryQueue {
    const size: nat
    const lazyFreeCycle: uint64
    const left: array<Entry>
    const right: array<Entry>
    var leftInWrite: bool
    var stopped: bool
    var paused: bool
    var idx: nat
    var oldIdx: nat
    var cycle: uint64

    ghost predicate Valid()
      reads this
    {
      left != right && left.Length == size && right.Length == size && idx <= size && oldIdx <= size
    }

    ghost function View(): (q: Queue)
      requires Valid()
      reads this, left, right
      ensures q.Valid()
    {
      Queue(size, left[..], right[..], leftInWrite, stopped, paused, idx, oldIdx, cycle, lazyFreeCycle)
    }

    constructor (size: nat, lazyFreeCycle: uint64)
      ensures Valid() && View() == New(size, lazyFreeCycle)
      ensures fresh(left) && fresh(right)
    {
      this.size, this.lazyFreeCycle := size, lazyFreeCycle;
      left := new Entry[size](_ => BLANK);
      right := new Entry[size](_ => BLANK);
      leftInWrite, stopped, paused := false, false, false;
      idx, oldIdx, cycle := 0, 0, 0;
      new;
      assert left[..] == seq(size, i => BLANK) && right[..] == seq(size, i => BLANK);
    }

    method Close()
      requires Valid()
      modifies `stopped
      ensures Valid() && View() == old(View()).(stopped := true)
    {
      stopped := true;
    }

    function TargetQueue(): (t: array<Entry>)
      reads this
      ensures t == if leftInWrite then left else right
    {
      if leftInWrite then left else right
    }

    ghost function OtherQueue(): array<Entry>
      reads this
    {
      if leftInWrite then right else left
    }

    /** Adding writes into the target buffer alone; what the last get handed out lies in the other one. */
    method Add(ent: Entry) returns (added: bool, isStopped: bool)
      requires Valid()
      modifies `idx, TargetQueue()
      ensures Valid() && View() == Added(old(View()), ent)
      ensures added == old(Accepts(View())) && isStopped == (!added && stopped)
      ensures OtherQueue()[..] == old(OtherQueue()[..])
    {
      if paused || idx >= size {
        return false, stopped;
      }
      if stopped {
        return false, true;
      }
      var w := TargetQueue();
      w[idx] := ent;
      idx := idx + 1;
      return true, false;
    }

    /** Drop the commands of the first `n` slots of the target buffer. */
    method ClearTarget(n: nat)
      requires Valid() && n <= size
      modifies TargetQueue()
      ensures TargetQueue()[..] == Cleared(old(TargetQueue()[..]), n)
      ensures OtherQueue()[..] == old(OtherQueue()[..])
    {
      var oldq := TargetQueue();
      var i := 0;
      while i < n
        invariant 0 <= i <= n
        invariant forall k :: 0 <= k < size ==> oldq[k] == if k < i then old(oldq[k]).(cmd := None) else old(oldq[k])
        invariant OtherQueue()[..] == old(OtherQueue()[..])
      {
        oldq[i] := oldq[i].(cmd := None);
        i := i + 1;
      }
    }

    method Gc()
      requires Valid()
      modifies TargetQueue()
      ensures Valid()
      ensures View() == var q := old(View()); q.WithTarget(Cleared(q.Target(), ClearCount(q)))
    {
      ghost var q := View();
      if lazyFreeCycle > 0 {
        if lazyFreeCycle == 1 {
          ClearTarget(oldIdx);
          return;
        } else if cycle % lazyFreeCycle == 0 {
          ClearTarget(size);
          return;
        }
      }
      assert Cleared(q.Target(), 0) == q.Target();
    }

    /** The pending entries, as the first `n` slots of the buffer that was written until now. */
    method Get(pause: bool) returns (t: array<Entry>, n: nat)
      requires Valid()
      modifies this, left, right
      ensures Valid() && View() == Got(old(View()), pause)
      ensures t == OtherQueue() && n <= t.Length && t[..n] == old(View()).Pending()
    {
      paused := pause;
      cycle := (cycle + 1) % TWO_64;
      n := idx;
      idx := 0;
      t := TargetQueue();
      leftInWrite := !leftInWrite;
      Gc();
      oldIdx := n;
    }
  }
}
