/**
 The code of cpus.c on its own structures: the flags of each CPU and its
 linked list of work items, which other threads extend while a function runs.
 */
module VcpuCode {
  /** struct qemu_work_item */
  class Item {
    var next: Item?
    var done: bool

    constructor ()
      ensures next == null && !done
    {
      next, done := null, false;
    }
  }

  function After(q: seq<Item>, i: nat): Item? { if i + 1 < |q| then q[i + 1] else null }

  /** `first` leads through `next` over the items to null, and `last` is their end. */
  ghost predicate Chain(first: Item?, last: Item?, q: seq<Item>)
    reads q
  {
    && first == (if q == [] then null else q[0])
    && (q != [] ==> last == q[|q| - 1])
    && (forall i | 0 <= i < |q| :: q[i].next == After(q, i) && !q[i].done)
    && Distinct(q)
  }

  ghost predicate Distinct(q: seq<object>) {
    forall i, j | 0 <= i < j < |q| :: q[i] != q[j]
  }

  /** With q items on the list, one leaves and turns[i] arrive in each turn, and the list is not empty before the last. */
  ghost predicate Turns(q: int, turns: seq<nat>)
    decreases |turns|
  {
    turns == [] || (q > 0 && Turns(q - 1 + turns[0], turns[1..]))
  }

  ghost function LeftAfter(q: int, turns: seq<nat>): int
    decreases |turns|
  {
    if turns == [] then q else LeftAfter(q - 1 + turns[0], turns[1..])
  }

  lemma {:induction false} OneMoreTurn(q: int, turns: seq<nat>, n: nat)
    requires Turns(q, turns) && LeftAfter(q, turns) > 0
    ensures Turns(q, turns + [n]) && LeftAfter(q, turns + [n]) == LeftAfter(q, turns) - 1 + n
    decreases |turns|
  {
    if turns == [] {
      assert turns + [n] == [n] && [n][1..] == [];
    } else {
      OneMoreTurn(q - 1 + turns[0], turns[1..], n);
      assert (turns + [n])[1..] == turns[1..] + [n];
    }
  }

  class Vcpu {
    var stop: bool
    var stopped: bool
    var first: Item?
    var last: Item?
    var ran: seq<Item>          // the functions called so far, by their items
    ghost var queue: seq<Item>  // the items on the list

    constructor ()
      ensures Valid() && !stop && !stopped && queue == [] && ran == []
    {
      stop, stopped, first, last, ran, queue := false, false, null, null, [], [];
    }

    ghost predicate Valid()
      reads this, queue
    {
      Chain(first, last, queue)
    }

    /** The part of run_on_cpu that links the item. */
    method Enqueue(wi: Item)
      requires Valid() && wi !in queue
      modifies this`first, this`last, this`queue, wi, queue
      ensures Valid() && queue == old(queue) + [wi] && unchanged(old(queue)`done)
    {
      ghost var q := queue;
      assert wi !in q && Distinct(q) && (q != [] ==> last == q[|q| - 1]) && (first == null <==> q == []);
      assert forall i | 0 <= i < |q| :: q[i].next == After(q, i) && !q[i].done;
      hide Chain, Distinct;
      if first == null {
        first := wi;
      } else {
        last.next := wi;
      }
      last := wi;
      wi.next := null;
      wi.done := false;
      queue := queue + [wi];
      LastIsApart(q);
      ChainAppends(first, q, wi);
    }

    /** The function of an unlinked item; it may give up the mutex, and `arrivals` items are queued meanwhile. */
    method CallFunc(wi: Item, arrivals: nat) returns (ghost added: seq<Item>)
      requires Valid() && wi !in queue && !wi.done
      modifies this`first, this`last, this`queue, this`ran, queue
      ensures Valid() && ran == old(ran) + [wi] && queue == old(queue) + added
      ensures |added| == arrivals && wi !in queue && (forall x <- added :: fresh(x)) && !wi.done
    {
      hide Chain;
      ran := ran + [wi];
      added := [];
      var i := 0;
      while i < arrivals
        invariant 0 <= i <= arrivals && |added| == i && Valid() && queue == old(queue) + added
        invariant wi !in queue && (forall k | 0 <= k < |added| :: fresh(added[k])) && ran == old(ran) + [wi] && !wi.done
      {
        var x := new Item();
        assert forall k | 0 <= k < |queue| :: queue[k] in old(queue) || fresh(queue[k]);
        Enqueue(x);
        added := added + [x];
        i := i + 1;
      }
    }

    /** One turn of the loop of flush_queued_work. */
    method RunFirst(arrivals: nat) returns (wi: Item, ghost added: seq<Item>)
      requires Valid() && queue != []
      modifies this`first, this`last, this`queue, this`ran, queue
      ensures Valid() && wi == old(queue)[0] && wi.done && wi !in queue
      ensures ran == old(ran) + [wi] && queue == old(queue)[1..] + added
      ensures |added| == arrivals && forall x <- added :: fresh(x)
    {
      wi := first;
      TailIsChain(first, last, queue);
      first := wi.next;
      queue := queue[1..];
      added := CallFunc(wi, arrivals);
      wi.done := true;
    }

    /**
     flush_queued_work, during which items arrive in the given numbers, one
     for each function called.  Every item that was on the list or arrived is
     run exactly once, in order, and marked done; the list ends empty.  `turns`
     says how many arrived during each function.
     */
    method FlushQueuedWork(arrivals: seq<nat>) returns (ghost added: seq<Item>, ghost turns: seq<nat>)
      requires Valid()
      modifies this`first, this`last, this`queue, this`ran, queue
      ensures ran == old(ran) + old(queue) + added
      ensures Turns(|old(queue)|, turns) && LeftAfter(|old(queue)|, turns) == 0 && |turns| == |old(queue)| + |added|
      ensures forall x <- added :: fresh(x)
      ensures forall x <- old(queue) + added :: x.done
      ensures Valid() && queue == [] && first == null && (old(queue) != [] ==> last == null)
    {
      hide Chain;
      added, turns := [], [];
      HeadOfChain(first, last, queue);
      if first == null { return; }
      ghost var before := queue;
      var turn := 0;
      ghost var handled: seq<Item> := [];
      while first != null
        invariant Valid() && ran == old(ran) + handled && handled + queue == before + added
        invariant (forall x <- added :: fresh(x)) && (forall x <- handled :: x.done && x !in queue)
        invariant Turns(|before|, turns) && LeftAfter(|before|, turns) == |queue| && |turns| == |handled|
        invariant (first == null <==> queue == []) && turn <= |arrivals| && before == old(queue) && forall x <- queue :: x in before || fresh(x)
        decreases |arrivals| - turn, |queue|
      {
        var n := 0;
        if turn < |arrivals| {
          n := arrivals[turn];
          turn := turn + 1;
        }
        ghost var q := queue;
        assert forall k | 0 <= k < |q| :: q[k] in old(queue) || fresh(q[k]);
        var wi, more := RunFirst(n);
        HeadOfChain(first, last, queue);
        assert q == [wi] + q[1..];
        Shift(handled, wi, q, before, added, more);
        OneMoreTurn(|before|, turns, n);
        turns := turns + [n];
        handled := handled + [wi];
        added := added + more;
      }
      assert handled == before + added;
      last := null;
      EmptyChain(last);
    }

    /** The part of qemu_wait_io_event_common that answers a request to stop. */
    method AnswerStop()
      modifies this`stop, this`stopped
      ensures !stop && stopped == (old(stopped) || old(stop))
    {
      if stop {
        stop := false;
        stopped := true;
      }
    }

    /** qemu_wait_io_event_common: the stop is answered before queued work runs. */
    method WaitIoEventCommon(arrivals: seq<nat>) returns (ghost added: seq<Item>, ghost turns: seq<nat>)
      requires Valid()
      modifies this, queue
      ensures !stop && stopped == (old(stopped) || old(stop))
      ensures ran == old(ran) + old(queue) + added && Valid() && queue == []
      ensures Turns(|old(queue)|, turns) && LeftAfter(|old(queue)|, turns) == 0 && |turns| == |old(queue)| + |added|
      ensures forall x <- old(queue) + added :: x.done
    {
      AnswerStop();
      added, turns := FlushQueuedWork(arrivals);
    }

    /** cpu_can_run */
    method CanRun(vmRunning: bool) returns (r: bool)
      ensures r <==> !stop && !stopped && vmRunning
    {
      if stop { return false; }
      if stopped || !vmRunning { return false; }
      return true;
    }
  }

  /** all_vcpus_paused */
  method AllVcpusPaused(cpus: seq<Vcpu>) returns (r: bool)
    ensures r <==> forall c | 0 <= c < |cpus| :: cpus[c].stopped
  {
    var c := 0;
    while c < |cpus|
      invariant 0 <= c <= |cpus| && forall k | 0 <= k < c :: cpus[k].stopped
    {
      if !cpus[c].stopped { return false; }
      c := c + 1;
    }
    r := true;
  }

  /** While the I/O thread waits, some CPU threads reach the point where they answer a stop. */
  method OthersRun(cpus: seq<Vcpu>, reached: set<nat>)
    requires Distinct(cpus)
    modifies cpus`stop, cpus`stopped
    ensures forall c: nat | c < |cpus| ::
              && cpus[c].stopped == (old(cpus[c].stopped) || (c in reached && old(cpus[c].stop)))
              && cpus[c].stop == (old(cpus[c].stop) && c !in reached)
  {
    var i := 0;
    while i < |cpus|
      invariant 0 <= i <= |cpus|
      invariant forall c: nat | c < i ::
                  && cpus[c].stopped == (old(cpus[c].stopped) || (c in reached && old(cpus[c].stop)))
                  && cpus[c].stop == (old(cpus[c].stop) && c !in reached)
      invariant forall c | i <= c < |cpus| :: cpus[c].stopped == old(cpus[c].stopped) && cpus[c].stop == old(cpus[c].stop)
    {
      if i in reached {
        cpus[i].AnswerStop();
      }
      i := i + 1;
    }
  }

  /** CPU c reaches the answer during one of the first n waits. */
  predicate ReachedBy(schedule: seq<set<nat>>, n: nat, c: nat) {
    exists i | 0 <= i < n && i < |schedule| :: c in schedule[i]
  }

  /**
   pause_all_vcpus: `schedule` says which CPU threads make progress during
   each wait.  It returns within the schedule exactly when every CPU was
   stopped before or gets its turn, and then all are stopped.
   */
  method PauseAllVcpus(cpus: seq<Vcpu>, schedule: seq<set<nat>>) returns (returned: bool)
    requires Distinct(cpus)
    modifies cpus`stop, cpus`stopped
    ensures returned ==> forall c | 0 <= c < |cpus| :: cpus[c].stopped
    ensures returned <==> forall c: nat | c < |cpus| :: old(cpus[c].stopped) || ReachedBy(schedule, |schedule|, c)
    ensures forall c | 0 <= c < |cpus| :: cpus[c].stop || cpus[c].stopped
  {
    RequestStops(cpus);
    var n := 0;
    var paused := AllVcpusPaused(cpus);
    while !paused && n < |schedule|
      invariant 0 <= n <= |schedule|
      invariant paused <==> forall c | 0 <= c < |cpus| :: cpus[c].stopped
      invariant forall c: nat | c < |cpus| ::
                  && cpus[c].stopped == (old(cpus[c].stopped) || ReachedBy(schedule, n, c))
                  && cpus[c].stop == !ReachedBy(schedule, n, c)
    {
      OthersRun(cpus, schedule[n]);
      forall c: nat ensures ReachedBy(schedule, n + 1, c) <==> ReachedBy(schedule, n, c) || c in schedule[n] {}
      n := n + 1;
      paused := AllVcpusPaused(cpus);
    }
    returned := paused;
    if paused {
      forall c: nat | c < |cpus| ensures old(cpus[c].stopped) || ReachedBy(schedule, |schedule|, c) {
        assert cpus[c].stopped;
      }
    }
  }

  method RequestStops(cpus: seq<Vcpu>)
    requires Distinct(cpus)
    modifies cpus`stop, cpus`stopped
    ensures forall c | 0 <= c < |cpus| :: cpus[c].stop && cpus[c].stopped == old(cpus[c].stopped)
  {
    var i := 0;
    while i < |cpus|
      invariant 0 <= i <= |cpus|
      invariant forall c | 0 <= c < |cpus| :: cpus[c].stopped == old(cpus[c].stopped)
      invariant forall c | 0 <= c < i :: cpus[c].stop
    {
      cpus[i].stop := true;
      i := i + 1;
    }
  }

  /** resume_all_vcpus */
  method ResumeAllVcpus(cpus: seq<Vcpu>)
    modifies cpus`stop, cpus`stopped
    ensures forall c | 0 <= c < |cpus| :: !cpus[c].stop && !cpus[c].stopped
  {
    var i := 0;
    while i < |cpus|
      invariant 0 <= i <= |cpus|
      invariant forall c | 0 <= c < i :: !cpus[c].stop && !cpus[c].stopped
    {
      cpus[i].stop := false;
      cpus[i].stopped := false;
      i := i + 1;
    }
  }

  lemma TailIsChain(first: Item?, last: Item?, q: seq<Item>)
    requires Chain(first, last, q) && q != []
    ensures first == q[0] && q[0] !in q[1..] && Chain(q[0].next, last, q[1..])
  {
    assert q[0].next == After(q, 0);
    forall i | 0 <= i < |q| - 1 ensures q[1..][i].next == After(q[1..], i) {
      assert q[1..][i] == q[i + 1] && q[i + 1].next == After(q, i + 1);
    }
  }

  lemma LastIsApart(q: seq<object>)
    requires Distinct(q)
    ensures forall i | 0 <= i < |q| - 1 :: q[i] != q[|q| - 1]
  {}

  lemma ChainAppends(first: Item?, q: seq<Item>, wi: Item)
    requires Distinct(q) && wi !in q && wi.next == null && !wi.done && first == (if q == [] then wi else q[0])
    requires forall i | 0 <= i < |q| :: q[i].next == (if i < |q| - 1 then After(q, i) else wi) && !q[i].done
    ensures Chain(first, wi, q + [wi])
  {
    var r := q + [wi];
    forall i | 0 <= i < |r| ensures r[i].next == After(r, i) && !r[i].done {
      assert i < |q| ==> r[i] == q[i];
    }
  }

  lemma HeadOfChain(first: Item?, last: Item?, q: seq<Item>)
    requires Chain(first, last, q)
    ensures first == null <==> q == []
  {}

  lemma EmptyChain(last: Item?)
    ensures Chain(null, last, [])
  {}

  lemma Shift(handled: seq<Item>, wi: Item, q: seq<Item>, before: seq<Item>, added: seq<Item>, more: seq<Item>)
    requires q != [] && wi == q[0] && handled + q == before + added
    ensures (handled + [wi]) + (q[1..] + more) == before + (added + more)
  {
    assert (handled + [wi]) + q[1..] == handled + q;
    assert (handled + [wi]) + (q[1..] + more) == (handled + q) + more;
    assert (before + added) + more == before + (added + more);
  }
}
