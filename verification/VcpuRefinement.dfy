/**
 The code of cpus.c on linked items takes steps of the state machine, in which
 items are numbers in order of arrival.
 */
module VcpuRefinement {
  import opened Vcpus
  import VcpuCode

  /** A CPU structure between two calls, as the state machine sees it. */
  ghost predicate Shows(v: VcpuCode.Vcpu, x: Cpu)
    reads v, v.queue
  {
    && CpuInv(x) && v.Valid() && !x.pc.Running? && !x.pc.Finished?
    && v.stop == x.stop && v.stopped == x.stopped
    && |x.ran| == |v.ran| && |x.items| == |v.ran| + |v.queue|
  }

  /** Item number i of the state machine is the i-th item that ever arrived; pointers agree with numbers. */
  lemma PointersAgree(v: VcpuCode.Vcpu, x: Cpu)
    requires Shows(v, x)
    ensures v.first == null <==> x.first == NULL
    ensures x.first != NULL ==> IsItem(x, x.first) && v.first == (v.ran + v.queue)[x.first]
    ensures x.first != NULL ==> IsItem(x, x.last) && v.last == (v.ran + v.queue)[x.last]
  {
    assert NextToTake(x) == |v.ran|;
  }

  lemma LinksAgree(v: VcpuCode.Vcpu, x: Cpu, i: nat)
    requires Shows(v, x) && |x.ran| <= i < |x.items|
    ensures var arrived := v.ran + v.queue;
            && arrived[i].done == x.items[i].done
            && (x.items[i].next == NULL ==> arrived[i].next == null)
            && (x.items[i].next != NULL ==> IsItem(x, x.items[i].next) && arrived[i].next == arrived[x.items[i].next])
  {
    var j := i - |v.ran|;
    assert NextToTake(x) == |v.ran|;
    assert (v.ran + v.queue)[i] == v.queue[j] && v.queue[j].next == VcpuCode.After(v.queue, j) && !v.queue[j].done;
  }

  /** run_on_cpu links its item as the step Enqueue does. */
  method RunOnCpu(v: VcpuCode.Vcpu, wi: VcpuCode.Item, ghost s: State, c: nat)
    requires Inv(s) && c < |s.cpus| && Shows(v, s.cpus[c]) && wi !in v.queue
    modifies v`first, v`last, v`queue, wi, v.queue
    ensures Enabled(s, Enqueue(c)) && Shows(v, Step(s, Enqueue(c)).cpus[c])
  {
    hide VcpuCode.Chain;
    LinkKeepsList(s.cpus[c]);
    v.Enqueue(wi);
  }

  /** What a stretch of one CPU's steps leaves: the other CPUs and its flags as they were. */
  ghost predicate OnlyWork(s: State, s': State, c: nat)
    requires c < |s.cpus|
  {
    && Inv(s') && |s'.cpus| == |s.cpus| && s' == s.(cpus := s.cpus[c := s'.cpus[c]])
    && s'.cpus[c].stop == s.cpus[c].stop && s'.cpus[c].stopped == s.cpus[c].stopped
  }

  lemma {:induction false} Arrive(s: State, c: nat, n: nat) returns (es: seq<Event>)
    requires Inv(s) && c < |s.cpus|
    ensures EnabledAll(s, es) && OnlyWork(s, Run(s, es), c)
    ensures var x, y := s.cpus[c], Run(s, es).cpus[c];
            |y.items| == |x.items| + n && y.ran == x.ran && y.pc == x.pc && (x.first != NULL ==> y.first != NULL)
    decreases n
  {
    es := [];
    if n > 0 {
      StepKeepsInv(s, Enqueue(c));
      var s' := Step(s, Enqueue(c));
      var rest := Arrive(s', c, n - 1);
      es := [Enqueue(c)] + rest;
      assert es[1..] == rest;
    }
  }

  lemma FirstIsItem(s: State, c: nat)
    requires Inv(s) && c < |s.cpus| && s.cpus[c].pc.Flushing?
    ensures s.cpus[c].first != NULL <==> |s.cpus[c].ran| < |s.cpus[c].items|
    ensures s.cpus[c].first != NULL ==> IsItem(s.cpus[c], s.cpus[c].first) && s.cpus[c].first == |s.cpus[c].ran|
    ensures |s.cpus[c].ran| <= |s.cpus[c].items|
  {
    assert CpuInv(s.cpus[c]);
  }

  lemma RunOne(s: State, e: Event)
    requires Enabled(s, e)
    ensures EnabledAll(s, [e]) && Run(s, [e]) == Step(s, e)
  {
    hide Enabled, Step;
    assert [e][1..] == [] && EnabledAll(Step(s, e), []) && Run(Step(s, e), []) == Step(s, e);
  }

  /** The function that is running returns, and its item is marked. */
  lemma FinishTurn(s: State, c: nat) returns (es: seq<Event>)
    requires Inv(s) && c < |s.cpus| && s.cpus[c].pc.Running? && IsItem(s.cpus[c], s.cpus[c].pc.id)
    ensures EnabledAll(s, es) && OnlyWork(s, Run(s, es), c)
    ensures var x, y := s.cpus[c], Run(s, es).cpus[c];
            |y.items| == |x.items| && |y.ran| == |x.ran| + 1 && y.pc.Flushing?
  {
    hide Inv, EnabledAll, Run;
    var s1 := Step(s, FuncReturns(c));
    StepKeepsInv(s, FuncReturns(c));
    var s2 := Step(s1, MarkDone(c));
    StepKeepsInv(s1, MarkDone(c));
    RunOne(s, FuncReturns(c));
    RunOne(s1, MarkDone(c));
    RunAppends(s, [FuncReturns(c)], [MarkDone(c)]);
    es := [FuncReturns(c)] + [MarkDone(c)];
  }

  /** One turn of the loop of flush_queued_work, with n items arriving while its function runs. */
  lemma OneTurn(s: State, c: nat, n: nat) returns (es: seq<Event>)
    requires Inv(s) && c < |s.cpus| && s.cpus[c].pc.Flushing? && s.cpus[c].first != NULL
    ensures EnabledAll(s, es) && OnlyWork(s, Run(s, es), c)
    ensures var x, y := s.cpus[c], Run(s, es).cpus[c];
            |y.items| == |x.items| + n && |y.ran| == |x.ran| + 1 && y.pc.Flushing?
  {
    hide Inv, EnabledAll, Run;
    FirstIsItem(s, c);
    var s1 := Step(s, Take(c));
    StepKeepsInv(s, Take(c));
    RunOne(s, Take(c));
    var arrive := Arrive(s1, c, n);
    var s2 := Run(s1, arrive);
    var finish := FinishTurn(s2, c);
    RunAppends(s1, arrive, finish);
    RunAppends(s, [Take(c)], arrive + finish);
    es := [Take(c)] + (arrive + finish);
  }

  /** The loop of flush_queued_work, turn by turn. */
  lemma {:induction false} Drain(s: State, c: nat, turns: seq<nat>) returns (es: seq<Event>)
    requires Inv(s) && c < |s.cpus| && s.cpus[c].pc.Flushing?
    requires VcpuCode.Turns(|s.cpus[c].items| - |s.cpus[c].ran|, turns)
    requires VcpuCode.LeftAfter(|s.cpus[c].items| - |s.cpus[c].ran|, turns) == 0
    ensures EnabledAll(s, es) && OnlyWork(s, Run(s, es), c)
    ensures var x, y := s.cpus[c], Run(s, es).cpus[c];
            |y.items| == |y.ran| == |x.ran| + |turns| && y.pc.Top?
    decreases |turns|
  {
    hide Inv, EnabledAll, Run;
    FirstIsItem(s, c);
    if turns == [] {
      es := [EndFlush(c)];
      StepKeepsInv(s, EndFlush(c));
      RunOne(s, EndFlush(c));
    } else {
      var turn := OneTurn(s, c, turns[0]);
      var rest := Drain(Run(s, turn), c, turns[1..]);
      RunAppends(s, turn, rest);
      es := turn + rest;
    }
  }

  /** From the wait to the top of the loop, with items arriving while each function runs. */
  lemma WaitSteps(s: State, c: nat, turns: seq<nat>) returns (es: seq<Event>)
    requires Inv(s) && c < |s.cpus| && s.cpus[c].pc.Waiting?
    requires VcpuCode.Turns(|s.cpus[c].items| - |s.cpus[c].ran|, turns)
    requires VcpuCode.LeftAfter(|s.cpus[c].items| - |s.cpus[c].ran|, turns) == 0
    ensures EnabledAll(s, es)
    ensures var s' := Run(s, es);
            && Inv(s') && |s'.cpus| == |s.cpus| && s' == s.(cpus := s.cpus[c := s'.cpus[c]])
            && var x, y := s.cpus[c], s'.cpus[c];
            && !y.stop && y.stopped == (x.stopped || x.stop)
            && y.pc.Top? && |y.items| == |y.ran| == |x.ran| + |turns|
  {
    hide Inv, Linked, RanInOrder, EnabledAll, Run;
    StepKeepsInv(s, WaitCommon(c));
    var s1 := Step(s, WaitCommon(c));
    RunOne(s, WaitCommon(c));
    if s.cpus[c].first == NULL {
      es := [WaitCommon(c)];
      AllRan(s, c);
    } else {
      var drain := Drain(s1, c, turns);
      RunAppends(s, [WaitCommon(c)], drain);
      es := [WaitCommon(c)] + drain;
    }
  }

  lemma AllRan(s: State, c: nat)
    requires Inv(s) && c < |s.cpus| && s.cpus[c].first == NULL && !s.cpus[c].pc.Running?
    ensures |s.cpus[c].items| == |s.cpus[c].ran|
  {
    assert CpuInv(s.cpus[c]);
  }

  /**
   qemu_wait_io_event_common on the structures is a run of the state machine
   from the wait to the top of the thread's loop: the same stops answered, the
   same functions run, with the items arriving while the functions run during
   which they arrived.  What holds of every reachable state therefore holds of
   the state the code leaves.
   */
  method WaitIoEventCommon(v: VcpuCode.Vcpu, arrivals: seq<nat>, ghost s: State, c: nat) returns (ghost es: seq<Event>)
    requires Reachable(s) && c < |s.cpus| && Shows(v, s.cpus[c]) && s.cpus[c].pc.Waiting?
    modifies v, v.queue
    ensures EnabledAll(s, es) && Reachable(Run(s, es))
    ensures |Run(s, es).cpus| == |s.cpus| && Shows(v, Run(s, es).cpus[c]) && Run(s, es).cpus[c].pc.Top?
  {
    hide VcpuCode.Chain, CpuInv, Reachable;
    ReachableIsGood(s);
    PointersAgree(v, s.cpus[c]);
    VcpuCode.HeadOfChain(v.first, v.last, v.queue);
    ghost var added, turns;
    added, turns := v.WaitIoEventCommon(arrivals);
    es := WaitSteps(s, c, turns);
    RunIsReachable(s, es);
    assert CpuInv(Run(s, es).cpus[c]);
  }

  lemma RunIsReachable(s: State, es: seq<Event>)
    requires Reachable(s) && EnabledAll(s, es)
    ensures Reachable(Run(s, es))
  {
    var s0: State, before: seq<Event> :| Initial(s0) && EnabledAll(s0, before) && Run(s0, before) == s;
    RunAppends(s0, before, es);
  }

  // ----- the top of the loop, and the I/O thread

  /** cpu_can_run decides between the two steps that leave the top of the loop. */
  method TopOfLoop(v: VcpuCode.Vcpu, vmRunning: bool, ghost s: State, c: nat) returns (enters: bool)
    requires c < |s.cpus| && Shows(v, s.cpus[c]) && s.cpus[c].pc.Top? && vmRunning == s.vmRunning
    ensures enters <==> Enabled(s, EnterGuest(c))
    ensures !enters <==> Enabled(s, CannotRun(c))
  {
    EntersGuestIff(s, c);
    enters := v.CanRun(vmRunning);
  }

  /** The structures show the state's CPUs, one by one. */
  ghost predicate AllShown(cpus: seq<VcpuCode.Vcpu>, s: State)
    reads *
  {
    |cpus| == |s.cpus| && forall c | 0 <= c < |cpus| :: Shows(cpus[c], s.cpus[c])
  }

  /** resume_all_vcpus is the step ResumeAll. */
  method Resume(cpus: seq<VcpuCode.Vcpu>, ghost s: State)
    requires AllShown(cpus, s) && Enabled(s, ResumeAll)
    modifies cpus`stop, cpus`stopped
    ensures AllShown(cpus, Step(s, ResumeAll))
  {
    hide CpuInv;
    IoThreadSteps(s);
    VcpuCode.ResumeAllVcpus(cpus);
    forall c | 0 <= c < |cpus| ensures Shows(cpus[c], Step(s, ResumeAll).cpus[c]) {
      SameListSameInv(s.cpus[c], Step(s, ResumeAll).cpus[c]);
    }
  }

  /** pause_all_vcpus up to its wait is the step PauseAll. */
  method RequestPause(cpus: seq<VcpuCode.Vcpu>, ghost s: State)
    requires AllShown(cpus, s) && Enabled(s, PauseAll) && VcpuCode.Distinct(cpus)
    modifies cpus`stop, cpus`stopped
    ensures AllShown(cpus, Step(s, PauseAll))
  {
    hide CpuInv;
    IoThreadSteps(s);
    VcpuCode.RequestStops(cpus);
    forall c | 0 <= c < |cpus| ensures Shows(cpus[c], Step(s, PauseAll).cpus[c]) {
      SameListSameInv(s.cpus[c], Step(s, PauseAll).cpus[c]);
    }
  }

  /** The wait of pause_all_vcpus ends exactly when the step SeePaused is possible. */
  method SeesPaused(cpus: seq<VcpuCode.Vcpu>, ghost s: State) returns (paused: bool)
    requires AllShown(cpus, s) && s.io.Pausing?
    ensures paused <==> Enabled(s, SeePaused)
  {
    IoThreadSteps(s);
    paused := VcpuCode.AllVcpusPaused(cpus);
  }
}
