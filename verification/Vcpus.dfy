/**
 Pausing the virtual CPUs and running work on their threads, as a state
 machine.  A step is what one thread does between two points at which it may
 give up the global mutex; the steps of all threads interleave freely.
 */
module Vcpus {
  /** A work item lives in the frame of its caller; `gone` once the caller has returned. */
  datatype WorkItem = WorkItem(next: int, done: bool, gone: bool)

  /** Where the thread of a virtual CPU is. */
  datatype Pc =
    | Top                    // about to ask cpu_can_run
    | Guest                  // in qemu_cpu_exec, where guest code runs
    | Waiting                // in the wait for an event
    | Flushing               // at the head of the loop of flush_queued_work
    | Running(id: nat)       // an item has been unlinked, its function is running
    | Finished(id: nat)      // its function has returned

  const NULL := -1

  /** Items are numbered in order of arrival; pointers are numbers.  `ran` records the functions as they return. */
  datatype Cpu = Cpu(stop: bool, stopped: bool, pc: Pc, first: int, last: int, items: seq<WorkItem>, ran: seq<nat>)

  datatype Io = Idle | Pausing | Paused

  datatype State = State(io: Io, vmRunning: bool, cpus: seq<Cpu>)

  datatype Event =
    | Enqueue(c: nat)            // run_on_cpu from another thread, up to its wait
    | Return(c: nat, id: nat)    // run_on_cpu sees its item done
    | EnterGuest(c: nat)
    | CannotRun(c: nat)
    | ExitGuest(c: nat)
    | SelfStop(c: nat)           // vm_stop called on the thread of the CPU
    | WaitCommon(c: nat)         // qemu_wait_io_event_common up to the loop of flush_queued_work
    | Take(c: nat)
    | FuncReturns(c: nat)
    | MarkDone(c: nat)
    | EndFlush(c: nat)
    | PauseAll                   // pause_all_vcpus up to its wait
    | SeePaused                  // all_vcpus_paused answers true
    | ResumeAll
    | SetVmRunning(on: bool)

  predicate CanRun(s: State, x: Cpu) { !x.stop && !(x.stopped || !s.vmRunning) }

  predicate AllStopped(cpus: seq<Cpu>) { forall c | 0 <= c < |cpus| :: cpus[c].stopped }

  predicate InThread(x: Cpu, e: Event) {
    match e
    case Return(_, id) => id < |x.items| && x.items[id].done && !x.items[id].gone
    case CannotRun(_) => x.pc.Top?
    case EnterGuest(_) => x.pc.Top?
    case ExitGuest(_) => x.pc.Guest?
    case SelfStop(_) => x.pc.Guest? || x.pc.Running?
    case WaitCommon(_) => x.pc.Waiting?
    case Take(_) => x.pc.Flushing? && x.first != NULL
    case FuncReturns(_) => x.pc.Running?
    case MarkDone(_) => x.pc.Finished?
    case EndFlush(_) => x.pc.Flushing? && x.first == NULL
    case _ => true
  }

  predicate OfCpu(e: Event) { !e.PauseAll? && !e.SeePaused? && !e.ResumeAll? && !e.SetVmRunning? }

  predicate Enabled(s: State, e: Event) {
    match e
    case PauseAll => !s.io.Pausing?
    case SeePaused => s.io.Pausing? && AllStopped(s.cpus)
    case ResumeAll => !s.io.Pausing?
    case SetVmRunning(_) => !s.io.Pausing?
    case _ =>
      && e.c < |s.cpus| && InThread(s.cpus[e.c], e)
      && (e.EnterGuest? ==> CanRun(s, s.cpus[e.c])) && (e.CannotRun? ==> !CanRun(s, s.cpus[e.c]))
  }

  predicate IsItem(x: Cpu, p: int) { 0 <= p < |x.items| }

  /** What run_on_cpu does with the list. */
  function Link(x: Cpu): Cpu {
    var wi := |x.items|;
    var items := if x.first != NULL && IsItem(x, x.last) then x.items[x.last := x.items[x.last].(next := wi)] else x.items;
    x.(first := if x.first == NULL then wi else x.first, last := wi, items := items + [WorkItem(NULL, false, false)])
  }

  function SetItem(x: Cpu, id: nat, item: WorkItem): Cpu {
    if id < |x.items| then x.(items := x.items[id := item]) else x
  }

  function CpuStep(x: Cpu, e: Event): Cpu
    requires OfCpu(e) && InThread(x, e)
  {
    match e
    case Enqueue(_) => Link(x)
    case Return(_, id) => SetItem(x, id, x.items[id].(gone := true))
    case EnterGuest(_) => x.(pc := Guest)
    case CannotRun(_) => x.(pc := Waiting)
    case ExitGuest(_) => x.(pc := Waiting)
    case SelfStop(_) => x.(stop := true)
    case WaitCommon(_) =>
      var x' := if x.stop then x.(stop := false, stopped := true) else x;
      x'.(pc := if x.first == NULL then Top else Flushing)
    case Take(_) =>
      if IsItem(x, x.first) then x.(first := x.items[x.first].next, pc := Running(x.first)) else x
    case FuncReturns(_) => x.(ran := x.ran + [x.pc.id], pc := Finished(x.pc.id))
    case MarkDone(_) =>
      if IsItem(x, x.pc.id) then SetItem(x, x.pc.id, x.items[x.pc.id].(done := true)).(pc := Flushing) else x
    case EndFlush(_) => x.(last := NULL, pc := Top)
  }

  function WithAll(cpus: seq<Cpu>, stop: bool, clear: bool): seq<Cpu> {
    seq(|cpus|, c requires 0 <= c < |cpus| => cpus[c].(stop := stop, stopped := !clear && cpus[c].stopped))
  }

  function Step(s: State, e: Event): State
    requires Enabled(s, e)
  {
    match e
    case PauseAll => s.(io := Pausing, cpus := WithAll(s.cpus, true, false))
    case SeePaused => s.(io := Paused)
    case ResumeAll => s.(io := Idle, cpus := WithAll(s.cpus, false, true))
    case SetVmRunning(on) => s.(vmRunning := on)
    case _ => s.(cpus := s.cpus[e.c := CpuStep(s.cpus[e.c], e)])
  }

  // ----- the invariant

  /** The next item to be taken. */
  function NextToTake(x: Cpu): nat { |x.ran| + if x.pc.Running? then 1 else 0 }

  /** The linked list is what is left of the arrivals, in order. */
  ghost predicate Linked(x: Cpu) {
    var n, k := |x.items|, NextToTake(x);
    && k <= n
    && x.first == (if k < n then k else NULL)
    && (k < n ==> x.last == n - 1)
    && forall i | k <= i < n :: x.items[i].next == if i + 1 < n then i + 1 else NULL
  }

  /** Functions have run in order of arrival, each once; an item is done when its function has run and no sooner. */
  ghost predicate RanInOrder(x: Cpu) {
    && |x.ran| <= |x.items| && (forall i | 0 <= i < |x.ran| :: x.ran[i] == i)
    && (x.pc.Running? ==> x.pc.id == |x.ran|)
    && (x.pc.Finished? ==> |x.ran| > 0 && x.pc.id == |x.ran| - 1)
    && (forall i | 0 <= i < |x.items| ::
          x.items[i].done <==> i < |x.ran| - if x.pc.Finished? then 1 else 0)
    && (forall i | 0 <= i < |x.items| && x.items[i].gone :: x.items[i].done)
  }

  ghost predicate CpuInv(x: Cpu) {
    (x.pc.Guest? ==> !x.stopped) && Linked(x) && RanInOrder(x)
  }

  /** A request to stop is not lost while the I/O thread waits, and nobody leaves the stop once it has seen it. */
  ghost predicate PauseInv(s: State) {
    && (s.io.Pausing? ==> forall c | 0 <= c < |s.cpus| :: s.cpus[c].stop || s.cpus[c].stopped)
    && (s.io.Paused? ==> AllStopped(s.cpus))
  }

  ghost predicate Inv(s: State) {
    PauseInv(s) && forall c | 0 <= c < |s.cpus| :: CpuInv(s.cpus[c])
  }

  lemma LinkKeepsList(x: Cpu)
    requires CpuInv(x)
    ensures CpuInv(Link(x))
  {}

  lemma ReturnKeepsList(x: Cpu, e: Event)
    requires CpuInv(x) && e.Return? && InThread(x, e)
    ensures CpuInv(CpuStep(x, e))
  {}

  lemma CpuStepKeepsInv(x: Cpu, e: Event)
    requires CpuInv(x) && OfCpu(e) && InThread(x, e) && (e.EnterGuest? ==> !x.stopped)
    ensures CpuInv(CpuStep(x, e))
  {
    match e {
      case Enqueue(_) => LinkKeepsList(x);
      case Return(_, _) => ReturnKeepsList(x, e);
      case _ =>
    }
  }

  lemma StepKeepsInv(s: State, e: Event)
    requires Inv(s) && Enabled(s, e)
    ensures Inv(Step(s, e))
  {
    hide Linked, RanInOrder, Link;
    var s' := Step(s, e);
    forall c | 0 <= c < |s'.cpus| ensures CpuInv(s'.cpus[c]) {
      if OfCpu(e) && c == e.c {
        CpuStepKeepsInv(s.cpus[c], e);
      } else {
        SameListSameInv(s.cpus[c], s'.cpus[c]);
      }
    }
    if OfCpu(e) {
      StopIsKept(s.cpus[e.c], e);
    }
  }

  lemma SameListSameInv(x: Cpu, y: Cpu)
    requires CpuInv(x) && y == x.(stop := y.stop, stopped := y.stopped) && (y.stopped ==> x.stopped)
    ensures CpuInv(y)
  {}

  /** A CPU's own steps neither undo a stop nor drop a request without acting on it. */
  lemma StopIsKept(x: Cpu, e: Event)
    requires OfCpu(e) && InThread(x, e)
    ensures x.stopped ==> CpuStep(x, e).stopped
    ensures x.stop || x.stopped ==> CpuStep(x, e).stop || CpuStep(x, e).stopped
  {}

  // ----- whole runs

  predicate EnabledAll(s: State, es: seq<Event>)
    decreases |es|
  {
    es == [] || (Enabled(s, es[0]) && EnabledAll(Step(s, es[0]), es[1..]))
  }

  function Run(s: State, es: seq<Event>): State
    requires EnabledAll(s, es)
    decreases |es|
  {
    if es == [] then s else Run(Step(s, es[0]), es[1..])
  }

  function Fresh(): Cpu { Cpu(false, false, Top, NULL, NULL, [], []) }

  predicate Initial(s: State) {
    s.io.Idle? && forall c | 0 <= c < |s.cpus| :: s.cpus[c] == Fresh()
  }

  lemma {:induction false} RunKeepsInv(s: State, es: seq<Event>)
    requires Inv(s) && EnabledAll(s, es)
    ensures Inv(Run(s, es))
    decreases |es|
  {
    hide Inv, Enabled, Step;
    if es != [] {
      StepKeepsInv(s, es[0]);
      RunKeepsInv(Step(s, es[0]), es[1..]);
    }
  }

  lemma InitialIsGood(s: State)
    requires Initial(s)
    ensures Inv(s)
  {}

  ghost predicate Reachable(s: State) {
    exists s0: State, es: seq<Event> :: Initial(s0) && EnabledAll(s0, es) && Run(s0, es) == s
  }

  lemma ReachableIsGood(s: State)
    requires Reachable(s)
    ensures Inv(s)
  {
    hide Inv;
    var s0: State, es: seq<Event> :| Initial(s0) && EnabledAll(s0, es) && Run(s0, es) == s;
    InitialIsGood(s0);
    RunKeepsInv(s0, es);
  }

  // ----- pausing

  predicate NobodyInGuest(s: State) { forall c | 0 <= c < |s.cpus| :: !s.cpus[c].pc.Guest? }

  /** From the moment pause_all_vcpus has set the flags, no CPU enters the guest. */
  lemma NoEntryWhilePausing(s: State, c: nat)
    requires Inv(s) && !s.io.Idle?
    ensures !Enabled(s, EnterGuest(c))
  {}

  /** Events of a stretch during which the I/O thread does not resume the CPUs. */
  predicate WithoutResume(es: seq<Event>) {
    forall i | 0 <= i < |es| :: !es[i].ResumeAll?
  }

  lemma {:induction false} StaysPaused(s: State, es: seq<Event>)
    requires Inv(s) && !s.io.Idle? && (s.io.Paused? || AllStopped(s.cpus)) && EnabledAll(s, es) && WithoutResume(es)
    ensures var s' := Run(s, es);
            Inv(s') && !s'.io.Idle? && AllStopped(s'.cpus) && NobodyInGuest(s')
    decreases |es|
  {
    if es != [] {
      hide Linked, RanInOrder, Link;
      var s' := Step(s, es[0]);
      StepKeepsInv(s, es[0]);
      if OfCpu(es[0]) {
        StopIsKept(s.cpus[es[0].c], es[0]);
      }
      StaysPaused(s', es[1..]);
    }
  }

  /**
   Once pause_all_vcpus has returned, no CPU is in the guest or enters it
   until resume_all_vcpus is called, whatever else happens meanwhile.
   */
  lemma NoGuestCodeWhilePaused(s: State, es: seq<Event>, i: nat)
    requires Reachable(s) && s.io.Paused? && EnabledAll(s, es) && WithoutResume(es) && i < |es|
    ensures EnabledAll(s, es[..i]) && NobodyInGuest(Run(s, es[..i])) && !es[i].EnterGuest?
  {
    hide Inv, Step, Enabled, Reachable, NobodyInGuest, AllStopped;
    ReachableIsGood(s);
    PrefixRuns(s, es, i);
    PausedIsStopped(s);
    StaysPaused(s, es[..i]);
    var s' := Run(s, es[..i]);
    if es[i].EnterGuest? {
      NoEntryWhilePausing(s', es[i].c);
      assert false;
    }
  }

  lemma PausedIsStopped(s: State)
    requires Inv(s) && s.io.Paused?
    ensures AllStopped(s.cpus)
  {}

  lemma {:induction false} PrefixRuns(s: State, es: seq<Event>, i: nat)
    requires EnabledAll(s, es) && i < |es|
    ensures EnabledAll(s, es[..i]) && Enabled(Run(s, es[..i]), es[i])
    decreases |es|
  {
    hide Step, Enabled;
    if i > 0 {
      PrefixRuns(Step(s, es[0]), es[1..], i - 1);
      assert es[..i][1..] == es[1..][..i - 1];
    }
  }

  // ----- a pause can always complete

  function Rank(x: Cpu): int {
    var w := |x.items| - |x.ran|;
    match x.pc
    case Waiting => 1
    case Top => 2
    case Guest => 2
    case Flushing => 3 + 3 * w
    case Running(_) => 2 + 3 * w
    case Finished(_) => 4 + 3 * w
  }

  /** The step that brings a CPU closer to acting on a request to stop. */
  function Towards(x: Cpu, c: nat): Event {
    match x.pc
    case Waiting => WaitCommon(c)
    case Top => CannotRun(c)
    case Guest => ExitGuest(c)
    case Flushing => if x.first == NULL then EndFlush(c) else Take(c)
    case Running(_) => FuncReturns(c)
    case Finished(_) => MarkDone(c)
  }

  lemma TowardsStop(s: State, c: nat)
    requires Inv(s) && s.io.Pausing? && c < |s.cpus| && !s.cpus[c].stopped
    ensures Enabled(s, Towards(s.cpus[c], c)) && Rank(s.cpus[c]) > 0
    ensures var s' := Step(s, Towards(s.cpus[c], c));
            && s' == s.(cpus := s.cpus[c := s'.cpus[c]]) && Inv(s')
            && (s'.cpus[c].stopped || 0 < Rank(s'.cpus[c]) < Rank(s.cpus[c]))
  {
    var x := s.cpus[c];
    assert CpuInv(x) && x.stop;
    var e := Towards(x, c);
    StepKeepsInv(s, e);
    var s' := Step(s, e);
    assert CpuInv(s'.cpus[c]);
  }

  /** Some steps of one CPU's thread alone make it stop. */
  lemma {:induction false} StopOne(s: State, c: nat) returns (es: seq<Event>)
    requires Inv(s) && s.io.Pausing? && c < |s.cpus|
    ensures EnabledAll(s, es)
    ensures var s' := Run(s, es);
            |s'.cpus| == |s.cpus| && s' == s.(cpus := s.cpus[c := s'.cpus[c]]) && s'.cpus[c].stopped && Inv(s')
    decreases if s.cpus[c].stopped then 0 else Rank(s.cpus[c])
  {
    hide Inv, Step, Enabled, Rank, Towards;
    if s.cpus[c].stopped {
      es := [];
    } else {
      TowardsStop(s, c);
      var e := Towards(s.cpus[c], c);
      var rest := StopOne(Step(s, e), c);
      es := [e] + rest;
      assert es[0] == e && es[1..] == rest;
    }
  }

  lemma {:induction false} RunAppends(s: State, a: seq<Event>, b: seq<Event>)
    requires EnabledAll(s, a) && EnabledAll(Run(s, a), b)
    ensures EnabledAll(s, a + b) && Run(s, a + b) == Run(Run(s, a), b)
    decreases |a|
  {
    hide Step, Enabled;
    if a == [] {
      assert a + b == b;
    } else {
      RunAppends(Step(s, a[0]), a[1..], b);
      assert (a + b)[0] == a[0] && (a + b)[1..] == a[1..] + b;
    }
  }

  lemma {:induction false} StopFirst(s: State, n: nat) returns (es: seq<Event>)
    requires Inv(s) && s.io.Pausing? && n <= |s.cpus|
    ensures EnabledAll(s, es)
    ensures var s' := Run(s, es);
            s'.io.Pausing? && Inv(s') && |s'.cpus| == |s.cpus| && forall c | 0 <= c < n :: s'.cpus[c].stopped
  {
    hide Inv, Step, Enabled;
    if n == 0 {
      es := [];
    } else {
      var a := StopFirst(s, n - 1);
      var b := StopOne(Run(s, a), n - 1);
      RunAppends(s, a, b);
      es := a + b;
    }
  }

  /**
   Wherever the threads are while pause_all_vcpus waits, their own steps can
   bring it to return: no request is lost and no CPU is stuck.
   */
  lemma PauseCanComplete(s: State) returns (es: seq<Event>)
    requires Reachable(s) && s.io.Pausing?
    ensures EnabledAll(s, es) && Run(s, es).io.Paused?
  {
    hide Inv, Reachable;
    ReachableIsGood(s);
    var a := StopFirst(s, |s.cpus|);
    assert [SeePaused][1..] == [];
    RunAppends(s, a, [SeePaused]);
    es := a + [SeePaused];
  }

  // ----- entering the guest

  /** At the top of its loop a CPU enters the guest exactly when the VM runs and nothing holds the CPU back; else it waits. */
  lemma EntersGuestIff(s: State, c: nat)
    ensures Enabled(s, EnterGuest(c))
       <==> c < |s.cpus| && s.cpus[c].pc.Top? && !s.cpus[c].stop && !s.cpus[c].stopped && s.vmRunning
    ensures Enabled(s, CannotRun(c))
       <==> c < |s.cpus| && s.cpus[c].pc.Top? && (s.cpus[c].stop || s.cpus[c].stopped || !s.vmRunning)
    ensures Enabled(s, EnterGuest(c)) ==> Step(s, EnterGuest(c)) == s.(cpus := s.cpus[c := s.cpus[c].(pc := Guest)])
  {}

  /** What the I/O thread's steps do to every CPU: its flags, and nothing else. */
  lemma IoThreadSteps(s: State)
    ensures Enabled(s, PauseAll) ==>
              var s' := Step(s, PauseAll);
              && s'.io.Pausing? && s'.vmRunning == s.vmRunning && |s'.cpus| == |s.cpus|
              && forall c | 0 <= c < |s.cpus| :: s'.cpus[c] == s.cpus[c].(stop := true)
    ensures Enabled(s, ResumeAll) ==>
              var s' := Step(s, ResumeAll);
              && s'.io.Idle? && s'.vmRunning == s.vmRunning && |s'.cpus| == |s.cpus|
              && forall c | 0 <= c < |s.cpus| :: s'.cpus[c] == s.cpus[c].(stop := false, stopped := false)
    ensures Enabled(s, SeePaused) <==> s.io.Pausing? && forall c | 0 <= c < |s.cpus| :: s.cpus[c].stopped
    ensures forall on | Enabled(s, SetVmRunning(on)) :: Step(s, SetVmRunning(on)) == s.(vmRunning := on)
    ensures Enabled(s, PauseAll) == Enabled(s, ResumeAll) == Enabled(s, SetVmRunning(true)) == Enabled(s, SetVmRunning(false)) == !s.io.Pausing?
  {}

  /** How far a CPU is from the guest. */
  function ToGuest(x: Cpu): int {
    var w := |x.items| - |x.ran|;
    match x.pc
    case Guest => 0
    case Top => 1
    case Running(_) => 1 + 3 * w
    case Flushing => 2 + 3 * w
    case Finished(_) => 3 + 3 * w
    case Waiting => 3 + 3 * w
  }

  lemma TowardsGuest(s: State, c: nat) returns (e: Event)
    requires Inv(s) && s.vmRunning && c < |s.cpus| && !s.cpus[c].stop && !s.cpus[c].stopped && !s.cpus[c].pc.Guest?
    ensures Enabled(s, e)
    ensures var s' := Step(s, e);
            && Inv(s') && s' == s.(cpus := s.cpus[c := s'.cpus[c]]) && !s'.cpus[c].stop && !s'.cpus[c].stopped
            && 0 <= ToGuest(s'.cpus[c]) < ToGuest(s.cpus[c])
  {
    assert CpuInv(s.cpus[c]);
    e := if s.cpus[c].pc.Top? then EnterGuest(c) else Towards(s.cpus[c], c);
    StepKeepsInv(s, e);
    assert CpuInv(Step(s, e).cpus[c]);
  }

  lemma {:induction false} ReachesGuest(s: State, c: nat) returns (es: seq<Event>)
    requires Inv(s) && s.vmRunning && c < |s.cpus| && !s.cpus[c].stop && !s.cpus[c].stopped
    ensures EnabledAll(s, es) && |Run(s, es).cpus| == |s.cpus| && Run(s, es).cpus[c].pc.Guest?
    decreases ToGuest(s.cpus[c])
  {
    hide Inv, Step, Enabled, ToGuest;
    es := [];
    if !s.cpus[c].pc.Guest? {
      var e := TowardsGuest(s, c);
      var rest := ReachesGuest(Step(s, e), c);
      es := [e] + rest;
      assert es[1..] == rest;
    }
  }

  /** After resume_all_vcpus with the VM running, every CPU can get to run guest code, wherever its thread is. */
  lemma ResumedCanRun(s: State, c: nat) returns (es: seq<Event>)
    requires Reachable(s) && Enabled(s, ResumeAll) && s.vmRunning && c < |s.cpus|
    ensures EnabledAll(s, [ResumeAll] + es)
    ensures |Run(s, [ResumeAll] + es).cpus| == |s.cpus| && Run(s, [ResumeAll] + es).cpus[c].pc.Guest?
  {
    hide Inv, Reachable;
    ReachableIsGood(s);
    StepKeepsInv(s, ResumeAll);
    IoThreadSteps(s);
    es := ReachesGuest(Step(s, ResumeAll), c);
    assert ([ResumeAll] + es)[1..] == es;
  }

  // ----- queued work

  /** How far a CPU is from having run everything that waits. */
  function ToWork(x: Cpu): int {
    var w := |x.items| - |x.ran|;
    match x.pc
    case Running(_) => 2 + 3 * w
    case Flushing => 3 + 3 * w
    case Finished(_) => 4 + 3 * w
    case Waiting => 4 + 3 * w
    case Guest => 5 + 3 * w
    case Top => 6 + 3 * w
  }

  function NextStep(x: Cpu, c: nat, canRun: bool): Event {
    if x.pc.Top? && canRun then EnterGuest(c) else Towards(x, c)
  }

  lemma StepTowardsWork(x: Cpu, c: nat, id: nat, canRun: bool)
    requires CpuInv(x) && id < |x.items| && !x.items[id].done
    ensures var e := NextStep(x, c, canRun);
            && OfCpu(e) && e.c == c && InThread(x, e) && (e.EnterGuest? ==> canRun) && (e.CannotRun? ==> !canRun)
            && var y := CpuStep(x, e);
            && |y.items| == |x.items| && y.items[id].gone == x.items[id].gone && ToWork(y) < ToWork(x)
  {}

  lemma ToWorkIsNat(x: Cpu)
    requires CpuInv(x)
    ensures ToWork(x) >= 0
  {}

  lemma TowardsWork(s: State, c: nat, id: nat) returns (e: Event)
    requires Inv(s) && c < |s.cpus| && id < |s.cpus[c].items| && !s.cpus[c].items[id].done
    ensures Enabled(s, e)
    ensures var s' := Step(s, e);
            && Inv(s') && s' == s.(cpus := s.cpus[c := s'.cpus[c]]) && |s'.cpus[c].items| == |s.cpus[c].items|
            && s'.cpus[c].items[id].gone == s.cpus[c].items[id].gone && 0 <= ToWork(s'.cpus[c]) < ToWork(s.cpus[c])
  {
    hide Linked, RanInOrder, ToWork, NextStep, CpuStep, InThread;
    var x, canRun := s.cpus[c], CanRun(s, s.cpus[c]);
    assert CpuInv(x);
    e := NextStep(x, c, canRun);
    StepTowardsWork(x, c, id, canRun);
    StepKeepsInv(s, e);
    assert CpuInv(Step(s, e).cpus[c]);
    ToWorkIsNat(Step(s, e).cpus[c]);
  }

  lemma {:induction false} ReachesWork(s: State, c: nat, id: nat) returns (es: seq<Event>)
    requires Inv(s) && c < |s.cpus| && id < |s.cpus[c].items|
    ensures EnabledAll(s, es)
    ensures var s' := Run(s, es);
            && |s'.cpus| == |s.cpus| && |s'.cpus[c].items| == |s.cpus[c].items|
            && s'.cpus[c].items[id].done && s'.cpus[c].items[id].gone == s.cpus[c].items[id].gone
    decreases ToWork(s.cpus[c])
  {
    hide Inv, Step, Enabled, ToWork;
    es := [];
    if !s.cpus[c].items[id].done {
      var e := TowardsWork(s, c, id);
      var rest := ReachesWork(Step(s, e), c, id);
      es := [e] + rest;
      assert es[1..] == rest;
    }
  }

  /** Whatever the CPU is doing, stopped or not, its own steps can bring a queued function to be run and its caller to return. */
  lemma WorkCanComplete(s: State, c: nat, id: nat) returns (es: seq<Event>)
    requires Reachable(s) && c < |s.cpus| && id < |s.cpus[c].items| && !s.cpus[c].items[id].gone
    ensures EnabledAll(s, es) && Enabled(Run(s, es), Return(c, id))
  {
    hide Inv, Reachable;
    ReachableIsGood(s);
    es := ReachesWork(s, c, id);
  }

  /** The items whose memory a step reads or writes. */
  function Touched(x: Cpu, e: Event): set<int> {
    match e
    case Enqueue(_) => {|x.items|} + if x.first != NULL then {x.last} else {}
    case Take(_) => {x.first}
    case FuncReturns(_) => if x.pc.Running? then {x.pc.id} else {}
    case MarkDone(_) => if x.pc.Finished? then {x.pc.id} else {}
    case _ => {}
  }

  /** No step of any thread reads or writes an item that is done, so none touches the frame of a caller that has returned. */
  lemma DoneItemsAreNotTouched(s: State, e: Event, id: int)
    requires Reachable(s) && Enabled(s, e) && OfCpu(e) && id in Touched(s.cpus[e.c], e)
    ensures var x := s.cpus[e.c];
            (id == |x.items| && e.Enqueue?) || (IsItem(x, id) && !x.items[id].done && !x.items[id].gone)
  {
    hide Reachable;
    ReachableIsGood(s);
    assert CpuInv(s.cpus[e.c]);
  }

  /**
   In every reachable state the functions that have run on a CPU are the first
   arrivals, in order, each once; a caller that has returned had its function
   run; and when the list is empty and no function is running, all have run.
   */
  lemma WorkRunsOnceInOrder(s: State, c: nat)
    requires Reachable(s) && c < |s.cpus|
    ensures var x := s.cpus[c];
            && |x.ran| <= |x.items| && (forall i | 0 <= i < |x.ran| :: x.ran[i] == i)
            && (forall id | 0 <= id < |x.items| && x.items[id].gone :: id in x.ran)
            && (x.first == NULL && !x.pc.Running? ==> |x.ran| == |x.items|)
  {
    hide Reachable;
    ReachableIsGood(s);
    var x := s.cpus[c];
    assert CpuInv(x);
    forall id | 0 <= id < |x.items| && x.items[id].gone ensures id in x.ran {
      assert x.ran[id] == id;
    }
  }

  lemma StepOnlyAddsRuns(s: State, e: Event, c: nat)
    requires Enabled(s, e) && c < |s.cpus|
    ensures |Step(s, e).cpus| == |s.cpus| && s.cpus[c].ran <= Step(s, e).cpus[c].ran
    ensures |s.cpus[c].items| <= |Step(s, e).cpus[c].items|
  {}

  /** Two states of one CPU, the later one with more arrivals: what has run stays run. */
  lemma {:induction false} RanOnlyGrows(s: State, es: seq<Event>, c: nat)
    requires EnabledAll(s, es) && c < |s.cpus|
    ensures |Run(s, es).cpus| == |s.cpus| && s.cpus[c].ran <= Run(s, es).cpus[c].ran
    ensures |s.cpus[c].items| <= |Run(s, es).cpus[c].items|
    decreases |es|
  {
    hide Enabled, Step;
    if es != [] {
      StepOnlyAddsRuns(s, es[0], c);
      RanOnlyGrows(Step(s, es[0]), es[1..], c);
    }
  }
}
