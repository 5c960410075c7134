/**
 The completion protocol of bdrv_aio_multiwrite: requests are submitted one by
 one while completions of earlier ones may arrive at any moment, even inside a
 submission.  A counter with one dummy request decides when the callbacks run
 and the control block is freed.
 */
module MultiwriteCompletion {
  import opened Basics

  /** Where bdrv_aio_multiwrite stands. */
  datatype Phase =
    | Looping(i: nat)                  // about to submit request i, or to complete the dummy
    | InCall(i: nat, accepted: bool)   // inside bdrv_aio_writev for request i
    | Broken                           // a later submission failed; the dummy is still pending
    | Returned(ret: int)

  /**
   `count` requests left after merging, `users` original callbacks.  The fields
   of the control block, then what is known from outside: the requests in the
   driver, the results seen so far, the callbacks made, and how often the block
   was freed or used after that.
   */
  datatype State = State(count: nat, users: nat, phase: Phase,
                         error: int, numRequests: int,
                         inFlight: set<nat>, results: seq<int>,
                         calls: seq<(nat, int)>, frees: nat, lateUses: nat)

  datatype Event =
    | Call
    | Accept
    | CallReturns
    | CallFails
    | Complete(req: nat, ret: int)
    | FinishDummy

  function Init(count: nat, users: nat): State {
    State(count, users, Looping(0), 0, 1, {}, [], [], 0, 0)
  }

  /** The callbacks of multiwrite_user_cb, in order. */
  function UserCalls(users: nat, error: int): seq<(nat, int)> {
    seq(users, i => (i, error))
  }

  /** multiwrite_cb */
  function Callback(s: State, ret: int): State {
    var error := if ret < 0 && s.error == 0 then ret else s.error;
    var s' := s.(error := error, numRequests := s.numRequests - 1, results := s.results + [ret],
                 lateUses := s.lateUses + (if s.frees > 0 then 1 else 0));
    if s'.numRequests == 0 then
      s'.(calls := s.calls + UserCalls(s.users, error), frees := s.frees + 1)
    else s'
  }

  predicate Enabled(s: State, e: Event) {
    match e
    case Call => s.phase.Looping? && s.phase.i < s.count
    case Accept => s.phase.InCall? && !s.phase.accepted
    case CallReturns => s.phase.InCall? && s.phase.accepted
    case CallFails => s.phase.InCall? && !s.phase.accepted
    case Complete(req, _) => req in s.inFlight
    case FinishDummy => s.phase.Broken? || (s.phase.Looping? && s.phase.i >= s.count)
  }

  function Step(s: State, e: Event): State
    requires Enabled(s, e)
  {
    match e
    case Call => s.(phase := InCall(s.phase.i, false), numRequests := s.numRequests + 1)
    case Accept => s.(phase := InCall(s.phase.i, true), inFlight := s.inFlight + {s.phase.i})
    case CallReturns => s.(phase := Looping(s.phase.i + 1))
    case CallFails =>
      if s.phase.i == 0 then s.(phase := Returned(-1), frees := s.frees + 1)
      else Callback(s, -EIO).(phase := Broken)
    case Complete(req, ret) => Callback(s.(inFlight := s.inFlight - {req}), ret)
    case FinishDummy => Callback(s, 0).(phase := Returned(0))
  }

  // ----- the invariant

  /** The first negative result, or 0. */
  function FirstError(results: seq<int>): int {
    if results == [] then 0
    else
      var before := FirstError(results[..|results| - 1]);
      var last := results[|results| - 1];
      if before == 0 && last < 0 then last else before
  }

  function Pending(p: Phase): nat {
    match p
    case Looping(_) => 1
    case InCall(_, accepted) => if accepted then 1 else 2
    case Broken => 1
    case Returned(_) => 0
  }

  /** Requests that have been handed to the driver have smaller numbers than those that have not. */
  function Submitted(p: Phase, count: nat): nat {
    match p
    case Looping(i) => i
    case InCall(i, accepted) => if accepted then i + 1 else i
    case _ => count
  }

  ghost predicate Good(s: State) {
    && s.error == FirstError(s.results) && s.lateUses == 0
    && (s.phase != Returned(-1) ==> s.numRequests == |s.inFlight| + Pending(s.phase))
    && (s.phase == Returned(-1) ==> s.inFlight == {} && s.frees == 1 && s.calls == [] && s.results == [])
    && (s.phase != Returned(-1) ==>
          if s.numRequests == 0 then s.frees == 1 && s.calls == UserCalls(s.users, s.error)
          else s.frees == 0 && s.calls == [])
    && (s.phase.Returned? ==> s.phase.ret == 0 || s.phase.ret == -1)
    && (forall r | r in s.inFlight :: r < Submitted(s.phase, s.count))
    && ((s.phase == Looping(0) || (s.phase.InCall? && s.phase.i == 0 && !s.phase.accepted)) ==> s.inFlight == {} && s.results == [])
    && (s.phase.InCall? ==> s.phase.i < s.count) && (s.phase.Looping? ==> s.phase.i <= s.count)
  }

  lemma FirstErrorNext(results: seq<int>, ret: int)
    ensures FirstError(results + [ret]) == if ret < 0 && FirstError(results) == 0 then ret else FirstError(results)
  {
    assert (results + [ret])[..|results|] == results;
  }

  /** A completion while something is still counted: one less, and at zero the callbacks run and the block goes. */
  lemma CallbackKeepsCount(s: State, ret: int)
    requires s.error == FirstError(s.results) && s.lateUses == 0 && s.frees == 0 && s.calls == []
    ensures var s' := Callback(s, ret);
            && s'.error == FirstError(s'.results) && s'.lateUses == 0 && s'.numRequests == s.numRequests - 1
            && (if s'.numRequests == 0 then s'.frees == 1 && s'.calls == UserCalls(s.users, s'.error)
                else s'.frees == 0 && s'.calls == [])
  {
    FirstErrorNext(s.results, ret);
    assert [] + UserCalls(s.users, Callback(s, ret).error) == UserCalls(s.users, Callback(s, ret).error);
  }

  lemma StepKeepsGood(s: State, e: Event)
    requires Good(s) && Enabled(s, e)
    ensures Good(Step(s, e))
  {
    hide FirstError, UserCalls, Callback;
    match e
    case Call =>
    case Accept =>
    case CallReturns =>
    case CallFails =>
      if s.phase.i != 0 {
        CallbackKeepsCount(s, -EIO);
        CallbackFrame(s, -EIO);
      }
    case Complete(req, ret) =>
      var s1 := s.(inFlight := s.inFlight - {req});
      CallbackKeepsCount(s1, ret);
      CallbackFrame(s1, ret);
    case FinishDummy =>
      CallbackKeepsCount(s, 0);
      CallbackFrame(s, 0);
  }

  lemma CallbackFrame(s: State, ret: int)
    ensures var s' := Callback(s, ret);
            s'.inFlight == s.inFlight && s'.phase == s.phase && s'.users == s.users && s'.count == s.count
  {}

  // ----- whole runs

  predicate EnabledAll(s: State, es: seq<Event>)
    decreases |es|
  {
    es == [] || (Enabled(s, es[0]) && EnabledAll(Step(s, es[0]), es[1..]))
  }

  function Run(s: State, es: seq<Event>): State
    requires EnabledAll(s, es)
    decreases |es|
  {
    if es == [] then s else Run(Step(s, es[0]), es[1..])
  }

  lemma {:induction false} RunKeepsGood(s: State, es: seq<Event>)
    requires Good(s) && EnabledAll(s, es)
    ensures Good(Run(s, es)) && Run(s, es).users == s.users
    decreases |es|
  {
    hide Good, Enabled, Step;
    if es != [] {
      StepKeepsGood(s, es[0]);
      StepKeepsUsers(s, es[0]);
      RunKeepsGood(Step(s, es[0]), es[1..]);
    }
  }

  lemma StepKeepsUsers(s: State, e: Event)
    requires Enabled(s, e)
    ensures Step(s, e).users == s.users
  {}

  // ----- which error is reported

  /** A completion with a negative result, or a submission that fails. */
  predicate Fails(e: Event) { (e.Complete? && e.ret < 0) || e.CallFails? }

  function FailureOf(e: Event): int
    requires Fails(e)
  {
    if e.Complete? then e.ret else -EIO
  }

  /** The error is that of the first event that fails, or 0 if none does. */
  ghost predicate FirstFailure(es: seq<Event>, error: int) {
    || (error == 0 && forall k | 0 <= k < |es| :: !Fails(es[k]))
    || exists k | 0 <= k < |es| :: Fails(es[k]) && error == FailureOf(es[k]) && forall j | 0 <= j < k :: !Fails(es[j])
  }

  lemma {:induction false} ErrorFollows(s: State, es: seq<Event>)
    requires EnabledAll(s, es) && Run(s, es).phase != Returned(-1)
    ensures if s.error != 0 then Run(s, es).error == s.error else FirstFailure(es, Run(s, es).error)
    decreases |es|
  {
    hide FirstError, UserCalls, FirstFailure;
    if es == [] {
      NothingFails(s.error);
    } else {
      var s1 := Step(s, es[0]);
      if s1.phase == Returned(-1) {
        EarlyReturnStays(s1, es[1..]);
      }
      ErrorFollows(s1, es[1..]);
      OneEventMore(es, Run(s, es).error);
    }
  }

  lemma NothingFails(error: int)
    ensures error == 0 ==> FirstFailure([], error)
  {}

  lemma OneEventMore(es: seq<Event>, error: int)
    requires es != []
    ensures Fails(es[0]) && error == FailureOf(es[0]) ==> FirstFailure(es, error)
    ensures !Fails(es[0]) && FirstFailure(es[1..], error) ==> FirstFailure(es, error)
  {
    if !Fails(es[0]) && FirstFailure(es[1..], error) {
      if k :| 0 <= k < |es[1..]| && Fails(es[1..][k]) && error == FailureOf(es[1..][k]) && forall j | 0 <= j < k :: !Fails(es[1..][j]) {
        assert Fails(es[k + 1]) && forall j | 0 < j < k + 1 :: es[j] == es[1..][j - 1];
      } else {
        assert forall j | 0 < j < |es| :: es[j] == es[1..][j - 1];
      }
    }
  }

  lemma {:induction false} EarlyReturnStays(s: State, es: seq<Event>)
    requires s.phase == Returned(-1) && EnabledAll(s, es)
    ensures Run(s, es).phase == Returned(-1)
    decreases |es|
  {
    hide FirstError, UserCalls;
    if es != [] {
      EarlyReturnStays(Step(s, es[0]), es[1..]);
    }
  }

  /**
   For every interleaving of submissions and completions: a multiwrite that
   returned 0 has called every original callback exactly once, in order, with
   the error of the first event that failed, as soon as nothing is in flight
   any more, and none before that; the control block is freed exactly then,
   once, and never used afterwards.  One that returned -1 calls nothing and
   frees the block once.
   */
  lemma CallbacksExactlyOnce(count: nat, users: nat, es: seq<Event>)
    requires EnabledAll(Init(count, users), es)
    ensures var s := Run(Init(count, users), es);
            && s.lateUses == 0 && s.frees <= 1
            && (s.phase == Returned(0) && s.inFlight == {} ==>
                  && |s.calls| == users && (forall i | 0 <= i < users :: s.calls[i] == (i, s.error))
                  && FirstFailure(es, s.error) && s.frees == 1)
            && (s.phase == Returned(-1) ==> s.calls == [] && s.inFlight == {} && s.frees == 1)
            && (!s.phase.Returned? || s.inFlight != {} ==> s.calls == [] && s.frees == 0)
            && (s.phase.Returned? ==> s.phase.ret == 0 || s.phase.ret == -1)
  {
    hide UserCalls, FirstError, FirstFailure, Callback, Step;
    FirstErrorOfNothing();
    RunKeepsGood(Init(count, users), es);
    var s := Run(Init(count, users), es);
    assert s.phase == Returned(0) && s.inFlight == {} ==> s.numRequests == 0;
    EachUserCalled(users, s.error);
    if s.phase != Returned(-1) {
      ErrorFollows(Init(count, users), es);
    }
  }

  lemma EachUserCalled(users: nat, error: int)
    ensures |UserCalls(users, error)| == users && forall i | 0 <= i < users :: UserCalls(users, error)[i] == (i, error)
  {}

  lemma FirstErrorOfNothing()
    ensures FirstError([]) == 0
  {}

  /** The first submission failing is the only way to return -1, and nothing has been submitted then. */
  lemma EarlyFailureSubmitsNothing(s: State, e: Event)
    requires Good(s) && Enabled(s, e) && Step(s, e).phase == Returned(-1) && s.phase != Returned(-1)
    ensures e == CallFails && s.phase == InCall(0, false) && s.results == []
  {
    hide UserCalls, FirstError;
  }

  lemma {:induction false} RunAppends(s: State, es: seq<Event>, e: Event)
    requires EnabledAll(s, es) && Enabled(Run(s, es), e)
    ensures EnabledAll(s, es + [e]) && Run(s, es + [e]) == Step(Run(s, es), e)
    decreases |es|
  {
    hide Enabled, Step;
    if es == [] {
      assert es + [e] == [e] && [e][1..] == [];
    } else {
      assert (es + [e])[0] == es[0] && (es + [e])[1..] == es[1..] + [e];
      RunAppends(Step(s, es[0]), es[1..], e);
    }
  }

  // ----- the code

  /** The control block, the callbacks made on its behalf, and a record of the run it takes part in. */
  class Multiwrite {
    var error: int
    var numRequests: int
    const users: nat
    const count: nat
    var calls: seq<(nat, int)>
    var inFlight: set<nat>      // what the driver holds
    ghost var trace: seq<Event>

    ghost function Now(): State
      requires EnabledAll(Init(count, users), trace)
      reads this
    {
      Run(Init(count, users), trace)
    }

    /** The fields are those of a state that the trace reaches. */
    ghost predicate Valid()
      reads this
    {
      && EnabledAll(Init(count, users), trace)
      && error == Now().error && numRequests == Now().numRequests && calls == Now().calls
      && inFlight == Now().inFlight
    }

    constructor (count: nat, users: nat)
      ensures Valid() && trace == [] && this.count == count && this.users == users
    {
      this.count, this.users := count, users;
      error, numRequests, calls, inFlight, trace := 0, 1, [], {}, [];
    }

    /** multiwrite_user_cb */
    method UserCallbacks()
      modifies this`calls
      ensures |calls| == |old(calls)| + users && calls[..|old(calls)|] == old(calls)
      ensures forall i | 0 <= i < users :: calls[|old(calls)| + i] == (i, error)
    {
      var i: nat := 0;
      while i < users
        invariant 0 <= i <= users && |calls| == |old(calls)| + i && calls[..|old(calls)|] == old(calls)
        invariant forall j | 0 <= j < i :: calls[|old(calls)| + j] == (j, error)
      {
        calls := calls + [(i, error)];
        i := i + 1;
      }
    }

    /** multiwrite_cb, called when the requests `done` leave the driver, as part of event e. */
    method Completed(ret: int, done: set<nat>, ghost e: Event)
      requires Valid() && Enabled(Now(), e) && Now().frees == 0
      requires match e
               case Complete(req, r) => ret == r && done == {req}
               case FinishDummy => ret == 0 && done == {}
               case CallFails => ret == -EIO && done == {} && Now().phase.i > 0
               case _ => false
      modifies this
      ensures Valid() && trace == old(trace) + [e] && Now() == Step(old(Now()), e)
      ensures error == (if ret < 0 && old(error) == 0 then ret else old(error)) && numRequests == old(numRequests) - 1
      ensures numRequests != 0 ==> calls == old(calls)
      ensures numRequests == 0 ==> |calls| == |old(calls)| + users && calls[..|old(calls)|] == old(calls)
                                   && forall i | 0 <= i < users :: calls[|old(calls)| + i] == (i, error)
    {
      hide Run, EnabledAll, UserCalls;
      RunAppends(Init(count, users), trace, e);
      UsersAreUsers(count, users, trace);
      inFlight := inFlight - done;
      if ret < 0 && error == 0 {
        error := ret;
      }
      numRequests := numRequests - 1;
      if numRequests == 0 {
        UserCallbacks();
        EachUserCalled(users, error);
        assert calls == old(calls) + UserCalls(users, error);
      }
      trace := trace + [e];
    }

    /** The driver completes some of the requests it holds, in any order and with any results. */
    method SomeCompletions()
      requires Valid() && Good(Now())
      modifies this
      ensures Valid() && Good(Now()) && Now().phase == old(Now()).phase
    {
      hide Run, EnabledAll, Callback;
      var more: bool := *;
      while more && inFlight != {}
        invariant Valid() && Good(Now()) && Now().phase == old(Now()).phase
        decreases |inFlight|
      {
        var req :| req in inFlight;
        var ret: int := *;
        ghost var e := Complete(req, ret);
        StepKeepsGood(Now(), e);
        InFlightIsCounted(Now());
        CallbackFrame(Now().(inFlight := Now().inFlight - {req}), ret);
        Completed(ret, {req}, e);
        more := *;
      }
    }

    /** bdrv_aio_writev: before it returns, the driver may take the request and complete it and others. */
    method Writev(i: nat) returns (accepted: bool)
      requires Valid() && Good(Now()) && Now().phase == InCall(i, false)
      modifies this
      ensures Valid() && Good(Now()) && Now().phase == InCall(i, accepted)
    {
      hide Run, EnabledAll, Callback, Good;
      SomeCompletions();
      accepted := *;
      if accepted {
        StepKeepsGood(Now(), Accept);
        RunAppends(Init(count, users), trace, Accept);
        inFlight := inFlight + {i};
        trace := trace + [Accept];
        SomeCompletions();
      }
    }

    /**
     bdrv_aio_multiwrite after the merge.  The result and the state of the
     callbacks are those of a run of the protocol that has returned.
     */
    method Submit() returns (ret: int)
      requires Valid() && trace == []
      modifies this
      ensures Valid() && Good(Now()) && Now().phase == Returned(ret)
      ensures ret == 0 || ret == -1
      ensures ret == -1 ==> calls == [] && inFlight == {}
      ensures ret == 0 && inFlight != {} ==> calls == []
      ensures ret == 0 && inFlight == {} ==> |calls| == users && forall i | 0 <= i < users :: calls[i] == (i, error)
    {
      hide Run, EnabledAll, Callback, UserCalls, FirstError;
      StartIsGood(count, users);
      var i := 0;
      var broken := false;
      while i < count
        invariant Valid() && Good(Now()) && 0 <= i && Now().phase == Looping(i) && !broken
        decreases count - i
      {
        UsersAreUsers(count, users, trace);
        StepKeepsGood(Now(), Call);
        RunAppends(Init(count, users), trace, Call);
        numRequests := numRequests + 1;
        trace := trace + [Call];
        var accepted := Writev(i);
        if !accepted {
          StepKeepsGood(Now(), CallFails);
          if i == 0 {
            RunAppends(Init(count, users), trace, CallFails);
            trace := trace + [CallFails];
            return -1;
          }
          Completed(-EIO, {}, CallFails);
          broken := true;
          break;
        }
        StepKeepsGood(Now(), CallReturns);
        RunAppends(Init(count, users), trace, CallReturns);
        trace := trace + [CallReturns];
        i := i + 1;
      }
      UsersAreUsers(count, users, trace);
      StepKeepsGood(Now(), FinishDummy);
      Completed(0, {}, FinishDummy);
      UsersAreUsers(count, users, trace);
      EachUserCalled(users, error);
      ret := 0;
    }
  }

  lemma StartIsGood(count: nat, users: nat)
    ensures Good(Init(count, users)) && Run(Init(count, users), []) == Init(count, users)
  {}

  lemma {:induction false} UsersAreUsers(count: nat, users: nat, es: seq<Event>)
    requires EnabledAll(Init(count, users), es)
    ensures Run(Init(count, users), es).users == users && Run(Init(count, users), es).count == count
  {
    hide Good, Step;
    RunKeepsShape(Init(count, users), es);
  }

  lemma {:induction false} RunKeepsShape(s: State, es: seq<Event>)
    requires EnabledAll(s, es)
    ensures Run(s, es).users == s.users && Run(s, es).count == s.count
    decreases |es|
  {
    if es != [] {
      RunKeepsShape(Step(s, es[0]), es[1..]);
    }
  }

  lemma InFlightIsCounted(s: State)
    requires Good(s) && s.inFlight != {}
    ensures s.frees == 0
  {}
}
