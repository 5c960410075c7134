/**
 A whole bdrv_aio_multiwrite: the requests are joined, submitted and completed
 in any order.  What the disk holds when the callbacks report success.
 */
module MultiwriteDisk {
  import opened Bits
  import opened IoVector
  import opened MultiwriteMerge
  import C = MultiwriteCompletion

  // ----- the joined requests do not meet

  ghost predicate Apart(ws: seq<Extent>) {
    forall i, j | 0 <= i < j < |ws| :: End(ws[i]) <= ws[j].off
  }

  lemma {:induction false} MergedApart(rs: seq<Extent>, joins: seq<bool>, n: nat)
    requires 0 < n <= |rs| == |joins| && Sorted(rs) && TouchingJoined(rs, joins)
    ensures Apart(Merged(rs, joins, n))
  {
    hide Apart, Gap, TakeUpTo;
    if n == 1 {
      OneIsApart(rs[0]);
    } else {
      MergedApart(rs, joins, n - 1);
      var before := Merged(rs, joins, n - 1);
      var k := |before| - 1;
      if joins[n - 1] {
        ReplacedStaysApart(before, MultiwriteMerge.Join(before[k], rs[n - 1]));
      } else {
        OneMoreApart(before, rs[n - 1]);
      }
    }
  }

  lemma OneIsApart(w: Extent)
    ensures Apart([w])
  {}

  lemma ReplacedStaysApart(ws: seq<Extent>, w: Extent)
    requires ws != [] && Apart(ws) && w.off == ws[|ws| - 1].off
    ensures Apart(ws[..|ws| - 1] + [w])
  {}

  lemma OneMoreApart(ws: seq<Extent>, w: Extent)
    requires ws != [] && Apart(ws) && End(ws[|ws| - 1]) <= w.off
    ensures Apart(ws + [w])
  {
    var n := |ws| - 1;
    forall i, j | 0 <= i < j < |ws + [w]| ensures End((ws + [w])[i]) <= (ws + [w])[j].off {
      if i < n && j == n + 1 {
        assert End(ws[i]) <= ws[n].off <= End(ws[n]);
      }
    }
  }

  // ----- so that their order does not matter

  /** The writes in the order given by their numbers. */
  function InOrder(ws: seq<Extent>, order: seq<nat>): (r: seq<Extent>)
    requires forall k | 0 <= k < |order| :: order[k] < |ws|
    ensures |r| == |order|
  {
    if order == [] then [] else InOrder(ws, order[..|order| - 1]) + [ws[order[|order| - 1]]]
  }

  lemma {:induction false} ByteInOrder(ws: seq<Extent>, order: seq<nat>, x: nat, init: Byte)
    requires Apart(ws) && forall k | 0 <= k < |order| :: order[k] < |ws|
    ensures forall i: nat | i < |ws| && Covers(ws[i], x) ::
              ByteAfter(InOrder(ws, order), x, init) == if i in order then ws[i].bytes[x - ws[i].off] else init
    ensures (forall i | 0 <= i < |ws| :: !Covers(ws[i], x)) ==> ByteAfter(InOrder(ws, order), x, init) == init
    decreases |order|
  {
    if order != [] {
      var n := |order| - 1;
      ByteInOrder(ws, order[..n], x, init);
      var front := InOrder(ws, order[..n]);
      assert (front + [ws[order[n]]])[..n] == front;
      forall i: nat | i < |ws| && Covers(ws[i], x)
        ensures ByteAfter(InOrder(ws, order), x, init) == if i in order then ws[i].bytes[x - ws[i].off] else init
      {
        if Covers(ws[order[n]], x) {
          OnlyOneCovers(ws, i, order[n], x);
        }
        assert order == order[..n] + [order[n]];
      }
    }
  }

  lemma OnlyOneCovers(ws: seq<Extent>, i: nat, j: nat, x: nat)
    requires Apart(ws) && i < |ws| && j < |ws| && Covers(ws[i], x) && Covers(ws[j], x)
    ensures i == j
  {}

  /** All the requests 0 .. count, and no others. */
  ghost predicate Complete(order: seq<nat>, count: nat) {
    && (forall k | 0 <= k < |order| :: order[k] < count)
    && forall i: nat | i < count :: i in order
  }

  lemma AnyOrderWritesTheSame(ws: seq<Extent>, order: seq<nat>, order': seq<nat>, x: nat, init: Byte)
    requires Apart(ws) && Complete(order, |ws|) && Complete(order', |ws|)
    ensures ByteAfter(InOrder(ws, order), x, init) == ByteAfter(InOrder(ws, order'), x, init)
  {
    hide ByteAfter, InOrder;
    ByteInOrder(ws, order, x, init);
    ByteInOrder(ws, order', x, init);
    if i: nat :| i < |ws| && Covers(ws[i], x) {
      assert i in order && i in order';
    }
  }

  lemma {:induction false} PlainOrder(ws: seq<Extent>, n: nat)
    requires n <= |ws|
    ensures InOrder(ws, seq(n, i => i)) == ws[..n]
  {
    if n > 0 {
      PlainOrder(ws, n - 1);
      assert seq(n, i => i)[..n - 1] == seq(n - 1, i => i);
    }
  }

  // ----- which requests have completed

  /** The requests in the order of their completions. */
  function Done(es: seq<C.Event>): seq<nat> {
    if es == [] then [] else (if es[0].Complete? then [es[0].req] else []) + Done(es[1..])
  }

  /** Without an error, what has been submitted is in flight or has completed. */
  ghost predicate Tracks(s: C.State, done: seq<nat>) {
    && (forall k | 0 <= k < |done| :: done[k] < C.Submitted(s.phase, s.count))
    && (s.phase != C.Returned(-1) ==> forall i: nat | i < C.Submitted(s.phase, s.count) :: i in s.inFlight || i in done)
    && !s.phase.Broken?
  }

  lemma {:induction false} ErrorStays(s: C.State, es: seq<C.Event>)
    requires C.EnabledAll(s, es) && s.error != 0
    ensures C.Run(s, es).error != 0
    decreases |es|
  {
    if es != [] {
      ErrorStays(C.Step(s, es[0]), es[1..]);
    }
  }

  lemma StepTracks(s: C.State, done: seq<nat>, e: C.Event)
    requires C.Good(s) && C.Enabled(s, e) && Tracks(s, done) && C.Step(s, e).error == 0
    ensures Tracks(C.Step(s, e), done + if e.Complete? then [e.req] else [])
    ensures C.Step(s, e).count == s.count
  {
    hide C.FirstError, C.UserCalls;
    var s' := C.Step(s, e);
    var done' := done + if e.Complete? then [e.req] else [];
    assert forall i :: i in done' <==> i in done || (e.Complete? && i == e.req);
  }

  lemma {:induction false} RunTracks(s: C.State, done: seq<nat>, es: seq<C.Event>)
    requires C.Good(s) && C.EnabledAll(s, es) && Tracks(s, done) && C.Run(s, es).error == 0
    ensures Tracks(C.Run(s, es), done + Done(es)) && C.Run(s, es).count == s.count
    decreases |es|
  {
    hide C.Good, C.Enabled, C.Step, Tracks;
    if es == [] {
      assert done + Done(es) == done;
    } else {
      var s1 := C.Step(s, es[0]);
      if s1.error != 0 {
        ErrorStays(s1, es[1..]);
      }
      C.StepKeepsGood(s, es[0]);
      StepTracks(s, done, es[0]);
      var now := if es[0].Complete? then [es[0].req] else [];
      RunTracks(s1, done + now, es[1..]);
      assert done + now + Done(es[1..]) == done + Done(es);
    }
  }

  /**
   When a multiwrite that returned 0 calls the callbacks with success, every
   joined request has completed; and the disk then holds, in whatever order
   they completed, what the requests ask for, exactly when the merge loses
   nothing.
   */
  lemma MultiwriteWritesDisk(rs: seq<Extent>, joins: seq<bool>, users: nat, es: seq<C.Event>)
    requires 0 < |rs| == |joins| && Sorted(rs) && TouchingJoined(rs, joins)
    requires C.EnabledAll(C.Init(|Merged(rs, joins, |rs|)|, users), es)
    requires var s := C.Run(C.Init(|Merged(rs, joins, |rs|)|, users), es);
             s.phase == C.Returned(0) && s.inFlight == {} && forall k | 0 <= k < |es| :: !C.Fails(es[k])
    ensures var calls := C.Run(C.Init(|Merged(rs, joins, |rs|)|, users), es).calls;
            |calls| == users && forall i | 0 <= i < users :: calls[i] == (i, 0)
    ensures Complete(Done(es), |Merged(rs, joins, |rs|)|)
    ensures (forall x: nat, init: Byte ::
               ByteAfter(InOrder(Merged(rs, joins, |rs|), Done(es)), x, init) == Wanted(rs, joins, |rs|, x, init))
       <==> !LosesBytes(rs, joins)
  {
    hide Merged, LosesBytes, Wanted, ByteAfter, C.EnabledAll, C.Run, C.FirstError, C.UserCalls, InOrder, Apart, Done;
    var m := Merged(rs, joins, |rs|);
    var s0 := C.Init(|m|, users);
    C.CallbacksExactlyOnce(|m|, users, es);
    InitIsGood(|m|, users);
    C.RunKeepsGood(s0, es);
    RunTracks(s0, [], es);
    assert [] + Done(es) == Done(es);
    MergedApart(rs, joins, |rs|);
    var plain: seq<nat> := seq(|m|, i => i);
    PlainOrder(m, |m|);
    assert m[..|m|] == m;
    forall i: nat | i < |m| ensures i in plain {
      assert plain[i] == i;
    }
    forall x: nat, init: Byte ensures ByteAfter(InOrder(m, Done(es)), x, init) == ByteAfter(m, x, init) {
      AnyOrderWritesTheSame(m, Done(es), plain, x, init);
    }
    MergeKeepsMeaningIff(rs, joins);
  }

  lemma InitIsGood(count: nat, users: nat)
    ensures C.Good(C.Init(count, users)) && Tracks(C.Init(count, users), [])
  {}
}
