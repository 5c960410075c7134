/**
 The rate-limited buffered stream.  The backend is a script of answers, one
 for each call: a positive number is how many bytes it takes at most, -EAGAIN
 means not now, anything else is an error; past its end every call fails.
 */
module BufferedFile {
  import opened Basics
  import opened Bits

  datatype Stop = Done | Again | Failed | Limited

  /** What a loop of calls achieves: the bytes taken, why it ended, the rest of the script. */
  datatype Drained = Drained(moved: nat, stop: Stop, script: seq<int>)

  /** Offers n bytes until all are taken; under a limit, not once more than `limit` have gone out since the last tick. */
  function Drain(n: nat, limited: bool, xfer: nat, limit: nat, script: seq<int>): (r: Drained)
    ensures r.moved <= n && |r.script| <= |script|
    ensures r.stop.Done? <==> r.moved == n
    decreases |script|
  {
    if n == 0 then Drained(0, Done, script)
    else if limited && xfer > limit then Drained(0, Limited, script)
    else if script == [] then Drained(0, Failed, [])
    else if script[0] == -EAGAIN then Drained(0, Again, script[1..])
    else if script[0] <= 0 then Drained(0, Failed, script[1..])
    else
      var k := Min(script[0], n);
      var rest := Drain(n - k, limited, xfer + k, limit, script[1..]);
      Drained(k + rest.moved, rest.stop, rest.script)
  }

  /** QEMUFileBuffered, the backend's script and all it has been given; `ready` counts the calls of put_ready. */
  datatype State = State(buffer: seq<Byte>, capacity: nat, bytesXfer: nat, xferLimit: nat, freeze: bool, hasError: bool,
                         script: seq<int>, sent: seq<Byte>, ready: nat)

  function Append(s: State, buf: seq<Byte>): State {
    var room := s.capacity - |s.buffer|;
    s.(capacity := if |buf| > room then s.capacity + |buf| + 1024 else s.capacity, buffer := s.buffer + buf)
  }

  function Flush(s: State): State {
    if s.hasError then s
    else
      var o := Drain(|s.buffer|, false, 0, 0, s.script);
      s.(sent := s.sent + s.buffer[..o.moved], buffer := s.buffer[o.moved..], script := o.script,
         freeze := s.freeze || o.stop.Again?, hasError := o.stop.Failed?)
  }

  /** The bytes of a put that go straight to the backend. */
  function Direct(s: State, buf: seq<Byte>): Drained {
    if s.freeze then Drained(0, Again, s.script) else Drain(|buf|, true, s.bytesXfer, s.xferLimit, s.script)
  }

  datatype PutResult = PutResult(s: State, ret: int)

  function PutBuffer(s: State, buf: seq<Byte>, pos: int): PutResult {
    if s.hasError then PutResult(s, -EINVAL)
    else
      var s1 := Flush(s.(freeze := false));
      var o := Direct(s1, buf);
      assert o.moved <= |buf|;
      var s2 := s1.(sent := s1.sent + buf[..o.moved], script := o.script, bytesXfer := s1.bytesXfer + o.moved,
                    freeze := s1.freeze || o.stop.Again?, hasError := s1.hasError || o.stop.Failed?);
      var s3 := if o.stop.Failed? then s2 else Append(s2, buf[o.moved..]);
      var s4 := if pos == 0 && buf == [] && s3.bytesXfer <= s3.xferLimit then s3.(ready := s3.ready + 1) else s3;
      PutResult(s4, if o.stop.Failed? then -EINVAL else |buf|)
  }

  /** Flushes again and again, waiting when the backend is not ready, until nothing is left or an error comes. */
  function Close(s: State): State
    decreases if s.hasError then 0 else 1 + |s.script|
  {
    if s.hasError || s.buffer == [] then s
    else
      FlushConsumes(s);
      Close(Flush(s))
  }

  lemma FlushConsumes(s: State)
    requires !s.hasError && s.buffer != []
    ensures |Flush(s).script| < |s.script| || Flush(s).hasError
  {
    hide Drain;
    OfferUsesScript(|s.buffer|, s.script);
  }

  lemma OfferUsesScript(n: nat, script: seq<int>)
    requires n > 0
    ensures var o := Drain(n, false, 0, 0, script); |o.script| < |script| || o.stop.Failed?
  {
    if script != [] && script[0] > 0 {
      var rest := Drain(n - Min(script[0], n), false, Min(script[0], n), 0, script[1..]);
      assert |rest.script| < |script|;
    }
  }

  function RateTick(s: State): State {
    if s.hasError then Close(s)
    else if s.freeze then s
    else var s1 := Flush(s.(bytesXfer := 0)); s1.(ready := s1.ready + 1)
  }

  const SIZE_MAX: nat := 0xFFFF_FFFF_FFFF_FFFF

  function SetRateLimit(s: State, rate: nat): State {
    if s.hasError then s else s.(xferLimit := Min(rate, SIZE_MAX) / 10)
  }

  // ----- histories

  datatype Op = Put(buf: seq<Byte>, pos: int) | Tick | SetRate(rate: nat)

  function Apply(s: State, op: Op): State {
    match op
    case Put(buf, pos) => PutBuffer(s, buf, pos).s
    case Tick => RateTick(s)
    case SetRate(rate) => SetRateLimit(s, rate)
  }

  function ApplyAll(s: State, ops: seq<Op>): State
    decreases |ops|
  {
    if ops == [] then s else ApplyAll(Apply(s, ops[0]), ops[1..])
  }

  function Given(op: Op): seq<Byte> { if op.Put? then op.buf else [] }

  /** All bytes put, in order. */
  function Accepted(ops: seq<Op>): seq<Byte> {
    if ops == [] then [] else Given(ops[0]) + Accepted(ops[1..])
  }

  /** What the backend has, and behind it what waits. */
  function Stream(s: State): seq<Byte> { s.sent + s.buffer }

  predicate Fits(s: State) { |s.buffer| <= s.capacity }

  lemma FlushKeepsStream(s: State)
    ensures Stream(Flush(s)) == Stream(s) && s.sent <= Flush(s).sent
    ensures Fits(s) ==> Fits(Flush(s))
    ensures s.hasError ==> Flush(s).hasError
    ensures !Flush(s).hasError && !Flush(s).freeze ==> Flush(s).buffer == []
    ensures Flush(s).bytesXfer == s.bytesXfer && Flush(s).xferLimit == s.xferLimit
  {
    hide Drain;
    var o := Drain(|s.buffer|, false, 0, 0, s.script);
    NeverLimited(|s.buffer|, s.script);
    assert s.buffer[..o.moved] + s.buffer[o.moved..] == s.buffer;
    assert s.sent + s.buffer[..o.moved] + s.buffer[o.moved..] == s.sent + s.buffer;
  }

  lemma {:induction false} NeverLimited(n: nat, script: seq<int>)
    ensures !Drain(n, false, 0, 0, script).stop.Limited?
  {
    DrainUnlimited(n, 0, script);
  }

  lemma {:induction false} DrainUnlimited(n: nat, xfer: nat, script: seq<int>)
    ensures !Drain(n, false, xfer, 0, script).stop.Limited?
    decreases |script|
  {
    if n > 0 && script != [] && script[0] > 0 {
      DrainUnlimited(n - Min(script[0], n), xfer + Min(script[0], n), script[1..]);
    }
  }

  /** A put without error adds its bytes at the end of the stream and reports them all. */
  lemma PutExtendsStream(s: State, buf: seq<Byte>, pos: int)
    ensures var r := PutBuffer(s, buf, pos);
            && (!r.s.hasError ==> Stream(r.s) == Stream(s) + buf && r.ret == |buf|)
            && (s.hasError ==> r.s == s && r.ret == -EINVAL)
            && (Fits(s) ==> Fits(r.s)) && s.sent <= r.s.sent
  {
    hide Drain, Flush;
    if !s.hasError {
      var s1 := Flush(s.(freeze := false));
      FlushKeepsStream(s.(freeze := false));
      var o := Direct(s1, buf);
      assert buf[..o.moved] + buf[o.moved..] == buf;
      if !s1.hasError {
        if s1.freeze {
          assert s1.sent + buf[..0] == s1.sent && buf[0..] == buf;
          assert s1.sent + (s1.buffer + buf) == Stream(s1) + buf;
        } else {
          assert s1.buffer == [];
          assert (s1.sent + buf[..o.moved]) + ([] + buf[o.moved..]) == s1.sent + (buf[..o.moved] + buf[o.moved..]);
        }
      }
    }
  }

  lemma {:induction false} CloseKeepsStream(s: State)
    ensures Stream(Close(s)) == Stream(s) && (Fits(s) ==> Fits(Close(s)))
    ensures !Close(s).hasError ==> Close(s).buffer == []
    ensures s.hasError ==> Close(s) == s
    decreases if s.hasError then 0 else 1 + |s.script|
  {
    hide Flush;
    if !s.hasError && s.buffer != [] {
      FlushConsumes(s);
      FlushKeepsStream(s);
      CloseKeepsStream(Flush(s));
    }
  }

  /** A close that meets no error has given the backend everything that was accepted. */
  lemma CloseDeliversAll(s: State)
    ensures !Close(s).hasError ==> Close(s).sent == Stream(s)
  {
    hide Close;
    CloseKeepsStream(s);
    assert Close(s).sent + [] == Close(s).sent;
  }

  lemma ApplyExtendsStream(s: State, op: Op)
    ensures s.hasError ==> Apply(s, op).hasError
    ensures !Apply(s, op).hasError ==> Stream(Apply(s, op)) == Stream(s) + Given(op)
    ensures Fits(s) ==> Fits(Apply(s, op))
  {
    hide Flush, Close, PutBuffer;
    match op
    case Put(buf, pos) => PutExtendsStream(s, buf, pos);
    case Tick =>
      FlushKeepsStream(s.(bytesXfer := 0));
      CloseKeepsStream(s);
      assert Stream(s) + [] == Stream(s);
    case SetRate(_) => assert Stream(s) + [] == Stream(s);
  }

  /**
   For every history and every backend: while no error has been seen, the
   bytes given to the backend followed by the buffer are exactly the bytes
   accepted, in order; and the buffer never outgrows its capacity.
   */
  lemma {:induction false} NothingLostOrReordered(s: State, ops: seq<Op>)
    requires Fits(s)
    ensures Fits(ApplyAll(s, ops))
    ensures !ApplyAll(s, ops).hasError ==> !s.hasError && Stream(ApplyAll(s, ops)) == Stream(s) + Accepted(ops)
    decreases |ops|
  {
    hide Apply, Stream;
    if ops == [] {
      assert Stream(s) + [] == Stream(s);
    } else {
      var s1 := Apply(s, ops[0]);
      ApplyExtendsStream(s, ops[0]);
      NothingLostOrReordered(s1, ops[1..]);
      assert Stream(s) + Given(ops[0]) + Accepted(ops[1..]) == Stream(s) + (Given(ops[0]) + Accepted(ops[1..]));
    }
  }

  // ----- the rate limit

  lemma {:induction false} DrainOvershoot(n: nat, xfer: nat, limit: nat, script: seq<int>)
    ensures var o := Drain(n, true, xfer, limit, script);
            xfer + o.moved <= limit + n || o.moved == 0
    decreases |script|
  {
    if n > 0 && xfer <= limit && script != [] && script[0] > 0 {
      var k := Min(script[0], n);
      DrainOvershoot(n - k, xfer + k, limit, script[1..]);
    }
  }

  lemma PutOvershoot(s: State, buf: seq<Byte>, pos: int)
    ensures var s' := PutBuffer(s, buf, pos).s;
            s'.xferLimit == s.xferLimit && (s'.bytesXfer == s.bytesXfer || s'.bytesXfer <= s.xferLimit + |buf|)
  {
    hide Drain, Flush;
    if !s.hasError {
      FlushKeepsStream(s.(freeze := false));
      var s1 := Flush(s.(freeze := false));
      DrainOvershoot(|buf|, s1.bytesXfer, s1.xferLimit, s1.script);
    }
  }

  /** Within the limit, or above it by no more than the length of a single put. */
  ghost predicate WithinOnePut(s: State, ops: seq<Op>) {
    s.bytesXfer <= s.xferLimit || exists i | 0 <= i < |ops| && ops[i].Put? :: s.bytesXfer <= s.xferLimit + |ops[i].buf|
  }

  /** Between two ticks, whatever the number of puts, the direct bytes exceed the limit by at most one put. */
  lemma {:induction false} OvershootAtMostOnePut(s: State, ops: seq<Op>)
    requires s.bytesXfer <= s.xferLimit && forall i | 0 <= i < |ops| :: ops[i].Put?
    ensures ApplyAll(s, ops).xferLimit == s.xferLimit && WithinOnePut(ApplyAll(s, ops), ops)
  {
    OvershootFrom(s, [], ops);
    assert [] + ops == ops;
  }

  lemma {:induction false} OvershootFrom(s: State, before: seq<Op>, ops: seq<Op>)
    requires WithinOnePut(s, before) && forall i | 0 <= i < |ops| :: ops[i].Put?
    ensures ApplyAll(s, ops).xferLimit == s.xferLimit && WithinOnePut(ApplyAll(s, ops), before + ops)
    decreases |ops|
  {
    hide PutBuffer;
    if ops == [] {
      assert before + ops == before;
    } else {
      var op := ops[0];
      PutOvershoot(s, op.buf, op.pos);
      var s1 := Apply(s, op);
      var more := before + [op];
      assert more[|before|] == op && forall i | 0 <= i < |before| :: more[i] == before[i];
      assert WithinOnePut(s1, more);
      OvershootFrom(s1, more, ops[1..]);
      assert more + ops[1..] == before + ops;
    }
  }

  // ----- what the backend's answers do

  lemma {:induction false} UnlimitedIsUncounted(n: nat, xfer: nat, script: seq<int>)
    ensures Drain(n, false, xfer, 0, script) == Drain(n, false, 0, 0, script)
    decreases |script|
  {
    if n > 0 && script != [] && script[0] > 0 {
      var k := Min(script[0], n);
      UnlimitedIsUncounted(n - k, xfer + k, script[1..]);
      UnlimitedIsUncounted(n - k, k, script[1..]);
    }
  }

  /**
   A flush, answer by answer: nothing is offered after an error or without
   waiting bytes; -EAGAIN freezes the output and ends the flush; any other
   answer that is not positive is an error; and a positive one takes so many
   bytes from the front, and the flush goes on.
   */
  lemma FlushAnswers(s: State)
    ensures s.hasError || s.buffer == [] ==> Flush(s) == s
    ensures !s.hasError && s.buffer != [] ==>
              if s.script == [] then Flush(s) == s.(hasError := true)
              else
                var rest := s.(script := s.script[1..]);
                if s.script[0] == -EAGAIN then Flush(s) == rest.(freeze := true)
                else if s.script[0] <= 0 then Flush(s) == rest.(hasError := true)
                else
                  var k := Min(s.script[0], |s.buffer|);
                  Flush(s) == Flush(rest.(sent := s.sent + s.buffer[..k], buffer := s.buffer[k..]))
  {
    hide Flush, Drain;
    FlushStops(s);
    if !s.hasError && s.buffer != [] && s.script != [] && s.script[0] > 0 {
      FlushGoesOn(s, Min(s.script[0], |s.buffer|));
    }
  }

  lemma FlushStops(s: State)
    ensures s.hasError || s.buffer == [] ==> Flush(s) == s
    ensures !s.hasError && s.buffer != [] && s.script == [] ==> Flush(s) == s.(hasError := true)
    ensures !s.hasError && s.buffer != [] && s.script != [] && s.script[0] <= 0 ==>
              Flush(s) == if s.script[0] == -EAGAIN then s.(script := s.script[1..], freeze := true)
                          else s.(script := s.script[1..], hasError := true)
  {
    assert s.sent + s.buffer[..0] == s.sent;
  }

  lemma FlushGoesOn(s: State, k: nat)
    requires !s.hasError && s.buffer != [] && s.script != [] && s.script[0] > 0 && k == Min(s.script[0], |s.buffer|)
    ensures Flush(s) == Flush(s.(script := s.script[1..], sent := s.sent + s.buffer[..k], buffer := s.buffer[k..]))
  {
    hide Drain;
    FirstAnswer(|s.buffer|, k, s.script);
    var o := Drain(|s.buffer| - k, false, 0, 0, s.script[1..]);
    TwoParts(s.buffer, k, o.moved);
    assert s.sent + s.buffer[..k] + s.buffer[k..][..o.moved] == s.sent + s.buffer[..k + o.moved];
  }

  lemma TwoParts(b: seq<Byte>, k: nat, m: nat)
    requires k + m <= |b|
    ensures b[..k] + b[k..][..m] == b[..k + m] && b[k..][m..] == b[k + m..]
  {}

  lemma FirstAnswer(n: nat, k: nat, script: seq<int>)
    requires n > 0 && script != [] && script[0] > 0 && k == Min(script[0], n)
    ensures Drain(n, false, 0, 0, script) == Plus(k, Drain(n - k, false, 0, 0, script[1..]))
  {
    UnlimitedIsUncounted(n - k, k, script[1..]);
  }

  /**
   The direct part of a put, answer by answer: nothing is offered while the
   output is frozen, when all is taken, or once more than the limit has gone
   out; the rest as in a flush, and every byte taken counts.
   */
  lemma DirectAnswers(s: State, buf: seq<Byte>)
    ensures s.freeze ==> Direct(s, buf).moved == 0 && Direct(s, buf).stop.Again? && Direct(s, buf).script == s.script
    ensures !s.freeze && (buf == [] || s.bytesXfer > s.xferLimit) ==>
              Direct(s, buf).moved == 0 && Direct(s, buf).script == s.script && !Direct(s, buf).stop.Again? && !Direct(s, buf).stop.Failed?
    ensures !s.freeze && buf != [] && s.bytesXfer <= s.xferLimit ==>
              if s.script == [] then Direct(s, buf) == Drained(0, Failed, [])
              else
                var rest := s.script[1..];
                if s.script[0] == -EAGAIN then Direct(s, buf) == Drained(0, Again, rest)
                else if s.script[0] <= 0 then Direct(s, buf) == Drained(0, Failed, rest)
                else
                  var k := Min(s.script[0], |buf|);
                  Direct(s, buf) == Plus(k, Direct(s.(script := rest, bytesXfer := s.bytesXfer + k), buf[k..]))
  {}

  /**
   What a put does with the flush and with the bytes that go out directly: they
   follow what has been flushed and are counted, the others wait behind what
   waits, and the client is told when it put nothing at position 0.
   */
  lemma PutEffects(s: State, buf: seq<Byte>, pos: int)
    requires !s.hasError
    ensures var s1 := Flush(s.(freeze := false));
            var o := Direct(s1, buf);
            var r := PutBuffer(s, buf, pos);
            && o.moved <= |buf| && r.s.sent == s1.sent + buf[..o.moved] && r.s.bytesXfer == s.bytesXfer + o.moved
            && r.s.script == o.script && r.s.xferLimit == s.xferLimit
            && r.ret == (if o.stop.Failed? then -EINVAL else |buf|)
            && r.s.hasError == (s1.hasError || o.stop.Failed?) && r.s.freeze == (s1.freeze || o.stop.Again?)
            && r.s.buffer == (if o.stop.Failed? then s1.buffer else s1.buffer + buf[o.moved..])
            && r.s.ready == s.ready + if pos == 0 && buf == [] && s.bytesXfer <= s.xferLimit then 1 else 0
  {
    hide Drain;
    FlushKeepsStream(s.(freeze := false));
    if buf == [] {
      DirectAnswers(Flush(s.(freeze := false)), buf);
    }
  }

  /** What a tick does: the end of the file, nothing while frozen, or a new allowance, a flush and a call of the client. */
  lemma TickEffects(s: State)
    ensures s.hasError ==> RateTick(s) == s
    ensures !s.hasError && s.freeze ==> RateTick(s) == s
    ensures !s.hasError && !s.freeze ==> RateTick(s) == Flush(s).(bytesXfer := 0, ready := s.ready + 1)
  {
    hide Drain;
    if s.hasError {
      CloseKeepsStream(s);
    }
  }

  /** The operation tells the client that it may go on. */
  predicate CallsReady(s: State, op: Op) {
    && !s.hasError
    && match op
       case Put(buf, pos) => pos == 0 && buf == [] && s.bytesXfer <= s.xferLimit
       case Tick => !s.freeze
       case SetRate(_) => false
  }

  function ReadyCalls(s: State, ops: seq<Op>): nat
    decreases |ops|
  {
    if ops == [] then 0 else (if CallsReady(s, ops[0]) then 1 else 0) + ReadyCalls(Apply(s, ops[0]), ops[1..])
  }

  /** Over any history the client is called once for every operation that calls it, and never after an error. */
  lemma {:induction false} ReadyIsCounted(s: State, ops: seq<Op>)
    ensures ApplyAll(s, ops).ready == s.ready + ReadyCalls(s, ops)
    ensures s.hasError ==> ReadyCalls(s, ops) == 0
    decreases |ops|
  {
    hide PutBuffer, RateTick, Flush, Direct;
    if ops != [] {
      OneCall(s, ops[0]);
      ReadyIsCounted(Apply(s, ops[0]), ops[1..]);
    }
  }

  lemma OneCall(s: State, op: Op)
    ensures Apply(s, op).ready == s.ready + if CallsReady(s, op) then 1 else 0
    ensures s.hasError ==> Apply(s, op).hasError
  {
    hide Flush, Direct, PutBuffer, RateTick;
    ApplyExtendsStream(s, op);
    match op
    case Put(buf, pos) =>
      if s.hasError {
        PutExtendsStream(s, buf, pos);
      } else {
        PutEffects(s, buf, pos);
      }
    case Tick =>
      TickEffects(s);
      FlushKeepsReady(s);
    case SetRate(_) =>
  }

  lemma FlushKeepsReady(s: State)
    ensures Flush(s).ready == s.ready
  {}

  // ----- errors

  /**
   A put whose flush fails goes on to offer its own bytes and reports success:
   the backend gets them without the ones that were waiting before them.
   */
  lemma FailedFlushLetsPutOvertake(a: Byte, b: Byte)
    requires a != b
    ensures var s := State([a], 1, 0, 10, false, false, [0, 1], [], 0);
            var r := PutBuffer(s, [b], 7);
            r.ret == 1 && r.s.hasError && r.s.sent == [b] && !(r.s.sent <= Stream(s) + [b])
  {
    var s := State([a], 1, 0, 10, false, false, [0, 1], [], 0);
    var s1 := Flush(s);
    assert s1 == s.(hasError := true, script := [1]);
    assert Drain(1, true, 0, 10, [1]) == Drained(1, Done, []);
    var r := PutBuffer(s, [b], 7);
    assert r.s.sent == [b] && (Stream(s) + [b])[0] == a;
  }

  /** The put hands bytes of `buf` to the backend while bytes that were put before it still wait. */
  predicate Overtakes(s: State, buf: seq<Byte>) {
    var s1 := Flush(s.(freeze := false));
    !s.hasError && s1.buffer != [] && Direct(s1, buf).moved > 0
  }

  /** What the backend then has: an unfinished stretch of the waiting bytes, and bytes of the put right behind it. */
  lemma OvertakenIsLost(s: State, buf: seq<Byte>, pos: int)
    requires Overtakes(s, buf)
    ensures var r := PutBuffer(s, buf, pos);
            && r.s.hasError
            && exists i: nat, j: nat :: i < |s.buffer| && 0 < j <= |buf| && r.s.sent == s.sent + s.buffer[..i] + buf[..j]
  {
    hide Drain;
    var s0 := s.(freeze := false);
    var s1 := Flush(s0);
    FlushKeepsStream(s0);
    var i, j := Drain(|s.buffer|, false, 0, 0, s.script).moved, Direct(s1, buf).moved;
    assert i < |s.buffer| && PutBuffer(s, buf, pos).s.sent == s.sent + s.buffer[..i] + buf[..j];
  }

  /**
   Some backend lets a put overtake exactly when the file has seen no error,
   bytes are waiting, the put brings bytes, and the limit still allows one.
   */
  lemma OvertakingPossibleIff(s: State, buf: seq<Byte>)
    ensures (exists script: seq<int> :: Overtakes(s.(script := script), buf))
       <==> !s.hasError && s.buffer != [] && buf != [] && s.bytesXfer <= s.xferLimit
  {
    if !s.hasError && s.buffer != [] && buf != [] && s.bytesXfer <= s.xferLimit {
      var s0 := s.(script := [0, 1]);
      assert [0, 1][1..] == [1];
      assert Flush(s0.(freeze := false)).script == [1] && Flush(s0.(freeze := false)).buffer == s.buffer;
      assert Overtakes(s0, buf);
    }
    forall script: seq<int> | Overtakes(s.(script := script), buf)
      ensures !s.hasError && s.buffer != [] && buf != [] && s.bytesXfer <= s.xferLimit
    {
      OvertakerIsAllowed(s.(script := script), buf);
    }
  }

  lemma OvertakerIsAllowed(s: State, buf: seq<Byte>)
    requires Overtakes(s, buf)
    ensures !s.hasError && s.buffer != [] && buf != [] && s.bytesXfer <= s.xferLimit
  {
    FlushKeepsStream(s.(freeze := false));
  }

  // ----- the end of the file

  /** A tick that finds the error flag closes the file, which stops the timer and frees it. */
  predicate Frees(s: State, op: Op) { op.Tick? && s.hasError }

  /** Some call of the history comes after the file has been freed; ticks do not, their timer is gone. */
  predicate UsedAfterFree(s: State, ops: seq<Op>)
    decreases |ops|
  {
    ops != [] && if Frees(s, ops[0]) then CallsIn(ops[1..]) else UsedAfterFree(Apply(s, ops[0]), ops[1..])
  }

  predicate CallsIn(ops: seq<Op>) { exists k | 0 <= k < |ops| :: !ops[k].Tick? }

  /** What decides, without the backend, whether an operation has to offer it bytes. */
  datatype View = View(waiting: bool, xfer: nat, limit: nat, frozen: bool)

  function ViewOf(s: State): View { View(s.buffer != [], s.bytesXfer, s.xferLimit, s.freeze) }

  predicate MustOffer(v: View, op: Op) {
    match op
    case Put(buf, _) => v.waiting || (buf != [] && v.xfer <= v.limit)
    case Tick => v.waiting && !v.frozen
    case SetRate(_) => false
  }

  /** What an operation that offers nothing leaves. */
  function Unoffered(v: View, op: Op): View {
    match op
    case Put(buf, _) => v.(waiting := buf != [], frozen := false)
    case Tick => if v.frozen then v else v.(xfer := 0)
    case SetRate(rate) => v.(limit := Min(rate, SIZE_MAX) / 10)
  }

  /** The first operation that has to offer bytes, or the number of operations. */
  function FirstOffer(v: View, ops: seq<Op>): nat
    decreases |ops|
  {
    if ops == [] || MustOffer(v, ops[0]) then 0 else 1 + FirstOffer(Unoffered(v, ops[0]), ops[1..])
  }

  /** A tick among the operations from `first` on, and a call after it. */
  ghost predicate TicksFrom(ops: seq<Op>, first: nat) {
    exists j, k | first <= j < k < |ops| :: ops[j].Tick? && !ops[k].Tick?
  }

  lemma OffersNothing(s: State, op: Op)
    requires !s.hasError && !MustOffer(ViewOf(s), op)
    ensures !Apply(s, op).hasError && ViewOf(Apply(s, op)) == Unoffered(ViewOf(s), op) && Apply(s, op).script == s.script
  {
    assert op.Put? ==> s.sent + s.buffer[..0] == s.sent;
  }

  lemma OfferFails(s: State, op: Op)
    requires !s.hasError && s.script == [] && MustOffer(ViewOf(s), op)
    ensures Apply(s, op).hasError
  {}

  lemma TicksShift(ops: seq<Op>, first: nat)
    requires ops != []
    ensures TicksFrom(ops, first + 1) <==> TicksFrom(ops[1..], first)
  {
    var rest := ops[1..];
    if TicksFrom(ops, first + 1) {
      var j, k :| first + 1 <= j < k < |ops| && ops[j].Tick? && !ops[k].Tick?;
      assert rest[j - 1].Tick? && !rest[k - 1].Tick?;
    }
    if TicksFrom(rest, first) {
      var j, k :| first <= j < k < |rest| && rest[j].Tick? && !rest[k].Tick?;
      assert ops[j + 1].Tick? && !ops[k + 1].Tick?;
    }
  }

  lemma FirstTick(ops: seq<Op>)
    requires ops != []
    ensures TicksFrom(ops, 0) <==> (if ops[0].Tick? then CallsIn(ops[1..]) else TicksFrom(ops[1..], 0))
  {
    var rest := ops[1..];
    TicksShift(ops, 0);
    if ops[0].Tick? && CallsIn(rest) {
      var k :| 0 <= k < |rest| && !rest[k].Tick?;
      assert ops[0].Tick? && !ops[k + 1].Tick?;
    }
    if TicksFrom(ops, 0) {
      var j, k :| 0 <= j < k < |ops| && ops[j].Tick? && !ops[k].Tick?;
      assert !rest[k - 1].Tick?;
    }
  }

  /** After an error the first tick frees the file, and a call behind it uses it. */
  lemma {:induction false} ErrorThenTick(s: State, ops: seq<Op>)
    requires s.hasError
    ensures UsedAfterFree(s, ops) <==> TicksFrom(ops, 0)
    decreases |ops|
  {
    hide Apply, CallsIn, TicksFrom;
    if ops == [] {
      NoTicks(0);
    } else {
      ApplyExtendsStream(s, ops[0]);
      ErrorThenTick(Apply(s, ops[0]), ops[1..]);
      FirstTick(ops);
    }
  }

  lemma NoTicks(first: nat)
    ensures !TicksFrom([], first)
  {}

  /** Without an error yet: only a tick behind the first offer can matter, and a backend that fails at once makes it matter. */
  lemma {:induction false} OfferThenTick(s: State, ops: seq<Op>)
    requires !s.hasError
    ensures UsedAfterFree(s, ops) ==> TicksFrom(ops, FirstOffer(ViewOf(s), ops) + 1)
    ensures s.script == [] && TicksFrom(ops, FirstOffer(ViewOf(s), ops) + 1) ==> UsedAfterFree(s, ops)
    decreases |ops|
  {
    hide Apply, MustOffer, Unoffered, CallsIn, TicksFrom;
    if ops == [] {
      NoTicks(FirstOffer(ViewOf(s), ops) + 1);
    } else {
      var s1, rest := Apply(s, ops[0]), ops[1..];
      TicksShift(ops, FirstOffer(ViewOf(s), ops));
      if MustOffer(ViewOf(s), ops[0]) {
        if s1.hasError {
          ErrorThenTick(s1, rest);
        } else {
          OfferThenTick(s1, rest);
          FewerTicks(rest, FirstOffer(ViewOf(s1), rest) + 1);
        }
        if s.script == [] {
          OfferFails(s, ops[0]);
        }
      } else {
        OffersNothing(s, ops[0]);
        OfferThenTick(s1, rest);
      }
    }
  }

  lemma FewerTicks(ops: seq<Op>, first: nat)
    ensures TicksFrom(ops, first) ==> TicksFrom(ops, 0)
  {}

  /**
   Some backend makes a history use the freed file exactly when a call comes
   behind a tick that comes behind an error the file already has, or behind the
   first operation that has to offer bytes.
   */
  lemma UsedAfterFreePossibleIff(s: State, ops: seq<Op>)
    ensures (exists script: seq<int> :: UsedAfterFree(s.(script := script), ops))
       <==> TicksFrom(ops, if s.hasError then 0 else FirstOffer(ViewOf(s), ops) + 1)
  {
    hide FirstOffer, UsedAfterFree, TicksFrom;
    forall script: seq<int> ensures UsedAfterFree(s.(script := script), ops)
                                 ==> TicksFrom(ops, if s.hasError then 0 else FirstOffer(ViewOf(s), ops) + 1) {
      OneBackend(s, script, ops);
    }
    OneBackend(s, [], ops);
    if TicksFrom(ops, if s.hasError then 0 else FirstOffer(ViewOf(s), ops) + 1) {
      assert UsedAfterFree(s.(script := []), ops);
    }
  }

  lemma OneBackend(s: State, script: seq<int>, ops: seq<Op>)
    ensures UsedAfterFree(s.(script := script), ops) ==> TicksFrom(ops, if s.hasError then 0 else FirstOffer(ViewOf(s), ops) + 1)
    ensures script == [] && TicksFrom(ops, if s.hasError then 0 else FirstOffer(ViewOf(s), ops) + 1)
         ==> UsedAfterFree(s.(script := script), ops)
  {
    hide FirstOffer, UsedAfterFree, TicksFrom;
    var s' := s.(script := script);
    assert ViewOf(s') == ViewOf(s);
    if s.hasError {
      ErrorThenTick(s', ops);
    } else {
      OfferThenTick(s', ops);
    }
  }

  /** One byte put on an idle file, a backend that fails, a tick, and another put: it finds the file freed. */
  lemma FreedFileIsUsed(a: Byte)
    ensures var s := State([], 0, 0, 10, false, false, [0], [], 0);
            UsedAfterFree(s, [Put([a], 7), Tick, Put([a], 8)])
  {
    var s := State([], 0, 0, 10, false, false, [0], [], 0);
    var ops := [Put([a], 7), Tick, Put([a], 8)];
    assert Drain(1, true, 0, 10, [0]) == Drained(0, Failed, []);
    assert Apply(s, ops[0]).hasError;
    assert ops[1..] == [Tick, Put([a], 8)] && ops[1..][1..] == [Put([a], 8)];
    assert !ops[1..][1..][0].Tick?;
    assert UsedAfterFree(Apply(s, ops[0]), ops[1..]);
  }

  // ----- the code

  /** The backend's answer to an offer of n bytes. */
  function Answer(script: seq<int>, n: nat): int {
    if script == [] then -1 else if script[0] > 0 then Min(script[0], n) else script[0]
  }

  function Plus(k: nat, d: Drained): Drained { d.(moved := k + d.moved) }

  class QemuFileBuffered {
    var buffer: array<Byte>
    var bufferSize: nat
    var bytesXfer: nat
    var xferLimit: nat
    var freezeOutput: bool
    var hasError: bool
    var ready: nat
    var script: seq<int>
    ghost var sent: seq<Byte>

    ghost predicate Valid()
      reads this
    {
      bufferSize <= buffer.Length
    }

    ghost function Value(): State
      requires Valid()
      reads this, buffer
    {
      State(buffer[..bufferSize], buffer.Length, bytesXfer, xferLimit, freezeOutput, hasError, script, sent, ready)
    }

    constructor (bytesPerSec: nat, script: seq<int>)
      ensures Valid() && fresh(buffer)
      ensures Value() == State([], 0, 0, bytesPerSec / 10, false, false, script, [], 0)
    {
      buffer := new Byte[0];
      bufferSize, bytesXfer, xferLimit, ready := 0, 0, bytesPerSec / 10, 0;
      freezeOutput, hasError, sent := false, false, [];
      this.script := script;
    }

    /** The put_buffer callback: the next answer of the script, for the n bytes behind the first `offset` of data. */
    method Backend(ghost data: seq<Byte>, ghost offset: nat, ghost before: seq<Byte>, n: nat) returns (ret: int)
      requires n > 0 && offset + n == |data| && sent == before + data[..offset]
      modifies this`script, this`sent
      ensures script == (if old(script) == [] then [] else old(script)[1..])
      ensures ret == Answer(old(script), n) <= n && (ret > 0 ==> |script| < |old(script)|)
      ensures sent == before + data[..if ret > 0 then offset + ret else offset]
    {
      if script == [] { return -1; }
      ret := if script[0] > 0 then Min(script[0], n) else script[0];
      script := script[1..];
      if ret > 0 {
        TakeMore(before, data, offset, ret);
        sent := sent + data[offset..][..ret];
      }
    }

    /** buffered_append */
    method AppendBytes(buf: seq<Byte>)
      requires Valid()
      modifies this`buffer, this`bufferSize, buffer
      ensures Valid() && Value() == Append(old(Value()), buf)
      ensures buffer[..bufferSize] == old(buffer[..bufferSize]) + buf
      ensures buffer.Length == old(buffer.Length) + if |buf| > old(buffer.Length - bufferSize) then |buf| + 1024 else 0
      ensures buffer == old(buffer) || fresh(buffer)
    {
      if |buf| > buffer.Length - bufferSize {
        var bigger := new Byte[buffer.Length + |buf| + 1024];
        forall i | 0 <= i < bufferSize {
          bigger[i] := buffer[i];
        }
        assert bigger[..bufferSize] == buffer[..bufferSize];
        buffer := bigger;
      }
      ghost var before := buffer[..bufferSize];
      forall i | 0 <= i < |buf| {
        buffer[bufferSize + i] := buf[i];
      }
      bufferSize := bufferSize + |buf|;
      assert buffer[..bufferSize] == before + buf;
    }

    /** The loop of buffered_flush, up to the number of bytes that went out. */
    method OfferBuffer(ghost data: seq<Byte>) returns (offset: nat)
      requires |data| == bufferSize && !hasError
      modifies this`freezeOutput, this`hasError, this`script, this`sent
      ensures var o := Drain(bufferSize, false, 0, 0, old(script));
              && offset == o.moved && script == o.script && hasError == o.stop.Failed?
              && freezeOutput == (old(freezeOutput) || o.stop.Again?) && sent == old(sent) + data[..offset]
    {
      hide Drain, Answer;
      offset := 0;
      ghost var all := Drain(|data|, false, 0, 0, script);
      while offset < bufferSize
        invariant 0 <= offset <= bufferSize && !hasError && freezeOutput == old(freezeOutput)
        invariant sent == old(sent) + data[..offset]
        invariant all == Plus(offset, Drain(|data| - offset, false, offset, 0, script))
        decreases |script|
      {
        DrainStep(|data| - offset, false, offset, 0, script);
        var ret := Backend(data, offset, old(sent), bufferSize - offset);
        if ret == -EAGAIN {
          freezeOutput := true;
          return;
        }
        if ret <= 0 {
          hasError := true;
          return;
        }
        offset := offset + ret;
      }
      DrainStep(0, false, offset, 0, script);
    }

    /** buffered_flush */
    method FlushBuffer()
      requires Valid()
      modifies this`bufferSize, this`freezeOutput, this`hasError, this`script, this`sent, buffer
      ensures Valid() && Value() == Flush(old(Value()))
    {
      hide Drain;
      if hasError { return; }
      ghost var data := buffer[..bufferSize];
      var offset := OfferBuffer(data);
      forall i | 0 <= i < bufferSize - offset {
        buffer[i] := buffer[offset + i];
      }
      bufferSize := bufferSize - offset;
      assert buffer[..bufferSize] == data[offset..];
    }

    /** The loop of buffered_put_buffer. */
    method OfferDirect(buf: seq<Byte>) returns (offset: int)
      requires Valid()
      modifies this`freezeOutput, this`hasError, this`script, this`sent, this`bytesXfer
      ensures var o := Direct(old(Value()), buf);
              && o.moved <= |buf| && offset == (if o.stop.Failed? then -EINVAL else o.moved)
              && sent == old(sent) + buf[..o.moved] && script == o.script && bytesXfer == old(bytesXfer) + o.moved
              && freezeOutput == (old(freezeOutput) || o.stop.Again?) && hasError == (old(hasError) || o.stop.Failed?)
    {
      hide Drain, Answer;
      offset := 0;
      ghost var all := Drain(|buf|, true, bytesXfer, xferLimit, script);
      while !freezeOutput && offset < |buf|
        invariant 0 <= offset <= |buf| && freezeOutput == old(freezeOutput) && hasError == old(hasError)
        invariant sent == old(sent) + buf[..offset] && bytesXfer == old(bytesXfer) + offset
        invariant freezeOutput ==> offset == 0 && script == old(script)
        invariant all == Plus(offset, Drain(|buf| - offset, true, bytesXfer, xferLimit, script))
        decreases |script|
      {
        DrainStep(|buf| - offset, true, bytesXfer, xferLimit, script);
        if bytesXfer > xferLimit { break; }
        var ret := Backend(buf, offset, old(sent), |buf| - offset);
        if ret == -EAGAIN {
          freezeOutput := true;
          break;
        }
        if ret <= 0 {
          hasError := true;
          offset := -EINVAL;
          return;
        }
        offset := offset + ret;
        bytesXfer := bytesXfer + ret;
      }
      DrainStep(0, true, bytesXfer, xferLimit, script);
    }

    /** buffered_put_buffer */
    method Put(buf: seq<Byte>, pos: int) returns (ret: int)
      requires Valid()
      modifies this, buffer
      ensures Valid() && PutResult(Value(), ret) == PutBuffer(old(Value()), buf, pos)
      ensures old(hasError) ==> ret == -EINVAL && Value() == old(Value())
      ensures ready == old(ready) + if !old(hasError) && pos == 0 && buf == [] && old(bytesXfer <= xferLimit) then 1 else 0
      ensures buffer == old(buffer) || fresh(buffer)
    {
      hide Flush, Drain, Append, Direct, PutBuffer;
      if hasError {
        PutExtendsStream(Value(), buf, pos);
        return -EINVAL;
      }
      PutEffects(Value(), buf, pos);
      PutParts(Value(), buf, pos);
      freezeOutput := false;
      assert Value() == old(Value()).(freeze := false);
      FlushBuffer();
      var offset := OfferDirect(buf);
      if offset >= 0 {
        AppendBytes(buf[offset..]);
        offset := |buf|;
      }
      if pos == 0 && |buf| == 0 {
        if bytesXfer <= xferLimit {
          ready := ready + 1;
        }
      }
      ret := offset;
    }

    /** The loop of buffered_close. */
    method CloseFile()
      requires Valid()
      modifies this`bufferSize, this`freezeOutput, this`hasError, this`script, this`sent, buffer
      ensures Valid() && Value() == Close(old(Value()))
    {
      hide Flush, Drain;
      while !hasError && bufferSize > 0
        invariant Valid() && Close(Value()) == Close(old(Value()))
        decreases if hasError then 0 else 1 + |script|
      {
        FlushConsumes(Value());
        FlushBuffer();
      }
    }

    /** buffered_rate_limit: whether the client should hold back; after an error it need not. */
    method RateLimited() returns (limited: bool)
      ensures limited <==> !hasError && (freezeOutput || bytesXfer > xferLimit)
    {
      if hasError { return false; }
      if freezeOutput { return true; }
      return bytesXfer > xferLimit;
    }

    /** buffered_set_rate_limit: a tenth of the rate for each of the ten ticks of a second; after an error nothing changes. */
    method ChangeRate(newRate: nat) returns (limit: nat)
      requires Valid()
      modifies this`xferLimit
      ensures Valid() && Value() == SetRateLimit(old(Value()), newRate)
      ensures limit == xferLimit == if hasError then old(xferLimit) else Min(newRate, SIZE_MAX) / 10
    {
      if !hasError {
        var rate := newRate;
        if rate > SIZE_MAX {
          rate := SIZE_MAX;
        }
        xferLimit := rate / 10;
      }
      return xferLimit;
    }

    /** buffered_rate_tick; on error the file is closed and `freed`. */
    method Tick() returns (freed: bool)
      requires Valid()
      modifies this`bufferSize, this`freezeOutput, this`hasError, this`script, this`sent, this`bytesXfer, this`ready, buffer
      ensures Valid() && Value() == RateTick(old(Value()))
      ensures freed == old(hasError)
      ensures ready == old(ready) + if !old(hasError) && !old(freezeOutput) then 1 else 0
      ensures old(freezeOutput) && !old(hasError) ==> Value() == old(Value())
      ensures !old(freezeOutput) && !old(hasError) ==> bytesXfer == 0
    {
      hide Flush, Drain, Close;
      FlushKeepsReady(Value());
      TickEffects(Value());
      freed := false;
      if hasError {
        CloseFile();
        freed := true;
        return;
      }
      if freezeOutput { return; }
      bytesXfer := 0;
      assert Value() == old(Value()).(bytesXfer := 0);
      FlushBuffer();
      ready := ready + 1;
    }
  }

  lemma PutParts(s: State, buf: seq<Byte>, pos: int)
    requires !s.hasError
    ensures var s1 := Flush(s.(freeze := false));
            var o := Direct(s1, buf);
            && o.moved <= |buf|
            && var s2 := s1.(sent := s1.sent + buf[..o.moved], script := o.script, bytesXfer := s1.bytesXfer + o.moved,
                             freeze := s1.freeze || o.stop.Again?, hasError := s1.hasError || o.stop.Failed?);
            var s3 := if o.stop.Failed? then s2 else Append(s2, buf[o.moved..]);
            var s4 := if pos == 0 && buf == [] && s3.bytesXfer <= s3.xferLimit then s3.(ready := s3.ready + 1) else s3;
            PutBuffer(s, buf, pos) == PutResult(s4, if o.stop.Failed? then -EINVAL else |buf|)
  {
    hide Flush, Drain;
  }

  lemma TakeMore(before: seq<Byte>, data: seq<Byte>, offset: nat, k: nat)
    requires offset + k <= |data|
    ensures (before + data[..offset]) + data[offset..][..k] == before + data[..offset + k]
  {
    assert data[..offset] + data[offset..][..k] == data[..offset + k];
  }

  /** One call to the backend. */
  lemma DrainStep(n: nat, limited: bool, xfer: nat, limit: nat, script: seq<int>)
    ensures var rest := if script == [] then [] else script[1..];
            var k := Answer(script, n);
            Drain(n, limited, xfer, limit, script) ==
              if n == 0 then Drained(0, Done, script)
              else if limited && xfer > limit then Drained(0, Limited, script)
              else if k == -EAGAIN then Drained(0, Again, rest)
              else if k <= 0 then Drained(0, Failed, rest)
              else Plus(k, Drain(n - k, limited, xfer + k, limit, rest))
  {}
}
