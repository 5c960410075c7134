/**
 What goes wrong in live block migration without its assumptions: reads of a
 chunk that complete out of order, a write from before the tracking that lands
 behind the read of its chunk, and a queue left undrained at stage 3; and a run
 that meets them.
 */
module BlockMigrationLimits {
  import opened Basics
  import opened BlockMigration
  import opened BlockMigrationExact
  import BlockSaver

  lemma RunCons(m: Mig, e: Event, es: seq<Event>)
    requires Possible(m, e) && PossibleAll(Step(m, e), es)
    ensures PossibleAll(m, [e] + es) && Run(m, [e] + es) == Run(Step(m, e), es)
  {
    hide Possible, Step;
    assert ([e] + es)[0] == e && ([e] + es)[1..] == es;
  }

  function Padding(): seq<Sector> { Blanks(CHUNK - 1) }

  /** A source of one device that has one sector. */
  function One(x: Sector, dirty: set<nat>, reading: set<nat>, bulk: nat, cursor: nat,
               flight: seq<Blk>, queue: seq<Blk>, sent: seq<Record>, writes: seq<Pending> := []): Mig {
    Mig([Dev([x], dirty, reading, bulk, cursor)], flight, queue, sent, writes)
  }

  const WAITING := Blk(0, 0, [], false, [])

  function Filled(x: Sector): Blk { Blk(0, 0, [x], true, Padding()) }

  lemma OneSectorSlice(x: Sector)
    ensures ChunkCount(1) == 1 && Slice([x], 0) == [x] && |Padding()| == CHUNK - 1
  {}

  lemma StartIsOne(x: Sector)
    ensures Start([[x]], []) == One(x, {}, {}, 0, 0, [], [], [])
  {}

  lemma OneBulkRead(x: Sector, writes: seq<Pending> := [])
    ensures var m := One(x, {}, {}, 0, 0, [], [], [], writes);
            Possible(m, BulkRead(0)) && Step(m, BulkRead(0)) == One(x, {}, {}, 1, 0, [WAITING], [], [], writes)
  {
    assert Min((0 + 1) * CHUNK, 1) == 1;
    var none: set<nat> := {};
    assert none - {0} == none;
    var x' := Dev([x], {}, {}, 1, 0);
    assert [Dev([x], {}, {}, 0, 0)][0 := x'] == [x'];
  }

  lemma OneReadDisk(x: Sector, dirty: set<nat>, reading: set<nat>, cursor: nat, before: seq<Blk>, queue: seq<Blk>,
                    writes: seq<Pending> := [])
    ensures var m := One(x, dirty, reading, 1, cursor, before + [WAITING], queue, [], writes);
            && Possible(m, ReadDisk(|before|, Padding()))
            && Step(m, ReadDisk(|before|, Padding())) == One(x, dirty, reading, 1, cursor, before + [Filled(x)], queue, [], writes)
  {
    hide Slice, Padding, ChunkCount;
    OneSectorSlice(x);
    assert (before + [WAITING])[|before| := Filled(x)] == before + [Filled(x)];
  }

  lemma OneWrite(x: Sector, y: Sector, flight: seq<Blk>, sent: seq<Record> := [])
    ensures var m := One(x, {}, {}, 1, 0, flight, [], sent);
            && Possible(m, SyncWrite(0, 0, [y]))
            && Step(m, SyncWrite(0, 0, [y])) == One(y, {0}, {}, 1, 0, flight, [], sent)
  {
    assert Overwrite([x], 0, [y]) == [y];
    assert Touches(0, 1, 0);
    assert TouchedChunks(0, 1, 1) == {0};
    var none: set<nat> := {};
    assert none + {0} == {0};
    var d' := Dev([y], {0}, {}, 1, 0);
    assert [Dev([x], {}, {}, 1, 0)][0 := d'] == [d'];
  }

  lemma OneDirtyRead(x: Sector, flight: seq<Blk>)
    ensures var m := One(x, {0}, {}, 1, 0, flight, [], []);
            Possible(m, DirtyRead(0)) && Step(m, DirtyRead(0)) == One(x, {}, {0}, 1, 0, flight + [WAITING], [], [])
  {
    var d' := Dev([x], {}, {0}, 1, 0);
    var none: set<nat>, first: set<nat> := {}, {0};
    assert first - {0} == none && none + {0} == first;
    assert [Dev([x], {0}, {}, 1, 0)][0 := d'] == [d'];
  }

  lemma OneReadDone(x: Sector, reading: set<nat>, i: nat, flight: seq<Blk>, queue: seq<Blk>, writes: seq<Pending> := [])
    requires i < |flight| && flight[i].read && flight[i].dev == 0 && flight[i].c == 0 && reading <= {0}
    ensures var m := One(x, {}, reading, 1, 0, flight, queue, [], writes);
            && Possible(m, ReadDone(i))
            && Step(m, ReadDone(i)) == One(x, {}, {}, 1, 0, flight[..i] + flight[i + 1..], queue + [flight[i]], [], writes)
  {
    var d' := Dev([x], {}, {}, 1, 0);
    assert reading - {0} == {};
    assert [Dev([x], {}, reading, 1, 0)][0 := d'] == [d'];
  }

  /** A bulk read that finishes after the dirty read of the same chunk. */
  function LateBulkRead(b: Sector): seq<Event> {
    [BulkRead(0)] + ([ReadDisk(0, Padding())] + ([SyncWrite(0, 0, [b])] + ([DirtyRead(0)] + ([ReadDisk(1, Padding())]
      + ([ReadDone(1)] + ([ReadDone(0)] + ([SendHead] + ([SendHead] + []))))))))
  }

  lemma SendBoth(x: Sector, a: Blk, b: Blk)
    ensures var m := One(x, {}, {}, 1, 0, [], [a, b], []);
            var es := [SendHead] + ([SendHead] + []);
            PossibleAll(m, es) && Run(m, es) == One(x, {}, {}, 1, 0, [], [], [RecordOf(a), RecordOf(b)])
  {
    var m := One(x, {}, {}, 1, 0, [], [a, b], []);
    var m' := Step(m, SendHead);
    assert m' == One(x, {}, {}, 1, 0, [], [b], [RecordOf(a)]);
    assert Step(m', SendHead) == One(x, {}, {}, 1, 0, [], [], [RecordOf(a), RecordOf(b)]);
    hide Step, Possible;
    assert Possible(m, SendHead) && Possible(m', SendHead);
    RunCons(m', SendHead, []);
    RunCons(m, SendHead, [SendHead] + []);
  }

  /** The two reads of the chunk complete, the later one first. */
  lemma CompleteBackwards(b: Sector, x: Blk, y: Blk)
    requires x.read && y.read && x.dev == y.dev == 0 && x.c == y.c == 0
    ensures var m := One(b, {}, {0}, 1, 0, [x, y], [], []);
            var es := [ReadDone(1)] + ([ReadDone(0)] + ([SendHead] + ([SendHead] + [])));
            PossibleAll(m, es) && Run(m, es) == One(b, {}, {}, 1, 0, [], [], [RecordOf(y), RecordOf(x)])
  {
    hide Step, Possible, Run, PossibleAll;
    OneReadDone(b, {0}, 1, [x, y], []);
    assert [x, y][..1] + [x, y][1 + 1..] == [x] && [] + [[x, y][1]] == [y];
    OneReadDone(b, {}, 0, [x], [y]);
    assert [x][..0] + [x][0 + 1..] == [] && [y] + [[x][0]] == [y, x];
    SendBoth(b, y, x);
    RunCons(One(b, {}, {}, 1, 0, [x], [y], []), ReadDone(0), [SendHead] + ([SendHead] + []));
    RunCons(One(b, {}, {0}, 1, 0, [x, y], [], []), ReadDone(1), [ReadDone(0)] + ([SendHead] + ([SendHead] + [])));
  }

  lemma LateRun(a: Sector, b: Sector)
    ensures PossibleAll(Start([[a]], []), LateBulkRead(b))
    ensures Run(Start([[a]], []), LateBulkRead(b))
         == One(b, {}, {}, 1, 0, [], [], [RecordOf(Filled(b)), RecordOf(Filled(a))])
  {
    hide Step, Possible, Run, PossibleAll, Padding, Start;
    var pad := Padding();
    var x, y := Filled(a), Filled(b);
    var s5 := [ReadDone(1)] + ([ReadDone(0)] + ([SendHead] + ([SendHead] + [])));
    var s4 := [ReadDisk(1, pad)] + s5;
    var s3 := [DirtyRead(0)] + s4;
    var s2 := [SyncWrite(0, 0, [b])] + s3;
    var s1 := [ReadDisk(0, pad)] + s2;
    CompleteBackwards(b, x, y);
    OneReadDisk(b, {}, {0}, 0, [x], []);
    assert [x] + [y] == [x, y];
    RunCons(One(b, {}, {0}, 1, 0, [x] + [WAITING], [], []), ReadDisk(1, pad), s5);
    OneDirtyRead(b, [x]);
    RunCons(One(b, {0}, {}, 1, 0, [x], [], []), DirtyRead(0), s4);
    OneWrite(a, b, [x]);
    RunCons(One(a, {}, {}, 1, 0, [x], [], []), SyncWrite(0, 0, [b]), s3);
    OneReadDisk(a, {}, {}, 0, [], []);
    assert [] + [WAITING] == [WAITING] && [] + [x] == [x];
    RunCons(One(a, {}, {}, 1, 0, [WAITING], [], []), ReadDisk(0, pad), s2);
    OneBulkRead(a);
    RunCons(One(a, {}, {}, 0, 0, [], [], []), BulkRead(0), s1);
    StartIsOne(a);
  }

  lemma LoadOne(z: Sector, x: Sector)
    ensures Load([[z]], RecordOf(Filled(x))) == [[x]]
  {
    var r := RecordOf(Filled(x));
    assert r.buf[..1] == [x];
    assert Overwrite([z], 0, [x]) == [x];
  }

  /**
   Without the order of completions the theorem fails: the bulk read of a
   chunk, still in flight when the chunk is written and read again, arrives
   last and brings back the old contents.
   */
  lemma LateBulkReadLosesWrite(a: Sector, b: Sector)
    requires a != b
    ensures PossibleAll(Start([[a]], []), LateBulkRead(b))
    ensures var m := Run(Start([[a]], []), LateBulkRead(b));
            && ReadyForStage3(m) && |m.devs| == 1 && m.devs[0].dirty == {} && m.devs[0].disk == [b]
            && LoadAll([[a]], m.sent) == [[a]]
  {
    hide Run, PossibleAll, Load, LoadAll;
    LateRun(a, b);
    var r1, r2 := RecordOf(Filled(b)), RecordOf(Filled(a));
    LoadAllAppends([[a]], [], r1);
    LoadAllAppends([[a]], [r1], r2);
    assert [] + [r1] == [r1] && [r1] + [r2] == [r1, r2];
    NothingLoaded([[a]]);
    LoadOne(a, b);
    LoadOne(b, a);
  }

  /** One bulk read, completed; then the cursor of stage 3 passes the clean chunk. */
  function UndrainedQueue(): seq<Event> {
    [BulkRead(0)] + ([ReadDisk(0, Padding())] + ([ReadDone(0)] + ([ResetCursors] + ([DirtySkip(0)] + []))))
  }

  lemma OneSkip(a: Sector, queue: seq<Blk>, sent: seq<Record>)
    ensures var m := One(a, {}, {}, 1, 0, [], queue, sent);
            && Possible(m, ResetCursors) && Step(m, ResetCursors) == m
            && Possible(m, DirtySkip(0)) && Step(m, DirtySkip(0)) == One(a, {}, {}, 1, CHUNK, [], queue, sent)
  {
    var d' := Dev([a], {}, {}, 1, CHUNK);
    assert [Dev([a], {}, {}, 1, 0)][0 := d'] == [d'];
  }

  lemma UndrainedRun(a: Sector)
    ensures PossibleAll(Start([[a]], []), UndrainedQueue())
    ensures Run(Start([[a]], []), UndrainedQueue()) == One(a, {}, {}, 1, CHUNK, [], [Filled(a)], [])
  {
    hide Step, Possible, Padding, Start;
    var pad := Padding();
    var x := Filled(a);
    var s3 := [DirtySkip(0)] + [];
    var s2 := [ResetCursors] + s3;
    var s1 := [ReadDone(0)] + s2;
    OneSkip(a, [x], []);
    RunCons(One(a, {}, {}, 1, 0, [], [x], []), DirtySkip(0), []);
    RunCons(One(a, {}, {}, 1, 0, [], [x], []), ResetCursors, s3);
    OneReadDone(a, {}, 0, [x], []);
    assert [x][..0] + [x][0 + 1..] == [] && [] + [[x][0]] == [x];
    RunCons(One(a, {}, {}, 1, 0, [x], [], []), ReadDone(0), s2);
    OneReadDisk(a, {}, {}, 0, [], []);
    assert [] + [WAITING] == [WAITING] && [] + [x] == [x];
    RunCons(One(a, {}, {}, 1, 0, [WAITING], [], []), ReadDisk(0, pad), s1);
    OneBulkRead(a);
    RunCons(One(a, {}, {}, 0, 0, [], [], []), BulkRead(0), [ReadDisk(0, pad)] + s1);
    StartIsOne(a);
  }

  /** Stage 3 with a read still in the queue: it is dropped, and its chunk never arrives. */
  lemma UndrainedQueueLosesChunk(a: Sector, z: Sector)
    requires a != z
    ensures PossibleAll(Start([[a]], []), UndrainedQueue())
    ensures var m := Run(Start([[a]], []), UndrainedQueue());
            && CursorsDone(m) && |m.devs| == 1 && m.devs[0].dirty == {} && m.flight == [] && m.queue != []
            && m.devs[0].disk == [a] && LoadAll([[z]], m.sent) == [[z]]
  {
    hide Run, PossibleAll;
    UndrainedRun(a);
  }

  // ----- a write from before the tracking

  const EARLY := Pending(0, 0, 1, false)

  /** The chunk is read and sent; then the early write lands and completes. */
  function LateLanding(b: Sector): seq<Event> {
    [BulkRead(0)] + ([ReadDisk(0, Padding())] + ([ReadDone(0)] + ([SendHead] + ([Land(0, 0, [b])] + ([CompleteWrite(0)] + [])))))
  }

  lemma OneLanding(a: Sector, b: Sector, sent: seq<Record>)
    ensures var m := One(a, {}, {}, 1, 0, [], [], sent, [EARLY]);
            && Possible(m, Land(0, 0, [b])) && Step(m, Land(0, 0, [b])) == One(b, {}, {}, 1, 0, [], [], sent, [EARLY])
  {
    assert Overwrite([a], 0, [b]) == [b];
    var d' := Dev([b], {}, {}, 1, 0);
    assert [Dev([a], {}, {}, 1, 0)][0 := d'] == [d'];
  }

  lemma OneCompletion(b: Sector, sent: seq<Record>)
    ensures var m := One(b, {}, {}, 1, 0, [], [], sent, [EARLY]);
            && Possible(m, CompleteWrite(0)) && Step(m, CompleteWrite(0)) == One(b, {}, {}, 1, 0, [], [], sent)
  {
    var none: set<nat> := {};
    assert none + {} == none;
    var d' := Dev([b], {}, {}, 1, 0);
    assert [d'][0 := d'] == [d'] && [EARLY][..0] + [EARLY][1..] == [];
  }

  lemma LateLandingRun(a: Sector, b: Sector)
    ensures PossibleAll(Start([[a]], [EARLY]), LateLanding(b))
    ensures Run(Start([[a]], [EARLY]), LateLanding(b)) == One(b, {}, {}, 1, 0, [], [], [RecordOf(Filled(a))])
  {
    hide Step, Possible, Padding, Run, PossibleAll;
    var pad := Padding();
    var x := Filled(a);
    var r := RecordOf(x);
    var s4 := [CompleteWrite(0)] + [];
    var s3 := [Land(0, 0, [b])] + s4;
    var s2 := [SendHead] + s3;
    var s1 := [ReadDone(0)] + s2;
    OneCompletion(b, [r]);
    NoEvents(One(b, {}, {}, 1, 0, [], [], [r]));
    RunCons(One(b, {}, {}, 1, 0, [], [], [r], [EARLY]), CompleteWrite(0), []);
    OneLanding(a, b, [r]);
    RunCons(One(a, {}, {}, 1, 0, [], [], [r], [EARLY]), Land(0, 0, [b]), s4);
    OneSend(a, x, [EARLY]);
    RunCons(One(a, {}, {}, 1, 0, [], [x], [], [EARLY]), SendHead, s3);
    OneReadDone(a, {}, 0, [x], [], [EARLY]);
    assert [x][..0] + [x][0 + 1..] == [] && [] + [[x][0]] == [x];
    RunCons(One(a, {}, {}, 1, 0, [x], [], [], [EARLY]), ReadDone(0), s2);
    OneReadDisk(a, {}, {}, 0, [], [], [EARLY]);
    assert [] + [WAITING] == [WAITING] && [] + [x] == [x];
    RunCons(One(a, {}, {}, 1, 0, [WAITING], [], [], [EARLY]), ReadDisk(0, pad), s1);
    OneBulkRead(a, [EARLY]);
    RunCons(One(a, {}, {}, 0, 0, [], [], [], [EARLY]), BulkRead(0), [ReadDisk(0, pad)] + s1);
    assert Start([[a]], [EARLY]) == One(a, {}, {}, 0, 0, [], [], [], [EARLY]);
  }

  /** A write that was in flight when tracking began, and landed behind the read of its chunk, is lost. */
  lemma EarlyWriteIsLost(a: Sector, b: Sector)
    requires a != b
    ensures AreEarly([[a]], [EARLY]) && PossibleAll(Start([[a]], [EARLY]), LateLanding(b))
    ensures var m := Run(Start([[a]], [EARLY]), LateLanding(b));
            && ReadyForStage3(m) && |m.devs| == 1 && m.devs[0].dirty == {} && m.devs[0].disk == [b]
            && LoadAll([[b]], m.sent) == [[a]]
  {
    hide Run, PossibleAll, Load, LoadAll;
    LateLandingRun(a, b);
    var r := RecordOf(Filled(a));
    LoadAllAppends([[b]], [], r);
    assert [] + [r] == [r];
    NothingLoaded([[b]]);
    LoadOne(b, a);
  }

  // ----- a read refused in stage 3

  /** The chunk is read and sent; then the guest writes it. */
  function WrittenAgain(b: Sector): seq<Event> {
    [BulkRead(0)] + ([ReadDisk(0, Padding())] + ([ReadDone(0)] + ([SendHead] + ([SyncWrite(0, 0, [b])] + []))))
  }

  /** The end of that run: the block is sent and the guest writes. */
  lemma SentThenWritten(a: Sector, b: Sector, x: Blk)
    ensures var m := One(a, {}, {}, 1, 0, [], [x], []);
            var es := [SendHead] + ([SyncWrite(0, 0, [b])] + []);
            && EnabledAll(m, es) && PossibleAll(m, es) && Run(m, es) == One(b, {0}, {}, 1, 0, [], [], [RecordOf(x)])
  {
    hide Step, Possible, InOrder, Run, PossibleAll, EnabledAll;
    NoEvents(One(b, {0}, {}, 1, 0, [], [], [RecordOf(x)]));
    OneWrite(a, b, [], [RecordOf(x)]);
    Cons(One(a, {}, {}, 1, 0, [], [], [RecordOf(x)]), SyncWrite(0, 0, [b]), []);
    OneSend(a, x);
    Cons(One(a, {}, {}, 1, 0, [], [x], []), SendHead, [SyncWrite(0, 0, [b])] + []);
  }

  lemma WrittenAgainRun(a: Sector, b: Sector)
    ensures EnabledAll(Start([[a]], []), WrittenAgain(b)) && PossibleAll(Start([[a]], []), WrittenAgain(b))
    ensures Run(Start([[a]], []), WrittenAgain(b)) == One(b, {0}, {}, 1, 0, [], [], [RecordOf(Filled(a))])
  {
    hide Step, Possible, InOrder, Run, PossibleAll, EnabledAll, Padding, Start;
    var pad := Padding();
    var x := Filled(a);
    var m1, m2, m3 := One(a, {}, {}, 1, 0, [WAITING], [], []), One(a, {}, {}, 1, 0, [x], [], []), One(a, {}, {}, 1, 0, [], [x], []);
    var s3 := [SendHead] + ([SyncWrite(0, 0, [b])] + []);
    var s2 := [ReadDone(0)] + s3;
    var s1 := [ReadDisk(0, pad)] + s2;
    SentThenWritten(a, b, x);
    OneReadDone(a, {}, 0, [x], []);
    assert [x][..0] + [x][0 + 1..] == [] && [] + [[x][0]] == [x];
    Cons(m2, ReadDone(0), s3);
    OneReadDisk(a, {}, {}, 0, [], []);
    assert [] + [WAITING] == [WAITING] && [] + [x] == [x];
    Cons(m1, ReadDisk(0, pad), s2);
    OneBulkRead(a);
    Cons(One(a, {}, {}, 0, 0, [], [], []), BulkRead(0), s1);
    StartIsOne(a);
  }

  /**
   All in order and ready for stage 3, with one dirty chunk.  If the device
   refuses its read, none of the chunks of the pass gets on the stream, whatever
   it answers afterwards, and the receiver is left with the old contents.
   */
  lemma RefusedReadLosesChunk(a: Sector, b: Sector, z: Sector, more: seq<bool>)
    requires a != b
    ensures EnabledAll(Start([[a]], []), WrittenAgain(b)) && PossibleAll(Start([[a]], []), WrittenAgain(b))
    ensures var m := Run(Start([[a]], []), WrittenAgain(b));
            && ReadyForStage3(m) && |m.devs| == 1 && m.devs[0].dirty == {0}
            && BlockSaver.AcceptedOf([false] + more, 1) == 0 && !Arrived(m, [[z]])
  {
    hide Run, PossibleAll, EnabledAll, Load, LoadAll;
    WrittenAgainRun(a, b);
    var r := RecordOf(Filled(a));
    LoadAllAppends([[z]], [], r);
    assert [] + [r] == [r];
    NothingLoaded([[z]]);
    LoadOne(z, a);
  }

  // ----- a run that meets the assumptions

  function OneChunk(): seq<Event> {
    [BulkRead(0)] + ([ReadDisk(0, Padding())] + ([ReadDone(0)] + ([SendHead] + [])))
  }

  lemma EnabledCons(m: Mig, e: Event, es: seq<Event>)
    requires Enabled(m, e) && EnabledAll(Step(m, e), es)
    ensures EnabledAll(m, [e] + es)
  {
    hide Possible, InOrder, Step;
    assert ([e] + es)[0] == e && ([e] + es)[1..] == es;
  }

  lemma InOrderHere(m: Mig, e: Event)
    requires Possible(m, e) && !e.SendDirty? && (e.ReadDone? ==> e.i == 0) && m.writes == []
    ensures Enabled(m, e)
  {}

  lemma OneSend(x: Sector, a: Blk, writes: seq<Pending> := [])
    ensures var m := One(x, {}, {}, 1, 0, [], [a], [], writes);
            Possible(m, SendHead) && Step(m, SendHead) == One(x, {}, {}, 1, 0, [], [], [RecordOf(a)], writes)
  {}

  /** One bulk read, completed and sent, then stage 3 over a clean device: every assumption of the theorem holds. */
  lemma OneChunkMigrates(a: Sector)
    ensures var m0 := Start([[a]], []);
            && EnabledAll(m0, OneChunk()) && PossibleAll(m0, OneChunk())
            && var m := Run(m0, OneChunk());
            && ReadyForStage3(m) && EnabledAll(Step(m, ResetCursors), [DirtySkip(0)])
            && PossibleAll(Step(m, ResetCursors), [DirtySkip(0)])
            && CursorsDone(Run(Step(m, ResetCursors), [DirtySkip(0)]))
  {
    hide Step, Possible, InOrder, Run, PossibleAll, EnabledAll, Padding, Start;
    var pad := Padding();
    var x := Filled(a);
    var m1, m2 := One(a, {}, {}, 1, 0, [WAITING], [], []), One(a, {}, {}, 1, 0, [x], [], []);
    var m3, m4 := One(a, {}, {}, 1, 0, [], [x], []), One(a, {}, {}, 1, 0, [], [], [RecordOf(x)]);
    var s3 := [SendHead] + [];
    var s2 := [ReadDone(0)] + s3;
    var s1 := [ReadDisk(0, pad)] + s2;
    NoEvents(m4);
    OneSend(a, x);
    Cons(m3, SendHead, []);
    OneReadDone(a, {}, 0, [x], []);
    assert [x][..0] + [x][0 + 1..] == [] && [] + [[x][0]] == [x];
    Cons(m2, ReadDone(0), s3);
    OneReadDisk(a, {}, {}, 0, [], []);
    assert [] + [WAITING] == [WAITING] && [] + [x] == [x];
    Cons(m1, ReadDisk(0, pad), s2);
    OneBulkRead(a);
    Cons(One(a, {}, {}, 0, 0, [], [], []), BulkRead(0), s1);
    StartIsOne(a);
    SkipFinishes(a, [RecordOf(x)]);
  }

  lemma NoEvents(m: Mig)
    ensures EnabledAll(m, []) && PossibleAll(m, []) && Run(m, []) == m
  {}

  lemma Cons(m: Mig, e: Event, es: seq<Event>)
    requires Possible(m, e) && !e.SendDirty? && (e.ReadDone? ==> e.i == 0) && m.writes == []
    requires EnabledAll(Step(m, e), es) && PossibleAll(Step(m, e), es)
    ensures EnabledAll(m, [e] + es) && PossibleAll(m, [e] + es) && Run(m, [e] + es) == Run(Step(m, e), es)
  {
    InOrderHere(m, e);
    EnabledCons(m, e, es);
    RunCons(m, e, es);
  }

  lemma SkipFinishes(a: Sector, sent: seq<Record>)
    ensures var m := One(a, {}, {}, 1, 0, [], [], sent);
            && ReadyForStage3(m) && EnabledAll(Step(m, ResetCursors), [DirtySkip(0)])
            && PossibleAll(Step(m, ResetCursors), [DirtySkip(0)])
            && CursorsDone(Run(Step(m, ResetCursors), [DirtySkip(0)]))
  {
    var m := One(a, {}, {}, 1, 0, [], [], sent);
    var m' := One(a, {}, {}, 1, CHUNK, [], [], sent);
    OneSkip(a, [], sent);
    hide Step, Possible, InOrder;
    NoEvents(m');
    Cons(m, DirtySkip(0), []);
    assert [DirtySkip(0)] + [] == [DirtySkip(0)];
  }
}
