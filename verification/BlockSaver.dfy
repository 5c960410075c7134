/**
 The code of block-migration.c on its own state: device records with a packed
 bitmap of the chunks being read, counters, the queue of completed reads.
 Every method is a run of the state machine, in order while reads complete in
 order, so that the theorems about runs hold of what the code sends.  Of what
 is sent, only what comes before the first error of the file is on the stream.
 */
module BlockSaver {
  import opened Basics
  import opened Bits
  import opened BlockMigration
  import opened BlockMigrationExact
  import opened BlockStream
  import DirtyBitmap

  type Word64 = DirtyBitmap.Word64

  // ----- the bitmap of chunks being read

  /** bmds_set_aio_inflight */
  method SetAioInflight(words: seq<Word64>, sector: nat, n: nat, on: bool) returns (r: seq<Word64>)
    requires n > 0 && (sector + n - 1) / CHUNK < 64 * |words|
    ensures |r| == |words|
    ensures forall c: nat :: DirtyBitmap.BitAt(r, c) == if Touches(sector, n, c) then on else DirtyBitmap.BitAt(words, c)
  {
    hide DirtyBitmap.BitAt, DirtyBitmap.PutChunk;
    var start, end := sector / CHUNK, (sector + n - 1) / CHUNK;
    var first := start;
    r := words;
    while start <= end
      invariant first <= start <= end + 1 && |r| == |words|
      invariant forall c: nat ::
                  DirtyBitmap.BitAt(r, c) == if first <= c < start then on else DirtyBitmap.BitAt(words, c)
    {
      forall c: nat
        ensures DirtyBitmap.BitAt(DirtyBitmap.PutChunk(r, start, on), c) == if c == start then on else DirtyBitmap.BitAt(r, c)
      {
        DirtyBitmap.BitAfterPut(r, start, on, c);
      }
      DirtyBitmap.ChunkKeepsLength(r, start, on);
      r := DirtyBitmap.PutChunk(r, start, on);
      start := start + 1;
    }
  }

  /** The chunks of a device that have their bit set. */
  function InFlightSet(words: seq<Word64>, total: nat): set<nat> {
    set c: nat | c < ChunkCount(total) && DirtyBitmap.BitAt(words, c)
  }

  /** bmds_aio_inflight: a sector past the end of the device is never in flight. */
  method AioInflight(words: seq<Word64>, sector: nat, total: nat) returns (r: bool)
    requires ChunkCount(total) <= 64 * |words|
    ensures r <==> sector / CHUNK in InFlightSet(words, total) && sector < total
  {
    var c := sector / CHUNK;
    if sector < total {
      assert c < ChunkCount(total);
      r := Bit(words[c / 64], c % 64);
    } else {
      r := false;
    }
  }

  /** One chunk's bit, as the reads of the migration set and clear it. */
  method PutInflight(words: seq<Word64>, c: nat, total: nat, on: bool) returns (r: seq<Word64>)
    requires c < ChunkCount(total) <= 64 * |words|
    ensures |r| == |words|
    ensures InFlightSet(r, total) == if on then InFlightSet(words, total) + {c} else InFlightSet(words, total) - {c}
  {
    hide DirtyBitmap.BitAt;
    var n := Min(CHUNK, total - c * CHUNK);
    WholeChunk(c, total, n);
    r := SetAioInflight(words, c * CHUNK, n, on);
  }

  lemma WholeChunk(c: nat, total: nat, n: int)
    requires c < ChunkCount(total) && n == Min(CHUNK, total - c * CHUNK)
    ensures 0 < n <= CHUNK && (c * CHUNK + n - 1) / CHUNK == c && c * CHUNK / CHUNK == c
    ensures forall k: nat :: Touches(c * CHUNK, n, k) <==> k == c
  {}

  // ----- device records

  /** BlkMigDevState with the device's contents and dirty chunks. */
  datatype Device = Device(disk: Disk, dirty: set<nat>, aio: seq<Word64>, curSector: nat, curDirty: nat,
                           completedSectors: nat, bulkCompleted: bool)

  function Abs(x: Device): Dev { Dev(x.disk, x.dirty, InFlightSet(x.aio, |x.disk|), x.curSector, x.curDirty) }

  function AbsAll(xs: seq<Device>): (r: seq<Dev>)
    ensures |r| == |xs| && forall i | 0 <= i < |xs| :: r[i] == Abs(xs[i])
  {
    seq(|xs|, i requires 0 <= i < |xs| => Abs(xs[i]))
  }

  predicate DevOk(x: Device) {
    && |x.disk| > 0 && ChunkCount(|x.disk|) <= 64 * |x.aio|
    && (x.bulkCompleted <==> x.curSector >= |x.disk|)
    && Inside(x.dirty, ChunkCount(|x.disk|))
  }

  predicate Inside(dirty: set<nat>, n: nat) { forall c <- dirty :: c < n }

  lemma StillInside(a: set<nat>, b: set<nat>, n: nat)
    requires Inside(a, n) && b <= a
    ensures Inside(b, n)
  {}

  lemma AbsAllUpdate(xs: seq<Device>, d: nat, x: Device)
    requires d < |xs|
    ensures AbsAll(xs[d := x]) == AbsAll(xs)[d := Abs(x)]
  {
    hide Abs;
  }

  // ----- states that a run reaches

  ghost predicate SameShapes(a: seq<Disk>, b: seq<Disk>) {
    |a| == |b| && forall d | 0 <= d < |a| :: |a[d]| == |b[d]|
  }

  /** The state is what the run leads to. */
  ghost predicate Reached(m: Mig, from: Mig, trace: seq<Event>) {
    PossibleAll(from, trace) && m == Run(from, trace) && Sound(m)
  }

  /** The stream holds what the run had sent when the file met its first error, if it has met one. */
  ghost predicate StreamedBy(from: Mig, trace: seq<Event>, good: seq<Event>, fileError: bool, wire: seq<Record>) {
    && good <= trace && (fileError || good == trace)
    && PossibleAll(from, good) && Run(from, good).sent == wire
  }

  lemma {:induction false} RunAppends(m: Mig, es: seq<Event>, e: Event)
    requires PossibleAll(m, es) && Possible(Run(m, es), e)
    ensures PossibleAll(m, es + [e]) && Run(m, es + [e]) == Step(Run(m, es), e)
    ensures EnabledAll(m, es) && Enabled(Run(m, es), e) ==> EnabledAll(m, es + [e])
    decreases |es|
  {
    hide Step, Possible, InOrder;
    if es == [] {
      assert [] + [e] == [e] && [e][1..] == [];
    } else {
      RunAppends(Step(m, es[0]), es[1..], e);
      assert (es + [e])[0] == es[0] && (es + [e])[1..] == es[1..] + [e];
    }
  }

  lemma {:induction false} RunSplits(m: Mig, a: seq<Event>, b: seq<Event>)
    requires PossibleAll(m, a + b)
    ensures PossibleAll(m, a) && PossibleAll(Run(m, a), b) && Run(m, a + b) == Run(Run(m, a), b)
    decreases |a|
  {
    hide Step, Possible;
    if a == [] {
      assert a + b == b;
    } else {
      assert (a + b)[0] == a[0] && (a + b)[1..] == a[1..] + b;
      RunSplits(Step(m, a[0]), a[1..], b);
    }
  }

  lemma ReachedStep(m: Mig, from: Mig, trace: seq<Event>, e: Event)
    requires Reached(m, from, trace) && Possible(m, e)
    ensures Reached(Step(m, e), from, trace + [e])
    ensures EnabledAll(from, trace) && Enabled(m, e) ==> EnabledAll(from, trace + [e])
  {
    hide Sound, Step, Possible, InOrder, Run, EnabledAll, PossibleAll;
    RunAppends(from, trace, e);
    StepKeepsSound(m, e);
  }

  lemma StreamedStep(m: Mig, from: Mig, trace: seq<Event>, good: seq<Event>, fileError: bool, wire: seq<Record>, e: Event)
    requires Reached(m, from, trace) && Possible(m, e) && StreamedBy(from, trace, good, fileError, wire)
    ensures !fileError ==> wire == m.sent
    ensures StreamedBy(from, trace + [e], if fileError then good else good + [e], fileError, if fileError then wire else Step(m, e).sent)
  {
    hide Sound, Step, Possible, InOrder, Run, EnabledAll, PossibleAll;
    RunAppends(from, trace, e);
  }

  lemma ErrorNoted(from: Mig, trace: seq<Event>, good: seq<Event>, fileError: bool, wire: seq<Record>)
    requires StreamedBy(from, trace, good, fileError, wire)
    ensures StreamedBy(from, trace, good, true, wire)
  {}

  lemma ReachedIsValid(m: Mig, from: Mig, trace: seq<Event>)
    requires Reached(m, from, trace)
    ensures Valid(m) && Flying(m)
  {}

  lemma StartReached(origin: seq<Disk>, early: seq<Pending>)
    requires AreEarly(origin, early)
    ensures Reached(Start(origin, early), Start(origin, early), []) && EnabledAll(Start(origin, early), [])
    ensures StreamedBy(Start(origin, early), [], [], false, [])
  {
    StartIsSound(origin, early);
  }

  /** The chunks still marked dirty, over all devices. */
  ghost function DirtyTotal(devs: seq<Device>): nat {
    if devs == [] then 0 else DirtyTotal(devs[..|devs| - 1]) + |devs[|devs| - 1].dirty|
  }

  lemma {:induction false} DirtyTotalUpdate(devs: seq<Device>, d: nat, x: Device)
    requires d < |devs|
    ensures DirtyTotal(devs[d := x]) == DirtyTotal(devs) - |devs[d].dirty| + |x.dirty|
  {
    var n := |devs| - 1;
    if d == n {
      assert devs[d := x][..n] == devs[..n];
    } else {
      DirtyTotalUpdate(devs[..n], d, x);
      assert devs[d := x][..n] == devs[..n][d := x];
    }
  }

  // ----- the effect of single steps

  lemma AtReadDone(m: Mig, i: nat)
    requires Possible(m, ReadDone(i))
    ensures var b := m.flight[i];
            var x := m.devs[b.dev];
            Step(m, ReadDone(i)) == Mig(m.devs[b.dev := x.(reading := x.reading - {b.c})],
                                        m.flight[..i] + m.flight[i + 1..], m.queue + [b], m.sent, m.writes)
  {}

  lemma AtBulkRead(m: Mig, d: nat)
    requires Possible(m, BulkRead(d))
    ensures var x := m.devs[d];
            var c := x.curSector / CHUNK;
            Step(m, BulkRead(d)) == Mig(m.devs[d := x.(dirty := x.dirty - {c}, curSector := Min((c + 1) * CHUNK, |x.disk|))],
                                        m.flight + [Blk(d, c, [], false, [])], m.queue, m.sent, m.writes)
  {}

  lemma AtDirtyRead(m: Mig, d: nat)
    requires Possible(m, DirtyRead(d))
    ensures var x := m.devs[d];
            var c := x.curDirty / CHUNK;
            Step(m, DirtyRead(d)) == Mig(m.devs[d := x.(dirty := x.dirty - {c}, reading := x.reading + {c})],
                                         m.flight + [Blk(d, c, [], false, [])], m.queue, m.sent, m.writes)
  {}

  lemma AtDirtySkip(m: Mig, d: nat)
    requires Possible(m, DirtySkip(d))
    ensures Step(m, DirtySkip(d))
         == Mig(m.devs[d := m.devs[d].(curDirty := m.devs[d].curDirty + CHUNK)], m.flight, m.queue, m.sent, m.writes)
  {}

  lemma AtSendDirty(m: Mig, d: nat, pad: seq<Sector>)
    requires Possible(m, SendDirty(d, pad))
    ensures var x := m.devs[d];
            var c := x.curDirty / CHUNK;
            && c < ChunkCount(|x.disk|)
            && Step(m, SendDirty(d, pad)) == Mig(m.devs[d := x.(dirty := x.dirty - {c})], m.flight, m.queue,
                                                 m.sent + [Record(d, c, Slice(x.disk, c) + pad)], m.writes)
  {}

  /**
   What serving a device in the bulk pass does to it: the chunk at its cursor
   is clean from now on and the cursor moves to the next one or the end; if the
   read was refused, it only reports the sectors before its cursor.
   */
  predicate BulkServed(x: Device, y: Device, accepted: bool) {
    && y.disk == x.disk && y.aio == x.aio && y.curDirty == x.curDirty && y.completedSectors == x.curSector
    && y.dirty == (if accepted then x.dirty - {x.curSector / CHUNK} else x.dirty)
    && y.curSector == (if accepted then Min((x.curSector / CHUNK + 1) * CHUNK, |x.disk|) else x.curSector)
    && y.bulkCompleted == (y.curSector >= |x.disk|)
  }

  predicate FirstUnfinished(devs: seq<Device>, d: int) {
    0 <= d < |devs| && !devs[d].bulkCompleted && forall k | 0 <= k < d :: devs[k].bulkCompleted
  }

  /** The read that the bulk pass submits for a device. */
  function NewReads(x: Device, d: nat, accepted: bool): seq<Blk> {
    if accepted then [Blk(d, x.curSector / CHUNK, [], false, [])] else []
  }

  /** Of the devices only the first unfinished one has been served, and its read is the only new one. */
  ghost predicate FirstServed(a: seq<Device>, f: seq<Blk>, b: seq<Device>, g: seq<Blk>, accepted: bool) {
    |b| == |a| && forall d | FirstUnfinished(a, d) ::
      b == a[d := b[d]] && BulkServed(a[d], b[d], accepted) && g == f + NewReads(a[d], d, accepted)
  }

  lemma ServedIsFirst(a: seq<Device>, f: seq<Blk>, b: seq<Device>, g: seq<Blk>, accepted: bool, d: nat)
    requires FirstUnfinished(a, d) && |b| == |a| && b == a[d := b[d]]
    requires BulkServed(a[d], b[d], accepted) && g == f + NewReads(a[d], d, accepted)
    ensures FirstServed(a, f, b, g, accepted)
  {
    hide BulkServed, NewReads;
    forall e | FirstUnfinished(a, e) ensures e == d {}
  }

  lemma NoneServed(devs: seq<Device>, f: seq<Blk>, accepted: bool)
    requires forall k | 0 <= k < |devs| :: devs[k].bulkCompleted
    ensures FirstServed(devs, f, devs, f, accepted)
  {
    hide BulkServed, NewReads;
  }

  /** Nothing dirty from the cursor up to the given sector. */
  ghost predicate CleanTo(x: Device, end: nat) {
    forall c | x.curDirty <= c * CHUNK < end :: c !in x.dirty
  }

  lemma CleanMore(x: Device, end: nat)
    requires CleanTo(x, end) && end % CHUNK == 0 && end / CHUNK !in x.dirty
    ensures CleanTo(x, end + CHUNK)
  {
    forall c | x.curDirty <= c * CHUNK < end + CHUNK ensures c !in x.dirty {
      assert c * CHUNK >= end ==> c == end / CHUNK;
    }
  }

  ghost predicate SameDirty(a: seq<Device>, b: seq<Device>) {
    |a| == |b| && forall k | 0 <= k < |a| :: b[k].dirty == a[k].dirty && b[k].disk == a[k].disk
  }

  /** The record carries the chunk as the disk holds it. */
  ghost predicate Carries(r: Record, d: nat, c: nat, disk: Disk) {
    && c < ChunkCount(|disk|) && r.dev == d && r.c == c && |r.buf| == CHUNK
    && |Slice(disk, c)| <= CHUNK && r.buf[..|Slice(disk, c)|] == Slice(disk, c)
  }

  /**
   Chunk c of device d was dirty.  If its read was accepted it is clean now, and
   the newest in flight or, unless the file has an error, the newest on the
   stream; all other chunks are dirty or clean as they were.
   */
  ghost predicate Served(a: seq<Device>, b: seq<Device>, d: nat, c: nat, accepted: bool, isAsync: bool,
                         flight: seq<Blk>, was: seq<Record>, wire: seq<Record>) {
    && |b| == |a| && d < |a| && c in a[d].dirty
    && (forall k | 0 <= k < |a| :: b[k].dirty == if k == d && accepted then a[k].dirty - {c} else a[k].dirty)
    && (accepted && isAsync ==> flight != [] && flight[|flight| - 1] == Blk(d, c, [], false, []))
    && (accepted && !isAsync && wire != was ==>
          |wire| == |was| + 1 && wire[..|was|] == was && Carries(wire[|was|], d, c, a[d].disk))
  }

  lemma ServedFrom(a: seq<Device>, a': seq<Device>, b: seq<Device>, d: nat, c: nat, accepted: bool, isAsync: bool,
                   flight: seq<Blk>, was: seq<Record>, wire: seq<Record>)
    requires SameDirty(a, a') && Served(a', b, d, c, accepted, isAsync, flight, was, wire)
    ensures Served(a, b, d, c, accepted, isAsync, flight, was, wire)
  {
    hide Carries;
  }

  lemma SameDirtyTrans(a: seq<Device>, b: seq<Device>, c: seq<Device>)
    requires SameDirty(a, b) && SameDirty(b, c)
    ensures SameDirty(a, c)
  {}

  /** The dirty chunk that the search from the cursors comes to first. */
  ghost predicate NextDirty(devs: seq<Device>, d: nat, c: nat) {
    && d < |devs| && c in devs[d].dirty && devs[d].curDirty <= c * CHUNK && CleanTo(devs[d], c * CHUNK)
    && forall k | 0 <= k < d :: CleanTo(devs[k], |devs[k].disk|)
  }

  predicate EndsWith(ps: seq<Piece>, p: Piece) { ps != [] && ps[|ps| - 1] == p }

  predicate SentNow(e: Event, d: nat) { e.SendDirty? && e.dev == d }

  /** Whether the next read is accepted; a device refuses as its answers say, and no more after them. */
  predicate Accepted(answers: seq<bool>) { answers == [] || answers[0] }

  function Rest(answers: seq<bool>): seq<bool> { if answers == [] then [] else answers[1..] }

  /** The sectors that the first n devices report as completed. */
  function CompletedSum(devs: seq<Device>, n: nat): nat
    requires n <= |devs|
  {
    if n == 0 then 0 else CompletedSum(devs, n - 1) + devs[n - 1].completedSectors
  }

  function PercentOf(sum: nat, total: nat): nat { if total != 0 then sum * 100 / total else 100 }

  function SectorSum(devs: seq<Device>, n: nat): nat
    requires n <= |devs|
  {
    if n == 0 then 0 else SectorSum(devs, n - 1) + |devs[n - 1].disk|
  }

  /** The blocks at the head of the queue whose reads did not fail. */
  function Succeeded(rets: seq<int>): nat {
    if rets == [] || rets[0] < 0 then 0 else 1 + Succeeded(rets[1..])
  }

  /** How many of the next n reads are accepted before one is refused. */
  function AcceptedOf(answers: seq<bool>, n: nat): nat
    decreases n
  {
    if n == 0 || !Accepted(answers) then 0 else 1 + AcceptedOf(Rest(answers), n - 1)
  }

  ghost predicate Settled(writes: seq<Pending>) { forall k | 0 <= k < |writes| :: writes[k].tracked }

  /** Where the stream stands. */
  datatype Mark = Mark(good: seq<Event>, fileError: bool, wire: seq<Record>, ordered: bool)

  /** Once the file has an error, nothing more gets on the stream. */
  ghost predicate Grew(a: Mark, b: Mark) {
    a.good <= b.good && (a.fileError ==> b.fileError && b.good == a.good && b.wire == a.wire)
  }

  /** And what was in order still is. */
  ghost predicate On(a: Mark, b: Mark) { Grew(a, b) && (a.ordered ==> b.ordered) }

  lemma OnTrans(a: Mark, b: Mark, c: Mark)
    ensures Grew(a, b) && Grew(b, c) ==> Grew(a, c)
    ensures On(a, b) && On(b, c) ==> On(a, c)
    ensures On(a, a) && (On(a, b) ==> Grew(a, b) && (a.fileError ==> b.fileError))
    ensures On(a, a.(fileError := true))
  {}

  lemma NotedIsOn(a: Mark, b: Mark)
    requires a.good <= b.good && b.fileError == a.fileError && (a.fileError ==> b.good == a.good && b.wire == a.wire)
    ensures Grew(a, b) && ((a.ordered ==> b.ordered) ==> On(a, b))
  {}

  /** Nothing is in flight, and the queue stays as it is. */
  ghost predicate Synchronous(m: Mig, rets: seq<int>, m': Mig, rets': seq<int>) {
    m.flight == m'.flight == [] && m'.queue == m.queue && rets' == rets
  }

  /**
   From `before` blocks in flight or queued to `load`: up to the limit, or all
   there is to read, and past the limit by less than one block.
   */
  ghost predicate EnoughRead(load: int, before: int, rateLimit: nat, bulkCompleted: bool, m: Mig) {
    && (load * BLOCK_SIZE >= rateLimit || (bulkCompleted && CursorsDone(m)))
    && (load == before || (load - 1) * BLOCK_SIZE < rateLimit)
  }

  lemma EnoughStays(load: int, before: int, rateLimit: nat, bulkCompleted: bool, m: Mig, m': Mig)
    requires EnoughRead(load, before, rateLimit, bulkCompleted, m) && (CursorsDone(m) ==> CursorsDone(m'))
    ensures EnoughRead(load, before, rateLimit, bulkCompleted, m')
  {}

  class BlockMigrator {
    var devs: seq<Device>
    var flight: seq<Blk>
    var queue: seq<Blk>
    var rets: seq<int>               // what the reads in the queue reported
    var submitted: int
    var readDone: int
    var transferred: int
    var bulkCompleted: bool
    var prevProgress: int
    var progress: seq<int>           // the percentages reported
    var fileError: bool
    var sent: seq<Record>            // the blocks handed to the file
    var wire: seq<Record>            // those of them that are on the stream
    var sections: seq<seq<Piece>>    // the stream, section by section
    var section: seq<Piece>
    var answers: seq<bool>           // what the devices will say to the next reads
    var results: seq<int>            // what the next reads to complete will report
    var writes: seq<Pending>         // guest writes in flight
    const totalSectorSum: nat
    ghost const origin: Mig
    ghost var trace: seq<Event>
    ghost var good: seq<Event>       // the trace up to the first error of the file

    function Value(): Mig
      reads this
    {
      Mig(AbsAll(devs), flight, queue, sent, writes)
    }

    ghost predicate Counted()
      reads this
    {
      && submitted == |flight| && readDone == |queue| == |rets|
      && forall d | 0 <= d < |devs| :: DevOk(devs[d])
    }

    ghost predicate Streamed()
      reads this
    {
      StreamedBy(origin, trace, good, fileError, wire) && Laid(sections, section, wire)
    }

    ghost predicate Ok()
      reads this
    {
      Counted() && IsStart(origin) && Reached(Value(), origin, trace) && Streamed()
    }

    /** So far all has been in order, and no write from before the tracking is in flight any more. */
    ghost predicate Ordered()
      reads this
    {
      EnabledAll(origin, trace) && Settled(writes)
    }

    ghost function Here(): Mark
      reads this
    {
      Mark(good, fileError, wire, Ordered())
    }

    twostate predicate Growing()
      reads this
    {
      Grew(old(Here()), Here())
    }

    twostate predicate Onward()
      reads this
    {
      On(old(Here()), Here())
    }

    /** init_blk_migration and set_dirty_tracking(1), for devices that have sectors. */
    constructor (disks: seq<Disk>, early: seq<Pending>, answers: seq<bool>, results: seq<int>)
      requires (forall d | 0 <= d < |disks| :: |disks[d]| > 0) && AreEarly(disks, early)
      ensures Ok() && Told() && EnabledAll(origin, trace) && Value() == origin == Start(disks, early) && trace == []
      ensures !bulkCompleted && !fileError && this.answers == answers && this.results == results
      ensures sections == [] && section == [] && wire == []
    {
      this.answers, this.results, writes := answers, results, early;
      var all := FreshDevices(disks);
      devs, totalSectorSum := all, SectorSum(all, |all|);
      origin := Start(disks, early);
      flight, queue, rets, sent, wire, trace, good, progress, sections, section := [], [], [], [], [], [], [], [], [], [];
      submitted, readDone, transferred, prevProgress, bulkCompleted, fileError := 0, 0, 0, -1, false, false;
      new;
      hide Reached, EnabledAll, StreamedBy, AbsAll, SectorSum, PercentOf, AreEarly, FreshDevices, DevOk, OneByOne, Laid, IsStart, Start;
      StartReached(disks, early);
      FreshIsOk(disks, early);
      NothingLaid();
    }

    /** A step of the state machine about to be taken. */
    ghost method Note(e: Event)
      requires Reached(Value(), origin, trace) && Streamed() && Possible(Value(), e)
      modifies this`trace, this`good
      ensures trace == old(trace) + [e] && old(good) <= good && (fileError ==> good == old(good))
      ensures Reached(Step(Value(), e), origin, trace)
      ensures old(EnabledAll(origin, trace)) && Enabled(Value(), e) ==> EnabledAll(origin, trace)
      ensures !fileError ==> wire == sent
      ensures StreamedBy(origin, trace, good, fileError, if fileError then wire else Step(Value(), e).sent)
    {
      hide Reached, EnabledAll, Step, Possible, InOrder, StreamedBy, Laid, Inside, IsStart, AbsAll;
      ReachedStep(Value(), origin, trace, e);
      StreamedStep(Value(), origin, trace, good, fileError, wire, e);
      trace := trace + [e];
      if !fileError {
        good := good + [e];
      }
    }

    /** bdrv_aio_readv or bdrv_read, as far as its answer goes. */
    method Ask() returns (accepted: bool)
      modifies this`answers
      ensures accepted == Accepted(old(answers)) && answers == Rest(old(answers))
    {
      accepted := answers == [] || answers[0];
      if answers != [] {
        answers := answers[1..];
      }
    }

    /** blk_send: the block is on the stream unless the file has an error, when its name and contents are dropped. */
    method BlkSend(r: Record)
      requires Laid(sections, section, wire)
      modifies this`sent, this`wire, this`section
      ensures sent == old(sent) + [r] && wire == (if fileError then old(wire) else old(wire) + [r])
      ensures Laid(sections, section, wire) && (old(Small(section)) ==> Small(section))
    {
      sent := sent + [r];
      if !fileError {
        LaidMore(sections, section, wire, Block(r));
        wire := wire + [r];
        section := section + [Block(r)];
      }
    }

    /** The end mark of a section. */
    method PutEos()
      requires Laid(sections, section, wire)
      modifies this`sections, this`section
      ensures sections == old(sections) + [old(section)] && section == [] && Laid(sections, section, wire)
    {
      LaidEnd(sections, section, wire);
      sections, section := sections + [section], [];
    }

    /**
     blk_mig_read_cb for the i-th read in flight, with what it reports; all
     stays in order if it is the oldest of its chunk.  What a failed read has
     left in its buffer is never sent.
     */
    method ReadCb(i: nat, ret: int)
      requires Ok() && Possible(Value(), ReadDone(i))
      modifies this`devs, this`flight, this`queue, this`rets, this`submitted, this`readDone, this`trace, this`good
      ensures Ok() && Growing() && (FirstOfItsChunk(old(flight), i) ==> Onward())
      ensures Value() == Step(old(Value()), ReadDone(i)) && trace == old(trace) + [ReadDone(i)]
      ensures queue == old(queue) + [old(flight)[i]] && flight == old(flight)[..i] + old(flight)[i + 1..] && rets == old(rets) + [ret]
      ensures submitted == old(submitted) - 1 && readDone == old(readDone) + 1
      ensures SameButAio(old(devs), devs)
    {
      hide Reached, EnabledAll, FirstOfItsChunk, Slice, InFlightSet, Step, Valid, Flying, Possible, InOrder, StreamedBy, Laid,
           Inside, IsStart;
      DoneIsRead(Value(), i);
      var blk := flight[i];
      FlightInRange(Value(), origin, trace, i);
      AtReadDone(Value(), i);
      Note(ReadDone(i));
      queue := queue + [blk];
      rets := rets + [ret];
      var x := devs[blk.dev];
      var aio := PutInflight(x.aio, blk.c, |x.disk|, false);
      AbsAllUpdate(devs, blk.dev, x.(aio := aio));
      devs := devs[blk.dev := x.(aio := aio)];
      flight := flight[..i] + flight[i + 1..];
      submitted := submitted - 1;
      readDone := readDone + 1;
    }

    /** What lies in a buffer that has not been written: anything. */
    method Unset(n: nat) returns (pad: seq<Sector>)
      ensures |pad| == n
    {
      assert |Blanks(n)| == n;
      pad :| |pad| == n;
    }

    /** The device fills the buffer of the i-th read; what lies behind a short chunk is arbitrary. */
    method DeviceReads(i: nat)
      requires Ok() && i < |flight| && !flight[i].read
      modifies this`flight, this`trace, this`good
      ensures Ok() && Onward() && |flight| == |old(flight)| && flight[i].read
      ensures forall j | 0 <= j < |flight| && j != i :: flight[j] == old(flight)[j]
      ensures flight[i].dev == old(flight)[i].dev && flight[i].c == old(flight)[i].c
    {
      hide Reached, EnabledAll, FirstOfItsChunk, InFlightSet, Valid, Flying, StreamedBy, Laid, Inside, IsStart;
      var blk := flight[i];
      FlightInRange(Value(), origin, trace, i);
      var data := Slice(devs[blk.dev].disk, blk.c);
      var pad := Unset(CHUNK - |data|);
      ghost var e := ReadDisk(i, pad);
      assert ValidBlk(Value(), blk);
      NothingEarly(Value(), blk.dev, blk.c);
      Note(e);
      flight := flight[i := blk.(data := data, read := true, pad := pad)];
    }

    /** Some read that is the oldest of its chunk completes. */
    method CompleteOne()
      requires Ok() && flight != []
      modifies this`devs, this`flight, this`queue, this`rets, this`submitted, this`readDone, this`trace, this`good, this`results
      ensures Ok() && Onward() && submitted == old(submitted) - 1 && readDone == old(readDone) + 1
      ensures old(queue) <= queue && SameButAio(old(devs), devs)
    {
      hide Reached, EnabledAll, FirstOfItsChunk, InFlightSet, Step, Valid, Flying, StreamedBy, Laid, Inside, IsStart, Possible, InOrder;
      FirstIsFirst(flight);
      var i :| 0 <= i < |flight| && FirstOfItsChunk(flight, i);
      if !flight[i].read {
        ghost var before := flight;
        DeviceReads(i);
        SameChunksSameFirst(before, flight, i);
      }
      FlightInRange(Value(), origin, trace, i);
      CanComplete(Value(), i);
      var ret := 0;
      if results != [] {
        ret := results[0];
        results := results[1..];
      }
      ReadCb(i, ret);
    }

    /** qemu_aio_flush: every read in flight completes, those of one chunk in the order of their submission. */
    method AioFlush()
      requires Ok()
      modifies this`devs, this`flight, this`queue, this`rets, this`submitted, this`readDone, this`trace, this`good, this`results
      ensures Ok() && Onward()
      ensures flight == [] && submitted == 0 && readDone == old(readDone) + old(submitted)
      ensures old(queue) <= queue && SameButAio(old(devs), devs)
    {
      hide Reached, EnabledAll, FirstOfItsChunk, InFlightSet, Step, Valid, Flying, StreamedBy, Laid, Inside, IsStart, Possible, InOrder;
      while submitted > 0
        invariant Ok() && Onward() && submitted + readDone == old(submitted) + old(readDone)
        invariant old(queue) <= queue && SameButAio(old(devs), devs)
        decreases submitted
      {
        CompleteOne();
      }
    }

    /**
     mig_save_device_bulk with shared_base off: one more chunk is read; true
     when it was the last.  If the device refuses, only the error is noted.
     */
    method SaveDeviceBulk(d: nat) returns (done: bool)
      requires Ok() && d < |devs| && !devs[d].bulkCompleted
      modifies this`devs, this`flight, this`submitted, this`trace, this`good, this`answers, this`fileError
      ensures Reached(Value(), origin, trace) && Streamed() && Onward() && answers == Rest(old(answers))
      ensures fileError == (old(fileError) || !Accepted(old(answers))) && submitted == |flight|
      ensures if Accepted(old(answers)) then Value() == Step(old(Value()), BulkRead(d)) && submitted == old(submitted) + 1
              else Value() == old(Value()) && submitted == old(submitted) && trace == old(trace)
      ensures done == (devs[d].curSector >= |devs[d].disk|)
      ensures devs == old(devs)[d := devs[d]] && devs[d].bulkCompleted == old(devs)[d].bulkCompleted
      ensures devs[d].disk == old(devs)[d].disk && |devs[d].aio| == |old(devs)[d].aio|
      ensures Inside(devs[d].dirty, ChunkCount(|devs[d].disk|))
      ensures devs[d].completedSectors == old(devs)[d].curSector <= devs[d].curSector
      ensures BulkServed(old(devs)[d], devs[d].(bulkCompleted := done), Accepted(old(answers)))
      ensures flight == old(flight) + NewReads(old(devs)[d], d, Accepted(old(answers)))
    {
      hide Reached, EnabledAll, Slice, InFlightSet, Step, Valid, Flying, Accepted, Rest, StreamedBy, Laid, Inside, IsStart;
      assert DevOk(devs[d]);
      var x := devs[d];
      var curSector := x.curSector;
      x := x.(completedSectors := curSector);
      AbsAllUpdate(devs, d, x);
      CompletedIsNotAbs(devs, d, curSector);
      BulkCursorAligned(Value(), origin, trace, d);
      curSector := curSector / CHUNK * CHUNK;
      var n := Min(CHUNK, |x.disk| - curSector);
      var accepted := Ask();
      if !accepted {
        ErrorNoted(origin, trace, good, fileError, wire);
        fileError := true;
        devs := devs[d := x];
        return false;
      }
      assert Enabled(Value(), BulkRead(d));
      AtBulkRead(Value(), d);
      Note(BulkRead(d));
      flight := flight + [Blk(d, curSector / CHUNK, [], false, [])];
      submitted := submitted + 1;
      StillInside(x.dirty, x.dirty - {curSector / CHUNK}, ChunkCount(|x.disk|));
      x := x.(dirty := x.dirty - {curSector / CHUNK}, curSector := curSector + n);
      AbsAllUpdate(devs, d, x);
      devs := devs[d := x];
      done := x.curSector >= |x.disk|;
    }

    /** The percentages so far rise from call to call and stay within 0 .. 100; each is that of the sectors completed then. */
    ghost predicate Told()
      reads this
    {
      && totalSectorSum == SectorSum(devs, |devs|) && Rising(progress)
      && prevProgress == (if progress == [] then -1 else progress[|progress| - 1])
      && prevProgress <= PercentOf(CompletedSum(devs, |devs|), totalSectorSum)
      && OneByOne(devs) && Small(section) && forall k | 0 <= k < |sections| :: Small(sections[k])
    }

    /** The progress item of blk_mig_save_bulked_block, when the percentage has changed. */
    method PutProgress(sum: nat)
      requires Laid(sections, section, wire) && Rising(progress) && Small(section)
      requires prevProgress == (if progress == [] then -1 else progress[|progress| - 1])
      requires prevProgress <= PercentOf(sum, totalSectorSum) <= 100
      modifies this`prevProgress, this`progress, this`section
      ensures Rising(progress) && progress != [] && prevProgress == progress[|progress| - 1] == PercentOf(sum, totalSectorSum)
      ensures old(progress) <= progress && Small(section) && Laid(sections, section, wire)
    {
      hide PercentOf, Rising, Small, Laid;
      var percent := PercentOf(sum, totalSectorSum);
      if percent != prevProgress {
        RisesTo(progress, percent);
        prevProgress := percent;
        progress := progress + [percent];
        if !fileError {
          LaidMore(sections, section, wire, Percent(percent));
          assert wire + [] == wire;
          section := section + [Percent(percent)];
        }
      }
    }

    /** One chunk of device d, with its flag set when that was the last. */
    method ServeBulk(d: nat)
      requires Ok() && d < |devs| && !devs[d].bulkCompleted
      modifies this`devs, this`flight, this`submitted, this`trace, this`good, this`answers, this`fileError
      ensures Ok() && Onward() && answers == Rest(old(answers))
      ensures |devs| == |old(devs)| && devs == old(devs)[d := devs[d]] && devs[d].disk == old(devs)[d].disk
      ensures devs[d].completedSectors == old(devs)[d].curSector <= devs[d].curSector
      ensures submitted == old(submitted) + if Accepted(old(answers)) then 1 else 0
      ensures fileError == (old(fileError) || !Accepted(old(answers)))
      ensures BulkServed(old(devs)[d], devs[d], Accepted(old(answers)))
      ensures flight == old(flight) + NewReads(old(devs)[d], d, Accepted(old(answers)))
    {
      hide Reached, EnabledAll, InFlightSet, Step, Abs, Accepted, Rest, StreamedBy, Laid, Inside, IsStart;
      var done := SaveDeviceBulk(d);
      if done {
        FlagIsNotAbs(devs, d);
        devs := devs[d := devs[d].(bulkCompleted := true)];
      }
    }

    lemma BulkIsOver()
      requires Ok()
      ensures (forall k | 0 <= k < |devs| :: devs[k].bulkCompleted) ==> BulkOver()
    {
      assert forall k | 0 <= k < |devs| :: DevOk(devs[k]);
    }

    /** The first unfinished device is served, and the progress told. */
    method ServeFirst(d: nat, sum: nat)
      requires Ok() && Told() && d < |devs| && !devs[d].bulkCompleted && (forall k | 0 <= k < d :: devs[k].bulkCompleted)
      requires sum == CompletedSum(devs, d)
      modifies this`devs, this`flight, this`submitted, this`trace, this`good, this`answers, this`fileError, this`prevProgress, this`progress, this`section
      ensures Ok() && Told() && Onward() && SameDevices(old(devs), devs)
      ensures submitted == old(submitted) + (if Accepted(old(answers)) then 1 else 0) && answers == Rest(old(answers))
      ensures fileError == (old(fileError) || !Accepted(old(answers)))
      ensures devs == old(devs)[d := devs[d]] && BulkServed(old(devs)[d], devs[d], Accepted(old(answers)))
      ensures flight == old(flight) + NewReads(old(devs)[d], d, Accepted(old(answers)))
      ensures old(progress) <= progress && prevProgress == PercentOf(CompletedSum(devs, |devs|), totalSectorSum)
    {
      hide Reached, EnabledAll, AbsAll, Accepted, Rest, PercentOf, CompletedSum, SectorSum, StreamedBy, Laid, Inside, IsStart, DevOk, Small,
           Rising, OneByOne;
      ServeBulk(d);
      CursorsInside(Value(), origin, trace, d);
      ServedSums(old(devs), devs, d, totalSectorSum);
      PercentGrows(CompletedSum(old(devs), |old(devs)|), CompletedSum(devs, |devs|), totalSectorSum);
      PutProgress(sum + devs[d].completedSectors);
    }

    /** The progress when no device is left. */
    method TellOver(sum: nat)
      requires Ok() && Told() && sum == CompletedSum(devs, |devs|)
      modifies this`prevProgress, this`progress, this`section
      ensures Ok() && Told() && Onward()
      ensures old(progress) <= progress && prevProgress == PercentOf(CompletedSum(devs, |devs|), totalSectorSum)
    {
      hide Reached, EnabledAll, AbsAll, PercentOf, CompletedSum, SectorSum, StreamedBy, Laid, Inside, IsStart, DevOk, Small, Rising, OneByOne;
      PercentInRange(devs, totalSectorSum);
      PutProgress(sum);
    }

    /**
     blk_mig_save_bulked_block: the first device whose bulk pass is not over;
     false when there is none.  The progress covers the devices up to it, which
     is all that has been read.
     */
    method SaveBulkedBlock() returns (some: bool)
      requires Ok() && Told()
      modifies this`devs, this`flight, this`submitted, this`trace, this`good, this`answers, this`fileError, this`prevProgress, this`progress, this`section
      ensures Ok() && Told() && Onward() && SameDevices(old(devs), devs)
      ensures some ==> submitted == old(submitted) + (if Accepted(old(answers)) then 1 else 0) && answers == Rest(old(answers))
      ensures some ==> fileError == (old(fileError) || !Accepted(old(answers)))
      ensures some <==> exists k | 0 <= k < |old(devs)| :: !old(devs)[k].bulkCompleted
      ensures FirstServed(old(devs), old(flight), devs, flight, Accepted(old(answers)))
      ensures !some ==> Value() == old(Value()) && submitted == old(submitted) && BulkOver()
                        && answers == old(answers) && fileError == old(fileError)
      ensures old(progress) <= progress && prevProgress == PercentOf(CompletedSum(devs, |devs|), totalSectorSum)
    {
      hide Ok, Told, Accepted, Rest, PercentOf, CompletedSum, SectorSum, On, FirstServed, BulkServed, NewReads;
      var d, sum := 0, 0;
      NothingSummed(devs);
      BulkIsOver();
      OnTrans(Here(), Here(), Here());
      while d < |devs|
        invariant 0 <= d <= |devs| && unchanged(this)
        invariant (forall k | 0 <= k < d :: devs[k].bulkCompleted) && sum == CompletedSum(devs, d)
      {
        if !devs[d].bulkCompleted {
          ServeFirst(d, sum);
          ServedIsFirst(old(devs), old(flight), devs, flight, Accepted(old(answers)), d);
          return true;
        }
        SumOneMore(devs, d);
        sum := sum + devs[d].completedSectors;
        d := d + 1;
      }
      TellOver(sum);
      NoneServed(devs, flight, Accepted(answers));
      some := false;
    }

    /** The chunk under the cursor is read, and marked as being read. */
    method SubmitDirtyRead(d: nat)
      requires Ok() && Enabled(Value(), DirtyRead(d))
      modifies this`devs, this`flight, this`submitted, this`trace, this`good
      ensures Ok() && Onward()
      ensures Value() == Step(old(Value()), DirtyRead(d)) && trace == old(trace) + [DirtyRead(d)]
      ensures submitted == old(submitted) + 1
      ensures SameButDirty(old(devs), devs)
      ensures var c := old(devs)[d].curDirty / CHUNK;
              && flight == old(flight) + [Blk(d, c, [], false, [])]
              && forall k | 0 <= k < |devs| :: devs[k].dirty == if k == d then old(devs)[k].dirty - {c} else old(devs)[k].dirty
    {
      hide Reached, EnabledAll, InFlightSet, Step, StreamedBy, Laid, DevOk, IsStart, SameButDirty, DirtyTotal, Possible, InOrder;
      CanReadHere(Value(), d);
      var c := devs[d].curDirty / CHUNK;
      CursorChunk(Abs(devs[d]));
      AtDirtyRead(Value(), d);
      Note(DirtyRead(d));
      flight := flight + [Blk(d, c, [], false, [])];
      submitted := submitted + 1;
      Clean(d, c, true);
    }

    /** bdrv_reset_dirty of one chunk, and its mark if it is being read. */
    method Clean(d: nat, c: nat, reading: bool)
      requires d < |devs| && c < ChunkCount(|devs[d].disk|) && forall k | 0 <= k < |devs| :: DevOk(devs[k])
      modifies this`devs
      ensures SameButDirty(old(devs), devs) && forall k | 0 <= k < |devs| :: DevOk(devs[k])
      ensures forall k | 0 <= k < |devs| :: devs[k].dirty == if k == d then old(devs)[k].dirty - {c} else old(devs)[k].dirty
      ensures var x := AbsAll(old(devs))[d];
              AbsAll(devs) == AbsAll(old(devs))[d := if reading then x.(dirty := x.dirty - {c}, reading := x.reading + {c}) else x.(dirty := x.dirty - {c})]
      ensures DirtyTotal(devs) == DirtyTotal(old(devs)) - if c in old(devs)[d].dirty then 1 else 0
    {
      hide InFlightSet, AbsAll, DirtyTotal, Inside;
      assert DevOk(devs[d]);
      var x := devs[d];
      if reading {
        var aio := PutInflight(x.aio, c, |x.disk|, true);
        x := x.(aio := aio);
      }
      StillInside(x.dirty, x.dirty - {c}, ChunkCount(|x.disk|));
      x := x.(dirty := x.dirty - {c});
      AbsAllUpdate(devs, d, x);
      DirtyTotalUpdate(devs, d, x);
      devs := devs[d := x];
    }

    /** The chunk under the cursor is read and sent at once. */
    method SendDirtyNow(d: nat)
      requires Ok() && d < |devs| && devs[d].curDirty < |devs[d].disk| && flight == []
      requires devs[d].curDirty / CHUNK in devs[d].dirty
      modifies this`devs, this`sent, this`wire, this`section, this`trace, this`good
      ensures Ok() && (queue == [] ==> Onward()) && Growing() && SameButDirty(old(devs), devs)
      ensures |wire| == |old(wire)| + if fileError then 0 else 1
      ensures |trace| == |old(trace)| + 1 && trace == old(trace) + [trace[|old(trace)|]] && SentNow(trace[|old(trace)|], d)
      ensures DirtyTotal(devs) == DirtyTotal(old(devs)) - 1 && (old(Small(section)) ==> Small(section))
      ensures Served(old(devs), devs, d, old(devs)[d].curDirty / CHUNK, true, false, flight, old(wire), wire)
    {
      hide Reached, EnabledAll, InFlightSet, Step, Slice, Possible, InOrder, DirtyTotal, ChunkCount, StreamedBy, Laid, IsStart, Small,
           DevOk, SameButDirty, Settled, Served;
      var x := devs[d];
      var c := x.curDirty / CHUNK;
      CursorChunk(Abs(x));
      SliceIsShort(x.disk, c);
      NothingBeingRead(Value(), origin, trace, d);
      var data := Slice(x.disk, c);
      var pad := Unset(CHUNK - |data|);
      ghost var e := SendDirty(d, pad);
      CanSendDirty(Value(), d, pad);
      AtSendDirty(Value(), d, pad);
      Note(e);
      BlkSend(Record(d, c, data + pad));
      Clean(d, c, false);
      SentIsServed(old(devs), devs, d, c, pad, flight, old(wire), wire);
    }

    /** The cursor passes a clean chunk. */
    method SkipClean(d: nat)
      requires Ok() && Enabled(Value(), DirtySkip(d))
      modifies this`devs, this`trace, this`good
      ensures Ok() && Onward() && SameBulk(old(devs), devs) && DirtyTotal(devs) == DirtyTotal(old(devs))
      ensures devs == old(devs)[d := old(devs)[d].(curDirty := old(devs)[d].curDirty + CHUNK)]
      ensures trace == old(trace) + [DirtySkip(d)]
    {
      hide Reached, EnabledAll, Step, Possible, InOrder, StreamedBy, Laid, IsStart, DevOk, AbsAll, DirtyTotal;
      SkipIsInRange(Value(), d);
      AtDirtySkip(Value(), d);
      Note(DirtySkip(d));
      CursorMoves(devs, d);
      devs := devs[d := devs[d].(curDirty := devs[d].curDirty + CHUNK)];
    }

    /** The dirty chunk under the cursor is read or sent, unless the device refuses. */
    method ServeDirty(d: nat, isAsync: bool)
      requires Ok() && d < |devs| && devs[d].curDirty < |devs[d].disk| && (!isAsync ==> flight == [])
      requires devs[d].curDirty / CHUNK in devs[d].dirty && devs[d].curDirty / CHUNK !in Value().devs[d].reading
      modifies this`devs, this`flight, this`submitted, this`sent, this`wire, this`section, this`trace, this`good, this`answers, this`fileError
      ensures Ok() && SameButDirty(old(devs), devs) && (isAsync || queue == [] ==> Onward()) && Growing()
      ensures answers == Rest(old(answers)) && fileError == (old(fileError) || !Accepted(old(answers)))
      ensures isAsync ==> wire == old(wire) && submitted == old(submitted) + if Accepted(old(answers)) then 1 else 0
      ensures !isAsync ==> flight == [] && submitted == old(submitted) && Passed3(old(trace), trace)
      ensures !isAsync ==> DirtyTotal(devs) == DirtyTotal(old(devs)) - if Accepted(old(answers)) then 1 else 0
      ensures !isAsync ==> |wire| == |old(wire)| + if fileError then 0 else 1
      ensures Served(old(devs), devs, d, old(devs)[d].curDirty / CHUNK, Accepted(old(answers)), isAsync, flight, old(wire), wire)
      ensures old(Small(section)) ==> Small(section)
    {
      hide Reached, EnabledAll, InFlightSet, Step, DirtyTotal, AbsAll, DevOk, Passed3, Accepted, Rest, Possible, InOrder,
           StreamedBy, Laid, Inside, IsStart, Small, Carries;
      PassedNothing(trace);
      var accepted := Ask();
      if !accepted {
        ErrorNoted(origin, trace, good, fileError, wire);
        fileError := true;
      } else if isAsync {
        CanReadDirty(Value(), d);
        SubmitDirtyRead(d);
      } else {
        SendDirtyNow(d);
        PassedMore(old(trace), old(trace), trace[|old(trace)|]);
      }
    }

    /** One turn of the loop of mig_save_device_dirty: a dirty chunk is served, a clean one passed. */
    method DirtyTurn(d: nat, isAsync: bool) returns (served: bool)
      requires Ok() && d < |devs| && devs[d].curDirty < |devs[d].disk| && (!isAsync ==> flight == [])
      modifies this`devs, this`flight, this`queue, this`rets, this`submitted, this`readDone, this`sent, this`wire, this`section,
               this`trace, this`good, this`answers, this`results, this`fileError
      ensures Ok() && OnlyMoved(old(devs), devs, d) && Growing() && (isAsync || old(queue) == [] || !served ==> Onward())
      ensures |devs| == |old(devs)| && devs[d].disk == old(devs)[d].disk
      ensures devs[d].curDirty == old(devs)[d].curDirty + if served then 0 else CHUNK
      ensures answers == (if served then Rest(old(answers)) else old(answers))
      ensures fileError == (old(fileError) || (served && !Accepted(old(answers))))
      ensures if served then Served(old(devs), devs, d, old(devs)[d].curDirty / CHUNK, Accepted(old(answers)), isAsync, flight, old(wire), wire)
              else SameDirty(old(devs), devs) && old(devs)[d].curDirty / CHUNK !in old(devs)[d].dirty && devs[d].curDirty == old(devs)[d].curDirty + CHUNK
      ensures !served ==> section == old(section)
      ensures isAsync || !served ==> wire == old(wire)
      ensures isAsync ==> submitted + readDone == old(submitted) + old(readDone) + if served && Accepted(old(answers)) then 1 else 0
      ensures !isAsync ==> Synchronous(old(Value()), old(rets), Value(), rets) && Passed3(old(trace), trace)
      ensures !isAsync ==> DirtyTotal(devs) == DirtyTotal(old(devs)) - if served && Accepted(old(answers)) then 1 else 0
      ensures !isAsync && served ==> |wire| == |old(wire)| + (if fileError then 0 else 1) && DirtyTotal(old(devs)) > 0
      ensures old(Small(section)) ==> Small(section)
    {
      hide Ok, On, Grew, Reached, EnabledAll, InFlightSet, Step, Valid, Flying, FirstOfItsChunk, DirtyTotal, AbsAll, DevOk, Passed3, Accepted,
           Rest, Possible, InOrder, OnlyMoved, SameButAio, SameButDirty, StreamedBy, Laid, Inside, IsStart, Small, Served, SameDirty;
      ghost var begin := Here();
      NothingMoved(devs, d);
      WaitForChunk(d);
      MarksDoNotMove(old(devs), old(devs), devs, d);
      WaitingKeepsDirty(old(devs), devs, d);
      ghost var was, now := devs, Here();
      if devs[d].curDirty / CHUNK in devs[d].dirty {
        SomethingDirty(devs, d);
        ServeDirty(d, isAsync);
        OnTrans(begin, now, Here());
        OnTrans(begin, now, now);
        OnTrans(begin, Here(), Here());
        ServingDoesNotMove(old(devs), was, devs, d);
        ServedFrom(old(devs), was, devs, d, old(devs)[d].curDirty / CHUNK, Accepted(old(answers)), isAsync, flight, old(wire), wire);
        return true;
      }
      CanSkip(Value(), d);
      SkipClean(d);
      OnTrans(begin, now, Here());
      OnTrans(begin, Here(), Here());
      SkippingMoves(old(devs), was, devs, d);
      SkippingKeepsDirty(old(devs), was, devs, d);
      PassedNothing(old(trace));
      if !isAsync {
        PassedMore(old(trace), old(trace), DirtySkip(d));
      }
      served := false;
    }

    lemma AlignedCursor(d: nat)
      requires Ok() && d < |devs|
      ensures devs[d].curDirty % CHUNK == 0
    {
      CursorIsAligned(Value(), origin, trace, d);
    }

    /**
     mig_save_device_dirty: on to the next dirty chunk, which is read or sent;
     true when the cursor has reached the end of the device.  If the device
     refuses the read, the chunk stays dirty and the error is noted.
     */
    method SaveDeviceDirty(d: nat, isAsync: bool) returns (done: bool)
      requires Ok() && d < |devs| && (!isAsync ==> flight == [])
      modifies this`devs, this`flight, this`queue, this`rets, this`submitted, this`readDone, this`sent, this`wire, this`section,
               this`trace, this`good, this`answers, this`results, this`fileError
      ensures Ok() && OnlyMoved(old(devs), devs, d) && (isAsync || old(queue) == [] ==> Onward()) && Growing()
      ensures |devs| == |old(devs)| && done == (devs[d].curDirty >= |devs[d].disk|)
      ensures answers == (if done then old(answers) else Rest(old(answers)))
      ensures fileError == (old(fileError) || (!done && !Accepted(old(answers))))
      ensures isAsync || done ==> wire == old(wire)
      ensures isAsync ==> submitted + readDone == old(submitted) + old(readDone) + if !done && Accepted(old(answers)) then 1 else 0
      ensures !isAsync ==> Synchronous(old(Value()), old(rets), Value(), rets) && Passed3(old(trace), trace)
      ensures !isAsync ==> DirtyTotal(devs) == DirtyTotal(old(devs)) - if !done && Accepted(old(answers)) then 1 else 0
      ensures !isAsync ==> |wire| == |old(wire)| + if done || fileError then 0 else 1
      ensures !isAsync && !done ==> DirtyTotal(old(devs)) > 0
      ensures CleanTo(old(devs)[d], devs[d].curDirty) && devs[d].curDirty % CHUNK == 0 && old(devs)[d].curDirty <= devs[d].curDirty
      ensures if done then SameDirty(old(devs), devs)
              else Served(old(devs), devs, d, devs[d].curDirty / CHUNK, Accepted(old(answers)), isAsync, flight, old(wire), wire)
      ensures old(Small(section)) ==> Small(section)
    {
      hide Ok, On, Grew, DirtyTotal, AbsAll, Passed3, Accepted, Rest, OnlyMoved, Small, SameDirty, Served, CleanTo;
      done := false;
      StartsClean(devs, d);
      NothingMoved(devs, d);
      PassedNothing(trace);
      ghost var begin := Here();
      OnTrans(begin, begin, begin);
      while devs[d].curDirty < |devs[d].disk|
        invariant Ok() && OnlyMoved(old(devs), devs, d) && Onward() && |devs| == |old(devs)|
        invariant answers == old(answers) && fileError == old(fileError) && wire == old(wire) && section == old(section)
        invariant isAsync ==> submitted + readDone == old(submitted) + old(readDone)
        invariant !isAsync ==> Synchronous(old(Value()), old(rets), Value(), rets) && Passed3(old(trace), trace)
        invariant !isAsync ==> DirtyTotal(devs) == DirtyTotal(old(devs))
        invariant SameDirty(old(devs), devs) && CleanTo(old(devs)[d], devs[d].curDirty) && old(devs)[d].curDirty <= devs[d].curDirty
        decreases |devs[d].disk| - devs[d].curDirty
      {
        ghost var was, before, now := devs, trace, Here();
        AlignedCursor(d);
        var served := DirtyTurn(d, isAsync);
        OnTrans(begin, now, Here());
        OnTrans(begin, now, now);
        MovedOn(old(devs), was, devs, d);
        Searched(old(devs), was, devs, d, served, Accepted(old(answers)), isAsync, flight, old(wire), wire);
        if !isAsync {
          PassedOn(old(trace), before, trace);
        }
        if served {
          AlignedCursor(d);
          return false;
        }
      }
      AlignedCursor(d);
      OnTrans(begin, Here(), Here());
      done := true;
    }

    /** If the chunk under the cursor is being read, all reads are waited for. */
    method WaitForChunk(d: nat)
      requires Ok() && d < |devs| && devs[d].curDirty < |devs[d].disk|
      modifies this`devs, this`flight, this`queue, this`rets, this`submitted, this`readDone, this`trace, this`good, this`results
      ensures Ok() && Onward() && SameButAio(old(devs), devs)
      ensures devs[d].curDirty / CHUNK !in Value().devs[d].reading
      ensures submitted + readDone == old(submitted) + old(readDone)
      ensures old(flight) == [] ==> Value() == old(Value()) && devs == old(devs) && trace == old(trace) && rets == old(rets)
    {
      hide Reached, EnabledAll, InFlightSet, Step, Valid, Flying, FirstOfItsChunk, StreamedBy, Laid, Inside, IsStart;
      assert DevOk(devs[d]);
      if flight == [] {
        NothingBeingRead(Value(), origin, trace, d);
      }
      var busy := AioInflight(devs[d].aio, devs[d].curDirty, |devs[d].disk|);
      if busy {
        AioFlush();
        NothingBeingRead(Value(), origin, trace, d);
      }
    }

    /**
     blk_mig_save_dirty_block: the first device that has something dirty;
     false when none has.  A refused read also answers true, and leaves all
     dirty chunks as they were.
     */
    method SaveDirtyBlock(isAsync: bool) returns (some: bool)
      requires Ok() && (!isAsync ==> flight == [])
      modifies this`devs, this`flight, this`queue, this`rets, this`submitted, this`readDone, this`sent, this`wire, this`section,
               this`trace, this`good, this`answers, this`results, this`fileError
      ensures Ok() && SameBulk(old(devs), devs) && (isAsync || old(queue) == [] ==> Onward()) && Growing()
      ensures !some ==> CursorsDone(Value())
      ensures answers == (if some then Rest(old(answers)) else old(answers))
      ensures fileError == (old(fileError) || (some && !Accepted(old(answers))))
      ensures isAsync ==> wire == old(wire)
      ensures isAsync ==> submitted + readDone == old(submitted) + old(readDone) + if some && Accepted(old(answers)) then 1 else 0
      ensures !isAsync ==> Synchronous(old(Value()), old(rets), Value(), rets) && Passed3(old(trace), trace)
      ensures !isAsync ==> DirtyTotal(devs) == DirtyTotal(old(devs)) - if some && Accepted(old(answers)) then 1 else 0
      ensures !isAsync ==> |wire| == |old(wire)| + if !some || fileError then 0 else 1
      ensures !isAsync && some ==> DirtyTotal(old(devs)) > 0
      ensures if some then
                exists d: nat, c: nat :: NextDirty(old(devs), d, c)
                  && Served(old(devs), devs, d, c, Accepted(old(answers)), isAsync, flight, old(wire), wire)
              else
                SameDirty(old(devs), devs) && forall k | 0 <= k < |old(devs)| :: CleanTo(old(devs)[k], |old(devs)[k].disk|)
      ensures old(Small(section)) ==> Small(section)
    {
      hide Ok, Reached, EnabledAll, InFlightSet, DirtyTotal, DevOk, Passed3, Accepted, Rest, StreamedBy, Laid, Inside, IsStart, Small,
           SameDirty, Served, CleanTo, NextDirty;
      var d := 0;
      PassedNothing(trace);
      SameDirtyAsItself(devs);
      while d < |devs|
        invariant 0 <= d <= |devs| && Ok() && SameBulk(old(devs), devs) && (isAsync || old(queue) == [] ==> Onward()) && Growing()
        invariant answers == old(answers) && fileError == old(fileError) && wire == old(wire)
        invariant forall k | 0 <= k < d :: devs[k].curDirty >= |devs[k].disk|
        invariant isAsync ==> submitted + readDone == old(submitted) + old(readDone)
        invariant !isAsync ==> Synchronous(old(Value()), old(rets), Value(), rets) && Passed3(old(trace), trace) && DirtyTotal(devs) == DirtyTotal(old(devs))
        invariant old(Small(section)) ==> Small(section)
        invariant SameDirty(old(devs), devs) && forall k | d <= k < |devs| :: devs[k].curDirty == old(devs)[k].curDirty
        invariant forall k | 0 <= k < d :: CleanTo(old(devs)[k], |old(devs)[k].disk|)
      {
        ghost var before, was := trace, devs;
        var done := SaveDeviceDirty(d, isAsync);
        FoundIn(old(devs), was, devs, d, done, Accepted(old(answers)), isAsync, flight, old(wire), wire);
        if !isAsync {
          PassedOn(old(trace), before, trace);
        }
        if !done { return true; }
        d := d + 1;
      }
      some := false;
    }

    /** qemu_file_set_error */
    method SetError()
      requires Ok()
      modifies this`fileError
      ensures Ok() && Onward() && fileError
    {
      hide Reached, EnabledAll, AbsAll, StreamedBy, Laid, DevOk, IsStart;
      ErrorNoted(origin, trace, good, fileError, wire);
      fileError := true;
    }

    lemma AllOnStream()
      requires Ok()
      ensures !fileError ==> wire == sent
    {
      hide Reached, StreamedBy;
      if !fileError {
        AllIsSent(Value(), origin, trace, good, wire);
      }
    }

    lemma QueueCounted()
      requires Ok()
      ensures readDone == |queue| == |rets|
    {}

    /** One turn of flush_blks: the head of the queue goes to the file. */
    method SendFirst()
      requires Ok() && queue != [] && rets != []
      modifies this`queue, this`rets, this`sent, this`wire, this`section, this`readDone, this`transferred, this`trace, this`good
      ensures Ok() && Onward() && (old(Small(section)) ==> Small(section))
      ensures sent == old(sent) + [RecordOf(old(queue)[0])] && queue == old(queue)[1..] && rets == old(rets)[1..]
      ensures transferred == old(transferred) + 1 && readDone == old(readDone) - 1
    {
      hide Reached, EnabledAll, Step, Possible, InOrder, DevOk, AbsAll, RecordOf, StreamedBy, Laid, IsStart, Small, Settled, On, Grew;
      AtSendHead(Value());
      ghost var begin := Here();
      var blk := queue[0];
      Note(SendHead);
      BlkSend(RecordOf(blk));
      PopQueue();
      NotedIsOn(begin, Here());
    }

    /** QSIMPLEQ_REMOVE_HEAD, and the counters. */
    method PopQueue()
      requires queue != [] && rets != []
      modifies this`queue, this`rets, this`readDone, this`transferred
      ensures queue == old(queue)[1..] && |queue| == |old(queue)| - 1 && rets == old(rets)[1..] && |rets| == |old(rets)| - 1
      ensures readDone == old(readDone) - 1 && transferred == old(transferred) + 1
    {
      queue := queue[1..];
      rets := rets[1..];
      readDone := readDone - 1;
      transferred := transferred + 1;
    }

    /**
     flush_blks: completed reads are sent in order until the rate limit is
     reached, after `budget` blocks, or one whose read failed is met, which is
     an error of the file.  Nothing is lost or repeated.
     */
    method FlushBlks(budget: nat)
      requires Ok()
      modifies this`queue, this`rets, this`sent, this`wire, this`section, this`readDone, this`transferred, this`trace, this`good, this`fileError
      ensures Ok() && Onward() && (old(Small(section)) ==> Small(section))
      ensures var n := Min(budget, Succeeded(old(rets)));
              && n <= |old(queue)| && sent == old(sent) + RecordsOf(old(queue)[..n])
              && queue == old(queue)[n..] && rets == old(rets)[n..]
              && transferred == old(transferred) + n && readDone == old(readDone) - n
              && fileError == (old(fileError) || (n < budget && n < |old(queue)|))
      ensures !old(fileError) ==> wire == sent
    {
      hide Ok, RecordsOf, AbsAll, RecordOf, Small, On;
      var n := 0;
      NoRecords(queue);
      assert rets[0..] == rets;
      QueueCounted();
      ghost var begin := Here();
      OnTrans(begin, begin, begin);
      while queue != []
        invariant Ok() && On(begin, Here()) && (old(Small(section)) ==> Small(section)) && |rets| == |queue|
        invariant 0 <= n <= budget && n <= |old(queue)| && queue == old(queue)[n..] && rets == old(rets)[n..]
        invariant n + Succeeded(rets) == Succeeded(old(rets)) && readDone == old(readDone) - n
        invariant sent == old(sent) + RecordsOf(old(queue)[..n]) && transferred == old(transferred) + n && fileError == old(fileError)
        decreases |queue|
      {
        if n == budget { break; }
        AllOnStream();
        ghost var now := Here();
        if rets[0] < 0 {
          SetError();
          OnTrans(begin, now, Here());
          break;
        }
        RecordsAppend(old(queue), n);
        SendFirst();
        OnTrans(begin, now, Here());
        n := n + 1;
      }
      SucceededAtMost(rets);
      AllOnStream();
    }

    /** blk_mig_reset_dirty_cursor */
    method ResetDirtyCursor()
      requires Ok()
      modifies this`devs, this`trace, this`good
      ensures Ok() && Onward() && SameBulk(old(devs), devs)
      ensures Value() == Step(old(Value()), ResetCursors) && trace == old(trace) + [ResetCursors]
      ensures forall d | 0 <= d < |devs| :: devs[d] == old(devs)[d].(curDirty := 0)
    {
      hide Reached, EnabledAll, InFlightSet, Valid, Flying, FirstOfItsChunk, StreamedBy, Laid, Inside, IsStart;
      AlwaysReset(Value());
      Note(ResetCursors);
      ghost var trace', good' := trace, good;
      var d := 0;
      while d < |devs|
        invariant 0 <= d <= |devs| == |old(devs)| && trace == trace' && good == good'
        invariant forall k | 0 <= k < |devs| :: devs[k] == if k < d then old(devs)[k].(curDirty := 0) else old(devs)[k]
      {
        devs := devs[d := devs[d].(curDirty := 0)];
        d := d + 1;
      }
      assert Value() == Step(old(Value()), ResetCursors);
      assert forall k | 0 <= k < |devs| :: DevOk(old(devs)[k]) ==> DevOk(devs[k]);
    }

    /** flush_blks, which says nothing of progress. */
    method FlushAndTell(budget: nat)
      requires Ok() && Told()
      modifies this`queue, this`rets, this`sent, this`wire, this`section, this`readDone, this`transferred, this`trace, this`good, this`fileError
      ensures Ok() && Told() && Onward() && CursorsDone(Value()) == old(CursorsDone(Value())) && Value().devs == old(Value()).devs
      ensures submitted + readDone <= old(submitted) + old(readDone) <= submitted + readDone + budget
    {
      hide Ok, RecordsOf, AbsAll, Rising, OneByOne, SectorSum, CompletedSum, PercentOf, Small, On;
      ghost var was := Value();
      FlushBlks(budget);
      SameDevsSameCursors(was, Value());
    }

    /** blk_mig_reset_dirty_cursor, which says nothing of progress. */
    method ResetAndTell()
      requires Ok() && Told()
      modifies this`devs, this`trace, this`good
      ensures Ok() && Told() && Onward() && SameBulk(old(devs), devs)
    {
      hide Ok, AbsAll, Rising, OneByOne, SectorSum, CompletedSum, PercentOf, Small, On, Step;
      ResetDirtyCursor();
      SumsCarry(old(devs), devs);
    }

    /** The end mark of a section without error; all that was handed to the file is on the stream. */
    method EndSection()
      requires Ok() && Told() && !fileError
      modifies this`sections, this`section
      ensures Ok() && Told() && Onward() && wire == sent && section == [] && sections == old(sections) + [old(section)]
    {
      hide Reached, EnabledAll, AbsAll, StreamedBy, Laid, Inside, IsStart, DevOk, Rising, OneByOne, SectorSum, CompletedSum, PercentOf;
      AllIsSent(Value(), origin, trace, good, wire);
      PutEos();
    }

    /** The last flush of a stage, and its end mark unless the file has an error. */
    method FlushAndEnd(budget: nat) returns (completed: bool)
      requires Ok() && Told()
      modifies this`queue, this`rets, this`sent, this`wire, this`section, this`sections, this`readDone, this`transferred, this`trace, this`good,
               this`fileError
      ensures Ok() && Told() && Onward() && CursorsDone(Value()) == old(CursorsDone(Value())) && completed == !fileError
      ensures submitted + readDone <= old(submitted) + old(readDone) <= submitted + readDone + budget
      ensures completed ==> wire == sent && section == [] && |sections| == |old(sections)| + 1
      ensures !completed ==> sections == old(sections)
    {
      hide Ok, Told, On, Grew, CursorsDone, AbsAll;
      ghost var begin := Here();
      FlushAndTell(budget);
      completed := !fileError;
      if completed {
        ghost var now, full := Here(), Value();
        EndSection();
        OnTrans(begin, now, Here());
        SameDevsSameCursors(full, Value());
      }
    }

    /** One turn of the loop of stage 2; true when no chunk is left to read. */
    method Stage2Turn() returns (over: bool)
      requires Ok() && Told() && (bulkCompleted ==> BulkOver())
      modifies this`devs, this`flight, this`queue, this`rets, this`submitted, this`readDone, this`sent, this`wire, this`section, this`trace, this`good,
               this`bulkCompleted, this`answers, this`results, this`fileError, this`prevProgress, this`progress
      ensures Ok() && Told() && Onward() && SameDevices(old(devs), devs) && (bulkCompleted ==> BulkOver())
      ensures over ==> bulkCompleted && CursorsDone(Value())
      ensures old(submitted) + old(readDone) <= submitted + readDone <= old(submitted) + old(readDone) + 1
      ensures over || |answers| < |old(answers)| || (answers == old(answers) && submitted + readDone > old(submitted) + old(readDone))
           || (answers == old(answers) && submitted + readDone == old(submitted) + old(readDone) && bulkCompleted && !old(bulkCompleted))
    {
      hide Reached, EnabledAll, DevOk, CursorsDone, AbsAll, DirtyTotal, Passed3, Accepted, Rest, PercentOf, CompletedSum,
           SectorSum, OneByOne, Rising, Small, StreamedBy, Laid, Inside, IsStart;
      ShorterRest(answers);
      over := false;
      if !bulkCompleted {
        var some := SaveBulkedBlock();
        if !some {
          bulkCompleted := true;
        }
      } else {
        var some := SaveDirtyBlock(true);
        SumsCarry(old(devs), devs);
        over := !some;
      }
    }

    /** The loop of stage 2: reads are submitted until what is in flight or queued reaches the limit, or none is left. */
    method FillUp(rateLimit: nat)
      requires Ok() && Told() && (bulkCompleted ==> BulkOver())
      modifies this`devs, this`flight, this`queue, this`rets, this`submitted, this`readDone, this`sent, this`wire, this`section, this`trace, this`good,
               this`bulkCompleted, this`answers, this`results, this`fileError, this`prevProgress, this`progress
      ensures Ok() && Told() && Onward() && SameDevices(old(devs), devs) && (bulkCompleted ==> BulkOver())
      ensures (submitted + readDone) * BLOCK_SIZE >= rateLimit || (bulkCompleted && CursorsDone(Value()))
      ensures submitted + readDone == old(submitted) + old(readDone) || (submitted + readDone - 1) * BLOCK_SIZE < rateLimit
    {
      hide Ok, Reached, EnabledAll, DevOk, CursorsDone, AbsAll, StreamedBy, Laid, Inside, IsStart, Told;
      var over := false;
      while (submitted + readDone) * BLOCK_SIZE < rateLimit && !over
        invariant Ok() && Told() && Onward() && SameDevices(old(devs), devs) && (bulkCompleted ==> BulkOver())
        invariant over ==> bulkCompleted && CursorsDone(Value())
        invariant submitted + readDone == old(submitted) + old(readDone) || (submitted + readDone - 1) * BLOCK_SIZE < rateLimit
        decreases !over, |answers|, rateLimit - (submitted + readDone) * BLOCK_SIZE, !bulkCompleted
      {
        over := Stage2Turn();
      }
    }

    /** The cursors start again, and reads are submitted up to the limit. */
    method ReadAhead(rateLimit: nat) returns (load: int)
      requires Ok() && Told() && (bulkCompleted ==> BulkOver())
      modifies this`devs, this`flight, this`queue, this`rets, this`submitted, this`readDone, this`sent, this`wire, this`section, this`trace, this`good,
               this`bulkCompleted, this`answers, this`results, this`fileError, this`prevProgress, this`progress
      ensures Ok() && Told() && Onward() && SameDevices(old(devs), devs) && (bulkCompleted ==> BulkOver())
      ensures load == submitted + readDone && EnoughRead(load, old(submitted) + old(readDone), rateLimit, bulkCompleted, Value())
    {
      hide Ok, Told, On, Grew, Step, CursorsDone, AbsAll;
      ghost var begin := Here();
      ResetAndTell();
      ghost var now := Here();
      FillUp(rateLimit);
      OnTrans(begin, now, Here());
      load := submitted + readDone;
    }

    /**
     Stage 2 of block_save_live, without its estimate of the time left; `load`
     is the number of blocks in flight or queued before the last flush, `held`
     that before the reading.  With an error of the file it returns at once, and
     nothing ends the section.
     */
    method Stage2(rateLimit: nat, before: nat, after: nat) returns (completed: bool, load: int, ghost held: int)
      requires Ok() && Told() && (bulkCompleted ==> BulkOver())
      modifies this`devs, this`flight, this`queue, this`rets, this`submitted, this`readDone, this`sent, this`wire, this`section, this`sections,
               this`trace, this`good, this`transferred, this`bulkCompleted, this`answers, this`results, this`fileError, this`prevProgress, this`progress
      ensures Ok() && Told() && Onward() && SameDevices(old(devs), devs) && (bulkCompleted ==> BulkOver())
      ensures completed == !fileError && (old(fileError) ==> !completed)
      ensures completed ==> old(submitted) + old(readDone) - before <= held <= old(submitted) + old(readDone)
      ensures completed ==> EnoughRead(load, held, rateLimit, bulkCompleted, Value())
      ensures completed ==> load - after <= submitted + readDone <= load
      ensures completed ==> wire == sent && section == [] && |sections| == |old(sections)| + 1
      ensures !completed ==> sections == old(sections)
    {
      hide Ok, Told, On, Grew, CursorsDone, AbsAll, EnoughRead;
      completed, load, held := false, 0, 0;
      ghost var begin := Here();
      FlushAndTell(before);
      OnTrans(begin, Here(), Here());
      if fileError { return; }
      ghost var now := Here();
      held := submitted + readDone;
      load := ReadAhead(rateLimit);
      OnTrans(begin, now, Here());
      now := Here();
      ghost var full := Value();
      completed := FlushAndEnd(after);
      EnoughStays(load, held, rateLimit, bulkCompleted, full, Value());
      OnTrans(begin, now, Here());
    }

    /**
     The pass of stage 3: every chunk that is still dirty is read and sent.
     When a device refuses a read, the loop goes on, but from then on nothing
     gets on the stream.
     */
    method SendDirtyChunks(ghost es: seq<Event>)
      requires Ok() && flight == [] && Passed3(es, trace) && es <= good && !fileError
      modifies this`devs, this`flight, this`queue, this`rets, this`submitted, this`readDone, this`sent, this`wire, this`section, this`trace, this`good,
               this`answers, this`results, this`fileError
      ensures Ok() && SameBulk(old(devs), devs) && Synchronous(old(Value()), old(rets), Value(), rets)
      ensures Passed3(es, trace) && es <= good && CursorsDone(Value()) && (old(Small(section)) ==> Small(section))
      ensures |wire| >= |old(wire)|
      ensures !fileError ==> |wire| - |old(wire)| + DirtyTotal(devs) == DirtyTotal(old(devs))
                             && AcceptedOf(old(answers), |wire| - |old(wire)|) == |wire| - |old(wire)|
      ensures fileError ==> |wire| - |old(wire)| == AcceptedOf(old(answers), DirtyTotal(old(devs))) < DirtyTotal(old(devs))
    {
      hide Ok, On, DirtyTotal, AbsAll, CursorsDone, Passed3, Accepted, Rest, Small, AcceptedOf, After;
      var some := true;
      ghost var n: nat := 0;
      NoneAccepted(answers);
      while some
        invariant Ok() && SameBulk(old(devs), devs) && Synchronous(old(Value()), old(rets), Value(), rets)
        invariant Passed3(es, trace) && es <= good && (!some ==> CursorsDone(Value())) && (old(Small(section)) ==> Small(section))
        invariant |wire| == |old(wire)| + n
        invariant !fileError ==> n + DirtyTotal(devs) == DirtyTotal(old(devs)) && AcceptedOf(old(answers), n) == n && answers == After(old(answers), n)
        invariant fileError ==> n < DirtyTotal(old(devs)) && AcceptedOf(old(answers), n + 1) == n
        decreases some, |answers|, DirtyTotal(devs)
      {
        ShorterRest(answers);
        NextAccepted(old(answers), n);
        ghost var before := trace;
        some := SaveDirtyBlock(false);
        PassedOn(es, before, trace);
        n := |wire| - |old(wire)|;
      }
      if fileError {
        RefusedStays(old(answers), n + 1, DirtyTotal(old(devs)));
      }
    }

    /** The last progress item and the end mark. */
    method ReportCompletion()
      requires Ok() && Told() && !fileError
      modifies this`sections, this`section
      ensures Ok() && wire == sent && section == [] && sections == old(sections) + [old(section) + [Percent(100)]]
      ensures forall k | 0 <= k < |sections| :: Small(sections[k])
    {
      hide Reached, EnabledAll, AbsAll, StreamedBy, Laid, Inside, IsStart, DevOk, Rising, OneByOne, SectorSum, CompletedSum, PercentOf;
      AllIsSent(Value(), origin, trace, good, wire);
      LaidMore(sections, section, wire, Percent(100));
      assert wire + [] == wire;
      section := section + [Percent(100)];
      PutEos();
    }

    /**
     The reset and the pass of stage 3, after a flush that left the state `mid`
     and no error.  All chunks that were dirty are on the stream exactly if the
     devices accept as many reads as there are such chunks.
     */
    method Pass(ghost dest0: seq<Disk>, ghost mid: Mig) returns (ghost at: Mig)
      requires Ok() && Told() && Ordered() && BulkOver() && writes == [] && flight == [] && SameShape(origin, dest0)
      requires !fileError && mid == Value()
      modifies this`devs, this`flight, this`queue, this`rets, this`submitted, this`readDone, this`sent, this`wire, this`section, this`trace, this`good,
               this`answers, this`results, this`fileError
      ensures Ok() && Told() && SameDevices(old(devs), devs) && CursorsDone(Value())
      ensures fileError <==> AcceptedOf(old(answers), DirtyTotal(old(devs))) < DirtyTotal(old(devs))
      ensures mid.sent <= wire == at.sent && |wire| == |mid.sent| + AcceptedOf(old(answers), DirtyTotal(old(devs)))
      ensures DisksOf(at) == DisksOf(Value()) && ExactEnd(at, dest0)
      ensures !fileError ==> at == Value() && QueueDecides(mid, at, dest0)
    {
      hide Reached, EnabledAll, PossibleAll, Run, AbsAll, StreamedBy, Laid, Inside, DevOk, Rising, OneByOne, SectorSum, CompletedSum, PercentOf,
           Small, Passed3, DirtyTotal, AcceptedOf, CursorsDone, ExactEnd, QueueDecides, SameShape, Step, CleanBehindCursors, Start;
      AllIsSent(Value(), origin, trace, good, wire);
      GoodIsTrace(origin, trace, good, wire);
      ghost var es := trace;
      ResetDirtyCursor();
      GoodIsTrace(origin, trace, good, wire);
      SameDirtyTotal(old(devs), devs);
      PassedNothing(trace);
      ghost var reset := devs;
      SendDirtyChunks(trace);
      SumsCarry(old(devs), reset);
      SumsCarry(reset, devs);
      at := PassEnds(mid, Value(), origin, es, good, trace, fileError, wire, dest0);
      NothingDirtyLeft(devs, Value());
    }

    /**
     Stage 3 of block_save_live, with the guest stopped and the bulk pass over.
     The queue is sent as far as the rate limit lets it; with an error of the
     file that is all.  Then every chunk still dirty is sent.  It completes
     exactly when there was no error, the flush met no failed read, and the
     devices accept as many reads as there are dirty chunks.  `mid` is the state
     after the flush and `at` that in which the stream ends: the disks are equal
     exactly when every chunk then dirty or queued had arrived, and, if it
     completes, exactly when no block left in the queue was needed.
     */
    method Stage3(budget: nat, ghost dest0: seq<Disk>) returns (completed: bool, ghost mid: Mig, ghost at: Mig)
      requires Ok() && Told() && Ordered() && BulkOver() && writes == [] && flight == [] && SameShape(origin, dest0)
      modifies this`devs, this`flight, this`queue, this`rets, this`submitted, this`readDone, this`sent, this`wire, this`section, this`sections,
               this`trace, this`good, this`transferred, this`answers, this`results, this`fileError
      ensures Ok() && SameDevices(old(devs), devs) && completed == !fileError
      ensures old(fileError) ==> wire == old(wire)
      ensures !old(fileError) ==>
                var n, dirty := Min(budget, Succeeded(old(rets))), DirtyTotal(old(devs));
                var flushed := n == budget || n == |old(queue)|;
                && 0 <= n <= |old(queue)|
                && mid == old(Value()).(queue := old(queue)[n..], sent := old(sent) + RecordsOf(old(queue)[..n]))
                && (completed <==> flushed && AcceptedOf(old(answers), dirty) == dirty)
                && |wire| == |mid.sent| + (if flushed then AcceptedOf(old(answers), dirty) else 0)
                && mid.sent <= wire == at.sent && DisksOf(at) == DisksOf(Value()) && ExactEnd(at, dest0)
                && (completed ==> QueueDecides(mid, at, dest0))
      ensures completed ==> CursorsDone(Value()) && wire == sent && section == [] && |sections| == |old(sections)| + 1
                            && EndsWith(sections[|sections| - 1], Percent(100))
                            && forall k | 0 <= k < |sections| :: Small(sections[k])
      ensures !completed ==> sections == old(sections)
    {
      hide Reached, EnabledAll, PossibleAll, Run, AbsAll, StreamedBy, Laid, Inside, DevOk, Rising, OneByOne, SectorSum, CompletedSum, PercentOf,
           Small, DirtyTotal, AcceptedOf, CursorsDone, ExactEnd, QueueDecides, SameShape, Succeeded, RecordsOf, IsStart, Start;
      assert submitted == 0;
      FlushBlks(budget);
      mid, at := Value(), Value();
      completed := false;
      if !old(fileError) {
        FlushEnds(mid, origin, trace, dest0);
        MostAccepted(old(answers), DirtyTotal(old(devs)));
      }
      if fileError { return; }
      at := Pass(dest0, mid);
      if fileError { return; }
      ReportCompletion();
      completed := true;
    }

    /** What guest and devices do: a write is submitted, lands, is reported, or is done at once. */
    method Guest(e: Event)
      requires Ok() && Possible(Value(), e) && (e.SubmitWrite? || e.Land? || e.CompleteWrite? || e.SyncWrite?)
      modifies this`devs, this`writes, this`trace, this`good
      ensures Ok() && Growing() && Value() == Step(old(Value()), e) && (old(EnabledAll(origin, trace)) ==> EnabledAll(origin, trace))
      ensures old(Told()) ==> Told()
    {
      hide Reached, EnabledAll, StreamedBy, Laid, IsStart, Valid, Flying, Slice, InFlightSet, Inside, Rising, OneByOne, SectorSum, CompletedSum,
           PercentOf, Small, Overwrite, TouchedChunks, Touches;
      match e {
        case SubmitWrite(w) =>
          Note(e);
          writes := writes + [w];
        case Land(k, sector, data) => GuestLands(k, sector, data);
        case CompleteWrite(k) => GuestCompletes(k);
        case SyncWrite(d, sector, data) => GuestWrites(d, sector, data);
      }
    }

    method GuestLands(k: nat, sector: nat, data: seq<Sector>)
      requires Ok() && Possible(Value(), Land(k, sector, data))
      modifies this`devs, this`trace, this`good
      ensures Ok() && Growing() && Value() == Step(old(Value()), Land(k, sector, data))
      ensures old(EnabledAll(origin, trace)) ==> EnabledAll(origin, trace)
      ensures old(Told()) ==> Told()
    {
      hide Reached, EnabledAll, StreamedBy, Laid, IsStart, Inside, Rising, OneByOne, SectorSum, CompletedSum, PercentOf, Small, Overwrite,
           TouchedChunks, InFlightSet, DevOk;
      ghost var e := Land(k, sector, data);
      GuestTouchesInside(Value(), e);
      Note(e);
      var d := writes[k].dev;
      Change(d, Overwrite(devs[d].disk, sector, data), {});
    }

    method GuestCompletes(k: nat)
      requires Ok() && Possible(Value(), CompleteWrite(k))
      modifies this`devs, this`writes, this`trace, this`good
      ensures Ok() && Growing() && Value() == Step(old(Value()), CompleteWrite(k))
      ensures old(EnabledAll(origin, trace)) ==> EnabledAll(origin, trace)
      ensures old(Told()) ==> Told()
    {
      hide Reached, EnabledAll, StreamedBy, Laid, IsStart, Inside, Rising, OneByOne, SectorSum, CompletedSum, PercentOf, Small, MarkedBy, InFlightSet, DevOk;
      ghost var e := CompleteWrite(k);
      GuestTouchesInside(Value(), e);
      Note(e);
      var p := writes[k];
      Change(p.dev, devs[p.dev].disk, MarkedBy(p, |devs[p.dev].disk|));
      writes := writes[..k] + writes[k + 1..];
    }

    /** bdrv_write: the disk and the dirty bitmap change together. */
    method GuestWrites(d: nat, sector: nat, data: seq<Sector>)
      requires Ok() && Possible(Value(), SyncWrite(d, sector, data))
      modifies this`devs, this`trace, this`good
      ensures Ok() && Growing() && Value() == Step(old(Value()), SyncWrite(d, sector, data))
      ensures old(EnabledAll(origin, trace)) ==> EnabledAll(origin, trace)
      ensures old(Told()) ==> Told()
    {
      hide Reached, EnabledAll, StreamedBy, Laid, IsStart, Inside, Rising, OneByOne, SectorSum, CompletedSum, PercentOf, Small, Overwrite,
           TouchedChunks, InFlightSet, DevOk;
      ghost var e := SyncWrite(d, sector, data);
      GuestTouchesInside(Value(), e);
      Note(e);
      Change(d, Overwrite(devs[d].disk, sector, data), TouchedChunks(sector, |data|, |devs[d].disk|));
    }

    /** New contents and more dirty chunks for one device. */
    method Change(d: nat, disk: Disk, marks: set<nat>)
      requires d < |devs| && |disk| == |devs[d].disk| && Inside(marks, ChunkCount(|disk|))
      requires forall k | 0 <= k < |devs| :: DevOk(devs[k])
      modifies this`devs
      ensures |devs| == |old(devs)| && forall k | 0 <= k < |devs| :: DevOk(devs[k])
      ensures AbsAll(devs) == AbsAll(old(devs))[d := AbsAll(old(devs))[d].(disk := disk, dirty := AbsAll(old(devs))[d].dirty + marks)]
      ensures marks == {} ==> AbsAll(devs) == AbsAll(old(devs))[d := AbsAll(old(devs))[d].(disk := disk)]
      ensures disk == old(devs)[d].disk ==> AbsAll(devs) == AbsAll(old(devs))[d := AbsAll(old(devs))[d].(dirty := AbsAll(old(devs))[d].dirty + marks)]
      ensures SectorSum(devs, |devs|) == old(SectorSum(devs, |devs|)) && CompletedSum(devs, |devs|) == old(CompletedSum(devs, |devs|))
      ensures OneByOne(devs) == old(OneByOne(devs))
    {
      hide InFlightSet, SectorSum, CompletedSum;
      var x := devs[d].(disk := disk, dirty := devs[d].dirty + marks);
      AbsAllUpdate(devs, d, x);
      devs := devs[d := x];
      SumsUpTo(old(devs), devs, |devs|);
      assert marks == {} ==> old(devs)[d].dirty + marks == old(devs)[d].dirty;
    }

    /** The i-th read in flight completes with what the device reports. */
    method Completes(i: nat)
      requires Ok() && Told() && Ordered() && Enabled(Value(), ReadDone(i))
      modifies this`devs, this`flight, this`queue, this`rets, this`submitted, this`readDone, this`trace, this`good, this`results
      ensures Ok() && Told() && Ordered() && SameCursors(old(devs), devs)
    {
      hide Reached, EnabledAll, AbsAll, StreamedBy, Laid, IsStart, DevOk, Rising, OneByOne, SectorSum, CompletedSum, PercentOf, Small, InOrder,
           FirstOfItsChunk, Step, Settled, Possible;
      InOrderIsFirst(Value(), i);
      var ret := 0;
      if results != [] {
        ret := results[0];
        results := results[1..];
      }
      ReadCb(i, ret);
      SumsCarry(old(devs), devs);
    }

    /** Guest and devices go on: any of their steps, in order. */
    method World(e: Event)
      requires Ok() && Told() && Ordered() && OfTheWorld(e) && Enabled(Value(), e)
      modifies this`devs, this`flight, this`queue, this`rets, this`submitted, this`readDone, this`trace, this`good, this`results, this`writes
      ensures Ok() && Told() && Ordered() && SameCursors(old(devs), devs) && (e.CompleteWrite? ==> |writes| < |old(writes)|)
    {
      hide Ok, Told, EnabledAll, AbsAll, Possible, InOrder, Step, Settled;
      if e.ReadDisk? {
        CanFillHere(Value(), e);
        DeviceReadsOn(e.i);
      } else if e.ReadDone? {
        Completes(e.i);
      } else {
        ghost var was := Value();
        Guest(e);
        GuestKeeps(was, e);
        SameCursorsAs(old(devs), devs, was, Value());
      }
    }

    /** The device fills a buffer, which says nothing of progress. */
    method DeviceReadsOn(i: nat)
      requires Ok() && Told() && Ordered() && i < |flight| && !flight[i].read
      modifies this`flight, this`trace, this`good
      ensures Ok() && Told() && Ordered()
    {
      hide Ok, EnabledAll, AbsAll, Settled, Rising, OneByOne, SectorSum, CompletedSum, PercentOf, Small;
      DeviceReads(i);
    }

    /** The guest has stopped and its writes are reported; vm_stop also waits for all reads. */
    method Quiesce()
      requires Ok() && Told() && Ordered()
      modifies this`devs, this`flight, this`queue, this`rets, this`submitted, this`readDone, this`trace, this`good, this`results, this`writes
      ensures Ok() && Told() && Ordered() && SameCursors(old(devs), devs) && flight == [] && writes == []
    {
      hide Ok, Told, Ordered, Possible, InOrder;
      CursorsStay(devs, devs, devs);
      while writes != []
        invariant Ok() && Told() && Ordered() && SameCursors(old(devs), devs)
        decreases |writes|
      {
        ghost var was := devs;
        CanReport();
        World(CompleteWrite(0));
        CursorsStay(old(devs), was, devs);
      }
      ghost var was := devs;
      FlushReads();
      CursorsStay(old(devs), was, devs);
    }

    /** qemu_aio_flush, which says nothing of progress. */
    method FlushReads()
      requires Ok() && Told() && Ordered()
      modifies this`devs, this`flight, this`queue, this`rets, this`submitted, this`readDone, this`trace, this`good, this`results
      ensures Ok() && Told() && Ordered() && SameCursors(old(devs), devs) && flight == []
    {
      hide Ok, Reached, EnabledAll, AbsAll, Rising, OneByOne, SectorSum, CompletedSum, PercentOf, Small, Settled;
      AioFlush();
      SumsCarry(old(devs), devs);
    }

    lemma CanReport()
      requires Ok() && writes != []
      ensures Enabled(Value(), CompleteWrite(0))
    {}

    /** Stage 1 of block_save_live, after the constructor: nothing is queued yet, so the section is empty. */
    method Stage1(budget: nat) returns (completed: bool)
      requires Ok() && Told()
      modifies this`devs, this`queue, this`rets, this`sent, this`wire, this`section, this`sections, this`readDone, this`transferred, this`trace,
               this`good, this`fileError
      ensures Ok() && Told() && Onward() && SameBulk(old(devs), devs) && completed == !fileError
      ensures completed ==> wire == sent && section == [] && |sections| == |old(sections)| + 1
    {
      hide Ok, Told, On, Grew, AbsAll, CursorsDone;
      completed := false;
      ghost var begin := Here();
      FlushAndTell(budget);
      if fileError { return; }
      ghost var now := Here();
      ResetAndTell();
      OnTrans(begin, now, Here());
      now := Here();
      EndSection();
      OnTrans(begin, now, Here());
      completed := true;
    }

    ghost predicate BulkOver()
      reads this
    {
      forall d | 0 <= d < |devs| :: devs[d].curSector >= |devs[d].disk|
    }
  }

  function DisksOf(m: Mig): seq<Disk> { seq(|m.devs|, d requires 0 <= d < |m.devs| => m.devs[d].disk) }

  ghost predicate IsStart(m: Mig) { m == Start(DisksOf(m), m.writes) && AreEarly(DisksOf(m), m.writes) }

  lemma NothingEarly(m: Mig, d: nat, c: nat)
    ensures Settled(m.writes) ==> !EarlyAt(m, d, c)
  {}

  lemma CanComplete(m: Mig, i: nat)
    requires i < |m.flight| && m.flight[i].read && m.flight[i].dev < |m.devs|
    ensures Possible(m, ReadDone(i))
  {}

  lemma AllIsSent(m: Mig, from: Mig, trace: seq<Event>, good: seq<Event>, wire: seq<Record>)
    requires Reached(m, from, trace) && StreamedBy(from, trace, good, false, wire)
    ensures wire == m.sent
  {}

  lemma {:induction false} SucceededAtMost(rets: seq<int>)
    ensures Succeeded(rets) <= |rets|
  {
    if rets != [] {
      SucceededAtMost(rets[1..]);
    }
  }

  lemma {:induction false} SomethingDirty(devs: seq<Device>, d: nat)
    requires d < |devs| && devs[d].dirty != {}
    ensures DirtyTotal(devs) > 0
  {
    if d < |devs| - 1 {
      SomethingDirty(devs[..|devs| - 1], d);
    }
  }

  lemma WaitingKeepsDirty(a: seq<Device>, b: seq<Device>, d: nat)
    requires SameButAio(a, b) && d < |a|
    ensures SameDirty(a, b) && b[d].dirty == a[d].dirty && b[d].curDirty == a[d].curDirty
  {}

  lemma SkippingKeepsDirty(a: seq<Device>, b: seq<Device>, c: seq<Device>, d: nat)
    requires SameDirty(a, b) && d < |b| && c == b[d := b[d].(curDirty := b[d].curDirty + CHUNK)]
    ensures SameDirty(a, c)
  {}

  lemma CursorIsAligned(m: Mig, from: Mig, trace: seq<Event>, d: nat)
    requires Reached(m, from, trace) && d < |m.devs|
    ensures m.devs[d].curDirty % CHUNK == 0
  {
    ReachedIsValid(m, from, trace);
  }

  lemma StartsClean(a: seq<Device>, d: nat)
    requires d < |a|
    ensures CleanTo(a[d], a[d].curDirty) && SameDirty(a, a)
  {}

  /** One turn of the search, after turns that have found nothing. */
  lemma Searched(a: seq<Device>, b: seq<Device>, c: seq<Device>, d: nat, served: bool, accepted: bool, isAsync: bool,
                 flight: seq<Blk>, was: seq<Record>, wire: seq<Record>)
    requires d < |a| && SameDirty(a, b) && CleanTo(a[d], b[d].curDirty) && b[d].curDirty % CHUNK == 0
    requires if served then Served(b, c, d, b[d].curDirty / CHUNK, accepted, isAsync, flight, was, wire)
             else SameDirty(b, c) && b[d].curDirty / CHUNK !in b[d].dirty && c[d].curDirty == b[d].curDirty + CHUNK
    ensures if served then Served(a, c, d, b[d].curDirty / CHUNK, accepted, isAsync, flight, was, wire)
            else SameDirty(a, c) && CleanTo(a[d], c[d].curDirty)
  {
    hide Served;
    if served {
      ServedFrom(a, b, c, d, b[d].curDirty / CHUNK, accepted, isAsync, flight, was, wire);
    } else {
      CleanMore(a[d], b[d].curDirty);
    }
  }

  lemma SentIsServed(a: seq<Device>, b: seq<Device>, d: nat, c: nat, pad: seq<Sector>, flight: seq<Blk>, was: seq<Record>, wire: seq<Record>)
    requires |b| == |a| && d < |a| && c in a[d].dirty && c < ChunkCount(|a[d].disk|)
    requires forall k | 0 <= k < |a| :: b[k].dirty == if k == d then a[k].dirty - {c} else a[k].dirty
    requires |Slice(a[d].disk, c)| + |pad| == CHUNK && (wire == was || wire == was + [Record(d, c, Slice(a[d].disk, c) + pad)])
    ensures Served(a, b, d, c, true, false, flight, was, wire)
  {
    hide Slice;
  }

  lemma SameDirtyAsItself(a: seq<Device>)
    ensures SameDirty(a, a)
  {}

  /** The search in one device, after devices in which it has found nothing. */
  lemma FoundIn(a: seq<Device>, b: seq<Device>, c: seq<Device>, d: nat, done: bool, accepted: bool, isAsync: bool,
                flight: seq<Blk>, was: seq<Record>, wire: seq<Record>)
    requires d < |a| == |b| == |c| && SameDirty(a, b) && b[d].curDirty == a[d].curDirty
    requires CleanTo(b[d], c[d].curDirty) && c[d].curDirty % CHUNK == 0 && b[d].curDirty <= c[d].curDirty
    requires if done then SameDirty(b, c) && c[d].curDirty >= |c[d].disk|
             else Served(b, c, d, c[d].curDirty / CHUNK, accepted, isAsync, flight, was, wire)
    requires forall k | 0 <= k < d :: CleanTo(a[k], |a[k].disk|)
    ensures if done then SameDirty(a, c) && CleanTo(a[d], |a[d].disk|)
            else NextDirty(a, d, c[d].curDirty / CHUNK) && Served(a, c, d, c[d].curDirty / CHUNK, accepted, isAsync, flight, was, wire)
  {
    hide Carries;
  }

  lemma MovedOn(a: seq<Device>, b: seq<Device>, c: seq<Device>, d: nat)
    requires OnlyMoved(a, b, d) && OnlyMoved(b, c, d)
    ensures OnlyMoved(a, c, d)
  {}

  // ----- guest and devices

  predicate OfTheWorld(e: Event) {
    e.SubmitWrite? || e.Land? || e.CompleteWrite? || e.SyncWrite? || e.ReadDisk? || e.ReadDone?
  }

  /** Sizes and bulk cursors are as they were. */
  predicate SameCursors(a: seq<Device>, b: seq<Device>) {
    |a| == |b| && forall d | 0 <= d < |a| :: |a[d].disk| == |b[d].disk| && a[d].curSector == b[d].curSector
  }

  lemma CursorsStay(a: seq<Device>, b: seq<Device>, c: seq<Device>)
    ensures SameCursors(a, a) && (SameCursors(a, b) && SameCursors(b, c) ==> SameCursors(a, c))
  {}

  lemma CanFillHere(m: Mig, e: Event)
    requires Enabled(m, e) && e.ReadDisk?
    ensures e.i < |m.flight| && !m.flight[e.i].read
  {}

  lemma InOrderIsFirst(m: Mig, i: nat)
    requires Enabled(m, ReadDone(i))
    ensures FirstOfItsChunk(m.flight, i)
  {}

  lemma GuestKeeps(m: Mig, e: Event)
    requires Possible(m, e) && (e.SubmitWrite? || e.Land? || e.CompleteWrite? || e.SyncWrite?)
    ensures |Step(m, e).devs| == |m.devs|
    ensures forall d | 0 <= d < |m.devs| ::
              |Step(m, e).devs[d].disk| == |m.devs[d].disk| && Step(m, e).devs[d].curSector == m.devs[d].curSector
    ensures Settled(m.writes) ==> Settled(Step(m, e).writes)
    ensures e.CompleteWrite? ==> |Step(m, e).writes| < |m.writes|
  {
    hide Touches, TouchedChunks;
  }

  lemma SameCursorsAs(a: seq<Device>, b: seq<Device>, m: Mig, m': Mig)
    requires m.devs == AbsAll(a) && m'.devs == AbsAll(b) && |m'.devs| == |m.devs|
    requires forall d | 0 <= d < |m.devs| :: |m'.devs[d].disk| == |m.devs[d].disk| && m'.devs[d].curSector == m.devs[d].curSector
    ensures SameCursors(a, b)
  {
    forall d | 0 <= d < |a| ensures |a[d].disk| == |b[d].disk| && a[d].curSector == b[d].curSector {
      assert m.devs[d] == Abs(a[d]) && m'.devs[d] == Abs(b[d]);
    }
  }

  // ----- answers

  function After(answers: seq<bool>, n: nat): seq<bool> { if n <= |answers| then answers[n..] else [] }

  lemma NoneAccepted(answers: seq<bool>)
    ensures AcceptedOf(answers, 0) == 0 && After(answers, 0) == answers
  {}

  lemma {:induction false} NextAccepted(answers: seq<bool>, n: nat)
    ensures After(answers, n + 1) == Rest(After(answers, n))
    ensures AcceptedOf(answers, n) == n ==> AcceptedOf(answers, n + 1) == if Accepted(After(answers, n)) then n + 1 else n
  {
    if n > 0 && Accepted(answers) {
      NextAccepted(Rest(answers), n - 1);
      assert After(Rest(answers), n - 1) == After(answers, n);
    }
  }

  lemma {:induction false} RefusedStays(answers: seq<bool>, k: nat, n: nat)
    requires k <= n && AcceptedOf(answers, k) < k
    ensures AcceptedOf(answers, n) == AcceptedOf(answers, k)
    decreases k
  {
    if Accepted(answers) {
      RefusedStays(Rest(answers), k - 1, n - 1);
    }
  }

  lemma {:induction false} MostAccepted(answers: seq<bool>, n: nat)
    ensures AcceptedOf(answers, n) <= n
    decreases n
  {
    if n > 0 {
      MostAccepted(Rest(answers), n - 1);
    }
  }

  // ----- the end of stage 3

  lemma GoodIsTrace(from: Mig, trace: seq<Event>, good: seq<Event>, wire: seq<Record>)
    requires StreamedBy(from, trace, good, false, wire)
    ensures good == trace
  {}

  lemma {:induction false} SameDirtyTotal(a: seq<Device>, b: seq<Device>)
    requires |a| == |b| && forall d | 0 <= d < |a| :: a[d].dirty == b[d].dirty
    ensures DirtyTotal(a) == DirtyTotal(b)
  {
    if a != [] {
      SameDirtyTotal(a[..|a| - 1], b[..|b| - 1]);
    }
  }

  lemma {:induction false} NoDirtyTotal(devs: seq<Device>)
    requires forall d | 0 <= d < |devs| :: devs[d].dirty == {}
    ensures DirtyTotal(devs) == 0
  {
    if devs != [] {
      NoDirtyTotal(devs[..|devs| - 1]);
    }
  }

  lemma {:induction false} NothingDirtyLeft(devs: seq<Device>, m: Mig)
    requires m.devs == AbsAll(devs) && CleanBehindCursors(m) && CursorsDone(m) && forall d | 0 <= d < |devs| :: DevOk(devs[d])
    ensures DirtyTotal(devs) == 0
  {
    hide DirtyTotal;
    forall d | 0 <= d < |devs| ensures devs[d].dirty == {} {
      assert DevOk(devs[d]);
      forall c: nat ensures c !in devs[d].dirty {
        if ValidChunk(m, d, c) {
          NothingDirtyAtTheEnd(m, d, c);
        }
      }
    }
    NoDirtyTotal(devs);
  }

  /** If the stream has everything, the disks are equal exactly when no block left in the queue was needed. */
  ghost predicate QueueDecides(mid: Mig, at: Mig, dest0: seq<Disk>) {
    && Valid(mid) && SameShape(mid, LoadAll(dest0, mid.sent))
    && (Arrived(at, dest0) <==> QueueNotNeeded(mid, LoadAll(dest0, mid.sent)))
    && (mid.queue == [] ==> Arrived(at, dest0))
  }

  ghost predicate AtStage3(m: Mig) {
    m.flight == [] && m.writes == [] && forall d | 0 <= d < |m.devs| :: m.devs[d].curSector >= |m.devs[d].disk|
  }

  lemma FlushEnds(mid: Mig, from: Mig, es: seq<Event>, dest0: seq<Disk>)
    requires IsStart(from) && SameShape(from, dest0) && Reached(mid, from, es) && EnabledAll(from, es) && AtStage3(mid)
    ensures ExactEnd(mid, dest0)
  {
    hide EnabledAll, PossibleAll, Run, Sound, LoadAll, ExactEnd, Possible, Step;
    AlwaysReset(mid);
    NothingPossible(Step(mid, ResetCursors));
    StoppedStage3(DisksOf(from), from.writes, dest0, es, []);
  }

  lemma NothingPossible(m: Mig)
    ensures PossibleAll(m, []) && Run(m, []) == m && AllStage3([])
  {}

  /** The stream ends with the part `good` of the trace. */
  lemma PassEnds(mid: Mig, last: Mig, from: Mig, es: seq<Event>, good: seq<Event>, trace: seq<Event>, fileError: bool,
                 wire: seq<Record>, dest0: seq<Disk>) returns (at: Mig)
    requires IsStart(from) && SameShape(from, dest0) && Reached(mid, from, es) && EnabledAll(from, es) && AtStage3(mid)
    requires Reached(last, from, trace) && Passed3(es + [ResetCursors], trace) && es + [ResetCursors] <= good && CursorsDone(last)
    requires StreamedBy(from, trace, good, fileError, wire)
    ensures mid.sent <= at.sent == wire && DisksOf(at) == DisksOf(last) && ExactEnd(at, dest0)
    ensures CleanBehindCursors(last) && (!fileError ==> at == last && QueueDecides(mid, at, dest0))
  {
    hide EnabledAll, PossibleAll, Run, Sound, LoadAll, CursorsDone, Arrived, Possible, ExactEnd, CleanBehindCursors, Step, QueueNotNeeded, Valid;
    var n := |es| + 1;
    var es3, got := trace[n..], good[n..];
    assert es + [ResetCursors] + es3 == trace && es + [ResetCursors] + got == good && AllStage3(got);
    AlwaysReset(mid);
    RunAppends(from, es, ResetCursors);
    RunSplits(from, es + [ResetCursors], es3);
    RunSplits(from, es + [ResetCursors], got);
    var m1 := Step(mid, ResetCursors);
    ResetClears(mid);
    at := Run(m1, got);
    StoppedStage3(DisksOf(from), from.writes, dest0, es, got);
    StoppedStage3(DisksOf(from), from.writes, dest0, es, es3);
    RunOnlyCleans(m1, got);
    RunOnlyCleans(m1, es3);
    SameDisksKept(m1, at, last);
    if !fileError {
      UndrainedStage3Iff(DisksOf(from), from.writes, dest0, es, es3);
      NothingQueuedDecides(mid, dest0);
    }
  }

  lemma SameDisksKept(m: Mig, a: Mig, b: Mig)
    requires OnlyCleaned(m, a) && OnlyCleaned(m, b)
    ensures DisksOf(a) == DisksOf(b)
  {}

  lemma NothingQueuedDecides(mid: Mig, dest0: seq<Disk>)
    requires InStep(mid, LoadAll(dest0, mid.sent))
    ensures Valid(mid) && SameShape(mid, LoadAll(dest0, mid.sent))
    ensures mid.queue == [] ==> QueueNotNeeded(mid, LoadAll(dest0, mid.sent))
  {}

  lemma GuestTouchesInside(m: Mig, e: Event)
    requires Possible(m, e)
    ensures e.Land? ==> |Overwrite(m.devs[m.writes[e.k].dev].disk, e.sector, e.data)| == |m.devs[m.writes[e.k].dev].disk|
    ensures e.SyncWrite? ==> |Overwrite(m.devs[e.dev].disk, e.sector, e.data)| == |m.devs[e.dev].disk|
    ensures e.SyncWrite? ==> Inside(TouchedChunks(e.sector, |e.data|, |m.devs[e.dev].disk|), ChunkCount(|m.devs[e.dev].disk|))
    ensures e.CompleteWrite? ==> Inside(MarkedBy(m.writes[e.k], |m.devs[m.writes[e.k].dev].disk|), ChunkCount(|m.devs[m.writes[e.k].dev].disk|))
    ensures forall n :: Inside({}, n)
  {}

  // ----- progress

  /** Each percentage is larger than the one before, and all are within 0 .. 100. */
  predicate Rising(progress: seq<int>) {
    && (forall i | 0 <= i < |progress| :: 0 <= progress[i] <= 100)
    && forall i, j | 0 <= i < j < |progress| :: progress[i] < progress[j]
  }

  lemma RisesTo(progress: seq<int>, p: int)
    requires Rising(progress) && (if progress == [] then -1 else progress[|progress| - 1]) < p <= 100
    ensures Rising(progress + [p])
  {}

  /** Devices are read one after the other, and what is completed of one lies before its cursor. */
  predicate OneByOne(devs: seq<Device>) {
    && (forall i, j | 0 <= i < j < |devs| && !devs[i].bulkCompleted :: devs[j].completedSectors == devs[j].curSector == 0)
    && forall d | 0 <= d < |devs| :: devs[d].completedSectors <= devs[d].curSector <= |devs[d].disk|
  }

  lemma {:induction false} SumsWithin(devs: seq<Device>, n: nat)
    requires n <= |devs| && OneByOne(devs)
    ensures CompletedSum(devs, n) <= SectorSum(devs, n)
  {
    if n > 0 {
      SumsWithin(devs, n - 1);
    }
  }

  /** The percentage is rounded down, and 100 where there is nothing to copy. */
  lemma PercentIs(sum: nat, total: nat)
    ensures var p := PercentOf(sum, total); if total == 0 then p == 100 else total * p <= 100 * sum < total * (p + 1)
  {
    if total != 0 {
      DivWithin(100 * sum, total);
    }
  }

  lemma DivWithin(x: nat, k: nat)
    requires k > 0
    ensures k * (x / k) <= x < k * (x / k + 1)
  {}

  /** The reads of the queue up to the first that failed. */
  lemma {:induction false} SucceededIs(rets: seq<int>)
    ensures var n := Succeeded(rets);
            n <= |rets| && (forall i | 0 <= i < n :: rets[i] >= 0) && (n < |rets| ==> rets[n] < 0)
  {
    if rets != [] && rets[0] >= 0 {
      SucceededIs(rets[1..]);
      assert forall i | 0 < i < |rets| :: rets[i] == rets[1..][i - 1];
    }
  }

  /** The answers up to the first refusal; a device that has none left accepts. */
  lemma {:induction false} AcceptedOfIs(answers: seq<bool>, n: nat)
    ensures var k := AcceptedOf(answers, n);
            k <= n && (forall i | 0 <= i < k && i < |answers| :: answers[i]) && (k < n ==> k < |answers| && !answers[k])
    decreases n
  {
    if n > 0 && Accepted(answers) {
      AcceptedOfIs(Rest(answers), n - 1);
      assert forall i | 0 < i < |answers| :: answers[i] == Rest(answers)[i - 1];
    }
  }

  lemma PercentGrows(a: nat, b: nat, total: nat)
    requires a <= b <= total
    ensures PercentOf(a, total) <= PercentOf(b, total) <= 100
  {
    if total != 0 {
      Quotients(a * 100, b * 100, total);
      Quotients(b * 100, 100 * total, total);
      DivIs(100 * total, total, 100, 0);
    }
  }

  lemma Quotients(x: nat, y: nat, k: nat)
    requires x <= y && k > 0
    ensures x / k <= y / k
  {
    var p, q := x / k, y / k;
    assert k * p <= x && y < k * (q + 1);
    assert p > q ==> k * p >= k * (q + 1);
  }

  lemma PercentInRange(devs: seq<Device>, total: nat)
    requires OneByOne(devs) && total == SectorSum(devs, |devs|)
    ensures PercentOf(CompletedSum(devs, |devs|), total) <= 100
  {
    SumsWithin(devs, |devs|);
    PercentGrows(CompletedSum(devs, |devs|), total, total);
  }

  lemma {:induction false} SumsUpTo(a: seq<Device>, b: seq<Device>, n: nat)
    requires n <= |a| == |b|
    requires forall k | 0 <= k < n :: a[k].completedSectors == b[k].completedSectors && |a[k].disk| == |b[k].disk|
    ensures CompletedSum(a, n) == CompletedSum(b, n) && SectorSum(a, n) == SectorSum(b, n)
  {
    if n > 0 {
      SumsUpTo(a, b, n - 1);
    }
  }

  lemma SumsCarry(a: seq<Device>, b: seq<Device>)
    requires SameBulk(a, b)
    ensures CompletedSum(a, |a|) == CompletedSum(b, |b|) && SectorSum(a, |a|) == SectorSum(b, |b|) && OneByOne(a) == OneByOne(b)
  {
    SumsUpTo(a, b, |a|);
  }

  lemma {:induction false} RestIsZero(devs: seq<Device>, n: nat, end: nat)
    requires n <= end <= |devs| && forall k | n <= k < end :: devs[k].completedSectors == 0
    ensures CompletedSum(devs, end) == CompletedSum(devs, n)
    decreases end
  {
    if n < end {
      RestIsZero(devs, n, end - 1);
    }
  }

  lemma {:induction false} SameSizesSameSum(a: seq<Device>, b: seq<Device>, n: nat)
    requires n <= |a| == |b| && forall k | 0 <= k < n :: |a[k].disk| == |b[k].disk|
    ensures SectorSum(a, n) == SectorSum(b, n)
  {
    if n > 0 {
      SameSizesSameSum(a, b, n - 1);
    }
  }

  lemma ServedSame(a: seq<Device>, b: seq<Device>, d: nat)
    requires d < |a| == |b| && b == a[d := b[d]] && |b[d].disk| == |a[d].disk| && OneByOne(a)
    ensures forall k | 0 <= k < |a| :: |a[k].disk| == |b[k].disk|
    ensures forall k | 0 <= k < d :: a[k].completedSectors == b[k].completedSectors
    ensures a[d].completedSectors <= a[d].curSector
  {}

  lemma ServedOneByOne(a: seq<Device>, b: seq<Device>, d: nat)
    requires d < |a| == |b| && b == a[d := b[d]] && OneByOne(a)
    requires b[d].completedSectors <= b[d].curSector <= |b[d].disk|
    requires !a[d].bulkCompleted && forall k | 0 <= k < d :: a[k].bulkCompleted
    ensures OneByOne(b)
  {
    forall i, j | 0 <= i < j < |b| && !b[i].bulkCompleted ensures b[j].completedSectors == b[j].curSector == 0 {
      assert i >= d;
      assert !a[d].bulkCompleted && d < j;
    }
  }

  /** The devices as init_blk_migration finds them. */
  function FreshDevices(disks: seq<Disk>): (r: seq<Device>)
    ensures |r| == |disks|
  {
    seq(|disks|, d requires 0 <= d < |disks| =>
      Device(disks[d], {}, DirtyBitmap.ZeroWords(ChunkCount(|disks[d]|)), 0, 0, 0, false))
  }

  lemma FreshIsOk(disks: seq<Disk>, early: seq<Pending>)
    requires (forall d | 0 <= d < |disks| :: |disks[d]| > 0) && AreEarly(disks, early)
    ensures var all := FreshDevices(disks);
            && Mig(AbsAll(all), [], [], [], early) == Start(disks, early) && IsStart(Start(disks, early))
            && OneByOne(all) && forall d | 0 <= d < |all| :: DevOk(all[d])
  {
    hide InFlightSet;
    var all := FreshDevices(disks);
    forall d | 0 <= d < |disks| ensures Abs(all[d]) == Dev(disks[d], {}, {}, 0, 0) && DevOk(all[d]) {
      NoneInFlight(ChunkCount(|disks[d]|), |disks[d]|);
    }
    assert DisksOf(Start(disks, early)) == disks;
  }

  lemma NothingLaid()
    ensures Laid([], [], [])
  {}

  /** The sums before and after the first unfinished device has been served. */
  lemma ServedSums(a: seq<Device>, b: seq<Device>, d: nat, total: nat)
    requires d < |a| == |b| && b == a[d := b[d]] && OneByOne(a) && total == SectorSum(a, |a|)
    requires |b[d].disk| == |a[d].disk| && b[d].completedSectors == a[d].curSector <= b[d].curSector <= |b[d].disk|
    requires !a[d].bulkCompleted && forall k | 0 <= k < d :: a[k].bulkCompleted
    ensures OneByOne(b) && SectorSum(b, |b|) == total && CompletedSum(b, d) == CompletedSum(a, d)
    ensures CompletedSum(b, |b|) == CompletedSum(b, d) + b[d].completedSectors
    ensures CompletedSum(a, |a|) <= CompletedSum(b, |b|) <= total
  {
    hide PercentOf, SectorSum, CompletedSum, OneByOne;
    ServedSame(a, b, d);
    SameSizesSameSum(a, b, |a|);
    SumsUpTo(a, b, d);
    ServedOneByOne(a, b, d);
    SumOneMore(a, d);
    SumOneMore(b, d);
    OthersNotBegun(a, b, d);
    RestIsZero(a, d + 1, |a|);
    RestIsZero(b, d + 1, |b|);
    SumsWithin(b, |b|);
  }

  lemma OthersNotBegun(a: seq<Device>, b: seq<Device>, d: nat)
    requires d < |a| == |b| && b == a[d := b[d]] && OneByOne(a) && !a[d].bulkCompleted
    ensures forall k | d + 1 <= k < |a| :: a[k].completedSectors == 0
    ensures forall k | d + 1 <= k < |b| :: b[k].completedSectors == 0
  {}

  lemma CursorsInside(m: Mig, from: Mig, trace: seq<Event>, d: nat)
    requires Reached(m, from, trace) && d < |m.devs|
    ensures m.devs[d].curSector <= |m.devs[d].disk|
  {
    ReachedIsValid(m, from, trace);
  }

  lemma SameDevsSameCursors(m: Mig, m': Mig)
    requires m.devs == m'.devs
    ensures CursorsDone(m) == CursorsDone(m')
  {}

  /** The trace has grown by steps of stage 3 alone. */
  ghost predicate Passed3(before: seq<Event>, after: seq<Event>) {
    before <= after && AllStage3(after[|before|..])
  }

  lemma PassedNothing(trace: seq<Event>)
    ensures Passed3(trace, trace)
  {}

  lemma PassedMore(start: seq<Event>, before: seq<Event>, e: Event)
    requires Passed3(start, before) && IsStage3(e)
    ensures Passed3(start, before + [e])
  {
    assert (before + [e])[|start|..] == before[|start|..] + [e];
  }

  lemma PassedOn(start: seq<Event>, before: seq<Event>, after: seq<Event>)
    requires Passed3(start, before) && Passed3(before, after)
    ensures Passed3(start, after)
  {
    assert after[|start|..] == before[|start|..] + after[|before|..];
  }

  lemma ShorterRest(answers: seq<bool>)
    ensures answers != [] ==> |Rest(answers)| < |answers|
    ensures answers == [] ==> Rest(answers) == [] && Accepted(answers)
  {}

  lemma NothingSummed(devs: seq<Device>)
    ensures CompletedSum(devs, 0) == 0
  {}

  lemma SumOneMore(devs: seq<Device>, n: nat)
    requires n < |devs|
    ensures CompletedSum(devs, n + 1) == CompletedSum(devs, n) + devs[n].completedSectors
  {}

  lemma SumOfPrefix(a: seq<Device>, b: seq<Device>, n: nat)
    requires n <= |a| && n <= |b| && a[..n] == b[..n]
    ensures CompletedSum(a, n) == CompletedSum(b, n)
  {
    if n > 0 {
      assert a[..n - 1] == a[..n][..n - 1] && b[..n - 1] == b[..n][..n - 1] && a[n - 1] == a[..n][n - 1] == b[..n][n - 1];
      SumOfPrefix(a, b, n - 1);
    }
  }

  lemma CompletedIsNotAbs(xs: seq<Device>, d: nat, n: nat)
    requires d < |xs|
    ensures AbsAll(xs[d := xs[d].(completedSectors := n)]) == AbsAll(xs)
  {}

  predicate SameDevices(a: seq<Device>, b: seq<Device>) {
    |a| == |b| && forall d | 0 <= d < |a| :: a[d].disk == b[d].disk
  }

  /** Disks, bulk cursors and what is told of them are as they were. */
  predicate SameBulk(a: seq<Device>, b: seq<Device>) {
    && SameDevices(a, b)
    && forall d | 0 <= d < |a| ::
         a[d].curSector == b[d].curSector && a[d].completedSectors == b[d].completedSectors && a[d].bulkCompleted == b[d].bulkCompleted
  }

  /** Of the cursors only those of device d have moved, and its bulk cursor has not. */
  predicate OnlyMoved(a: seq<Device>, b: seq<Device>, d: nat) {
    SameBulk(a, b) && forall k | 0 <= k < |a| && k != d :: b[k].curDirty == a[k].curDirty
  }

  lemma NothingMoved(a: seq<Device>, d: nat)
    ensures OnlyMoved(a, a, d)
  {}

  lemma MarksDoNotMove(a: seq<Device>, b: seq<Device>, c: seq<Device>, d: nat)
    requires OnlyMoved(a, b, d) && SameButAio(b, c) && d < |a|
    ensures OnlyMoved(a, c, d) && |c| == |a| && c[d].curDirty == b[d].curDirty && c[d].disk == b[d].disk
  {}

  lemma ServingDoesNotMove(a: seq<Device>, b: seq<Device>, c: seq<Device>, d: nat)
    requires OnlyMoved(a, b, d) && SameButDirty(b, c) && d < |a|
    ensures OnlyMoved(a, c, d) && |c| == |a| && c[d].curDirty == b[d].curDirty && c[d].disk == b[d].disk
  {}

  lemma SkippingMoves(a: seq<Device>, b: seq<Device>, c: seq<Device>, d: nat)
    requires OnlyMoved(a, b, d) && d < |b| && c == b[d := b[d].(curDirty := b[d].curDirty + CHUNK)]
    ensures OnlyMoved(a, c, d) && |c| == |a|
  {}

  /** Nothing but the marks of chunks being read has changed. */
  predicate SameButAio(a: seq<Device>, b: seq<Device>) {
    |a| == |b| && forall d | 0 <= d < |a| :: b[d] == a[d].(aio := b[d].aio)
  }

  /** Nothing but dirty chunks and chunks being read has changed. */
  predicate SameButDirty(a: seq<Device>, b: seq<Device>) {
    |a| == |b| && forall d | 0 <= d < |a| :: b[d] == a[d].(aio := b[d].aio, dirty := b[d].dirty)
  }

  /** BLOCK_SIZE, in bytes */
  const BLOCK_SIZE: nat := CHUNK * SECTOR

  function RecordsOf(bs: seq<Blk>): (r: seq<Record>)
    ensures |r| == |bs|
  {
    seq(|bs|, i requires 0 <= i < |bs| => RecordOf(bs[i]))
  }

  lemma NoRecords(bs: seq<Blk>)
    ensures RecordsOf(bs[..0]) == [] && bs[0..] == bs
  {}

  lemma RecordsAppend(bs: seq<Blk>, n: nat)
    requires n < |bs|
    ensures RecordsOf(bs[..n + 1]) == RecordsOf(bs[..n]) + [RecordOf(bs[n])]
  {}

  lemma AtSendHead(m: Mig)
    requires m.queue != []
    ensures Enabled(m, SendHead)
    ensures Step(m, SendHead) == Mig(m.devs, m.flight, m.queue[1..], m.sent + [RecordOf(m.queue[0])], m.writes)
  {}

  lemma FlagIsNotAbs(xs: seq<Device>, d: nat)
    requires d < |xs|
    ensures AbsAll(xs[d := xs[d].(bulkCompleted := true)]) == AbsAll(xs)
  {}

  lemma FlightInRange(m: Mig, from: Mig, trace: seq<Event>, i: nat)
    requires Reached(m, from, trace) && i < |m.flight|
    ensures ValidBlk(m, m.flight[i])
  {
    ReachedIsValid(m, from, trace);
  }

  lemma DoneIsRead(m: Mig, i: nat)
    requires Possible(m, ReadDone(i))
    ensures Enabled(m, ReadDone(i)) <==> FirstOfItsChunk(m.flight, i)
    ensures i < |m.flight| && m.flight[i].read && m.flight[i].dev < |m.devs|
  {}

  lemma BulkCursorAligned(m: Mig, from: Mig, trace: seq<Event>, d: nat)
    requires Reached(m, from, trace) && d < |m.devs| && m.devs[d].curSector < |m.devs[d].disk|
    ensures m.devs[d].curSector % CHUNK == 0
  {
    ReachedIsValid(m, from, trace);
  }

  lemma NothingBeingRead(m: Mig, from: Mig, trace: seq<Event>, d: nat)
    requires Reached(m, from, trace) && m.flight == [] && d < |m.devs|
    ensures m.devs[d].reading == {}
  {
    ReachedIsValid(m, from, trace);
    NothingFlyingNothingRead(m, d);
  }

  lemma CanReadDirty(m: Mig, d: nat)
    requires d < |m.devs| && m.devs[d].curDirty < |m.devs[d].disk|
    requires m.devs[d].curDirty / CHUNK !in m.devs[d].reading && m.devs[d].curDirty / CHUNK in m.devs[d].dirty
    ensures Enabled(m, DirtyRead(d))
  {}

  lemma CanSendDirty(m: Mig, d: nat, pad: seq<Sector>)
    requires d < |m.devs| && m.devs[d].curDirty < |m.devs[d].disk| && m.flight == []
    requires m.devs[d].curDirty / CHUNK !in m.devs[d].reading && m.devs[d].curDirty / CHUNK in m.devs[d].dirty
    requires m.devs[d].curDirty / CHUNK < ChunkCount(|m.devs[d].disk|)
    requires |Slice(m.devs[d].disk, m.devs[d].curDirty / CHUNK)| + |pad| == CHUNK
    ensures Possible(m, SendDirty(d, pad)) && (m.queue == [] && Settled(m.writes) ==> Enabled(m, SendDirty(d, pad)))
  {
    NothingEarly(m, d, m.devs[d].curDirty / CHUNK);
  }

  lemma CanReadHere(m: Mig, d: nat)
    requires Enabled(m, DirtyRead(d))
    ensures d < |m.devs| && m.devs[d].curDirty < |m.devs[d].disk| && Possible(m, DirtyRead(d))
  {}

  lemma CursorMoves(devs: seq<Device>, d: nat)
    requires d < |devs| && forall k | 0 <= k < |devs| :: DevOk(devs[k])
    ensures var devs' := devs[d := devs[d].(curDirty := devs[d].curDirty + CHUNK)];
            && (forall k | 0 <= k < |devs'| :: DevOk(devs'[k])) && DirtyTotal(devs') == DirtyTotal(devs) && SameBulk(devs, devs')
            && AbsAll(devs') == AbsAll(devs)[d := AbsAll(devs)[d].(curDirty := AbsAll(devs)[d].curDirty + CHUNK)]
  {
    hide InFlightSet, DirtyTotal;
    var x := devs[d].(curDirty := devs[d].curDirty + CHUNK);
    AbsAllUpdate(devs, d, x);
    DirtyTotalUpdate(devs, d, x);
  }

  lemma SkipIsInRange(m: Mig, d: nat)
    requires Enabled(m, DirtySkip(d))
    ensures d < |m.devs| && Possible(m, DirtySkip(d))
  {}

  lemma CanSkip(m: Mig, d: nat)
    requires d < |m.devs| && m.devs[d].curDirty < |m.devs[d].disk|
    requires m.devs[d].curDirty / CHUNK !in m.devs[d].reading && m.devs[d].curDirty / CHUNK !in m.devs[d].dirty
    ensures Enabled(m, DirtySkip(d))
  {}

  lemma FirstIsFirst(flight: seq<Blk>)
    requires flight != []
    ensures FirstOfItsChunk(flight, 0)
  {}

  lemma SameChunksSameFirst(a: seq<Blk>, b: seq<Blk>, i: nat)
    requires |a| == |b| && i < |a| && FirstOfItsChunk(a, i)
    requires forall j | 0 <= j < |a| :: a[j].dev == b[j].dev && a[j].c == b[j].c
    ensures FirstOfItsChunk(b, i)
  {}

  lemma NoneInFlight(words: nat, total: nat)
    ensures InFlightSet(DirtyBitmap.ZeroWords(words), total) == {}
  {
    hide DirtyBitmap.BitAt;
    DirtyBitmap.NoBits(words);
  }
}
