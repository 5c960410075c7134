/**
 A whole migration of block devices: stage 1, rounds in which guest and devices
 go on and stage 2 reads and sends, stage 3 with the guest stopped, then the
 receiver reading the bytes of everything on the stream.
 */
module BlockDriver {
  import opened Basics
  import opened Bits
  import opened BlockMigration
  import opened BlockMigrationExact
  import opened BlockStream
  import opened BlockSaver
  import opened BlockReceiver
  import R = RamStream

  /** What guest and devices do before the next stage, and the limits that stage meets. */
  datatype Round = Round(events: seq<Event>, rateLimit: nat, before: nat, after: nat)

  /** The sender is sound, and all has been in order so far. */
  ghost predicate Underway(src: BlockMigrator)
    reads src
  {
    src.Ok() && src.Told() && src.Ordered() && (src.bulkCompleted ==> src.BulkOver())
  }

  /** Guest and devices take those of the steps that they can take, in order. */
  method Meanwhile(src: BlockMigrator, events: seq<Event>)
    requires Underway(src)
    modifies src`devs, src`flight, src`queue, src`rets, src`submitted, src`readDone, src`trace, src`good, src`results, src`writes
    ensures Underway(src)
  {
    var i := 0;
    while i < |events|
      invariant 0 <= i <= |events| && Underway(src)
    {
      if OfTheWorld(events[i]) && Enabled(src.Value(), events[i]) {
        OneStep(src, events[i]);
      }
      i := i + 1;
    }
  }

  method OneStep(src: BlockMigrator, e: Event)
    requires Underway(src) && OfTheWorld(e) && Enabled(src.Value(), e)
    modifies src`devs, src`flight, src`queue, src`rets, src`submitted, src`readDone, src`trace, src`good, src`results, src`writes
    ensures Underway(src)
  {
    hide BlockMigrator.Ok, BlockMigrator.Told, BlockMigrator.Ordered, Possible, InOrder;
    src.World(e);
  }

  method Iterate(src: BlockMigrator, rounds: seq<Round>) returns (ok: bool)
    requires Underway(src)
    modifies src
    ensures src.Ok() && src.Told() && (ok ==> Underway(src) && !src.fileError)
  {
    hide Underway;
    ok := !src.fileError;
    Holds(src);
    var i := 0;
    while i < |rounds|
      invariant 0 <= i <= |rounds| && Underway(src) && ok == !src.fileError
    {
      ok := OneRound(src, rounds[i]);
      i := i + 1;
    }
    Holds(src);
  }

  method OneRound(src: BlockMigrator, round: Round) returns (ok: bool)
    requires Underway(src)
    modifies src
    ensures Underway(src) && ok == !src.fileError
  {
    hide BlockMigrator.Ok, BlockMigrator.Told;
    Meanwhile(src, round.events);
    var load;
    ghost var held;
    ok, load, held := src.Stage2(round.rateLimit, round.before, round.after);
  }

  lemma Holds(src: BlockMigrator)
    requires Underway(src)
    ensures src.Ok() && src.Told()
  {}

  /** The receiver knows devices of these sizes by distinct short names. */
  ghost predicate Receives(dst: Receiver, from: Mig)
    reads dst
  {
    && |dst.names| == |dst.disks| && Distinct(dst.names) && SameShape(from, dst.disks)
    && (forall d | 0 <= d < |dst.names| :: |dst.names[d]| < 256)
    && forall d | 0 <= d < |dst.disks| :: SECTOR * |dst.disks[d]| + 8 <= R.TWO_64
  }

  /**
   A migration from beginning to end.  If it reports success, both machines
   have the same disks exactly when no block left in the queue of stage 3 was
   needed; so they have if the last flush drained the queue.
   */
  method Migrate(src: BlockMigrator, dst: Receiver, rounds: seq<Round>, last: Round) returns (ok: bool, ghost mid: Mig)
    requires Underway(src) && !src.fileError && Receives(dst, src.origin)
    modifies src, dst
    ensures ok ==> SameShape(mid, LoadAll(old(dst.disks), mid.sent)) && Valid(mid)
    ensures ok ==> (dst.disks == DisksOf(src.Value()) <==> QueueNotNeeded(mid, LoadAll(old(dst.disks), mid.sent)))
    ensures ok && mid.queue == [] ==> dst.disks == DisksOf(src.Value())
  {
    hide Underway, Receives, LoadAll, QueueNotNeeded, SameShape, Valid, QueueDecides, Distinct;
    mid := src.Value();
    ok := Begin(src, last.before);
    if !ok { return; }
    ok := Iterate(src, rounds);
    if !ok { return; }
    Meanwhile(src, last.events);
    ghost var at;
    ok, mid, at := Finish(src, last.after, dst);
    if !ok { return; }
    Readable(src, dst);
    var bytes := StreamBytes(Stream(dst.names, src.sections));
    ReadsTheSame(src, mid, at, dst);
    var ret := dst.LoadStream(bytes);
    ok := ret >= 0;
  }

  method Begin(src: BlockMigrator, budget: nat) returns (ok: bool)
    requires Underway(src)
    modifies src
    ensures ok ==> Underway(src) && !src.fileError
  {
    hide BlockMigrator.Ok, BlockMigrator.Told;
    ok := src.Stage1(budget);
  }

  /** The guest is stopped, and stage 3 follows if the bulk pass is over. */
  method Finish(src: BlockMigrator, budget: nat, ghost dst: Receiver) returns (ok: bool, ghost mid: Mig, ghost at: Mig)
    requires Underway(src) && !src.fileError && Receives(dst, src.origin)
    modifies src
    ensures src.Ok()
    ensures ok ==> src.wire == src.sent == at.sent && src.section == [] && DisksOf(at) == DisksOf(src.Value()) && QueueDecides(mid, at, dst.disks)
    ensures ok ==> forall k | 0 <= k < |src.sections| :: Small(src.sections[k])
  {
    hide BlockMigrator.Ok, BlockMigrator.Told, LoadAll, QueueNotNeeded, SameShape, Valid, QueueDecides, ExactEnd, DirtyTotal, AcceptedOf,
         Succeeded, RecordsOf, Arrived, CursorsDone, Small;
    src.Quiesce();
    mid, at := src.Value(), src.Value();
    if !src.bulkCompleted { return false, mid, at; }
    ok, mid, at := src.Stage3(budget, dst.disks);
  }

  /** Everything on the stream has a byte form, and the receiver accepts it. */
  lemma Readable(src: BlockMigrator, dst: Receiver)
    requires src.Ok() && src.wire == src.sent && src.section == [] && Receives(dst, src.origin)
    requires forall k | 0 <= k < |src.sections| :: Small(src.sections[k])
    ensures AllBlocks(src.sections) == src.wire && LoadableSections(dst.disks, src.sections) && StreamFits(dst.names, src.sections)
    ensures NamesDevices(dst.names, src.sections) && AllSections(Stream(dst.names, src.sections))
    ensures |dst.names| == |dst.disks|
    ensures Replay(dst.names, dst.disks, StreamBytes(Stream(dst.names, src.sections))) == Outcome(LoadAll(dst.disks, src.wire), 0)
  {
    hide Reached, StreamedBy, AllBlocks, LoadAll, Replay, Stream, StreamBytes, AllSections, LoadablePieces, Distinct, SameShape, NamesDevices;
    assert Blocks([]) == [];
    assert AllBlocks(src.sections) + [] == src.wire;
    assert AllBlocks(src.sections) == src.wire == src.Value().sent;
    AllAreLoadable(src.Value(), src.origin, src.trace, dst.disks);
    SectionsAreLoadable(dst.disks, src.sections);
    forall k, i | 0 <= k < |src.sections| && 0 <= i < |src.sections[k]| ensures PieceFits(src.sections[k][i]) {
      PieceIsSmall(dst.disks, src.sections, k, i);
    }
    BytesAreLoaded(dst.names, dst.disks, src.sections);
  }

  lemma AllAreLoadable(m: Mig, from: Mig, trace: seq<Event>, disks: seq<Disk>)
    requires Reached(m, from, trace) && IsStart(from) && SameShape(from, disks)
    ensures AllLoadable(disks, m.sent)
  {
    hide Run, PossibleAll, Sound;
    StartIsSound(DisksOf(from), from.writes);
    RunSendsLoadable(from, disks, trace);
  }

  lemma PieceIsSmall(disks: seq<Disk>, ss: seq<seq<Piece>>, k: nat, i: nat)
    requires LoadableSections(disks, ss) && k < |ss| && i < |ss[k]| && Small(ss[k])
    requires forall d | 0 <= d < |disks| :: SECTOR * |disks[d]| + 8 <= R.TWO_64
    ensures PieceFits(ss[k][i])
  {
    assert LoadablePieces(disks, ss[k]);
    if ss[k][i].Block? {
      var r := ss[k][i].r;
      assert Loadable(disks, r);
      assert r.c * CHUNK < |disks[r.dev]|;
    }
  }

  lemma ReadsTheSame(src: BlockMigrator, mid: Mig, at: Mig, dst: Receiver)
    requires QueueDecides(mid, at, dst.disks) && at.sent == src.wire && DisksOf(at) == DisksOf(src.Value())
    ensures Valid(mid) && SameShape(mid, LoadAll(dst.disks, mid.sent))
    ensures LoadAll(dst.disks, src.wire) == DisksOf(src.Value()) <==> QueueNotNeeded(mid, LoadAll(dst.disks, mid.sent))
    ensures mid.queue == [] ==> LoadAll(dst.disks, src.wire) == DisksOf(src.Value())
  {
    hide LoadAll, QueueNotNeeded, Valid, SameShape;
    assert Arrived(at, dst.disks) <==> LoadAll(dst.disks, at.sent) == DisksOf(at);
  }
}
