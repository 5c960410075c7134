/**
 Exactly when live block migration is right: a guard on the submission of
 reads that makes every order of completions harmless, what can happen without
 it, and what a queue that is not drained before stage 3 costs.
 */
module BlockMigrationExact {
  import opened Basics
  import opened BlockMigration

  // ----- every step keeps the machine sound

  ghost predicate Sound(m: Mig) {
    && Valid(m) && Flying(m)
    && forall k | 0 <= k < |m.writes| ::
         m.writes[k].dev < |m.devs| && m.writes[k].n > 0 && m.writes[k].sector + m.writes[k].n <= |m.devs[m.writes[k].dev].disk|
  }

  /** The shape of the disks does not change. */
  ghost predicate SameSizes(m: Mig, m': Mig) {
    |m'.devs| == |m.devs| && forall d | 0 <= d < |m.devs| :: |m'.devs[d].disk| == |m.devs[d].disk|
  }

  lemma BlksCarry(m: Mig, m': Mig)
    requires SameSizes(m, m')
    ensures forall b: Blk | ValidBlk(m, b) :: ValidBlk(m', b)
  {}

  lemma DiskStepKeepsValid(m: Mig, e: Event)
    requires Valid(m) && Possible(m, e) && (e.SubmitWrite? || e.Land? || e.CompleteWrite? || e.SyncWrite?)
    ensures Valid(Step(m, e)) && SameSizes(m, Step(m, e))
  {
    hide Slice, TouchedChunks, ValidBlk;
    BlksCarry(m, Step(m, e));
  }

  lemma ReadStepKeepsValid(m: Mig, e: Event)
    requires Valid(m) && Possible(m, e) && (e.BulkRead? || e.DirtyRead? || e.ReadDisk? || e.ReadDone?)
    ensures Valid(Step(m, e)) && SameSizes(m, Step(m, e))
  {
    hide Slice, TouchedChunks;
    var m' := Step(m, e);
    BlksCarry(m, m');
    if e.BulkRead? || e.DirtyRead? {
      var x := m.devs[e.dev];
      assert x.curSector % CHUNK == 0 || x.curSector == |x.disk|;
    }
    forall j | 0 <= j < |m'.flight| ensures ValidBlk(m', m'.flight[j]) {
      if e.ReadDone? {
        assert m'.flight[j] == m.flight[if j < e.i then j else j + 1];
      } else if j < |m.flight| {
        assert ValidBlk(m, m.flight[j]);
      }
    }
  }

  lemma OtherStepKeepsValid(m: Mig, e: Event)
    requires Valid(m) && Possible(m, e) && (e.DirtySkip? || e.ResetCursors? || e.SendHead? || e.SendDirty?)
    ensures Valid(Step(m, e)) && SameSizes(m, Step(m, e))
  {
    hide Slice, ValidBlk;
    BlksCarry(m, Step(m, e));
  }

  lemma StepKeepsSound(m: Mig, e: Event)
    requires Sound(m) && Possible(m, e)
    ensures Sound(Step(m, e)) && SameSizes(m, Step(m, e))
  {
    StepKeepsFlying(m, e);
    match e
    case SubmitWrite(_) => DiskStepKeepsValid(m, e);
    case Land(_, _, _) => DiskStepKeepsValid(m, e);
    case CompleteWrite(_) => DiskStepKeepsValid(m, e);
    case SyncWrite(_, _, _) => DiskStepKeepsValid(m, e);
    case BulkRead(_) => ReadStepKeepsValid(m, e);
    case DirtyRead(_) => ReadStepKeepsValid(m, e);
    case ReadDisk(_, _) => ReadStepKeepsValid(m, e);
    case ReadDone(_) => ReadStepKeepsValid(m, e);
    case DirtySkip(_) => OtherStepKeepsValid(m, e);
    case ResetCursors => OtherStepKeepsValid(m, e);
    case SendHead => OtherStepKeepsValid(m, e);
    case SendDirty(_, _) => OtherStepKeepsValid(m, e);
  }

  lemma {:induction false} RunKeepsSound(m: Mig, es: seq<Event>)
    requires Sound(m) && PossibleAll(m, es)
    ensures Sound(Run(m, es)) && SameSizes(m, Run(m, es))
    decreases |es|
  {
    hide Sound, Possible, Step;
    if es != [] {
      StepKeepsSound(m, es[0]);
      RunKeepsSound(Step(m, es[0]), es[1..]);
    }
  }

  lemma StartIsSound(disks: seq<Disk>, early: seq<Pending>)
    requires AreEarly(disks, early)
    ensures Sound(Start(disks, early))
  {}

  // ----- a guard on submissions

  /** The chunk that the event submits a read of. */
  function ReadChunk(m: Mig, e: Event): nat
    requires Possible(m, e) && (e.BulkRead? || e.DirtyRead?)
  {
    (if e.BulkRead? then m.devs[e.dev].curSector else m.devs[e.dev].curDirty) / CHUNK
  }

  /**
   No read of a chunk is submitted while another read of it is in flight, none
   takes its contents while an early write to it is, and stage 3 finds flight
   and queue empty.
   */
  predicate Guarded(m: Mig, e: Event) {
    && Possible(m, e) && ReadsSettled(m, e)
    && (e.BulkRead? || e.DirtyRead? ==> LastFor(m.flight, e.dev, ReadChunk(m, e)) < 0)
    && (e.SendDirty? ==> m.flight == [] && m.queue == [])
  }

  predicate GuardedAll(m: Mig, es: seq<Event>)
    decreases |es|
  {
    es == [] || (Guarded(m, es[0]) && GuardedAll(Step(m, es[0]), es[1..]))
  }

  ghost predicate SameChunkRead(flight: seq<Blk>, i: int, j: int) {
    0 <= i < |flight| && 0 <= j < |flight| && i != j && flight[i].dev == flight[j].dev && flight[i].c == flight[j].c
  }

  ghost predicate OneReadPerChunk(m: Mig) {
    forall i, j :: !SameChunkRead(m.flight, i, j)
  }

  /** Under the guard every completion is the first of its chunk, in whatever order they come. */
  lemma GuardKeepsOne(m: Mig, e: Event)
    requires OneReadPerChunk(m) && Guarded(m, e)
    ensures Enabled(m, e) && OneReadPerChunk(Step(m, e))
  {
    hide Slice, TouchedChunks, LastFor, ValidBlk;
    var m' := Step(m, e);
    forall i, j ensures !SameChunkRead(m'.flight, i, j) {
      if 0 <= i < |m'.flight| && 0 <= j < |m'.flight| && i != j {
        if e.ReadDone? {
          assert !SameChunkRead(m.flight, if i < e.i then i else i + 1, if j < e.i then j else j + 1);
        } else {
          assert !SameChunkRead(m.flight, i, j);
        }
      }
    }
    if e.ReadDone? {
      forall j | 0 <= j < e.i ensures !(m.flight[j].dev == m.flight[e.i].dev && m.flight[j].c == m.flight[e.i].c) {
        assert !SameChunkRead(m.flight, j, e.i);
      }
    }
  }

  lemma {:induction false} GuardedIsEnabled(m: Mig, es: seq<Event>)
    requires OneReadPerChunk(m) && GuardedAll(m, es)
    ensures EnabledAll(m, es)
    decreases |es|
  {
    hide OneReadPerChunk, Step, Possible, InOrder;
    if es != [] {
      GuardKeepsOne(m, es[0]);
      GuardedIsEnabled(Step(m, es[0]), es[1..]);
    }
  }

  ghost predicate AllStage3(es: seq<Event>) { forall i | 0 <= i < |es| :: IsStage3(es[i]) }

  lemma {:induction false} Stage3IsEnabled(m: Mig, es: seq<Event>)
    requires m.flight == [] && m.queue == [] && m.writes == [] && PossibleAll(m, es) && AllStage3(es)
    ensures EnabledAll(m, es)
    decreases |es|
  {
    if es != [] {
      Stage3IsEnabled(Step(m, es[0]), es[1..]);
    }
  }

  /** The receiver's disks are the sender's. */
  ghost predicate Arrived(m: Mig, disks0: seq<Disk>) {
    var end := LoadAll(disks0, m.sent);
    |end| == |m.devs| && forall d | 0 <= d < |end| :: end[d] == m.devs[d].disk
  }

  /** The copy theorem under the guard alone: completions may come in any order. */
  lemma GuardedMigrationCopiesDisks(disks: seq<Disk>, early: seq<Pending>, disks0: seq<Disk>, es: seq<Event>, es3: seq<Event>)
    requires |disks0| == |disks| && forall d | 0 <= d < |disks| :: |disks0[d]| == |disks[d]|
    requires GuardedAll(Start(disks, early), es) && PossibleAll(Start(disks, early), es)
    requires ReadyForStage3(Run(Start(disks, early), es))
    requires PossibleAll(Step(Run(Start(disks, early), es), ResetCursors), es3) && AllStage3(es3)
    requires CursorsDone(Run(Step(Run(Start(disks, early), es), ResetCursors), es3))
    ensures Arrived(Run(Step(Run(Start(disks, early), es), ResetCursors), es3), disks0)
  {
    hide LoadAll, Possible, InOrder, CursorsDone, Guarded, InStep;
    var source := Run(Start(disks, early), es);
    AlwaysReset(source);
    var m := Step(source, ResetCursors);
    GuardedIsEnabled(Start(disks, early), es);
    Stage3IsEnabled(m, es3);
    MigrationCopiesDisks(disks, early, disks0, es, es3);
    StartInStep(disks, early, disks0);
    RunInStep(Start(disks, early), disks0, es);
    StepInStep(source, disks0, ResetCursors);
    Stage3Cleans(m, disks0, es3);
  }

  // ----- the pass of stage 3, whatever is in the queue

  /** Disks, flight, queue and writes as before, and no new dirty chunk. */
  ghost predicate OnlyCleaned(m: Mig, m': Mig) {
    && |m'.devs| == |m.devs| && m'.flight == m.flight && m'.queue == m.queue && m'.writes == m.writes
    && forall d | 0 <= d < |m.devs| ::
         && m'.devs[d].disk == m.devs[d].disk && m'.devs[d].curSector == m.devs[d].curSector
         && m'.devs[d].dirty <= m.devs[d].dirty && m'.devs[d].reading == m.devs[d].reading
  }

  /** What the receiver has of a chunk: its contents if it was cleaned on the way, else what it had. */
  ghost predicate Resent(m: Mig, m': Mig, before: seq<Disk>, after: seq<Disk>, d: nat, c: nat)
    requires ValidChunk(m, d, c) && SameShape(m, before) && SameShape(m, after) && |m'.devs| == |m.devs|
  {
    Slice(after[d], c) == if c in m.devs[d].dirty && c !in m'.devs[d].dirty then Slice(m.devs[d].disk, c) else Slice(before[d], c)
  }

  /** Steps of stage 3 send exactly the chunks that they clean. */
  ghost predicate PassEffect(m: Mig, m': Mig, before: seq<Disk>, after: seq<Disk>) {
    && OnlyCleaned(m, m') && Valid(m') && SameShape(m, before) && SameShape(m, after) && SameShape(m', after)
    && forall d: nat, c: nat | ValidChunk(m, d, c) :: Resent(m, m', before, after, d, c)
  }

  lemma Stage3StepEffect(m: Mig, disks0: seq<Disk>, e: Event)
    requires Valid(m) && SameShape(m, LoadAll(disks0, m.sent)) && Possible(m, e) && IsStage3(e)
    ensures PassEffect(m, Step(m, e), LoadAll(disks0, m.sent), LoadAll(disks0, Step(m, e).sent))
    ensures CleanBehindCursors(m) ==> CleanBehindCursors(Step(m, e))
  {
    hide LoadAll, Load, Slice, TouchedChunks;
    var m' := Step(m, e);
    OtherStepKeepsValid(m, e);
    CursorStaysClean(m, e);
    if e.SendDirty? {
      var x := m.devs[e.dev];
      CursorChunk(x);
      var c := x.curDirty / CHUNK;
      LoadEffect(m, LoadAll(disks0, m.sent), e.dev, c, Slice(x.disk, c), e.pad);
      LoadAllAppends(disks0, m.sent, Record(e.dev, c, Slice(x.disk, c) + e.pad));
    }
  }

  lemma CursorStaysClean(m: Mig, e: Event)
    requires Valid(m) && Possible(m, e) && IsStage3(e)
    ensures CleanBehindCursors(m) ==> CleanBehindCursors(Step(m, e))
  {
    hide Slice, ValidBlk;
    var m' := Step(m, e);
    assert m.devs[e.dev].curDirty % CHUNK == 0;
    if CleanBehindCursors(m) {
      forall d: nat, c: nat | ValidChunk(m', d, c) && c * CHUNK < m'.devs[d].curDirty ensures c !in m'.devs[d].dirty {
        assert ValidChunk(m, d, c);
        if d == e.dev && e.DirtySkip? && c * CHUNK >= m.devs[d].curDirty {
          assert c == m.devs[d].curDirty / CHUNK;
        }
      }
    }
  }

  lemma ResentChains(m: Mig, m1: Mig, m2: Mig, a: seq<Disk>, b: seq<Disk>, c: seq<Disk>, d: nat, k: nat)
    requires ValidChunk(m, d, k) && OnlyCleaned(m, m1) && OnlyCleaned(m1, m2)
    requires SameShape(m, a) && SameShape(m, b) && SameShape(m, c)
    requires Resent(m, m1, a, b, d, k) && Resent(m1, m2, b, c, d, k)
    ensures Resent(m, m2, a, c, d, k)
  {}

  /** The whole pass: exactly the chunks it cleans are sent again. */
  lemma {:induction false} Stage3Effect(m: Mig, disks0: seq<Disk>, es: seq<Event>)
    requires Valid(m) && SameShape(m, LoadAll(disks0, m.sent)) && CleanBehindCursors(m)
    requires PossibleAll(m, es) && AllStage3(es)
    ensures PassEffect(m, Run(m, es), LoadAll(disks0, m.sent), LoadAll(disks0, Run(m, es).sent))
    ensures CleanBehindCursors(Run(m, es))
    decreases |es|
  {
    hide LoadAll, Slice, Valid, CleanBehindCursors, Step, Possible, IsStage3;
    if es != [] {
      var m1 := Step(m, es[0]);
      Stage3StepEffect(m, disks0, es[0]);
      Stage3Effect(m1, disks0, es[1..]);
      var last := Run(m1, es[1..]);
      forall d: nat, c: nat | ValidChunk(m, d, c)
        ensures Resent(m, last, LoadAll(disks0, m.sent), LoadAll(disks0, last.sent), d, c)
      {
        ResentChains(m, m1, last, LoadAll(disks0, m.sent), LoadAll(disks0, m1.sent), LoadAll(disks0, last.sent), d, c);
      }
    }
  }

  lemma NothingDirtyAtTheEnd(m: Mig, d: nat, c: nat)
    requires CleanBehindCursors(m) && CursorsDone(m) && ValidChunk(m, d, c)
    ensures c !in m.devs[d].dirty
  {
    assert c * CHUNK < |m.devs[d].disk|;
  }

  /** A chunk is dirty and will be sent again, or the receiver already has it. */
  ghost predicate DirtyOrArrived(m: Mig, disks: seq<Disk>, d: nat, c: nat)
    requires ValidChunk(m, d, c) && SameShape(m, disks)
  {
    c in m.devs[d].dirty || Slice(disks[d], c) == Slice(m.devs[d].disk, c)
  }

  /** After the pass the disks are equal exactly when every chunk was dirty or had arrived before it. */
  lemma PassArrivesIff(m: Mig, disks0: seq<Disk>, es: seq<Event>)
    requires Valid(m) && SameShape(m, LoadAll(disks0, m.sent)) && CleanBehindCursors(m)
    requires PossibleAll(m, es) && AllStage3(es) && CursorsDone(Run(m, es))
    ensures Arrived(Run(m, es), disks0)
       <==> forall d: nat, c: nat | ValidChunk(m, d, c) :: DirtyOrArrived(m, LoadAll(disks0, m.sent), d, c)
  {
    hide LoadAll, Slice, Valid, CleanBehindCursors, CursorsDone, PossibleAll;
    var last := Run(m, es);
    Stage3Effect(m, disks0, es);
    var before, after := LoadAll(disks0, m.sent), LoadAll(disks0, last.sent);
    forall d: nat, c: nat | ValidChunk(m, d, c)
      ensures DirtyOrArrived(m, before, d, c) <==> Slice(after[d], c) == Slice(m.devs[d].disk, c)
    {
      assert ValidChunk(last, d, c);
      NothingDirtyAtTheEnd(last, d, c);
      assert Resent(m, last, before, after, d, c);
    }
    if forall d: nat, c: nat | ValidChunk(m, d, c) :: DirtyOrArrived(m, before, d, c) {
      forall d | 0 <= d < |after| ensures after[d] == last.devs[d].disk {
        forall c: nat | c < ChunkCount(|after[d]|) ensures Slice(after[d], c) == Slice(last.devs[d].disk, c) {
          assert ValidChunk(m, d, c);
        }
        SameChunks(after[d], last.devs[d].disk);
      }
    }
    if Arrived(last, disks0) {
      forall d: nat, c: nat | ValidChunk(m, d, c) ensures DirtyOrArrived(m, before, d, c) {
        assert after[d] == last.devs[d].disk;
      }
    }
  }

  /** Every block left in the queue is of a chunk that will be sent again or that the receiver already has. */
  ghost predicate QueueNotNeeded(m: Mig, disks: seq<Disk>)
    requires Valid(m) && SameShape(m, disks)
  {
    forall k | 0 <= k < |m.queue| :: InQueueNotNeeded(m, disks, k)
  }

  ghost predicate InQueueNotNeeded(m: Mig, disks: seq<Disk>, k: nat)
    requires Valid(m) && SameShape(m, disks) && k < |m.queue|
  {
    assert ValidBlk(m, m.queue[k]);
    DirtyOrArrived(m, disks, m.queue[k].dev, m.queue[k].c)
  }

  /** In step, with nothing in flight: only the queue can keep a chunk from being dirty or there. */
  lemma OnlyTheQueueMatters(m: Mig, disks: seq<Disk>)
    requires InStep(m, disks) && m.flight == [] && m.writes == []
    requires forall d | 0 <= d < |m.devs| :: m.devs[d].curSector >= |m.devs[d].disk|
    ensures QueueNotNeeded(m, disks) <==> forall d: nat, c: nat | ValidChunk(m, d, c) :: DirtyOrArrived(m, disks, d, c)
  {
    hide Slice, LastFor;
    if QueueNotNeeded(m, disks) {
      forall d: nat, c: nat | ValidChunk(m, d, c) ensures DirtyOrArrived(m, disks, d, c) {
        assert ChunkSafe(m, disks, d, c);
        assert c * CHUNK < |m.devs[d].disk|;
        var q := LastFor(m.queue, d, c);
        if q >= 0 {
          assert InQueueNotNeeded(m, disks, q);
        }
      }
    }
    if forall d: nat, c: nat | ValidChunk(m, d, c) :: DirtyOrArrived(m, disks, d, c) {
      forall k | 0 <= k < |m.queue| ensures InQueueNotNeeded(m, disks, k) {
        assert ValidBlk(m, m.queue[k]);
      }
    }
  }

  /**
   Stage 3 entered in order, with the bulk pass over and nothing in flight but
   any queue at all: the end is right exactly when every queued chunk is dirty,
   so that stage 3 sends it again, or the receiver already has its contents.
   */
  lemma UndrainedStage3Iff(disks: seq<Disk>, early: seq<Pending>, disks0: seq<Disk>, es: seq<Event>, es3: seq<Event>)
    requires |disks0| == |disks| && forall d | 0 <= d < |disks| :: |disks0[d]| == |disks[d]|
    requires EnabledAll(Start(disks, early), es) && PossibleAll(Start(disks, early), es)
    requires var m := Run(Start(disks, early), es);
             && m.flight == [] && m.writes == [] && forall d | 0 <= d < |m.devs| :: m.devs[d].curSector >= |m.devs[d].disk|
    requires PossibleAll(Step(Run(Start(disks, early), es), ResetCursors), es3) && AllStage3(es3)
    requires CursorsDone(Run(Step(Run(Start(disks, early), es), ResetCursors), es3))
    ensures var m := Run(Start(disks, early), es);
            && InStep(m, LoadAll(disks0, m.sent))
            && (Arrived(Run(Step(m, ResetCursors), es3), disks0) <==> QueueNotNeeded(m, LoadAll(disks0, m.sent)))
  {
    hide LoadAll, Slice, Run, EnabledAll, PossibleAll, Possible, InOrder, CursorsDone, ChunkSafe;
    StartInStep(disks, early, disks0);
    RunInStep(Start(disks, early), disks0, es);
    var m := Run(Start(disks, early), es);
    AlwaysReset(m);
    StepInStep(m, disks0, ResetCursors);
    var m1 := Step(m, ResetCursors);
    ResetClears(m);
    PassArrivesIff(m1, disks0, es3);
    OnlyTheQueueMatters(m, LoadAll(disks0, m.sent));
    ResetKeepsNeeds(m, LoadAll(disks0, m.sent));
  }

  lemma ResetClears(m: Mig)
    requires Possible(m, ResetCursors)
    ensures CleanBehindCursors(Step(m, ResetCursors)) && Step(m, ResetCursors).sent == m.sent
  {}

  lemma ResetKeepsNeeds(m: Mig, disks: seq<Disk>)
    requires SameShape(m, disks) && Possible(m, ResetCursors)
    ensures var m1 := Step(m, ResetCursors);
            && SameShape(m1, disks)
            && ((forall d: nat, c: nat | ValidChunk(m1, d, c) :: DirtyOrArrived(m1, disks, d, c))
                <==> forall d: nat, c: nat | ValidChunk(m, d, c) :: DirtyOrArrived(m, disks, d, c))
  {
    hide Slice;
    var m1 := Step(m, ResetCursors);
    forall d: nat, c: nat ensures ValidChunk(m1, d, c) == ValidChunk(m, d, c) {}
    forall d: nat, c: nat | ValidChunk(m, d, c) ensures DirtyOrArrived(m1, disks, d, c) == DirtyOrArrived(m, disks, d, c) {}
  }

  // ----- a stream that ends early

  /** Every chunk that is dirty or queued has arrived all the same. */
  ghost predicate NothingLeft(m: Mig, disks: seq<Disk>)
    requires SameShape(m, disks)
  {
    forall d: nat, c: nat | ValidChunk(m, d, c) && (c in m.devs[d].dirty || LastFor(m.queue, d, c) >= 0) ::
      Slice(disks[d], c) == Slice(m.devs[d].disk, c)
  }

  /** The receiver's disks are the sender's exactly when nothing that is left is missing. */
  ghost predicate ExactEnd(m: Mig, disks0: seq<Disk>) {
    SameShape(m, LoadAll(disks0, m.sent)) && (Arrived(m, disks0) <==> NothingLeft(m, LoadAll(disks0, m.sent)))
  }

  lemma ArrivedByChunks(m: Mig, disks0: seq<Disk>)
    requires SameShape(m, LoadAll(disks0, m.sent))
    ensures var end := LoadAll(disks0, m.sent);
            Arrived(m, disks0) <==> forall d: nat, c: nat | ValidChunk(m, d, c) :: Slice(end[d], c) == Slice(m.devs[d].disk, c)
  {
    hide LoadAll, Slice;
    var end := LoadAll(disks0, m.sent);
    if forall d: nat, c: nat | ValidChunk(m, d, c) :: Slice(end[d], c) == Slice(m.devs[d].disk, c) {
      forall d | 0 <= d < |end| ensures end[d] == m.devs[d].disk {
        forall c: nat | c < ChunkCount(|end[d]|) ensures Slice(end[d], c) == Slice(m.devs[d].disk, c) {
          assert ValidChunk(m, d, c);
        }
        SameChunks(end[d], m.devs[d].disk);
      }
    }
  }

  /** Wherever the steps of stage 3 stop, only what is dirty or queued can be missing. */
  lemma StoppedAfter(m: Mig, at: Mig, disks0: seq<Disk>)
    requires InStep(m, LoadAll(disks0, m.sent)) && m.flight == [] && m.writes == []
    requires forall d | 0 <= d < |m.devs| :: m.devs[d].curSector >= |m.devs[d].disk|
    requires PassEffect(m, at, LoadAll(disks0, m.sent), LoadAll(disks0, at.sent))
    ensures ExactEnd(at, disks0)
  {
    hide LoadAll, Slice, Valid, LastFor;
    var before, after := LoadAll(disks0, m.sent), LoadAll(disks0, at.sent);
    ArrivedByChunks(at, disks0);
    if NothingLeft(at, after) {
      forall d: nat, c: nat | ValidChunk(at, d, c) ensures Slice(after[d], c) == Slice(at.devs[d].disk, c) {
        assert ValidChunk(m, d, c) && ChunkSafe(m, before, d, c) && Resent(m, at, before, after, d, c);
        assert c * CHUNK < |m.devs[d].disk|;
        assert LastFor(m.flight, d, c) == -1;
      }
    }
  }

  /** The run `es` has led to stage 3; then come the reset and some steps of its pass, not necessarily all. */
  lemma StoppedStage3(disks: seq<Disk>, early: seq<Pending>, disks0: seq<Disk>, es: seq<Event>, es3: seq<Event>)
    requires |disks0| == |disks| && forall d | 0 <= d < |disks| :: |disks0[d]| == |disks[d]|
    requires EnabledAll(Start(disks, early), es) && PossibleAll(Start(disks, early), es)
    requires var m := Run(Start(disks, early), es);
             && m.flight == [] && m.writes == [] && forall d | 0 <= d < |m.devs| :: m.devs[d].curSector >= |m.devs[d].disk|
    requires PossibleAll(Step(Run(Start(disks, early), es), ResetCursors), es3) && AllStage3(es3)
    ensures ExactEnd(Run(Start(disks, early), es), disks0)
    ensures ExactEnd(Run(Step(Run(Start(disks, early), es), ResetCursors), es3), disks0)
    ensures CleanBehindCursors(Run(Step(Run(Start(disks, early), es), ResetCursors), es3))
  {
    hide LoadAll, Slice, Run, EnabledAll, PossibleAll, Possible, InOrder, ChunkSafe, CleanBehindCursors, ExactEnd;
    StartInStep(disks, early, disks0);
    RunInStep(Start(disks, early), disks0, es);
    var m := Run(Start(disks, early), es);
    AlwaysReset(m);
    StepInStep(m, disks0, ResetCursors);
    ResetClears(m);
    NoPass(m, LoadAll(disks0, m.sent));
    StoppedAfter(m, m, disks0);
    var m1 := Step(m, ResetCursors);
    Stage3Effect(m1, disks0, es3);
    StoppedAfter(m1, Run(m1, es3), disks0);
  }

  lemma NoPass(m: Mig, disks: seq<Disk>)
    requires Valid(m) && SameShape(m, disks)
    ensures PassEffect(m, m, disks, disks)
  {
    hide Slice;
  }

  lemma {:induction false} RunOnlyCleans(m: Mig, es: seq<Event>)
    requires PossibleAll(m, es) && AllStage3(es)
    ensures OnlyCleaned(m, Run(m, es)) && m.sent <= Run(m, es).sent
    decreases |es|
  {
    hide Slice;
    if es != [] {
      RunOnlyCleans(Step(m, es[0]), es[1..]);
    }
  }
}
