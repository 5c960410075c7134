/**
 Without the guard: whenever two reads of one chunk are in flight, or a write
 from before the tracking, the guest, the device and the migration can go on so
 that the disks end up different.
 */
module BlockMigrationRace {
  import opened Basics
  import opened BlockMigration
  import opened BlockMigrationExact

  // ----- reaching states

  ghost predicate Reaches(m: Mig, m': Mig) {
    exists es: seq<Event> :: PossibleAll(m, es) && Run(m, es) == m'
  }

  /** The same by steps of stage 3 alone. */
  ghost predicate Passes(m: Mig, m': Mig) {
    exists es: seq<Event> :: PossibleAll(m, es) && AllStage3(es) && Run(m, es) == m'
  }

  lemma {:induction false} RunConcat(m: Mig, a: seq<Event>, b: seq<Event>)
    requires PossibleAll(m, a) && PossibleAll(Run(m, a), b)
    ensures PossibleAll(m, a + b) && Run(m, a + b) == Run(Run(m, a), b)
    decreases |a|
  {
    hide Possible, Step;
    if a == [] {
      assert a + b == b;
    } else {
      RunConcat(Step(m, a[0]), a[1..], b);
      assert (a + b)[0] == a[0] && (a + b)[1..] == a[1..] + b;
    }
  }

  lemma ReachRefl(m: Mig)
    ensures Reaches(m, m) && Passes(m, m)
  {
    assert PossibleAll(m, []) && AllStage3([]) && Run(m, []) == m;
  }

  lemma ReachStep(m: Mig, e: Event)
    requires Possible(m, e)
    ensures Reaches(m, Step(m, e)) && (IsStage3(e) ==> Passes(m, Step(m, e)))
  {
    hide Possible, Step;
    assert [e][1..] == [];
    ReachRefl(Step(m, e));
    assert PossibleAll(Step(m, e), []) && Run(Step(m, e), []) == Step(m, e);
    assert PossibleAll(m, [e]) && Run(m, [e]) == Run(Step(m, [e][0]), [e][1..]);
    assert IsStage3(e) ==> AllStage3([e]);
  }

  lemma ReachTrans(a: Mig, b: Mig, c: Mig)
    ensures Reaches(a, b) && Reaches(b, c) ==> Reaches(a, c)
    ensures Passes(a, b) && Passes(b, c) ==> Passes(a, c)
  {
    hide PossibleAll, Run;
    if Reaches(a, b) && Reaches(b, c) {
      var es: seq<Event> :| PossibleAll(a, es) && Run(a, es) == b;
      var fs: seq<Event> :| PossibleAll(b, fs) && Run(b, fs) == c;
      RunConcat(a, es, fs);
      assert PossibleAll(a, es + fs);
    }
    if Passes(a, b) && Passes(b, c) {
      var es: seq<Event> :| PossibleAll(a, es) && AllStage3(es) && Run(a, es) == b;
      var fs: seq<Event> :| PossibleAll(b, fs) && AllStage3(fs) && Run(b, fs) == c;
      RunConcat(a, es, fs);
      assert PossibleAll(a, es + fs) && AllStage3(es + fs);
    }
  }

  /** One step more on the way. */
  lemma Onward(a: Mig, b: Mig, e: Event)
    requires Reaches(a, b) && Sound(b) && Possible(b, e)
    ensures Reaches(a, Step(b, e)) && Sound(Step(b, e))
  {
    hide Reaches, Sound, Possible, Step;
    ReachStep(b, e);
    ReachTrans(a, b, Step(b, e));
    StepKeepsSound(b, e);
  }

  ghost predicate SameDisks(m: Mig, m': Mig) {
    |m'.devs| == |m.devs| && forall d | 0 <= d < |m.devs| :: m'.devs[d].disk == m.devs[d].disk
  }

  // ----- everything but one read comes to an end

  lemma {:induction false} WritesOut(m: Mig) returns (m': Mig)
    requires Sound(m)
    ensures Reaches(m, m') && Sound(m') && SameDisks(m, m') && m'.writes == [] && m'.flight == m.flight
    decreases |m.writes|
  {
    hide Reaches, TouchedChunks, Slice;
    ReachRefl(m);
    m' := m;
    if m.writes != [] {
      var m1 := Step(m, CompleteWrite(0));
      Onward(m, m, CompleteWrite(0));
      m' := WritesOut(m1);
      ReachTrans(m, m1, m');
    }
  }

  lemma {:induction false} BulkDevice(m: Mig, d: nat) returns (m': Mig)
    requires Sound(m) && d < |m.devs|
    ensures Reaches(m, m') && Sound(m') && SameDisks(m, m') && m'.writes == m.writes && m.flight <= m'.flight
    ensures m'.devs[d].curSector >= |m'.devs[d].disk|
    ensures forall k | 0 <= k < |m.devs| && k != d :: m'.devs[k].curSector == m.devs[k].curSector
    decreases |m.devs[d].disk| - m.devs[d].curSector
  {
    hide Reaches, Slice, ValidBlk, Flying;
    ReachRefl(m);
    m' := m;
    var x := m.devs[d];
    if x.curSector < |x.disk| {
      var m1 := Step(m, BulkRead(d));
      assert x.curSector % CHUNK == 0;
      Onward(m, m, BulkRead(d));
      m' := BulkDevice(m1, d);
      ReachTrans(m, m1, m');
    }
  }

  lemma {:induction false} BulkOut(m: Mig, n: nat) returns (m': Mig)
    requires Sound(m) && n <= |m.devs|
    ensures Reaches(m, m') && Sound(m') && SameDisks(m, m') && m'.writes == m.writes && m.flight <= m'.flight
    ensures forall d | 0 <= d < n :: m'.devs[d].curSector >= |m'.devs[d].disk|
    decreases n
  {
    hide Reaches, Sound;
    if n == 0 {
      ReachRefl(m);
      m' := m;
    } else {
      var m1 := BulkOut(m, n - 1);
      m' := BulkDevice(m1, n - 1);
      ReachTrans(m, m1, m');
    }
  }

  /** The same reads, some of them filled meanwhile. */
  ghost predicate FilledFrom(a: seq<Blk>, b: seq<Blk>) {
    |a| == |b| && forall i | 0 <= i < |a| :: b[i].dev == a[i].dev && b[i].c == a[i].c && (a[i].read ==> b[i] == a[i])
  }

  lemma CanFill(m: Mig, i: nat) returns (e: Event)
    requires Valid(m) && i < |m.flight| && !m.flight[i].read
    ensures e.ReadDisk? && e.i == i && Possible(m, e)
  {
    var b := m.flight[i];
    assert ValidBlk(m, b);
    SliceIsShort(m.devs[b.dev].disk, b.c);
    e := ReadDisk(i, Blanks(CHUNK - |Slice(m.devs[b.dev].disk, b.c)|));
  }

  lemma {:induction false} FillReads(m: Mig, n: nat) returns (m': Mig)
    requires Sound(m) && n <= |m.flight|
    ensures Reaches(m, m') && Sound(m') && m' == m.(flight := m'.flight) && FilledFrom(m.flight, m'.flight)
    ensures forall i | 0 <= i < n :: m'.flight[i].read
    decreases n
  {
    hide Reaches, Slice, Flying, ValidBlk, LastFor;
    if n == 0 {
      ReachRefl(m);
      m' := m;
    } else {
      m' := FillReads(m, n - 1);
      if !m'.flight[n - 1].read {
        var e := CanFill(m', n - 1);
        Onward(m, m', e);
        m' := Step(m', e);
      }
    }
  }

  /** All reads but the i-th complete; its chunk loses its mark if another read of it was among them. */
  lemma {:induction false} CompleteOthers(m: Mig, i: nat, j: int) returns (m': Mig)
    requires Sound(m) && i < |m.flight| && forall k | 0 <= k < |m.flight| :: m.flight[k].read
    requires m.flight[i].dev < |m.devs|
    requires m.flight[i].c !in m.devs[m.flight[i].dev].reading || SameChunkRead(m.flight, i, j)
    ensures Reaches(m, m') && Sound(m') && SameDisks(m, m') && m'.writes == m.writes && m'.flight == [m.flight[i]]
    ensures m.flight[i].c !in m'.devs[m.flight[i].dev].reading
    ensures forall d | 0 <= d < |m.devs| :: m'.devs[d] == m.devs[d].(reading := m'.devs[d].reading)
    decreases |m.flight|
  {
    hide Reaches, Sound, Step, Possible, SameChunkRead;
    ReachRefl(m);
    m' := m;
    if |m.flight| > 1 {
      var k := if i > 0 then 0 else 1;
      Completes(m, i, j, k);
      var m1 := Step(m, ReadDone(k));
      Onward(m, m, ReadDone(k));
      m' := CompleteOthers(m1, if k < i then i - 1 else i, if k < j then j - 1 else j);
      ReachTrans(m, m1, m');
    } else {
      LastOne(m.flight, i, j);
    }
  }

  lemma LastOne(flight: seq<Blk>, i: nat, j: int)
    requires |flight| == 1 && i == 0
    ensures flight == [flight[i]] && !SameChunkRead(flight, i, j)
  {}

  /** Read k completes; read i stays, and so does its partner j unless it was the one. */
  lemma Completes(m: Mig, i: nat, j: int, k: nat)
    requires Sound(m) && i < |m.flight| && k < |m.flight| && k != i && m.flight[k].read && m.flight[i].dev < |m.devs|
    ensures Possible(m, ReadDone(k))
    ensures var m1 := Step(m, ReadDone(k));
            && SameDisks(m, m1) && m1.writes == m.writes && m1.flight == m.flight[..k] + m.flight[k + 1..]
            && (forall d | 0 <= d < |m.devs| :: m1.devs[d] == m.devs[d].(reading := m1.devs[d].reading))
            && (m.flight[i].c !in m.devs[m.flight[i].dev].reading ==> m.flight[i].c !in m1.devs[m.flight[i].dev].reading)
            && (SameChunkRead(m.flight, i, j) ==>
                  m.flight[i].c !in m1.devs[m.flight[i].dev].reading
                  || SameChunkRead(m1.flight, if k < i then i - 1 else i, if k < j then j - 1 else j))
  {
    hide Slice, Flying, Valid, LastFor;
    assert ValidBlk(m, m.flight[k]) by { InFlightIsValid(m, k); }
  }

  lemma InFlightIsValid(m: Mig, k: nat)
    requires Valid(m) && k < |m.flight|
    ensures ValidBlk(m, m.flight[k])
  {}

  // ----- one read left, and its chunk is read again

  /** Only these reads are in flight, no chunk is marked, and the bulk pass has finished. */
  ghost predicate Only(m: Mig, bs: seq<Blk>) {
    && Sound(m) && m.flight == bs
    && (forall d | 0 <= d < |m.devs| :: m.devs[d].reading == {})
    && (forall d | 0 <= d < |m.devs| :: m.devs[d].curSector >= |m.devs[d].disk|)
  }

  /** The chunk under the cursor is read to the end. */
  lemma ReadHere(m: Mig, bs: seq<Blk>, d: nat) returns (m': Mig)
    requires Only(m, bs) && d < |m.devs| && m.devs[d].curDirty < |m.devs[d].disk|
    requires m.devs[d].curDirty / CHUNK in m.devs[d].dirty
    ensures Reaches(m, m') && Only(m', bs) && SameDisks(m, m') && m'.writes == m.writes
    ensures m'.devs == m.devs[d := m.devs[d].(dirty := m.devs[d].dirty - {m.devs[d].curDirty / CHUNK})]
  {
    hide Reaches, Slice, Flying, Valid, LastFor, ValidBlk;
    var c, n := m.devs[d].curDirty / CHUNK, |bs|;
    ReachRefl(m);
    Onward(m, m, DirtyRead(d));
    var m1 := Step(m, DirtyRead(d));
    assert m1.flight == bs + [Blk(d, c, [], false, [])];
    var e := CanFill(m1, n);
    Onward(m, m1, e);
    var m2 := Step(m1, e);
    assert m2.flight[n].read && m2.flight[n].dev == d && m2.flight[n].c == c && m2.flight[..n] == bs;
    Onward(m, m2, ReadDone(n));
    m' := Step(m2, ReadDone(n));
    assert m'.flight == bs;
    assert m.devs[d].reading + {c} - {c} == {};
  }

  lemma SkipHere(m: Mig, bs: seq<Blk>, d: nat) returns (m': Mig)
    requires Only(m, bs) && d < |m.devs| && m.devs[d].curDirty < |m.devs[d].disk|
    requires m.devs[d].curDirty / CHUNK !in m.devs[d].dirty
    ensures Reaches(m, m') && Only(m', bs) && SameDisks(m, m') && m'.writes == m.writes
    ensures m'.devs == m.devs[d := m.devs[d].(curDirty := m.devs[d].curDirty + CHUNK)]
  {
    hide Reaches, Slice, Flying, Valid, LastFor, ValidBlk;
    ReachRefl(m);
    Onward(m, m, DirtySkip(d));
    m' := Step(m, DirtySkip(d));
  }

  /** The cursor comes to chunk c, whatever is dirty on the way. */
  lemma {:induction false} CursorTo(m: Mig, bs: seq<Blk>, d: nat, k: nat, c: nat) returns (m': Mig)
    requires Only(m, bs) && ValidChunk(m, d, c) && k <= c && m.devs[d].curDirty == k * CHUNK && c in m.devs[d].dirty
    ensures Reaches(m, m') && Only(m', bs) && SameDisks(m, m') && m'.writes == m.writes
    ensures m'.devs[d].curDirty == c * CHUNK && c in m'.devs[d].dirty
    decreases c - k
  {
    hide Reaches, Only;
    if k == c {
      ReachRefl(m);
      m' := m;
    } else {
      assert k * CHUNK / CHUNK == k && c * CHUNK < |m.devs[d].disk|;
      var m1 := m;
      ReachRefl(m);
      if k in m.devs[d].dirty {
        m1 := ReadHere(m, bs, d);
      }
      var m2 := SkipHere(m1, bs, d);
      ReachTrans(m, m1, m2);
      m' := CursorTo(m2, bs, d, k + 1, c);
      ReachTrans(m, m2, m');
    }
  }

  /** The cursor goes back to a dirty chunk and reads it. */
  lemma ReadChunkAgain(m: Mig, bs: seq<Blk>, d: nat, c: nat) returns (r: Mig)
    requires Only(m, bs) && ValidChunk(m, d, c) && c in m.devs[d].dirty
    ensures Reaches(m, r) && Only(r, bs) && SameDisks(m, r) && r.writes == m.writes && c !in r.devs[d].dirty
  {
    hide Reaches, Flying, Valid, Slice, LastFor;
    ReachRefl(m);
    Onward(m, m, ResetCursors);
    var m1 := Step(m, ResetCursors);
    assert Only(m1, bs) && SameDisks(m, m1);
    var m2 := CursorTo(m1, bs, d, 0, c);
    ReachTrans(m, m1, m2);
    assert c * CHUNK / CHUNK == c && c * CHUNK < |m2.devs[d].disk|;
    r := ReadHere(m2, bs, d);
    ReachTrans(m, m2, r);
  }

  // ----- and then the old read arrives

  lemma {:induction false} SendOut(m: Mig) returns (m': Mig)
    requires Sound(m)
    ensures Reaches(m, m') && Sound(m') && m' == m.(queue := [], sent := m'.sent)
    ensures m.queue == [] ==> m'.sent == m.sent
    ensures m.queue != [] ==> |m'.sent| > 0 && m'.sent[|m'.sent| - 1] == RecordOf(m.queue[|m.queue| - 1])
    decreases |m.queue|
  {
    hide Reaches, Sound;
    ReachRefl(m);
    m' := m;
    if m.queue != [] {
      var m1 := Step(m, SendHead);
      Onward(m, m, SendHead);
      m' := SendOut(m1);
      ReachTrans(m, m1, m');
    }
  }

  lemma {:induction false} FinishDevice(m: Mig, d: nat) returns (m': Mig)
    requires Sound(m) && m.flight == [] && d < |m.devs|
    ensures Passes(m, m') && Sound(m') && m'.flight == [] && SameDisks(m, m')
    ensures m'.devs[d].curDirty >= |m'.devs[d].disk|
    ensures forall k | 0 <= k < |m.devs| && k != d :: m'.devs[k].curDirty == m.devs[k].curDirty
    decreases |m.devs[d].disk| - m.devs[d].curDirty, |m.devs[d].dirty|
  {
    hide Passes, Slice, Valid, Flying, LastFor;
    ReachRefl(m);
    m' := m;
    var x := m.devs[d];
    if x.curDirty < |x.disk| {
      NothingFlyingNothingRead(m, d);
      CursorChunk(x);
      var c := x.curDirty / CHUNK;
      SliceIsShort(x.disk, c);
      var e := if c in x.dirty then SendDirty(d, Blanks(CHUNK - |Slice(x.disk, c)|)) else DirtySkip(d);
      ReachStep(m, e);
      StepKeepsSound(m, e);
      var m1 := Step(m, e);
      m' := FinishDevice(m1, d);
      ReachTrans(m, m1, m');
    }
  }

  lemma {:induction false} FinishAll(m: Mig, n: nat) returns (m': Mig)
    requires Sound(m) && m.flight == [] && n <= |m.devs|
    ensures Passes(m, m') && Sound(m') && m'.flight == [] && SameDisks(m, m')
    ensures forall d | 0 <= d < n :: m'.devs[d].curDirty >= |m'.devs[d].disk|
    decreases n
  {
    hide Passes, Sound;
    if n == 0 {
      ReachRefl(m);
      m' := m;
    } else {
      var m1 := FinishAll(m, n - 1);
      m' := FinishDevice(m1, n - 1);
      ReachTrans(m, m1, m');
    }
  }

  // ----- together

  /** The block will bring something else than the chunk now holds. */
  ghost predicate Stale(m: Mig, b: Blk) {
    b.read && ValidBlk(m, b) && Slice(m.devs[b.dev].disk, b.c) != b.data
  }

  lemma SameDisksSameStale(m: Mig, m': Mig, b: Blk)
    requires SameDisks(m, m')
    ensures Stale(m', b) == Stale(m, b)
  {}

  /** A sector that differs from the given one. */
  function Other(s: Sector): (r: Sector)
    ensures r != s
  {
    var r := s[0 := if s[0] == 0 then 1 else 0];
    assert r[0] != s[0];
    r
  }

  /** The guest writes the first sector of a chunk that a filled block holds. */
  lemma WriteMakesStale(m: Mig, b: Blk) returns (e: Event)
    requires Sound(m) && b.read && ValidBlk(m, b)
    ensures e.SyncWrite? && e.dev == b.dev && Possible(m, e)
    ensures var m' := Step(m, e);
            && Stale(m', b) && b.c in m'.devs[b.dev].dirty
            && m'.devs == m.devs[b.dev := m.devs[b.dev].(disk := m'.devs[b.dev].disk, dirty := m'.devs[b.dev].dirty)]
  {
    hide Flying, Valid;
    var x := m.devs[b.dev];
    assert b.c * CHUNK < |x.disk| && |b.data| > 0;
    var other := Other(b.data[0]);
    var sector := b.c * CHUNK;
    e := SyncWrite(b.dev, sector, [other]);
    var disk' := Overwrite(x.disk, sector, [other]);
    assert Touches(sector, 1, b.c);
    assert b.c in TouchedChunks(sector, 1, |x.disk|);
    assert Slice(disk', b.c)[0] == disk'[sector] == other;
  }

  lemma LoneAtLast(m: Mig, b: Blk)
    requires Sound(m) && m.flight == [b] && m.writes == [] && b.dev < |m.devs| && b.c !in m.devs[b.dev].reading
    requires forall d | 0 <= d < |m.devs| :: m.devs[d].curSector >= |m.devs[d].disk|
    ensures Only(m, [b])
  {
    hide Valid;
    forall d | 0 <= d < |m.devs| ensures m.devs[d].reading == {} {
      forall c: nat ensures c !in m.devs[d].reading {
        assert IsFor(b, d, c) || LastFor(m.flight, d, c) < 0;
      }
    }
  }

  /** From two reads of one chunk to one of them alone in flight, holding what the chunk no longer holds. */
  lemma OneLeft(m: Mig, i: nat, j: nat) returns (m': Mig, b: Blk)
    requires Sound(m) && SameChunkRead(m.flight, i, j)
    ensures Reaches(m, m') && Only(m', [b]) && m'.writes == [] && Stale(m', b) && b.c in m'.devs[b.dev].dirty && SameSizes(m, m')
  {
    hide Reaches, Flying, Valid, Slice, Stale, LastFor;
    var m1 := WritesOut(m);
    var m2 := BulkOut(m1, |m1.devs|);
    ReachTrans(m, m1, m2);
    var m3 := FillReads(m2, |m2.flight|);
    ReachTrans(m, m2, m3);
    b := m3.flight[i];
    InFlightIsValid(m3, i);
    var e := WriteMakesStale(m3, b);
    Onward(m, m3, e);
    StepKeepsSound(m3, e);
    var m4 := Step(m3, e);
    assert m4.flight == m3.flight && m4.writes == m3.writes;
    m' := CompleteOthers(m4, i, j);
    ReachTrans(m, m4, m');
    SameDisksSameStale(m4, m', b);
    LoneAtLast(m', b);
  }

  /** The chunk is read again and sent, and the old read arrives behind it. */
  lemma OldOneLast(m: Mig, b: Blk) returns (r: Mig)
    requires Only(m, [b]) && m.writes == [] && Stale(m, b) && b.c in m.devs[b.dev].dirty
    ensures Reaches(m, r) && ReadyForStage3(r) && Sound(r) && Stale(r, b) && SameDisks(m, r)
    ensures b.c !in r.devs[b.dev].dirty && |r.sent| > 0 && r.sent[|r.sent| - 1] == RecordOf(b)
  {
    hide Reaches, Flying, Valid, Slice, LastFor;
    var m3 := ReadChunkAgain(m, [b], b.dev, b.c);
    Onward(m, m3, ReadDone(0));
    var m4 := Step(m3, ReadDone(0));
    assert m4.flight == [] && m4.queue[|m4.queue| - 1] == b && SameDisks(m, m4);
    r := SendOut(m4);
    ReachTrans(m, m4, r);
    SameDisksSameStale(m, r, b);
  }

  lemma StaleIsMissing(r: Mig, disks0: seq<Disk>, b: Blk)
    requires Stale(r, b) && SameShape(r, disks0) && |r.sent| > 0 && r.sent[|r.sent| - 1] == RecordOf(b)
    requires b.c !in r.devs[b.dev].dirty
    ensures SameShape(r, LoadAll(disks0, r.sent)) && ValidChunk(r, b.dev, b.c)
    ensures !DirtyOrArrived(r, LoadAll(disks0, r.sent), b.dev, b.c)
  {
    hide LoadAll, Load, Slice;
    var n := |r.sent| - 1;
    assert r.sent == r.sent[..n] + [RecordOf(b)];
    LoadAllAppends(disks0, r.sent[..n], RecordOf(b));
    LoadAllKeepsShape(disks0, r.sent[..n]);
    LoadEffect(r, LoadAll(disks0, r.sent[..n]), b.dev, b.c, b.data, b.pad);
  }

  /** Some continuation finishes the migration with disks that differ. */
  ghost predicate CanEndWrong(m: Mig, disks0: seq<Disk>) {
    exists r: Mig, last: Mig :: Reaches(m, r) && EndsWrong(r, last, disks0)
  }

  ghost predicate EndsWrong(r: Mig, last: Mig, disks0: seq<Disk>) {
    && ReadyForStage3(r) && Possible(r, ResetCursors) && Passes(Step(r, ResetCursors), last) && CursorsDone(last)
    && !Arrived(last, disks0)
  }

  /** A clean chunk that the receiver does not have stays so. */
  lemma MissingEndsWrong(r: Mig, disks0: seq<Disk>, d: nat, c: nat) returns (last: Mig)
    requires Sound(r) && ReadyForStage3(r) && SameShape(r, LoadAll(disks0, r.sent)) && ValidChunk(r, d, c)
    requires !DirtyOrArrived(r, LoadAll(disks0, r.sent), d, c)
    ensures EndsWrong(r, last, disks0)
  {
    hide LoadAll, Slice, Valid, Flying, Arrived, CleanBehindCursors, PossibleAll, Run;
    AlwaysReset(r);
    StepKeepsSound(r, ResetCursors);
    ResetClears(r);
    var s := Step(r, ResetCursors);
    last := FinishAll(s, |s.devs|);
    var es: seq<Event> :| PossibleAll(s, es) && AllStage3(es) && Run(s, es) == last;
    PassArrivesIff(s, disks0, es);
    assert ValidChunk(s, d, c) && !DirtyOrArrived(s, LoadAll(disks0, s.sent), d, c);
  }

  /**
   In every state that a migration can reach with two reads of one chunk in
   flight, whatever they hold: the guest, the device and the migration can go
   on, with no step that the code forbids, so that it ends with disks that
   differ.
   */
  lemma TwoReadsCanEndWrong(disks: seq<Disk>, early: seq<Pending>, disks0: seq<Disk>, es: seq<Event>, i: nat, j: nat)
    requires |disks0| == |disks| && (forall d | 0 <= d < |disks| :: |disks0[d]| == |disks[d]|) && AreEarly(disks, early)
    requires PossibleAll(Start(disks, early), es) && SameChunkRead(Run(Start(disks, early), es).flight, i, j)
    ensures CanEndWrong(Run(Start(disks, early), es), disks0)
  {
    hide Reaches, Sound, EndsWrong, Only, Stale, PossibleAll, Run;
    var m := Run(Start(disks, early), es);
    StartIsSound(disks, early);
    RunKeepsSound(Start(disks, early), es);
    var m1, b := OneLeft(m, i, j);
    var r := OldOneLast(m1, b);
    ReachTrans(m, m1, r);
    assert SameShape(r, disks0);
    StaleIsMissing(r, disks0, b);
    var last := MissingEndsWrong(r, disks0, b.dev, b.c);
    assert EndsWrong(r, last, disks0);
  }

  // ----- a write from before the tracking

  lemma {:induction false} WritesButOne(m: Mig, k: nat) returns (m': Mig)
    requires Sound(m) && k < |m.writes|
    ensures Reaches(m, m') && Sound(m') && SameDisks(m, m') && m'.writes == [m.writes[k]]
    decreases |m.writes|
  {
    hide Reaches, TouchedChunks, Slice, Valid, Flying;
    ReachRefl(m);
    m' := m;
    if |m.writes| > 1 {
      var j := if k > 0 then 0 else 1;
      var m1 := Step(m, CompleteWrite(j));
      Onward(m, m, CompleteWrite(j));
      var k1 := if k > 0 then k - 1 else 0;
      assert m1.writes[k1] == m.writes[k];
      m' := WritesButOne(m1, k1);
      ReachTrans(m, m1, m');
    }
  }

  lemma {:induction false} CompleteAll(m: Mig) returns (m': Mig)
    requires Sound(m) && forall k | 0 <= k < |m.flight| :: m.flight[k].read
    ensures Reaches(m, m') && Sound(m') && SameDisks(m, m') && m'.writes == m.writes && m'.flight == []
    ensures forall d | 0 <= d < |m.devs| :: m'.devs[d] == m.devs[d].(reading := m'.devs[d].reading)
    decreases |m.flight|
  {
    hide Reaches, Slice, Flying, Valid;
    ReachRefl(m);
    m' := m;
    if m.flight != [] {
      assert ValidBlk(m, m.flight[0]) by { InFlightIsValid(m, 0); }
      var m1 := Step(m, ReadDone(0));
      Onward(m, m, ReadDone(0));
      m' := CompleteAll(m1);
      ReachTrans(m, m1, m');
    }
  }

  /** Everything but the write comes to an end. */
  lemma WriteLeft(m: Mig, k: nat) returns (m': Mig)
    requires Sound(m) && k < |m.writes|
    ensures Reaches(m, m') && Only(m', []) && SameSizes(m, m') && m'.writes == [m.writes[k]]
  {
    hide Reaches, Flying, Valid, LastFor;
    var m1 := WritesButOne(m, k);
    var m2 := BulkOut(m1, |m1.devs|);
    ReachTrans(m, m1, m2);
    var m3 := FillReads(m2, |m2.flight|);
    ReachTrans(m, m2, m3);
    m' := CompleteAll(m3);
    ReachTrans(m, m3, m');
    forall d | 0 <= d < |m'.devs| ensures m'.devs[d].reading == {} {
      NothingFlyingNothingRead(m', d);
    }
  }

  /** Its chunk is read and everything is sent. */
  lemma SentBefore(m: Mig, d: nat, c: nat) returns (r: Mig)
    requires Only(m, []) && ValidChunk(m, d, c)
    ensures Reaches(m, r) && Only(r, []) && SameDisks(m, r) && r.writes == m.writes && r.queue == [] && c !in r.devs[d].dirty
  {
    hide Reaches, Flying, Valid, LastFor;
    ReachRefl(m);
    var m1 := m;
    if c in m.devs[d].dirty {
      m1 := ReadChunkAgain(m, [], d, c);
    }
    r := SendOut(m1);
    ReachTrans(m, m1, r);
  }

  /** The write lands behind the last read of its chunk, and its completion marks nothing. */
  lemma LandsUnseen(m: Mig, disks: seq<Disk>) returns (r: Mig)
    requires Only(m, []) && m.queue == [] && SameShape(m, disks) && |m.writes| == 1 && !m.writes[0].tracked
    requires m.writes[0].sector / CHUNK !in m.devs[m.writes[0].dev].dirty
    ensures Reaches(m, r) && ReadyForStage3(r) && Sound(r) && r.sent == m.sent && SameShape(r, disks)
    ensures ValidChunk(r, m.writes[0].dev, m.writes[0].sector / CHUNK)
    ensures !DirtyOrArrived(r, disks, m.writes[0].dev, m.writes[0].sector / CHUNK)
  {
    hide Reaches, Flying, Valid;
    var w := m.writes[0];
    var d, c := w.dev, w.sector / CHUNK;
    var other := Other(disks[d][w.sector]);
    ReachRefl(m);
    var e := Land(0, w.sector, [other]);
    Onward(m, m, e);
    var m1 := Step(m, e);
    Onward(m, m1, CompleteWrite(0));
    r := Step(m1, CompleteWrite(0));
    assert r.devs[d].disk == Overwrite(m.devs[d].disk, w.sector, [other]);
    assert r.devs[d].disk[w.sector] == other;
    assert Slice(r.devs[d].disk, c)[w.sector - c * CHUNK] == other;
    assert Slice(disks[d], c)[w.sector - c * CHUNK] == disks[d][w.sector];
  }

  /**
   As long as a write that entered a device before the tracking is in flight,
   in whatever state the migration has reached: the migration can go on, with
   no step that the code forbids, so that it ends with disks that differ.
   */
  lemma EarlyWriteCanEndWrong(disks: seq<Disk>, early: seq<Pending>, disks0: seq<Disk>, es: seq<Event>, k: nat)
    requires |disks0| == |disks| && (forall d | 0 <= d < |disks| :: |disks0[d]| == |disks[d]|) && AreEarly(disks, early)
    requires PossibleAll(Start(disks, early), es)
    requires k < |Run(Start(disks, early), es).writes| && !Run(Start(disks, early), es).writes[k].tracked
    ensures CanEndWrong(Run(Start(disks, early), es), disks0)
  {
    hide Reaches, EndsWrong, PossibleAll, Run, LoadAll, Valid, Flying;
    var m := Run(Start(disks, early), es);
    StartIsSound(disks, early);
    RunKeepsSound(Start(disks, early), es);
    var w := m.writes[k];
    var m1 := WriteLeft(m, k);
    var c := w.sector / CHUNK;
    assert ValidChunk(m1, w.dev, c);
    var m2 := SentBefore(m1, w.dev, c);
    ReachTrans(m, m1, m2);
    LoadAllKeepsShape(disks0, m2.sent);
    var r := LandsUnseen(m2, LoadAll(disks0, m2.sent));
    ReachTrans(m, m2, r);
    var last := MissingEndsWrong(r, disks0, w.dev, c);
    assert EndsWrong(r, last, disks0);
  }
}
