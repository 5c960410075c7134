/**
 Live block migration over whole runs: a bulk pass with asynchronous reads,
 then passes over the dirty chunks, a queue of completed reads, and a guest
 whose writes reach the disk and the dirty bitmap at different moments.
 */
module BlockMigration {
  import opened Basics
  import opened Bits

  type Sector = s: seq<Byte> | |s| == SECTOR witness seq(SECTOR, _ => 0)
  type Disk = seq<Sector>

  function Blank(): Sector { seq(SECTOR, _ => 0) }

  function Blanks(n: nat): seq<Sector> { seq(n, _ => Blank()) }

  function ChunkCount(total: nat): nat { (total + CHUNK - 1) / CHUNK }

  /** The sectors of chunk c; the last chunk of a disk may be short. */
  function Slice(disk: Disk, c: nat): seq<Sector>
    requires c < ChunkCount(|disk|)
  {
    disk[c * CHUNK..Min((c + 1) * CHUNK, |disk|)]
  }

  function Overwrite(disk: Disk, sector: nat, data: seq<Sector>): Disk
    requires sector + |data| <= |disk|
  {
    disk[..sector] + data + disk[sector + |data|..]
  }

  /** BlkMigDevState and the dirty bitmap of its device. */
  datatype Dev = Dev(disk: Disk, dirty: set<nat>, reading: set<nat>, curSector: nat, curDirty: nat)

  /** A read of one chunk; `data` once the disk has been read, `pad` what else is in the buffer. */
  datatype Blk = Blk(dev: nat, c: nat, data: seq<Sector>, read: bool, pad: seq<Sector>)

  /**
   A guest write the device has not reported as complete.  One that entered the
   device before tracking began is not `tracked`: its completion marks nothing.
   */
  datatype Pending = Pending(dev: nat, sector: nat, n: nat, tracked: bool)

  datatype Record = Record(dev: nat, c: nat, buf: seq<Sector>)

  /** `flight` in order of submission, `queue` in order of completion. */
  datatype Mig = Mig(devs: seq<Dev>, flight: seq<Blk>, queue: seq<Blk>, sent: seq<Record>, writes: seq<Pending>)

  predicate ValidChunk(m: Mig, d: nat, c: nat) {
    d < |m.devs| && c < ChunkCount(|m.devs[d].disk|)
  }

  predicate ValidBlk(m: Mig, b: Blk) {
    ValidChunk(m, b.dev, b.c) && (b.read ==> |b.data| == |Slice(m.devs[b.dev].disk, b.c)| && |b.data| + |b.pad| == CHUNK)
  }

  ghost predicate Valid(m: Mig) {
    && (forall i | 0 <= i < |m.flight| :: ValidBlk(m, m.flight[i]))
    && (forall i | 0 <= i < |m.queue| :: ValidBlk(m, m.queue[i]) && m.queue[i].read)
    && (forall d | 0 <= d < |m.devs| :: m.devs[d].curSector % CHUNK == 0 || m.devs[d].curSector == |m.devs[d].disk|)
    && (forall d | 0 <= d < |m.devs| :: m.devs[d].curSector <= |m.devs[d].disk| && m.devs[d].curDirty % CHUNK == 0)
  }

  // ----- the steps

  datatype Event =
    | SubmitWrite(write: Pending)                    // a guest write enters the device
    | Land(k: nat, sector: nat, data: seq<Sector>)   // some of its sectors reach the disk
    | CompleteWrite(k: nat)                          // it is reported, and if tracked its chunks become dirty
    | SyncWrite(dev: nat, sector: nat, data: seq<Sector>)
    | BulkRead(dev: nat)
    | DirtyRead(dev: nat)
    | DirtySkip(dev: nat)
    | ResetCursors
    | ReadDisk(i: nat, pad: seq<Sector>)             // the device fills the buffer of a read
    | ReadDone(i: nat)                               // blk_mig_read_cb
    | SendHead                                       // flush_blks, one block
    | SendDirty(dev: nat, pad: seq<Sector>)          // a dirty chunk read and sent at once

  /** Reads of one chunk complete in the order in which they were submitted. */
  predicate FirstOfItsChunk(flight: seq<Blk>, i: nat)
    requires i < |flight|
  {
    forall j | 0 <= j < i :: !(flight[j].dev == flight[i].dev && flight[j].c == flight[i].c)
  }

  predicate Within(w: Pending, sector: nat, n: nat) {
    w.sector <= sector && sector + n <= w.sector + w.n
  }

  /** What the code and the devices can do at all. */
  predicate Possible(m: Mig, e: Event) {
    match e
    case SubmitWrite(w) => w.tracked && w.dev < |m.devs| && w.n > 0 && w.sector + w.n <= |m.devs[w.dev].disk|
    case Land(w, sector, data) =>
      && w < |m.writes| && m.writes[w].dev < |m.devs| && |data| > 0 && Within(m.writes[w], sector, |data|)
      && sector + |data| <= |m.devs[m.writes[w].dev].disk|
    case CompleteWrite(w) => w < |m.writes| && m.writes[w].dev < |m.devs|
    case SyncWrite(d, sector, data) => d < |m.devs| && |data| > 0 && sector + |data| <= |m.devs[d].disk|
    case BulkRead(d) => d < |m.devs| && m.devs[d].curSector < |m.devs[d].disk|
    case DirtyRead(d) =>
      d < |m.devs| && m.devs[d].curDirty < |m.devs[d].disk|
      && m.devs[d].curDirty / CHUNK !in m.devs[d].reading && m.devs[d].curDirty / CHUNK in m.devs[d].dirty
    case DirtySkip(d) =>
      d < |m.devs| && m.devs[d].curDirty < |m.devs[d].disk|
      && m.devs[d].curDirty / CHUNK !in m.devs[d].reading && m.devs[d].curDirty / CHUNK !in m.devs[d].dirty
    case ResetCursors => true
    case ReadDisk(i, pad) =>
      i < |m.flight| && !m.flight[i].read && ValidBlk(m, m.flight[i])
      && |Slice(m.devs[m.flight[i].dev].disk, m.flight[i].c)| + |pad| == CHUNK
    case ReadDone(i) => i < |m.flight| && m.flight[i].read && m.flight[i].dev < |m.devs|
    case SendHead => m.queue != []
    case SendDirty(d, pad) =>
      && d < |m.devs| && m.devs[d].curDirty < |m.devs[d].disk|
      && m.devs[d].curDirty / CHUNK !in m.devs[d].reading && m.devs[d].curDirty / CHUNK in m.devs[d].dirty
      && |Slice(m.devs[d].disk, m.devs[d].curDirty / CHUNK)| + |pad| == CHUNK
  }

  /** A write from before the tracking is still in flight to the chunk. */
  predicate EarlyAt(m: Mig, d: nat, c: nat) {
    exists k | 0 <= k < |m.writes| ::
      !m.writes[k].tracked && m.writes[k].dev == d && Touches(m.writes[k].sector, m.writes[k].n, c)
  }

  /** The chunk whose contents the event takes from the disk has no early write in flight. */
  predicate ReadsSettled(m: Mig, e: Event)
    requires Possible(m, e)
  {
    && (e.ReadDisk? ==> !EarlyAt(m, m.flight[e.i].dev, m.flight[e.i].c))
    && (e.SendDirty? ==> !EarlyAt(m, e.dev, m.devs[e.dev].curDirty / CHUNK))
  }

  /**
   What a correct migration relies on: reads of a chunk complete in order, early
   writes to it have completed before it is read, and stage 3 finds flight and
   queue empty.
   */
  predicate InOrder(m: Mig, e: Event)
    requires Possible(m, e)
  {
    && (e.ReadDone? ==> FirstOfItsChunk(m.flight, e.i))
    && (e.SendDirty? ==> m.flight == [] && m.queue == [])
    && ReadsSettled(m, e)
  }

  predicate Enabled(m: Mig, e: Event) { Possible(m, e) && InOrder(m, e) }

  function WithDev(m: Mig, d: nat, x: Dev): Mig
    requires d < |m.devs|
  {
    m.(devs := m.devs[d := x])
  }

  function TouchedChunks(sector: nat, n: nat, total: nat): set<nat> {
    set c: nat | c < ChunkCount(total) && Touches(sector, n, c)
  }

  /** What block_complete_cb marks; it is called only for tracked writes. */
  function MarkedBy(p: Pending, total: nat): set<nat> {
    if p.tracked then TouchedChunks(p.sector, p.n, total) else {}
  }

  function RecordOf(b: Blk): Record { Record(b.dev, b.c, b.data + b.pad) }

  function Step(m: Mig, e: Event): Mig
    requires Possible(m, e)
  {
    match e
    case SubmitWrite(w) => m.(writes := m.writes + [w])
    case Land(w, sector, data) =>
      var d := m.writes[w].dev;
      WithDev(m, d, m.devs[d].(disk := Overwrite(m.devs[d].disk, sector, data)))
    case CompleteWrite(w) =>
      var p := m.writes[w];
      WithDev(m, p.dev, m.devs[p.dev].(dirty := m.devs[p.dev].dirty + MarkedBy(p, |m.devs[p.dev].disk|)))
        .(writes := m.writes[..w] + m.writes[w + 1..])
    case SyncWrite(d, sector, data) =>
      WithDev(m, d, m.devs[d].(disk := Overwrite(m.devs[d].disk, sector, data),
                               dirty := m.devs[d].dirty + TouchedChunks(sector, |data|, |m.devs[d].disk|)))
    case BulkRead(d) =>
      var x := m.devs[d];
      var c := x.curSector / CHUNK;
      WithDev(m, d, x.(dirty := x.dirty - {c}, curSector := Min((c + 1) * CHUNK, |x.disk|)))
        .(flight := m.flight + [Blk(d, c, [], false, [])])
    case DirtyRead(d) =>
      var x := m.devs[d];
      var c := x.curDirty / CHUNK;
      WithDev(m, d, x.(dirty := x.dirty - {c}, reading := x.reading + {c}))
        .(flight := m.flight + [Blk(d, c, [], false, [])])
    case DirtySkip(d) => WithDev(m, d, m.devs[d].(curDirty := m.devs[d].curDirty + CHUNK))
    case ResetCursors =>
      m.(devs := seq(|m.devs|, d requires 0 <= d < |m.devs| => m.devs[d].(curDirty := 0)))
    case ReadDisk(i, pad) =>
      var b := m.flight[i];
      m.(flight := m.flight[i := b.(data := Slice(m.devs[b.dev].disk, b.c), read := true, pad := pad)])
    case ReadDone(i) =>
      var b := m.flight[i];
      WithDev(m, b.dev, m.devs[b.dev].(reading := m.devs[b.dev].reading - {b.c}))
        .(flight := m.flight[..i] + m.flight[i + 1..], queue := m.queue + [b])
    case SendHead => m.(queue := m.queue[1..], sent := m.sent + [RecordOf(m.queue[0])])
    case SendDirty(d, pad) =>
      var x := m.devs[d];
      var c := x.curDirty / CHUNK;
      WithDev(m, d, x.(dirty := x.dirty - {c})).(sent := m.sent + [Record(d, c, Slice(x.disk, c) + pad)])
  }

  /**
   What the guest's steps do: exactly the sectors written change, and exactly
   the chunks that hold one of them become dirty, at once or when a tracked
   write is reported.
   */
  lemma GuestEffects(m: Mig, e: Event)
    requires Possible(m, e)
    ensures e.SubmitWrite? ==> Step(m, e) == m.(writes := m.writes + [e.write])
    ensures e.Land? ==>
              var d := m.writes[e.k].dev;
              var x := Step(m, e).devs[d];
              && Step(m, e) == m.(devs := m.devs[d := m.devs[d].(disk := x.disk)])
              && Written(m.devs[d].disk, x.disk, e.sector, e.data)
    ensures e.CompleteWrite? ==>
              var w := m.writes[e.k];
              var x := Step(m, e).devs[w.dev];
              && Step(m, e) == m.(devs := m.devs[w.dev := m.devs[w.dev].(dirty := x.dirty)], writes := m.writes[..e.k] + m.writes[e.k + 1..])
              && if w.tracked then NowDirty(m.devs[w.dev], x, w.sector, w.n) else x.dirty == m.devs[w.dev].dirty
    ensures e.SyncWrite? ==>
              var x := Step(m, e).devs[e.dev];
              && Step(m, e) == m.(devs := m.devs[e.dev := m.devs[e.dev].(disk := x.disk, dirty := x.dirty)])
              && Written(m.devs[e.dev].disk, x.disk, e.sector, e.data) && NowDirty(m.devs[e.dev], x, e.sector, |e.data|)
  {
    hide Overwrite, TouchedChunks;
    match e
    case Land(k, sector, data) => OverwriteWrites(m.devs[m.writes[k].dev].disk, sector, data);
    case CompleteWrite(k) => TouchedAreHeld(m.devs[m.writes[k].dev], m.writes[k].sector, m.writes[k].n);
    case SyncWrite(d, sector, data) =>
      OverwriteWrites(m.devs[d].disk, sector, data);
      TouchedAreHeld(m.devs[d], sector, |data|);
    case _ =>
  }

  ghost predicate Written(a: Disk, b: Disk, sector: nat, data: seq<Sector>) {
    |a| == |b| && forall s | 0 <= s < |a| :: b[s] == if sector <= s < sector + |data| then data[s - sector] else a[s]
  }

  /** Newly dirty are the chunks of sector .. sector + n that the device has. */
  ghost predicate NowDirty(x: Dev, y: Dev, sector: nat, n: nat) {
    forall c: nat :: c in y.dirty <==> c in x.dirty || (exists s: nat :: sector <= s < sector + n && s / CHUNK == c && c < ChunkCount(|x.disk|))
  }

  lemma OverwriteWrites(disk: Disk, sector: nat, data: seq<Sector>)
    requires sector + |data| <= |disk|
    ensures Written(disk, Overwrite(disk, sector, data), sector, data)
  {}

  lemma TouchedAreHeld(x: Dev, sector: nat, n: nat)
    ensures NowDirty(x, x.(dirty := x.dirty + TouchedChunks(sector, n, |x.disk|)), sector, n)
    ensures forall y: Dev | y.dirty == x.dirty + TouchedChunks(sector, n, |x.disk|) :: NowDirty(x, y, sector, n)
  {
    forall c: nat ensures Touches(sector, n, c) <==> exists s: nat :: sector <= s < sector + n && s / CHUNK == c {
      if Touches(sector, n, c) {
        var s: nat := if sector >= c * CHUNK then sector else c * CHUNK;
        assert sector <= s < sector + n && s / CHUNK == c;
      }
    }
  }

  // ----- the receiver

  /** block_load: the record is cut to what is left of the device. */
  function Load(disks: seq<Disk>, r: Record): seq<Disk> {
    if r.dev < |disks| && r.c < ChunkCount(|disks[r.dev]|) && |r.buf| == CHUNK then
      var nr := Min(CHUNK, |disks[r.dev]| - r.c * CHUNK);
      disks[r.dev := Overwrite(disks[r.dev], r.c * CHUNK, r.buf[..nr])]
    else disks
  }

  function LoadAll(disks: seq<Disk>, rs: seq<Record>): seq<Disk> {
    if rs == [] then disks else Load(LoadAll(disks, rs[..|rs| - 1]), rs[|rs| - 1])
  }

  // ----- the newest copy of a chunk

  predicate IsFor(b: Blk, d: nat, c: nat) { b.dev == d && b.c == c }

  /** The index of the last block for the chunk, or -1. */
  function LastFor(bs: seq<Blk>, d: nat, c: nat): (r: int)
    ensures -1 <= r < |bs|
    ensures r >= 0 ==> IsFor(bs[r], d, c)
    ensures forall j | r < j < |bs| :: !IsFor(bs[j], d, c)
  {
    if bs == [] then -1
    else if IsFor(bs[|bs| - 1], d, c) then |bs| - 1
    else LastFor(bs[..|bs| - 1], d, c)
  }

  lemma LastForIs(bs: seq<Blk>, d: nat, c: nat, r: int)
    requires -1 <= r < |bs| && (r >= 0 ==> IsFor(bs[r], d, c)) && forall j | r < j < |bs| :: !IsFor(bs[j], d, c)
    ensures LastFor(bs, d, c) == r
  {}

  /** The newest copy of chunk c on its way or arrived is what the disk holds, or will be read from it. */
  ghost predicate CopyGood(m: Mig, disks: seq<Disk>, d: nat, c: nat)
    requires ValidChunk(m, d, c)
  {
    var now := Slice(m.devs[d].disk, c);
    var f := LastFor(m.flight, d, c);
    var q := LastFor(m.queue, d, c);
    if f >= 0 then m.flight[f].read ==> m.flight[f].data == now
    else if q >= 0 then m.queue[q].data == now
    else d < |disks| && c < ChunkCount(|disks[d]|) && Slice(disks[d], c) == now
  }

  /** A tracked write that touches the chunk has not been reported yet. */
  ghost predicate WritePending(m: Mig, d: nat, c: nat) {
    exists k | 0 <= k < |m.writes| ::
      m.writes[k].tracked && m.writes[k].dev == d && Touches(m.writes[k].sector, m.writes[k].n, c)
  }

  /** Passed by the bulk cursor. */
  predicate Passed(x: Dev, c: nat) { c * CHUNK < x.curSector }

  ghost predicate ChunkSafe(m: Mig, disks: seq<Disk>, d: nat, c: nat)
    requires ValidChunk(m, d, c)
  {
    c in m.devs[d].dirty || WritePending(m, d, c) || !Passed(m.devs[d], c) || CopyGood(m, disks, d, c)
  }

  /** The newest copy of the chunk is still to be read from the disk. */
  predicate Unread(m: Mig, d: nat, c: nat) {
    var f := LastFor(m.flight, d, c);
    f >= 0 && !m.flight[f].read
  }

  /** The chunk will be read again, or for the first time. */
  ghost predicate ToBeRead(m: Mig, d: nat, c: nat)
    requires d < |m.devs|
  {
    c in m.devs[d].dirty || WritePending(m, d, c) || !Passed(m.devs[d], c) || Unread(m, d, c)
  }

  /** A chunk that an early write may still change will be read after it. */
  ghost predicate EarlyWaits(m: Mig) {
    forall d: nat, c: nat | ValidChunk(m, d, c) && EarlyAt(m, d, c) :: ToBeRead(m, d, c)
  }

  ghost predicate SameShape(m: Mig, disks: seq<Disk>) {
    |disks| == |m.devs| && forall d | 0 <= d < |disks| :: |disks[d]| == |m.devs[d].disk|
  }

  ghost predicate Copied(m: Mig, disks: seq<Disk>) {
    && Valid(m) && SameShape(m, disks)
    && forall d: nat, c: nat | ValidChunk(m, d, c) :: ChunkSafe(m, disks, d, c)
  }

  /** The invariant; `disks` is the receiver after everything sent so far. */
  ghost predicate InStep(m: Mig, disks: seq<Disk>) { Copied(m, disks) && EarlyWaits(m) }

  // ----- slices and writes

  lemma SliceAfterOverwrite(disk: Disk, sector: nat, data: seq<Sector>, c: nat)
    requires sector + |data| <= |disk| && c < ChunkCount(|disk|) && |data| > 0
    ensures |Overwrite(disk, sector, data)| == |disk|
    ensures !Touches(sector, |data|, c) ==> Slice(Overwrite(disk, sector, data), c) == Slice(disk, c)
  {
    var lo, hi := c * CHUNK, Min((c + 1) * CHUNK, |disk|);
    var after := Overwrite(disk, sector, data);
    if !Touches(sector, |data|, c) {
      assert hi <= sector || sector + |data| <= lo;
      assert after[lo..hi] == disk[lo..hi];
    }
  }

  lemma SliceAfterLoad(disk: Disk, c: nat, buf: seq<Sector>, c': nat)
    requires c < ChunkCount(|disk|) && c' < ChunkCount(|disk|) && |buf| == CHUNK
    ensures var nr := Min(CHUNK, |disk| - c * CHUNK);
            && 0 < nr <= CHUNK && c * CHUNK + nr <= |disk|
            && var after := Overwrite(disk, c * CHUNK, buf[..nr]);
            && |after| == |disk| && nr == |Slice(disk, c)|
            && Slice(after, c') == if c' == c then buf[..nr] else Slice(disk, c')
  {
    var nr := Min(CHUNK, |disk| - c * CHUNK);
    var after := Overwrite(disk, c * CHUNK, buf[..nr]);
    if c' == c {
      assert after[c * CHUNK..c * CHUNK + nr] == buf[..nr];
    } else {
      SliceAfterOverwrite(disk, c * CHUNK, buf[..nr], c');
    }
  }

  /** What arrives for one chunk, and what stays for all others. */
  lemma LoadEffect(m: Mig, disks: seq<Disk>, d: nat, c: nat, data: seq<Sector>, pad: seq<Sector>)
    requires SameShape(m, disks) && ValidChunk(m, d, c)
    requires |data| == |Slice(m.devs[d].disk, c)| && |data| + |pad| == CHUNK
    ensures var after := Load(disks, Record(d, c, data + pad));
            && SameShape(m, after)
            && forall d': nat, c': nat | ValidChunk(m, d', c') ::
                 Slice(after[d'], c') == if d' == d && c' == c then data else Slice(disks[d'], c')
  {
    var buf := data + pad;
    var nr := Min(CHUNK, |disks[d]| - c * CHUNK);
    SliceAfterLoad(disks[d], c, buf, c);
    assert buf[..nr] == data;
    var after := Load(disks, Record(d, c, buf));
    forall d': nat, c': nat | ValidChunk(m, d', c')
      ensures Slice(after[d'], c') == if d' == d && c' == c then data else Slice(disks[d'], c')
    {
      if d' == d {
        SliceAfterLoad(disks[d], c, buf, c');
      }
    }
  }

  lemma SliceIsShort(disk: Disk, c: nat)
    requires c < ChunkCount(|disk|)
    ensures |Slice(disk, c)| <= CHUNK
  {}

  lemma OverwriteKeepsLength(disk: Disk, sector: nat, data: seq<Sector>)
    requires sector + |data| <= |disk|
    ensures |Overwrite(disk, sector, data)| == |disk|
  {}

  lemma {:induction false} LoadKeepsShape(disks: seq<Disk>, r: Record)
    ensures |Load(disks, r)| == |disks| && forall d | 0 <= d < |disks| :: |Load(disks, r)[d]| == |disks[d]|
  {
    hide Overwrite;
    if r.dev < |disks| && r.c < ChunkCount(|disks[r.dev]|) && |r.buf| == CHUNK {
      var n := Min(CHUNK, |disks[r.dev]| - r.c * CHUNK);
      OverwriteKeepsLength(disks[r.dev], r.c * CHUNK, r.buf[..n]);
    }
  }

  lemma {:induction false} LoadAllKeepsShape(disks: seq<Disk>, rs: seq<Record>)
    ensures |LoadAll(disks, rs)| == |disks| && forall d | 0 <= d < |disks| :: |LoadAll(disks, rs)[d]| == |disks[d]|
  {
    hide Load;
    if rs != [] {
      var n := |rs| - 1;
      LoadAllKeepsShape(disks, rs[..n]);
      LoadKeepsShape(LoadAll(disks, rs[..n]), rs[n]);
    }
  }

  // ----- every step keeps the invariant

  /** Steps that leave devices' disks and the copies alone keep every good copy good. */
  lemma SameCopies(m: Mig, m': Mig, disks: seq<Disk>, d: nat, c: nat)
    requires ValidChunk(m, d, c) && |m'.devs| == |m.devs| && m'.devs[d].disk == m.devs[d].disk
    requires m'.flight == m.flight && m'.queue == m.queue
    ensures ValidChunk(m', d, c) && CopyGood(m', disks, d, c) == CopyGood(m, disks, d, c)
  {}

  lemma ValidCarries(m: Mig, m': Mig)
    requires Valid(m) && |m'.devs| == |m.devs| && m'.flight == m.flight && m'.queue == m.queue
    requires forall d | 0 <= d < |m.devs| ::
               |m'.devs[d].disk| == |m.devs[d].disk| && m'.devs[d].curSector == m.devs[d].curSector && m'.devs[d].curDirty % CHUNK == 0
    ensures Valid(m')
  {
    forall b: Blk | ValidBlk(m, b) ensures ValidBlk(m', b) {}
  }

  lemma SubmitWriteStep(m: Mig, disks: seq<Disk>, e: Event)
    requires Copied(m, disks) && Enabled(m, e) && e.SubmitWrite?
    ensures Copied(Step(m, e), disks)
  {
    hide CopyGood, LastFor, Slice, Touches;
    var m' := Step(m, e);
    ValidCarries(m, m');
    forall d: nat, c: nat | ValidChunk(m', d, c) ensures ChunkSafe(m', disks, d, c) {
      assert ChunkSafe(m, disks, d, c);
      SameCopies(m, m', disks, d, c);
      if WritePending(m, d, c) {
        var k :| 0 <= k < |m.writes| && m.writes[k].tracked && m.writes[k].dev == d && Touches(m.writes[k].sector, m.writes[k].n, c);
        assert m'.writes[k] == m.writes[k];
      }
    }
  }

  /** A chunk that a step of the disk does not touch keeps its copy; one that it touches is known to be changing. */
  lemma DiskChanges(m: Mig, m': Mig, disks: seq<Disk>, d: nat, sector: nat, data: seq<Sector>)
    requires Copied(m, disks) && d < |m.devs| && |data| > 0 && sector + |data| <= |m.devs[d].disk|
    requires m'.flight == m.flight && m'.queue == m.queue && m'.writes == m.writes
    requires |m'.devs| == |m.devs| && m'.devs == m.devs[d := m'.devs[d]]
    requires m'.devs[d].disk == Overwrite(m.devs[d].disk, sector, data)
    requires m'.devs[d].curSector == m.devs[d].curSector && m'.devs[d].curDirty == m.devs[d].curDirty
    requires m.devs[d].dirty <= m'.devs[d].dirty
    requires forall c: nat | ValidChunk(m, d, c) && Touches(sector, |data|, c) :: ToBeRead(m', d, c)
    ensures Copied(m', disks)
  {
    hide LastFor, Touches;
    SliceAfterOverwrite(m.devs[d].disk, sector, data, 0);
    ValidCarries(m, m');
    forall d': nat, c: nat | ValidChunk(m', d', c) ensures ChunkSafe(m', disks, d', c) {
      assert ValidChunk(m, d', c) && ChunkSafe(m, disks, d', c);
      if d' == d {
        SliceAfterOverwrite(m.devs[d].disk, sector, data, c);
      }
      assert WritePending(m, d', c) ==> WritePending(m', d', c);
    }
  }

  lemma LandStep(m: Mig, disks: seq<Disk>, e: Event)
    requires Copied(m, disks) && EarlyWaits(m) && Enabled(m, e) && e.Land?
    ensures Copied(Step(m, e), disks)
  {
    hide LastFor;
    var m' := Step(m, e);
    var p := m.writes[e.k];
    forall c: nat | ValidChunk(m, p.dev, c) && Touches(e.sector, |e.data|, c) ensures ToBeRead(m', p.dev, c) {
      assert Touches(p.sector, p.n, c);
      assert m'.writes[e.k] == p;
      if !p.tracked {
        assert EarlyAt(m, p.dev, c) && ToBeRead(m, p.dev, c);
        assert WritePending(m, p.dev, c) ==> WritePending(m', p.dev, c);
      }
    }
    DiskChanges(m, m', disks, p.dev, e.sector, e.data);
  }

  lemma SyncWriteStep(m: Mig, disks: seq<Disk>, e: Event)
    requires Copied(m, disks) && Enabled(m, e) && e.SyncWrite?
    ensures Copied(Step(m, e), disks)
  {
    DiskChanges(m, Step(m, e), disks, e.dev, e.sector, e.data);
  }

  lemma CompleteWriteStep(m: Mig, disks: seq<Disk>, e: Event)
    requires Copied(m, disks) && Enabled(m, e) && e.CompleteWrite?
    ensures Copied(Step(m, e), disks)
  {
    hide CopyGood, LastFor, Slice, Touches;
    var m' := Step(m, e);
    var p := m.writes[e.k];
    ValidCarries(m, m');
    forall d: nat, c: nat | ValidChunk(m', d, c) ensures ChunkSafe(m', disks, d, c) {
      assert ValidChunk(m, d, c) && ChunkSafe(m, disks, d, c);
      SameCopies(m, m', disks, d, c);
      if WritePending(m, d, c) {
        var k :| 0 <= k < |m.writes| && m.writes[k].tracked && m.writes[k].dev == d && Touches(m.writes[k].sector, m.writes[k].n, c);
        if k != e.k {
          assert m'.writes[if k < e.k then k else k - 1] == m.writes[k];
        }
      }
    }
  }

  /** A new read at the end of the flight is the newest copy of its chunk. */
  lemma ReadSubmitted(m: Mig, m': Mig, disks: seq<Disk>, d: nat, c: nat)
    requires Copied(m, disks) && ValidChunk(m, d, c)
    requires m'.flight == m.flight + [Blk(d, c, [], false, [])] && m'.queue == m.queue && m'.writes == m.writes
    requires |m'.devs| == |m.devs| && m'.devs == m.devs[d := m'.devs[d]] && m'.devs[d].disk == m.devs[d].disk
    requires m'.devs[d].dirty == m.devs[d].dirty - {c} && m'.devs[d].curDirty == m.devs[d].curDirty
    requires m'.devs[d].curSector == m.devs[d].curSector
          || (m.devs[d].curSector == c * CHUNK && m'.devs[d].curSector == Min((c + 1) * CHUNK, |m.devs[d].disk|))
    ensures Copied(m', disks)
  {
    hide LastFor, Slice, Touches, TouchedChunks;
    forall b: Blk | ValidBlk(m, b) ensures ValidBlk(m', b) {}
    assert Valid(m');
    forall d': nat, c': nat | ValidChunk(m', d', c') ensures ChunkSafe(m', disks, d', c') {
      assert ValidChunk(m, d', c') && ChunkSafe(m, disks, d', c');
      assert WritePending(m, d', c') ==> WritePending(m', d', c');
      if d' == d && c' == c {
        LastForIs(m'.flight, d, c, |m.flight|);
      } else {
        var f := LastFor(m.flight, d', c');
        LastForIs(m'.flight, d', c', f);
      }
    }
  }

  lemma ReadSteps(m: Mig, disks: seq<Disk>, e: Event)
    requires Copied(m, disks) && Enabled(m, e) && (e.BulkRead? || e.DirtyRead?)
    ensures Copied(Step(m, e), disks)
  {
    hide LastFor, Slice, Touches, CopyGood;
    var x := m.devs[e.dev];
    var c := (if e.BulkRead? then x.curSector else x.curDirty) / CHUNK;
    assert x.curSector % CHUNK == 0 || x.curSector == |x.disk|;
    assert c * CHUNK == if e.BulkRead? then x.curSector else x.curDirty;
    ReadSubmitted(m, Step(m, e), disks, e.dev, c);
  }

  lemma CursorSteps(m: Mig, disks: seq<Disk>, e: Event)
    requires Copied(m, disks) && Enabled(m, e) && (e.DirtySkip? || e.ResetCursors?)
    ensures Copied(Step(m, e), disks)
  {
    hide CopyGood, LastFor, Slice, Touches;
    var m' := Step(m, e);
    ValidCarries(m, m');
    forall d: nat, c: nat | ValidChunk(m', d, c) ensures ChunkSafe(m', disks, d, c) {
      assert ValidChunk(m, d, c) && ChunkSafe(m, disks, d, c);
      SameCopies(m, m', disks, d, c);
      assert WritePending(m, d, c) ==> WritePending(m', d, c);
    }
  }

  lemma ReadDiskStep(m: Mig, disks: seq<Disk>, e: Event)
    requires Copied(m, disks) && Enabled(m, e) && e.ReadDisk?
    ensures Copied(Step(m, e), disks)
  {
    hide LastFor, Slice, Touches;
    var m' := Step(m, e);
    var b := m.flight[e.i];
    forall b: Blk | ValidBlk(m, b) ensures ValidBlk(m', b) {}
    forall d: nat, c: nat | ValidChunk(m', d, c) ensures ChunkSafe(m', disks, d, c) {
      assert ValidChunk(m, d, c) && ChunkSafe(m, disks, d, c);
      assert WritePending(m, d, c) ==> WritePending(m', d, c);
      LastForIs(m'.flight, d, c, LastFor(m.flight, d, c));
    }
  }

  /** Taking block i out of the flight, when it is the first one for its chunk. */
  lemma LastForAfterRemoval(bs: seq<Blk>, i: nat, d: nat, c: nat)
    requires i < |bs| && FirstOfItsChunk(bs, i)
    ensures var f := LastFor(bs, d, c);
            LastFor(bs[..i] + bs[i + 1..], d, c) == if f == i then -1 else if f > i then f - 1 else f
  {
    hide LastFor;
    var f := LastFor(bs, d, c);
    var rest := bs[..i] + bs[i + 1..];
    var r := if f == i then -1 else if f > i then f - 1 else f;
    forall j | r < j < |rest| ensures !IsFor(rest[j], d, c) {
      var k := if j < i then j else j + 1;
      assert rest[j] == bs[k];
      if f == i && j < i {
        assert !(bs[j].dev == bs[i].dev && bs[j].c == bs[i].c);
      } else {
        assert !IsFor(bs[k], d, c);
      }
    }
    LastForIs(rest, d, c, r);
  }

  lemma ReadDoneValid(m: Mig, e: Event)
    requires Valid(m) && Enabled(m, e) && e.ReadDone?
    ensures Valid(Step(m, e))
  {
    hide Slice, FirstOfItsChunk;
    var m' := Step(m, e);
    forall b: Blk | ValidBlk(m, b) ensures ValidBlk(m', b) {}
    forall j | 0 <= j < |m'.flight| ensures ValidBlk(m', m'.flight[j]) {
      assert m'.flight[j] == m.flight[if j < e.i then j else j + 1];
    }
  }

  /** The first read of a chunk to complete becomes the newest copy in the queue, unless a later read is in flight. */
  lemma ReadDoneKeepsCopy(m: Mig, disks: seq<Disk>, e: Event, d: nat, c: nat)
    requires Enabled(m, e) && e.ReadDone? && ValidChunk(m, d, c) && CopyGood(m, disks, d, c)
    ensures ValidChunk(Step(m, e), d, c) && CopyGood(Step(m, e), disks, d, c)
  {
    hide LastFor, Slice, FirstOfItsChunk, Touches, TouchedChunks;
    var m' := Step(m, e);
    var b := m.flight[e.i];
    assert m'.devs[d].disk == m.devs[d].disk;
    LastForAfterRemoval(m.flight, e.i, d, c);
    LastForIs(m'.queue, d, c, if IsFor(b, d, c) then |m.queue| else LastFor(m.queue, d, c));
  }

  lemma ReadDoneStep(m: Mig, disks: seq<Disk>, e: Event)
    requires Copied(m, disks) && Enabled(m, e) && e.ReadDone?
    ensures Copied(Step(m, e), disks)
  {
    hide Valid, CopyGood, Slice, Touches, TouchedChunks, FirstOfItsChunk;
    var m' := Step(m, e);
    ReadDoneValid(m, e);
    forall d: nat, c: nat | ValidChunk(m', d, c) ensures ChunkSafe(m', disks, d, c) {
      assert ValidChunk(m, d, c) && ChunkSafe(m, disks, d, c);
      assert WritePending(m, d, c) ==> WritePending(m', d, c);
      if CopyGood(m, disks, d, c) {
        ReadDoneKeepsCopy(m, disks, e, d, c);
      }
    }
  }

  lemma LastForAfterHead(bs: seq<Blk>, d: nat, c: nat)
    requires bs != []
    ensures LastFor(bs[1..], d, c) == var q := LastFor(bs, d, c); if q >= 0 then q - 1 else -1
  {
    hide LastFor;
    var q := LastFor(bs, d, c);
    forall j | (if q >= 0 then q - 1 else -1) < j < |bs| - 1 ensures !IsFor(bs[1..][j], d, c) {
      assert bs[1..][j] == bs[j + 1];
    }
    LastForIs(bs[1..], d, c, if q >= 0 then q - 1 else -1);
  }

  lemma SendHeadStep(m: Mig, disks: seq<Disk>)
    requires Copied(m, disks) && m.queue != []
    ensures Copied(Step(m, SendHead), Load(disks, RecordOf(m.queue[0])))
  {
    hide LastFor, Slice, Touches, Load;
    var m' := Step(m, SendHead);
    var b := m.queue[0];
    LoadEffect(m, disks, b.dev, b.c, b.data, b.pad);
    var disks' := Load(disks, RecordOf(b));
    forall b: Blk | ValidBlk(m, b) ensures ValidBlk(m', b) {}
    forall d: nat, c: nat | ValidChunk(m', d, c) ensures ChunkSafe(m', disks', d, c) {
      assert ValidChunk(m, d, c) && ChunkSafe(m, disks, d, c);
      assert WritePending(m, d, c) ==> WritePending(m', d, c);
      LastForAfterHead(m.queue, d, c);
      var q := LastFor(m.queue, d, c);
      assert q > 0 ==> m'.queue[q - 1] == m.queue[q];
    }
  }

  lemma SendDirtyStep(m: Mig, disks: seq<Disk>, e: Event)
    requires Copied(m, disks) && Enabled(m, e) && e.SendDirty?
    ensures var x := m.devs[e.dev];
            Copied(Step(m, e), Load(disks, Record(e.dev, x.curDirty / CHUNK, Slice(x.disk, x.curDirty / CHUNK) + e.pad)))
  {
    hide Slice, Touches, Load;
    var m' := Step(m, e);
    var x := m.devs[e.dev];
    var c0 := x.curDirty / CHUNK;
    LoadEffect(m, disks, e.dev, c0, Slice(x.disk, c0), e.pad);
    var disks' := Load(disks, Record(e.dev, c0, Slice(x.disk, c0) + e.pad));
    ValidCarries(m, m');
    forall d: nat, c: nat | ValidChunk(m', d, c) ensures ChunkSafe(m', disks', d, c) {
      assert ValidChunk(m, d, c) && ChunkSafe(m, disks, d, c);
      assert WritePending(m, d, c) ==> WritePending(m', d, c);
    }
  }

  lemma NothingLoaded(disks: seq<Disk>)
    ensures LoadAll(disks, []) == disks
  {}

  lemma LoadAllAppends(disks: seq<Disk>, rs: seq<Record>, r: Record)
    ensures LoadAll(disks, rs + [r]) == Load(LoadAll(disks, rs), r)
  {
    assert (rs + [r])[..|rs|] == rs;
  }

  // ----- early writes

  lemma WritesAfter(m: Mig, e: Event, d: nat, c: nat)
    requires Possible(m, e) && d < |m.devs|
    ensures EarlyAt(Step(m, e), d, c) ==> EarlyAt(m, d, c)
    ensures WritePending(m, d, c) && ValidChunk(m, d, c) ==> WritePending(Step(m, e), d, c) || c in Step(m, e).devs[d].dirty
  {
    hide Slice, Touches, Overwrite, ValidBlk;
    var m' := Step(m, e);
    if EarlyAt(m', d, c) {
      var k :| 0 <= k < |m'.writes| && !m'.writes[k].tracked && m'.writes[k].dev == d && Touches(m'.writes[k].sector, m'.writes[k].n, c);
      assert m.writes[if e.CompleteWrite? && k >= e.k then k + 1 else k] == m'.writes[k];
    }
    if WritePending(m, d, c) {
      var k :| 0 <= k < |m.writes| && m.writes[k].tracked && m.writes[k].dev == d && Touches(m.writes[k].sector, m.writes[k].n, c);
      if !(e.CompleteWrite? && e.k == k) {
        assert m'.writes[if e.CompleteWrite? && k > e.k then k - 1 else k] == m.writes[k];
      }
    }
  }

  lemma UnreadAfter(m: Mig, e: Event, d: nat, c: nat)
    requires Enabled(m, e) && EarlyAt(m, d, c) && Unread(m, d, c)
    ensures Unread(Step(m, e), d, c)
  {
    hide LastFor, Slice, TouchedChunks, Overwrite, Touches, ValidBlk, EarlyAt;
    var m' := Step(m, e);
    var f := LastFor(m.flight, d, c);
    match e
    case BulkRead(_) =>
      LastForIs(m'.flight, d, c, if IsFor(m'.flight[|m.flight|], d, c) then |m.flight| else f);
    case DirtyRead(_) =>
      LastForIs(m'.flight, d, c, if IsFor(m'.flight[|m.flight|], d, c) then |m.flight| else f);
    case ReadDisk(i, pad) =>
      LastForIs(m'.flight, d, c, f);
    case ReadDone(i) =>
      LastForAfterRemoval(m.flight, i, d, c);
    case _ =>
  }

  /** A chunk stays to be read while an early write may change it: a read takes its contents only afterwards. */
  lemma StepKeepsWaits(m: Mig, e: Event)
    requires Valid(m) && EarlyWaits(m) && Enabled(m, e)
    ensures EarlyWaits(Step(m, e))
  {
    hide LastFor, Slice, TouchedChunks, Overwrite, Touches, ValidBlk, EarlyAt, WritePending, FirstOfItsChunk;
    var m' := Step(m, e);
    forall d: nat, c: nat | ValidChunk(m', d, c) && EarlyAt(m', d, c) ensures ToBeRead(m', d, c) {
      assert ValidChunk(m, d, c) by { SizesAfter(m, e, d); }
      WritesAfter(m, e, d, c);
      assert ToBeRead(m, d, c);
      if Unread(m, d, c) {
        UnreadAfter(m, e, d, c);
      } else if e.BulkRead? || e.DirtyRead? {
        NewReadIsUnread(m, e, d, c);
      }
    }
  }

  lemma SizesAfter(m: Mig, e: Event, d: nat)
    requires Possible(m, e)
    ensures |Step(m, e).devs| == |m.devs| && (d < |m.devs| ==> |Step(m, e).devs[d].disk| == |m.devs[d].disk|)
  {
    hide Slice, TouchedChunks;
  }

  /** A chunk that a submission makes clean or passes has the new read. */
  lemma NewReadIsUnread(m: Mig, e: Event, d: nat, c: nat)
    requires Valid(m) && Possible(m, e) && (e.BulkRead? || e.DirtyRead?) && ValidChunk(m, d, c)
    ensures var m' := Step(m, e);
            || Unread(m', d, c)
            || (m'.devs[d].dirty == m.devs[d].dirty && m'.devs[d].curSector == m.devs[d].curSector)
            || (c in m.devs[d].dirty && c in m'.devs[d].dirty)
            || (c !in m.devs[d].dirty && (Passed(m.devs[d], c) <==> Passed(m'.devs[d], c)))
  {
    hide LastFor;
    var m' := Step(m, e);
    var x := m.devs[e.dev];
    assert x.curSector % CHUNK == 0 || x.curSector == |x.disk|;
    var n := |m.flight|;
    if IsFor(m'.flight[n], d, c) {
      LastForIs(m'.flight, d, c, n);
    }
  }

  /** One step of migration, device or guest keeps the receiver in step. */
  lemma StepInStep(m: Mig, disks0: seq<Disk>, e: Event)
    requires InStep(m, LoadAll(disks0, m.sent)) && Enabled(m, e)
    ensures InStep(Step(m, e), LoadAll(disks0, Step(m, e).sent))
  {
    hide Copied, EarlyWaits, Load, LoadAll, Slice, TouchedChunks, InOrder;
    StepKeepsWaits(m, e) by { CopiedIsValid(m, LoadAll(disks0, m.sent)); }
    var disks := LoadAll(disks0, m.sent);
    match e
    case SubmitWrite(_) => SubmitWriteStep(m, disks, e);
    case Land(_, _, _) => LandStep(m, disks, e);
    case CompleteWrite(_) => CompleteWriteStep(m, disks, e);
    case SyncWrite(_, _, _) => SyncWriteStep(m, disks, e);
    case BulkRead(_) => ReadSteps(m, disks, e);
    case DirtyRead(_) => ReadSteps(m, disks, e);
    case DirtySkip(_) => CursorSteps(m, disks, e);
    case ResetCursors => CursorSteps(m, disks, e);
    case ReadDisk(_, _) => ReadDiskStep(m, disks, e);
    case ReadDone(_) => ReadDoneStep(m, disks, e);
    case SendHead =>
      SendHeadStep(m, disks);
      LoadAllAppends(disks0, m.sent, RecordOf(m.queue[0]));
    case SendDirty(d, pad) =>
      SendDirtyStep(m, disks, e);
      var x := m.devs[d];
      var c := x.curDirty / CHUNK;
      assert ValidChunk(m, d, c) by { CursorChunk(x); }
      LoadAllAppends(disks0, m.sent, Record(d, c, Slice(x.disk, c) + pad));
  }

  lemma CopiedIsValid(m: Mig, disks: seq<Disk>)
    requires Copied(m, disks)
    ensures Valid(m)
  {}

  lemma CursorChunk(x: Dev)
    requires x.curDirty < |x.disk|
    ensures x.curDirty / CHUNK < ChunkCount(|x.disk|)
  {}

  // ----- marks and reads in flight

  /** A chunk marked as being read has a read in flight. */
  ghost predicate Flying(m: Mig) {
    forall d: nat, c: nat | d < |m.devs| && c in m.devs[d].reading :: LastFor(m.flight, d, c) >= 0
  }

  lemma {:induction false} StepKeepsFlying(m: Mig, e: Event)
    requires Flying(m) && Possible(m, e)
    ensures Flying(Step(m, e))
  {
    hide LastFor, Slice, ValidBlk, TouchedChunks, Overwrite;
    var m' := Step(m, e);
    forall d: nat, c: nat | d < |m'.devs| && c in m'.devs[d].reading ensures LastFor(m'.flight, d, c) >= 0 {
      match e {
        case BulkRead(_) => LaterStillFlying(m, m', d, c);
        case DirtyRead(_) => LaterStillFlying(m, m', d, c);
        case ReadDisk(i, pad) =>
          var k := LastFor(m.flight, d, c);
          assert IsFor(m'.flight[k], d, c);
        case ReadDone(i) =>
          var k := LastFor(m.flight, d, c);
          assert k != i;
          assert m'.flight[if k < i then k else k - 1] == m.flight[k];
        case _ =>
      }
    }
  }

  lemma LaterStillFlying(m: Mig, m': Mig, d: nat, c: nat)
    requires m.flight <= m'.flight && |m'.flight| == |m.flight| + 1
    requires LastFor(m.flight, d, c) >= 0 || IsFor(m'.flight[|m.flight|], d, c)
    ensures LastFor(m'.flight, d, c) >= 0
  {
    hide LastFor;
    if LastFor(m.flight, d, c) >= 0 {
      assert IsFor(m'.flight[LastFor(m.flight, d, c)], d, c);
    }
  }

  lemma NothingFlyingNothingRead(m: Mig, d: nat)
    requires Flying(m) && m.flight == [] && d < |m.devs|
    ensures m.devs[d].reading == {}
  {
    assert forall c: nat :: LastFor(m.flight, d, c) == -1;
  }

  // ----- whole runs

  predicate EnabledAll(m: Mig, es: seq<Event>)
    decreases |es|
  {
    es == [] || (Enabled(m, es[0]) && EnabledAll(Step(m, es[0]), es[1..]))
  }

  predicate PossibleAll(m: Mig, es: seq<Event>)
    decreases |es|
  {
    es == [] || (Possible(m, es[0]) && PossibleAll(Step(m, es[0]), es[1..]))
  }

  function Run(m: Mig, es: seq<Event>): Mig
    requires PossibleAll(m, es)
    decreases |es|
  {
    if es == [] then m else Run(Step(m, es[0]), es[1..])
  }

  lemma {:induction false} EnabledIsPossible(m: Mig, es: seq<Event>)
    requires EnabledAll(m, es)
    ensures PossibleAll(m, es)
    decreases |es|
  {
    hide Possible, InOrder, Step;
    if es != [] {
      EnabledIsPossible(Step(m, es[0]), es[1..]);
    }
  }

  lemma {:induction false} RunInStep(m: Mig, disks0: seq<Disk>, es: seq<Event>)
    requires InStep(m, LoadAll(disks0, m.sent)) && EnabledAll(m, es)
    ensures PossibleAll(m, es) && InStep(Run(m, es), LoadAll(disks0, Run(m, es).sent))
    decreases |es|
  {
    hide InStep, LoadAll, Possible, InOrder, Step;
    EnabledIsPossible(m, es);
    if es != [] {
      StepInStep(m, disks0, es[0]);
      RunInStep(Step(m, es[0]), disks0, es[1..]);
    }
  }

  /** Dirty tracking has just been turned on; the early writes are still in flight, and nothing has been read yet. */
  function Start(disks: seq<Disk>, early: seq<Pending>): Mig {
    Mig(seq(|disks|, d requires 0 <= d < |disks| => Dev(disks[d], {}, {}, 0, 0)), [], [], [], early)
  }

  predicate AreEarly(disks: seq<Disk>, early: seq<Pending>) {
    forall k | 0 <= k < |early| ::
      && !early[k].tracked && early[k].n > 0
      && early[k].dev < |disks| && early[k].sector + early[k].n <= |disks[early[k].dev]|
  }

  /** Stage 3 may begin: bulk pass over, every read sent, the guest stopped and its writes reported. */
  ghost predicate ReadyForStage3(m: Mig) {
    && m.flight == [] && m.queue == [] && m.writes == []
    && forall d | 0 <= d < |m.devs| :: m.devs[d].curSector >= |m.devs[d].disk|
  }

  predicate IsStage3(e: Event) { e.SendDirty? || e.DirtySkip? }

  /** The cursors have gone over every device. */
  predicate CursorsDone(m: Mig) {
    forall d | 0 <= d < |m.devs| :: m.devs[d].curDirty >= |m.devs[d].disk|
  }

  ghost predicate CleanBehindCursors(m: Mig) {
    forall d: nat, c: nat | ValidChunk(m, d, c) && c * CHUNK < m.devs[d].curDirty :: c !in m.devs[d].dirty
  }

  lemma {:induction false} Stage3Cleans(m: Mig, disks0: seq<Disk>, es: seq<Event>)
    requires InStep(m, LoadAll(disks0, m.sent)) && ReadyForStage3(m) && CleanBehindCursors(m)
    requires EnabledAll(m, es) && forall i | 0 <= i < |es| :: IsStage3(es[i])
    ensures PossibleAll(m, es)
    ensures var last := Run(m, es);
            && ReadyForStage3(last) && CleanBehindCursors(last) && InStep(last, LoadAll(disks0, last.sent))
            && |last.devs| == |m.devs| && forall d | 0 <= d < |m.devs| :: last.devs[d].disk == m.devs[d].disk
    decreases |es|
  {
    hide InStep, LoadAll, Possible;
    EnabledIsPossible(m, es);
    if es != [] {
      StepInStep(m, disks0, es[0]);
      Stage3Step(m, disks0, es[0]);
      Stage3Cleans(Step(m, es[0]), disks0, es[1..]);
    }
  }

  lemma Stage3Step(m: Mig, disks0: seq<Disk>, e: Event)
    requires InStep(m, LoadAll(disks0, m.sent)) && ReadyForStage3(m) && CleanBehindCursors(m)
    requires Enabled(m, e) && IsStage3(e)
    ensures var m' := Step(m, e);
            && ReadyForStage3(m') && CleanBehindCursors(m')
            && |m'.devs| == |m.devs| && forall d | 0 <= d < |m.devs| :: m'.devs[d].disk == m.devs[d].disk
  {
    hide ChunkSafe, LoadAll;
    var m' := Step(m, e);
    assert m.devs[e.dev].curDirty % CHUNK == 0;
    forall d: nat, c: nat | ValidChunk(m', d, c) && c * CHUNK < m'.devs[d].curDirty ensures c !in m'.devs[d].dirty {
      assert ValidChunk(m, d, c);
      if d == e.dev && e.DirtySkip? && c * CHUNK >= m.devs[d].curDirty {
        assert c == m.devs[d].curDirty / CHUNK;
      }
    }
  }

  /** Two disks with the same chunks are the same. */
  lemma SameChunks(a: Disk, b: Disk)
    requires |a| == |b| && forall c: nat | c < ChunkCount(|a|) :: Slice(a, c) == Slice(b, c)
    ensures a == b
  {
    forall i | 0 <= i < |a| ensures a[i] == b[i] {
      var c := i / CHUNK;
      assert c < ChunkCount(|a|);
      assert a[i] == Slice(a, c)[i - c * CHUNK] == Slice(b, c)[i - c * CHUNK] == b[i];
    }
  }

  lemma StartInStep(disks: seq<Disk>, early: seq<Pending>, disks0: seq<Disk>)
    requires |disks0| == |disks| && forall d | 0 <= d < |disks| :: |disks0[d]| == |disks[d]|
    ensures InStep(Start(disks, early), LoadAll(disks0, []))
  {
    hide CopyGood;
  }

  lemma CleanIsCopied(m: Mig, disks: seq<Disk>)
    requires InStep(m, disks) && ReadyForStage3(m) && CleanBehindCursors(m) && CursorsDone(m)
    ensures |disks| == |m.devs| && forall d | 0 <= d < |m.devs| :: disks[d] == m.devs[d].disk
  {
    forall d | 0 <= d < |m.devs| ensures disks[d] == m.devs[d].disk {
      forall c: nat | c < ChunkCount(|disks[d]|) ensures Slice(disks[d], c) == Slice(m.devs[d].disk, c) {
        assert ValidChunk(m, d, c) && ChunkSafe(m, disks, d, c);
        assert c * CHUNK < |m.devs[d].disk|;
      }
      SameChunks(disks[d], m.devs[d].disk);
    }
  }

  /**
   The theorem: any run of bulk reads, dirty reads, completions, guest writes
   and sends that reaches stage 3 with the bulk pass done and nothing left in
   flight or in the queue, followed by the pass of stage 3 over all devices,
   leaves every destination disk equal to its source.
   */
  lemma MigrationCopiesDisks(disks: seq<Disk>, early: seq<Pending>, disks0: seq<Disk>, es: seq<Event>, es3: seq<Event>)
    requires |disks0| == |disks| && forall d | 0 <= d < |disks| :: |disks0[d]| == |disks[d]|
    requires EnabledAll(Start(disks, early), es) && PossibleAll(Start(disks, early), es)
    requires ReadyForStage3(Run(Start(disks, early), es))
    requires EnabledAll(Step(Run(Start(disks, early), es), ResetCursors), es3) && forall i | 0 <= i < |es3| :: IsStage3(es3[i])
    ensures PossibleAll(Step(Run(Start(disks, early), es), ResetCursors), es3)
    ensures var source := Run(Start(disks, early), es);
            var last := Run(Step(source, ResetCursors), es3);
            CursorsDone(last) ==>
              var end := LoadAll(disks0, last.sent);
              |end| == |source.devs| && forall d | 0 <= d < |end| :: end[d] == source.devs[d].disk
  {
    hide InStep, LoadAll, Possible, InOrder, CursorsDone;
    StartInStep(disks, early, disks0);
    RunInStep(Start(disks, early), disks0, es);
    var source := Run(Start(disks, early), es);
    assert Enabled(source, ResetCursors) by { AlwaysReset(source); }
    StepInStep(source, disks0, ResetCursors);
    var m := Step(source, ResetCursors);
    Stage3Cleans(m, disks0, es3);
    var last := Run(m, es3);
    if CursorsDone(last) {
      CleanIsCopied(last, LoadAll(disks0, last.sent));
    }
  }

  lemma AlwaysReset(m: Mig)
    ensures Enabled(m, ResetCursors)
  {}
}
