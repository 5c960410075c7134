/**
 Live migration of guest RAM over whole runs: the sender's steps, a guest that
 keeps writing, and the proof that the receiver ends up with the same memory.
 */
module RamMigration {
  import opened Basics
  import opened Bits
  import opened RamModel
  import opened RamStream

  /**
   The sending machine.  `flags` is phys_dirty, one byte per page; `log` holds
   the pages dirtied behind its back since the last synchronisation; `last` is
   the page sent last (last_block and last_offset); `sent` is the stream.
   */
  datatype Source = Source(ps: nat, blocks: seq<RamBlock>, mem: Memory, flags: seq<Byte>, log: set<nat>,
                           last: Option<Pos>, sent: seq<Record>)

  ghost predicate ValidSource(s: Source) {
    && s.ps % 64 == 0 && s.ps > 0
    && ValidBlocks(s.blocks)
    && s.ps * Total(s.blocks) + 64 <= TWO_64
    && MemoryFits(s.ps, s.blocks, s.mem)
    && (forall p | ValidPos(s.blocks, p) :: PageNo(s.blocks, p) < |s.flags|)
    && (s.last.Some? ==> ValidPos(s.blocks, s.last.value))
  }

  predicate IsDirty(s: Source, p: Pos)
    requires ValidPos(s.blocks, p) && PageNo(s.blocks, p) < |s.flags|
  {
    Bit(s.flags[PageNo(s.blocks, p)], MIGRATION_BIT)
  }

  function Content(s: Source, p: Pos): Page
    requires ValidSource(s) && ValidPos(s.blocks, p)
  {
    s.mem[s.blocks[p.b].id][p.k]
  }

  // ----- ram_save_block

  /** The first dirty page among n pages in cyclic order from p. */
  function FirstDirty(s: Source, p: Pos, n: nat): (r: Option<Pos>)
    requires ValidSource(s) && ValidPos(s.blocks, p)
    ensures r.Some? ==> ValidPos(s.blocks, r.value) && IsDirty(s, r.value)
    decreases n
  {
    if n == 0 then None
    else if IsDirty(s, p) then Some(p)
    else
      RankOfNext(s.blocks, p);
      FirstDirty(s, Next(s.blocks, p), n - 1)
  }

  function ScanStart(s: Source): (p: Pos)
    requires ValidSource(s)
    ensures ValidPos(s.blocks, p)
  {
    if s.last.Some? then s.last.value else Pos(0, 0)
  }

  function RecordFor(s: Source, p: Pos): Record
    requires ValidSource(s) && ValidPos(s.blocks, p)
  {
    var data := Content(s, p);
    var cont := s.last.Some? && s.last.value.b == p.b;
    var id := s.blocks[p.b].id;
    if IsDup(data) then DupPage(p.k, cont, id, data[0]) else FullPage(p.k, cont, id, data)
  }

  function SendPage(s: Source, p: Pos): Source
    requires ValidSource(s) && ValidPos(s.blocks, p)
  {
    var n := PageNo(s.blocks, p);
    ClearedFlagIsByte(s.flags[n]);
    s.(flags := s.flags[n := ClearBit(s.flags[n], MIGRATION_BIT)], last := Some(p), sent := s.sent + [RecordFor(s, p)])
  }

  lemma ClearedFlagIsByte(x: Byte)
    ensures ClearBit(x, MIGRATION_BIT) < 256
  {
    assert Pow2(8) == 256;
    SetBitFits(x, MIGRATION_BIT, 8);
  }

  function Send(s: Source): Source
    requires ValidSource(s)
  {
    match FirstDirty(s, ScanStart(s), Total(s.blocks))
    case None => s.(last := Some(ScanStart(s)))
    case Some(p) => SendPage(s, p)
  }

  /** How far q lies after p in cyclic scan order. */
  function Distance(blocks: seq<RamBlock>, p: Pos, q: Pos): int
    requires ValidPos(blocks, p) && ValidPos(blocks, q)
  {
    var d := Rank(blocks, q) - Rank(blocks, p);
    if d < 0 then d + Total(blocks) else d
  }

  lemma DistanceFromNext(blocks: seq<RamBlock>, p: Pos, q: Pos)
    requires ValidBlocks(blocks) && ValidPos(blocks, p) && ValidPos(blocks, q)
    ensures ValidPos(blocks, Next(blocks, p))
    ensures 0 <= Distance(blocks, p, q) < Total(blocks)
    ensures Distance(blocks, p, q) == 0 <==> p == q
    ensures p != q ==> Distance(blocks, Next(blocks, p), q) == Distance(blocks, p, q) - 1
  {
    RankOfNext(blocks, p);
    RankBelowTotal(blocks, p);
    RankBelowTotal(blocks, q);
    if Rank(blocks, p) == Rank(blocks, q) {
      RankIsInjective(blocks, p, q);
    }
  }

  /**
   The scan visits the pages in cyclic order: what it returns is dirty, every
   page nearer to the start is clean, and a scan of all pages that returns
   nothing means that no page is dirty.
   */
  lemma {:induction false} ScanIsCyclic(s: Source, p: Pos, n: nat)
    requires ValidSource(s) && ValidPos(s.blocks, p) && n <= Total(s.blocks)
    ensures match FirstDirty(s, p, n)
            case Some(q) =>
              && ValidPos(s.blocks, q) && IsDirty(s, q) && Distance(s.blocks, p, q) < n
              && forall r | ValidPos(s.blocks, r) && Distance(s.blocks, p, r) < Distance(s.blocks, p, q) :: !IsDirty(s, r)
            case None => forall r | ValidPos(s.blocks, r) && Distance(s.blocks, p, r) < n :: !IsDirty(s, r)
    decreases n
  {
    hide Distance, ValidBlocks, MemoryFits, Next;
    DistanceFromNext(s.blocks, p, p);
    forall r | ValidPos(s.blocks, r)
      ensures 0 <= Distance(s.blocks, p, r) < Total(s.blocks) && (Distance(s.blocks, p, r) == 0 <==> p == r)
      ensures p != r ==> Distance(s.blocks, Next(s.blocks, p), r) == Distance(s.blocks, p, r) - 1
    {
      DistanceFromNext(s.blocks, p, r);
    }
    if n > 0 && !IsDirty(s, p) {
      ScanIsCyclic(s, Next(s.blocks, p), n - 1);
    }
  }

  // ----- how many pages are dirty

  /** The pages that ram_save_remaining counts. */
  ghost function DirtyPages(s: Source): set<Pos>
    requires ValidSource(s)
  {
    set b: nat, k: nat | b < |s.blocks| && k < s.blocks[b].pages && IsDirty(s, Pos(b, k)) :: Pos(b, k)
  }

  lemma SendKeepsValid(s: Source)
    requires ValidSource(s)
    ensures ValidSource(Send(s))
    ensures Send(s).blocks == s.blocks && Send(s).ps == s.ps && Send(s).mem == s.mem && Send(s).log == s.log
    ensures |Send(s).flags| == |s.flags|
  {
    hide ValidBlocks, MemoryFits, Total, RecordFor, FirstDirty, ClearBit;
  }

  /** ram_save_block sends a page exactly when one is dirty; it then clears that one flag and no other. */
  lemma SendClearsOne(s: Source)
    requires ValidSource(s)
    ensures ValidSource(Send(s))
    ensures match FirstDirty(s, ScanStart(s), Total(s.blocks))
            case None =>
              DirtyPages(s) == {} && Send(s).flags == s.flags && Send(s).sent == s.sent
            case Some(p) =>
              && p in DirtyPages(s) && DirtyPages(Send(s)) == DirtyPages(s) - {p}
              && |DirtyPages(Send(s))| == |DirtyPages(s)| - 1
              && Send(s).sent == s.sent + [RecordFor(s, p)]
              && forall n | 0 <= n < |s.flags| && n != PageNo(s.blocks, p) :: Send(s).flags[n] == s.flags[n]
  {
    hide Distance, Total, ValidBlocks, MemoryFits, RecordFor, ClearBit, Bit;
    SendKeepsValid(s);
    ScanIsCyclic(s, ScanStart(s), Total(s.blocks));
    match FirstDirty(s, ScanStart(s), Total(s.blocks))
    case None =>
      forall q | ValidPos(s.blocks, q) ensures !IsDirty(s, q) {
        DistanceFromNext(s.blocks, ScanStart(s), q);
      }
    case Some(p) =>
      forall q | ValidPos(s.blocks, q) ensures IsDirty(Send(s), q) == (q != p && IsDirty(s, q)) {
        FlagsAfterSend(s, p, q);
      }
      assert DirtyPages(Send(s)) == DirtyPages(s) - {p};
  }

  lemma FlagsAfterSend(s: Source, p: Pos, q: Pos)
    requires ValidSource(s) && ValidPos(s.blocks, p) && ValidPos(s.blocks, q)
    ensures IsDirty(SendPage(s, p), q) == (q != p && IsDirty(s, q))
  {
    var n := PageNo(s.blocks, p);
    BitOfClearBit(s.flags[n], MIGRATION_BIT, MIGRATION_BIT);
    if PageNo(s.blocks, q) == n {
      DistinctPages(s.blocks, p, q);
    }
  }

  // ----- stage 1

  function Insert(x: RamBlock, xs: seq<RamBlock>): seq<RamBlock> {
    if xs == [] then [x]
    else if x.base <= xs[0].base then [x] + xs
    else [xs[0]] + Insert(x, xs[1..])
  }

  /** sort_ram_list */
  function SortBlocks(xs: seq<RamBlock>): seq<RamBlock> {
    if xs == [] then [] else Insert(xs[0], SortBlocks(xs[1..]))
  }

  /** Page n belongs to one of the blocks. */
  predicate Covered(blocks: seq<RamBlock>, n: nat) {
    exists b | 0 <= b < |blocks| :: blocks[b].base <= n < blocks[b].base + blocks[b].pages
  }

  /** The flags with the migration flag of every page set: set_dirty where it was clear. */
  function AllDirty(blocks: seq<RamBlock>, flags: seq<Byte>): seq<Byte> {
    seq(|flags|, n requires 0 <= n < |flags| =>
      if Covered(blocks, n) && !Bit(flags[n], MIGRATION_BIT) then 0xff else flags[n])
  }

  function EntriesOf(blocks: seq<RamBlock>): seq<(Id, nat)> {
    seq(|blocks|, i requires 0 <= i < |blocks| => (blocks[i].id, blocks[i].pages))
  }

  // ----- steps

  datatype Event =
    | GuestWrite(p: Pos, data: Page, logged: bool)
    | Sync
    | SendOne
    | EndSection

  ghost predicate Possible(s: Source, e: Event) {
    e.GuestWrite? ==> ValidPos(s.blocks, e.p) && |e.data| == s.ps
  }

  /** A guest write marks the page at once, or in a log that the next synchronisation collects. */
  function Write(s: Source, p: Pos, data: Page, logged: bool): Source
    requires ValidSource(s) && ValidPos(s.blocks, p)
  {
    var n := PageNo(s.blocks, p);
    var id := s.blocks[p.b].id;
    var s' := s.(mem := s.mem[id := s.mem[id][p.k := data]]);
    if logged then s'.(log := s.log + {n}) else s'.(flags := s.flags[n := 0xff])
  }

  /** cpu_physical_sync_dirty_bitmap */
  function Synced(s: Source): Source {
    s.(flags := seq(|s.flags|, n requires 0 <= n < |s.flags| => if n in s.log then 0xff else s.flags[n]), log := {})
  }

  function Step(s: Source, e: Event): Source
    requires ValidSource(s) && Possible(s, e)
  {
    match e
    case GuestWrite(p, data, logged) => Write(s, p, data, logged)
    case Sync => Synced(s)
    case SendOne => Send(s)
    case EndSection => s.(sent := s.sent + [Eos])
  }

  lemma StepKeepsValid(s: Source, e: Event)
    requires ValidSource(s) && Possible(s, e)
    ensures ValidSource(Step(s, e))
    ensures Step(s, e).blocks == s.blocks && Step(s, e).ps == s.ps
  {
    hide ValidBlocks, MemoryFits, Total, Send;
    if e.GuestWrite? {
      WriteKeepsMemory(s, e.p, e.data, e.logged);
    } else if e.SendOne? {
      SendKeepsValid(s);
    }
  }

  lemma WriteKeepsMemory(s: Source, p: Pos, data: Page, logged: bool)
    requires ValidSource(s) && ValidPos(s.blocks, p) && |data| == s.ps
    ensures MemoryFits(s.ps, s.blocks, Write(s, p, data, logged).mem)
    ensures forall q | ValidPos(s.blocks, q) && q != p ::
              && s.blocks[q.b].id in Write(s, p, data, logged).mem
              && q.k < |Write(s, p, data, logged).mem[s.blocks[q.b].id]|
              && Write(s, p, data, logged).mem[s.blocks[q.b].id][q.k] == s.mem[s.blocks[q.b].id][q.k]
  {
    var id := s.blocks[p.b].id;
    var mem' := Write(s, p, data, logged).mem;
    assert BlockFits(s.ps, s.mem, s.blocks[p.b]);
    forall b | 0 <= b < |s.blocks| ensures BlockFits(s.ps, mem', s.blocks[b]) {
      assert BlockFits(s.ps, s.mem, s.blocks[b]);
      SameIdSameBlock(s.blocks, b, p.b);
    }
    forall q | ValidPos(s.blocks, q) && q != p
      ensures s.blocks[q.b].id in mem' && q.k < |mem'[s.blocks[q.b].id]|
      ensures mem'[s.blocks[q.b].id][q.k] == s.mem[s.blocks[q.b].id][q.k]
    {
      assert BlockFits(s.ps, s.mem, s.blocks[q.b]) && BlockFits(s.ps, mem', s.blocks[q.b]);
      SameIdSameBlock(s.blocks, q.b, p.b);
    }
  }

  // ----- sender and receiver in step

  /** The receiver has the same blocks, possibly in another order and at other addresses. */
  ghost predicate SameLayout(blocks: seq<RamBlock>, d: Dest) {
    && ValidBlocks(d.blocks) && MemoryFits(d.ps, d.blocks, d.mem)
    && IdsOf(blocks) == IdsOf(d.blocks)
    && forall b | 0 <= b < |blocks| :: Known(d, blocks[b].id, blocks[b].pages)
  }

  ghost predicate SamePage(s: Source, d: Dest, p: Pos)
    requires ValidSource(s) && ValidPos(s.blocks, p)
  {
    var id := s.blocks[p.b].id;
    id in d.mem && p.k < |d.mem[id]| && d.mem[id][p.k] == Content(s, p)
  }

  /** Not yet sent since its last change, or not yet known to have changed. */
  ghost predicate Pending(s: Source, p: Pos)
    requires ValidSource(s) && ValidPos(s.blocks, p)
  {
    IsDirty(s, p) || PageNo(s.blocks, p) in s.log
  }

  /** The invariant of a migration; `d` is the receiver after replaying everything sent so far. */
  ghost predicate InStep(s: Source, d: Dest) {
    && ValidSource(s) && d.ps == s.ps && SameLayout(s.blocks, d)
    && (forall p | ValidPos(s.blocks, p) :: Pending(s, p) || SamePage(s, d, p))
    && (s.last.Some? ==> d.block == Some(s.blocks[s.last.value.b].id))
    && (s.last.None? ==> forall p | ValidPos(s.blocks, p) :: IsDirty(s, p))
  }

  lemma FullFlagsAreDirty()
    ensures Bit(0xff, MIGRATION_BIT)
  {
    assert Bit(255, 3);
  }

  lemma WriteInStep(s: Source, d: Dest, p: Pos, data: Page, logged: bool)
    requires InStep(s, d) && ValidPos(s.blocks, p) && |data| == s.ps
    ensures InStep(Write(s, p, data, logged), d)
  {
    hide Bit, SameLayout, ValidBlocks, MemoryFits;
    var e := GuestWrite(p, data, logged);
    StepKeepsValid(s, e);
    WriteKeepsMemory(s, p, data, logged);
    FullFlagsAreDirty();
    var s' := Write(s, p, data, logged);
    forall q | ValidPos(s.blocks, q) ensures Pending(s', q) || SamePage(s', d, q) {
      assert Pending(s, q) || SamePage(s, d, q);
      assert q != p ==> Content(s', q) == Content(s, q);
    }
  }

  lemma SyncInStep(s: Source, d: Dest)
    requires InStep(s, d)
    ensures InStep(Synced(s), d)
  {
    hide Bit, SameLayout, ValidBlocks, MemoryFits;
    StepKeepsValid(s, Sync);
    FullFlagsAreDirty();
    var s' := Synced(s);
    forall q | ValidPos(s.blocks, q) ensures Pending(s', q) || SamePage(s', d, q) {
      assert Pending(s, q) || SamePage(s, d, q);
      assert Content(s', q) == Content(s, q);
    }
  }

  /** The receiver stores the page that was sent, in the block the sender meant. */
  lemma PageArrives(s: Source, d: Dest, p: Pos)
    requires InStep(s, d) && ValidPos(s.blocks, p)
    ensures var id := s.blocks[p.b].id;
            && id in d.mem && p.k < |d.mem[id]|
            && Apply(d, RecordFor(s, p)) == Ok(d.(mem := d.mem[id := d.mem[id][p.k := Content(s, p)]], block := Some(id)))
  {
    var x := s.blocks[p.b];
    var data := Content(s, p);
    assert BlockFits(s.ps, s.mem, x);
    if IsDup(data) {
      DupIsFilled(data);
    }
    assert Known(d, x.id, x.pages);
    FindBlockFinds(d.blocks, x.id);
    assert BlockFits(d.ps, d.mem, d.blocks[FindBlock(d.blocks, x.id).value]);
  }

  lemma LayoutAfterStore(blocks: seq<RamBlock>, d: Dest, id: Id, k: nat, data: Page, block: Option<Id>)
    requires SameLayout(blocks, d) && id in d.mem && k < |d.mem[id]| && |data| == d.ps
    ensures SameLayout(blocks, d.(mem := d.mem[id := d.mem[id][k := data]], block := block))
  {
    hide Known, FindBlock;
    var d' := d.(mem := d.mem[id := d.mem[id][k := data]], block := block);
    forall b | 0 <= b < |d.blocks| ensures BlockFits(d.ps, d'.mem, d.blocks[b]) {
      assert BlockFits(d.ps, d.mem, d.blocks[b]);
    }
    forall b | 0 <= b < |blocks| ensures Known(d', blocks[b].id, blocks[b].pages) {
      SameBlocksSameKnown(d, d', blocks[b].id, blocks[b].pages);
    }
  }

  lemma SameBlocksSameKnown(d: Dest, d': Dest, id: Id, pages: nat)
    requires d'.blocks == d.blocks
    ensures Known(d', id, pages) == Known(d, id, pages)
  {}

  lemma FirstPageFound(s: Source)
    requires ValidSource(s) && s.last.None? && IsDirty(s, Pos(0, 0))
    ensures FirstDirty(s, ScanStart(s), Total(s.blocks)) == Some(Pos(0, 0))
  {
    RankBelowTotal(s.blocks, Pos(0, 0));
  }

  lemma SendPageInStep(s: Source, d: Dest, p: Pos)
    requires InStep(s, d) && ValidPos(s.blocks, p)
    requires Send(s) == SendPage(s, p)
    ensures Apply(d, RecordFor(s, p)).Ok? && InStep(Send(s), Apply(d, RecordFor(s, p)).value)
  {
    hide RecordFor, Apply, SameLayout, ValidBlocks, MemoryFits, IsDirty;
    SendKeepsValid(s);
    PageArrives(s, d, p);
    var s' := SendPage(s, p);
    var d' := Apply(d, RecordFor(s, p)).value;
    var id := s.blocks[p.b].id;
    ContentIsAPage(s, p);
    LayoutAfterStore(s.blocks, d, id, p.k, Content(s, p), Some(id));
    forall q | ValidPos(s.blocks, q) ensures Pending(s', q) || SamePage(s', d', q) {
      FlagsAfterSend(s, p, q);
      assert Pending(s, q) || SamePage(s, d, q);
      SameIdSameBlock(s.blocks, p.b, q.b);
    }
  }

  lemma ContentIsAPage(s: Source, p: Pos)
    requires ValidSource(s) && ValidPos(s.blocks, p)
    ensures s.blocks[p.b].id in s.mem && p.k < |s.mem[s.blocks[p.b].id]|
    ensures |Content(s, p)| == s.ps
  {
    assert BlockFits(s.ps, s.mem, s.blocks[p.b]);
  }

  lemma SameIdSameBlock(blocks: seq<RamBlock>, b: nat, c: nat)
    requires ValidBlocks(blocks) && b < |blocks| && c < |blocks|
    ensures blocks[b].id == blocks[c].id <==> b == c
  {
    assert b < c ==> Compatible(blocks[b], blocks[c]);
    assert c < b ==> Compatible(blocks[c], blocks[b]);
  }

  lemma SendInStep(s: Source, d: Dest)
    requires InStep(s, d)
    ensures match FirstDirty(s, ScanStart(s), Total(s.blocks))
            case None => InStep(Send(s), d) && Send(s).sent == s.sent
            case Some(p) => Apply(d, RecordFor(s, p)).Ok? && InStep(Send(s), Apply(d, RecordFor(s, p)).value)
  {
    hide RecordFor, Apply, SameLayout, ValidBlocks, MemoryFits, IsDirty, FirstDirty;
    match FirstDirty(s, ScanStart(s), Total(s.blocks))
    case Some(p) => SendPageInStep(s, d, p);
    case None =>
      if s.last.None? {
        AtLeastOnePage(s.blocks);
        FirstPageFound(s);
      }
  }

  lemma AtLeastOnePage(blocks: seq<RamBlock>)
    requires ValidBlocks(blocks)
    ensures ValidPos(blocks, Pos(0, 0))
  {}

  // ----- starting a migration

  function Started(s: Source): Source
    requires ValidSource(s)
  {
    var s1 := Synced(s);
    var blocks := SortBlocks(s.blocks);
    s1.(blocks := blocks, flags := AllDirty(blocks, s1.flags), last := None, sent := [Header(EntriesOf(blocks))])
  }

  ghost predicate Sorted(xs: seq<RamBlock>) {
    forall b, c | 0 <= b < c < |xs| :: xs[b].base <= xs[c].base
  }

  lemma {:induction false} InsertAdds(x: RamBlock, xs: seq<RamBlock>)
    ensures multiset(Insert(x, xs)) == multiset{x} + multiset(xs)
    ensures Total(Insert(x, xs)) == x.pages + Total(xs)
  {
    TotalOfCons(x, xs);
    if xs == [] {
      assert [x] + xs == [x];
    } else if x.base > xs[0].base {
      InsertAdds(x, xs[1..]);
      assert xs == [xs[0]] + xs[1..];
      TotalOfCons(xs[0], xs[1..]);
      TotalOfCons(xs[0], Insert(x, xs[1..]));
    }
  }

  lemma InsertedIsEither(x: RamBlock, xs: seq<RamBlock>, y: RamBlock)
    ensures y in Insert(x, xs) <==> y == x || y in xs
  {
    InsertAdds(x, xs);
    assert y in Insert(x, xs) <==> y in multiset(Insert(x, xs));
    assert y in xs <==> y in multiset(xs);
  }

  lemma {:induction false} InsertKeeps(x: RamBlock, xs: seq<RamBlock>)
    requires AllCompatible(xs) && Sorted(xs) && forall y | y in xs :: Compatible(x, y)
    ensures AllCompatible(Insert(x, xs)) && Sorted(Insert(x, xs))
  {
    hide Total;
    if xs != [] && x.base > xs[0].base {
      hide Insert;
      InsertKeeps(x, xs[1..]);
      var rest := Insert(x, xs[1..]);
      forall i | 0 <= i < |rest| ensures Compatible(xs[0], rest[i]) && xs[0].base <= rest[i].base {
        InsertedIsEither(x, xs[1..], rest[i]);
        if rest[i] == x {
          assert Compatible(x, xs[0]);
        } else {
          var j :| 0 <= j < |xs[1..]| && xs[1..][j] == rest[i];
          assert Compatible(xs[0], xs[j + 1]);
        }
      }
      ConsKeeps(xs[0], rest);
      InsertStep(x, xs);
    }
  }

  lemma ConsKeeps(x: RamBlock, xs: seq<RamBlock>)
    requires AllCompatible(xs) && Sorted(xs)
    requires forall i | 0 <= i < |xs| :: Compatible(x, xs[i]) && x.base <= xs[i].base
    ensures AllCompatible([x] + xs) && Sorted([x] + xs)
  {
    hide Compatible;
  }

  lemma InsertStep(x: RamBlock, xs: seq<RamBlock>)
    requires xs != [] && x.base > xs[0].base
    ensures Insert(x, xs) == [xs[0]] + Insert(x, xs[1..])
  {}

  /** Sorting permutes the blocks and orders them by address. */
  lemma {:induction false} SortKeeps(xs: seq<RamBlock>)
    requires AllCompatible(xs)
    ensures AllCompatible(SortBlocks(xs)) && Sorted(SortBlocks(xs))
    ensures forall y :: y in SortBlocks(xs) <==> y in xs
    ensures Total(SortBlocks(xs)) == Total(xs)
    ensures multiset(SortBlocks(xs)) == multiset(xs)
  {
    if xs != [] {
      SortKeeps(xs[1..]);
      var rest := SortBlocks(xs[1..]);
      forall y | y in rest ensures Compatible(xs[0], y) {
        var j :| 0 <= j < |xs[1..]| && xs[1..][j] == y;
        assert Compatible(xs[0], xs[j + 1]);
      }
      InsertKeeps(xs[0], rest);
      InsertAdds(xs[0], rest);
      forall y ensures y in SortBlocks(xs) <==> y in xs {
        InsertedIsEither(xs[0], rest, y);
      }
      assert xs == [xs[0]] + xs[1..];
      TotalOfCons(xs[0], xs[1..]);
    }
  }

  /** Same blocks in another order: still a valid list, for the same memory and the same receiver. */
  lemma SortedLayout(s: Source, d: Dest)
    requires ValidSource(s) && SameLayout(s.blocks, d)
    ensures ValidBlocks(SortBlocks(s.blocks)) && Total(SortBlocks(s.blocks)) == Total(s.blocks)
    ensures MemoryFits(s.ps, SortBlocks(s.blocks), s.mem)
    ensures SameLayout(SortBlocks(s.blocks), d)
    ensures forall b | 0 <= b < |SortBlocks(s.blocks)| :: SortBlocks(s.blocks)[b] in s.blocks
  {
    hide Known, BlockFits, Compatible, Total;
    var blocks := SortBlocks(s.blocks);
    SortKeeps(s.blocks);
    assert s.blocks[0] in blocks;
    forall b | 0 <= b < |blocks|
      ensures blocks[b] in s.blocks && blocks[b].pages > 0 && |blocks[b].id| < 256 && BlockFits(s.ps, s.mem, blocks[b])
      ensures Known(d, blocks[b].id, blocks[b].pages) && blocks[b].id in IdsOf(s.blocks)
    {
      assert blocks[b] in blocks;
      var c :| 0 <= c < |s.blocks| && s.blocks[c] == blocks[b];
    }
    forall id | id in IdsOf(s.blocks) ensures id in IdsOf(blocks) {
      var c :| 0 <= c < |s.blocks| && s.blocks[c].id == id;
      assert s.blocks[c] in blocks;
      var b :| 0 <= b < |blocks| && blocks[b] == s.blocks[c];
    }
    assert IdsOf(blocks) == IdsOf(s.blocks);
  }

  /** After stage 1 has begun every page is dirty and the header is accepted. */
  lemma StartedInStep(s: Source, d: Dest)
    requires ValidSource(s) && d.ps == s.ps && SameLayout(s.blocks, d)
    ensures InStep(Started(s), d)
    ensures Apply(d, Started(s).sent[0]) == Ok(d)
    ensures forall p | ValidPos(Started(s).blocks, p) :: IsDirty(Started(s), p)
  {
    hide Bit, SameLayout, ValidBlocks, MemoryFits, Total, SortBlocks;
    var s' := Started(s);
    SortedLayout(s, d);
    FullFlagsAreDirty();
    forall p | ValidPos(s'.blocks, p)
      ensures PageNo(s'.blocks, p) < |s'.flags| && Bit(s'.flags[PageNo(s'.blocks, p)], MIGRATION_BIT)
    {
      var b :| 0 <= b < |s.blocks| && s.blocks[b] == s'.blocks[p.b];
      assert ValidPos(s.blocks, Pos(b, p.k)) && PageNo(s.blocks, Pos(b, p.k)) == PageNo(s'.blocks, p);
      assert Covered(s'.blocks, PageNo(s'.blocks, p));
    }
    HeaderAccepted(s'.blocks, d);
  }

  lemma HeaderAccepted(blocks: seq<RamBlock>, d: Dest)
    requires SameLayout(blocks, d)
    ensures Apply(d, Header(EntriesOf(blocks))) == Ok(d)
  {
    hide Known;
  }

  // ----- whole runs

  ghost predicate PossibleRun(s: Source, es: seq<Event>) {
    forall i | 0 <= i < |es| :: Possible(s, es[i])
  }

  ghost function Run(s: Source, es: seq<Event>): Source
    requires ValidSource(s) && PossibleRun(s, es)
    decreases |es|
  {
    if es == [] then s
    else
      StepKeepsValid(s, es[0]);
      Run(Step(s, es[0]), es[1..])
  }

  /** Stage 3 after its synchronisation: ram_save_block until it has nothing left to send. */
  ghost function SendAll(s: Source): Source
    requires ValidSource(s)
    decreases |DirtyPages(s)|
  {
    SendClearsOne(s);
    if FirstDirty(s, ScanStart(s), Total(s.blocks)).None? then Send(s) else SendAll(Send(s))
  }

  ghost function Finished(s: Source): Source
    requires ValidSource(s)
  {
    StepKeepsValid(s, Sync);
    var s' := SendAll(Synced(s));
    s'.(sent := s'.sent + [Eos])
  }

  lemma {:induction false} ApplyAllAppends(d: Dest, rs: seq<Record>, r: Record)
    ensures ApplyAll(d, rs + [r])
         == match ApplyAll(d, rs)
            case Err(why) => Err(why)
            case Ok(d') => Apply(d', r)
    decreases |rs|
  {
    hide Apply;
    if rs == [] {
      assert rs + [r] == [r] && [r][1..] == [];
    } else {
      assert (rs + [r])[0] == rs[0] && (rs + [r])[1..] == rs[1..] + [r];
      if Apply(d, rs[0]).Ok? {
        ApplyAllAppends(Apply(d, rs[0]).value, rs[1..], r);
      }
    }
  }

  /** What the receiver can replay so far is in step with the sender, and every record has a byte form. */
  ghost predicate Tracks(s: Source, d0: Dest) {
    && ValidSource(s) && ValidRecords(s.ps, s.sent)
    && ApplyAll(d0, s.sent).Ok?
    && InStep(s, ApplyAll(d0, s.sent).value)
  }

  lemma RecordsFit(s: Source, p: Pos)
    requires ValidSource(s) && ValidPos(s.blocks, p)
    ensures ValidRecord(s.ps, RecordFor(s, p))
  {
    hide Total, MemoryFits, AllCompatible, Content;
    RankBelowTotal(s.blocks, p);
    ContentIsAPage(s, p);
    OffsetFits(s.ps, p.k, Total(s.blocks));
  }

  lemma OffsetFits(ps: nat, k: nat, n: nat)
    requires k < n && ps * n + 64 <= TWO_64
    ensures ps * k + 64 <= TWO_64
  {
    assert ps * k <= ps * n;
  }

  lemma SendTracks(s: Source, d0: Dest)
    requires Tracks(s, d0)
    ensures Tracks(Send(s), d0)
  {
    hide RecordFor, Apply, InStep, FirstDirty, Total, ApplyAll;
    var d := ApplyAll(d0, s.sent).value;
    InStepIsValid(s, d);
    SendKeepsValid(s);
    SendInStep(s, d);
    match FirstDirty(s, ScanStart(s), Total(s.blocks))
    case None =>
    case Some(p) =>
      RecordsFit(s, p);
      ApplyAllAppends(d0, s.sent, RecordFor(s, p));
  }

  lemma InStepIsValid(s: Source, d: Dest)
    requires InStep(s, d)
    ensures ValidSource(s)
  {}

  /** One step of sender, guest or synchronisation keeps the two machines in step. */
  lemma StepTracks(s: Source, d0: Dest, e: Event)
    requires Tracks(s, d0) && Possible(s, e)
    ensures Tracks(Step(s, e), d0)
  {
    hide Send, Write, Synced, ApplyAll, SameLayout;
    var d := ApplyAll(d0, s.sent).value;
    StepKeepsValid(s, e);
    match e
    case GuestWrite(p, data, logged) =>
      WriteInStep(s, d, p, data, logged);
      WriteSendsNothing(s, p, data, logged);
    case Sync =>
      SyncInStep(s, d);
      WriteSendsNothing(s, ScanStart(s), [], true);
    case SendOne =>
      SendTracks(s, d0);
    case EndSection =>
      ApplyAllAppends(d0, s.sent, Eos);
      EosInStep(s, d);
  }

  lemma WriteSendsNothing(s: Source, p: Pos, data: Page, logged: bool)
    requires ValidSource(s) && ValidPos(s.blocks, p)
    ensures Write(s, p, data, logged).sent == s.sent && Synced(s).sent == s.sent
  {}

  lemma EosInStep(s: Source, d: Dest)
    requires InStep(s, d)
    ensures InStep(s.(sent := s.sent + [Eos]), d)
  {
    hide SameLayout, ValidBlocks, MemoryFits;
    var s' := s.(sent := s.sent + [Eos]);
    forall q | ValidPos(s.blocks, q) ensures Pending(s', q) || SamePage(s', d, q) {
      assert Pending(s, q) || SamePage(s, d, q);
    }
  }

  lemma {:induction false} RunTracks(s: Source, d0: Dest, es: seq<Event>)
    requires Tracks(s, d0) && PossibleRun(s, es)
    ensures Tracks(Run(s, es), d0)
    ensures Run(s, es).blocks == s.blocks && Run(s, es).ps == s.ps
    decreases |es|
  {
    hide Tracks, Step, Possible;
    if es != [] {
      TracksIsValid(s, d0);
      StepKeepsValid(s, es[0]);
      StepTracks(s, d0, es[0]);
      SamePossible(s, Step(s, es[0]), es);
      RunTracks(Step(s, es[0]), d0, es[1..]);
    } else {
      TracksIsValid(s, d0);
    }
  }

  lemma SamePossible(s: Source, s': Source, es: seq<Event>)
    requires s'.blocks == s.blocks && s'.ps == s.ps && PossibleRun(s, es) && es != []
    ensures PossibleRun(s', es[1..])
  {}

  lemma TracksIsValid(s: Source, d0: Dest)
    requires Tracks(s, d0)
    ensures ValidSource(s)
  {}

  /** The final loop ends with no dirty page; memory and log are left alone. */
  lemma {:induction false} SendAllDrains(s: Source, d0: Dest)
    requires Tracks(s, d0)
    ensures Tracks(SendAll(s), d0)
    ensures DirtyPages(SendAll(s)) == {}
    ensures SendAll(s).mem == s.mem && SendAll(s).log == s.log && SendAll(s).ps == s.ps && SendAll(s).blocks == s.blocks
    decreases |DirtyPages(s)|
  {
    hide Tracks, Send, FirstDirty, Total;
    TracksIsValid(s, d0);
    SendClearsOne(s);
    SendKeepsValid(s);
    SendTracks(s, d0);
    if FirstDirty(s, ScanStart(s), Total(s.blocks)).None? {
      SameFlagsSameDirty(s, Send(s));
    } else {
      SendAllDrains(Send(s), d0);
    }
  }

  lemma SameFlagsSameDirty(s: Source, s': Source)
    requires ValidSource(s) && ValidSource(s') && s'.flags == s.flags && s'.blocks == s.blocks
    ensures DirtyPages(s') == DirtyPages(s)
  {
    forall p | ValidPos(s.blocks, p) ensures IsDirty(s', p) == IsDirty(s, p) {}
  }

  /** Nothing dirty and nothing logged: the receiver's memory is the sender's. */
  lemma InStepAndClean(s: Source, d: Dest)
    requires InStep(s, d) && DirtyPages(s) == {} && s.log == {}
    ensures d.mem == s.mem
  {
    hide Bit, ValidBlocks, Total;
    forall p | ValidPos(s.blocks, p) ensures SamePage(s, d, p) {
      assert p !in DirtyPages(s);
      assert Pending(s, p) || SamePage(s, d, p);
    }
    forall id | id in s.mem ensures id in d.mem && d.mem[id] == s.mem[id] {
      var b :| 0 <= b < |s.blocks| && s.blocks[b].id == id;
      var x := s.blocks[b];
      assert BlockFits(s.ps, s.mem, x) && Known(d, x.id, x.pages);
      FindBlockFinds(d.blocks, x.id);
      assert BlockFits(d.ps, d.mem, d.blocks[FindBlock(d.blocks, x.id).value]);
      assert |d.mem[id]| == |s.mem[id]|;
      forall k | 0 <= k < |s.mem[id]| ensures d.mem[id][k] == s.mem[id][k] {
        assert SamePage(s, d, Pos(b, k));
      }
    }
    assert d.mem.Keys == s.mem.Keys;
  }

  /** Nothing has been sent but the header, and the receiver accepts it. */
  lemma StartedTracks(s: Source, d0: Dest)
    requires ValidSource(s) && d0.ps == s.ps && SameLayout(s.blocks, d0)
    ensures Tracks(Started(s), d0)
  {
    hide InStep, SameLayout, Started, ValidRecord, Apply, ValidSource;
    StartedInStep(s, d0);
    StartedSendsHeader(s);
    InStepIsValid(Started(s), d0);
    HeaderFits(Started(s));
    ApplyAllAppends(d0, [], Started(s).sent[0]);
    assert [] + [Started(s).sent[0]] == Started(s).sent;
  }

  lemma StartedSendsHeader(s: Source)
    requires ValidSource(s)
    ensures Started(s).ps == s.ps && Started(s).mem == s.mem
    ensures Started(s).sent == [Header(EntriesOf(Started(s).blocks))]
  {}

  lemma HeaderFits(s: Source)
    requires ValidSource(s)
    ensures ValidRecord(s.ps, Header(EntriesOf(s.blocks)))
  {
    hide Total, MemoryFits, AllCompatible, PagesOf;
    PagesOfEntries(s.blocks);
    assert ValidEntries(EntriesOf(s.blocks));
  }

  lemma {:induction false} PagesOfEntries(blocks: seq<RamBlock>)
    ensures PagesOf(EntriesOf(blocks)) == Total(blocks)
  {
    if blocks != [] {
      PagesOfEntries(blocks[1..]);
      assert EntriesOf(blocks)[1..] == EntriesOf(blocks[1..]);
      assert blocks == [blocks[0]] + blocks[1..];
      TotalOfCons(blocks[0], blocks[1..]);
    }
  }

  /**
   The theorem: start a migration in any valid state, let sender, guest and
   synchronisation take any steps in any order, then run stage 3 with the guest
   stopped.  Replaying the bytes that were sent succeeds, and leaves the
   receiver with exactly the sender's memory.
   */
  lemma MigrationCopiesMemory(s: Source, d0: Dest, es: seq<Event>)
    requires ValidSource(s) && d0.ps == s.ps && SameLayout(s.blocks, d0)
    requires PossibleRun(Started(s), es)
    ensures ValidSource(Started(s)) && ValidSource(Run(Started(s), es))
    ensures var last := Finished(Run(Started(s), es));
            && ValidRecords(s.ps, last.sent)
            && var end := Replay(d0, EncodeAll(s.ps, last.sent));
            && end.Ok? && end.value.mem == last.mem == Run(Started(s), es).mem
  {
    hide InStep, Started, Step, SendAll, ApplyAll, Replay, SameLayout;
    StartedTracks(s, d0);
    TracksIsValid(Started(s), d0);
    StartedSendsHeader(s);
    RunTracks(Started(s), d0, es);
    var s1 := Run(Started(s), es);
    TracksIsValid(s1, d0);
    FinishedCopies(s1, d0);
    StreamReadBack(d0, Finished(s1).sent);
  }

  lemma FinishedCopies(s: Source, d0: Dest)
    requires Tracks(s, d0)
    ensures ValidRecords(s.ps, Finished(s).sent)
    ensures Finished(s).sent != [] && Finished(s).sent[|Finished(s).sent| - 1] == Eos
    ensures Finished(s).mem == s.mem
    ensures ApplyAll(d0, Finished(s).sent).Ok? && ApplyAll(d0, Finished(s).sent).value.mem == s.mem
  {
    hide SendAll, InStep, ApplyAll, DirtyPages;
    StepTracks(s, d0, Sync);
    var s1 := Synced(s);
    SendAllDrains(s1, d0);
    var s2 := SendAll(s1);
    ApplyAllAppends(d0, s2.sent, Eos);
    InStepAndClean(s2, ApplyAll(d0, s2.sent).value);
  }

  /** Whenever a record says "same block as last time", the block the receiver remembers is the one the sender means. */
  lemma ContinueNamesTheSameBlock(s: Source, d0: Dest, es: seq<Event>, p: Pos)
    requires ValidSource(s) && d0.ps == s.ps && SameLayout(s.blocks, d0)
    requires PossibleRun(Started(s), es)
    ensures ValidSource(Started(s)) && ValidSource(Run(Started(s), es))
    ensures var s' := Run(Started(s), es);
            var d := ApplyAll(d0, s'.sent);
            && d.Ok?
            && (ValidPos(s'.blocks, p) && (RecordFor(s', p).DupPage? || RecordFor(s', p).FullPage?) && RecordFor(s', p).cont
                ==> d.value.block == Some(s'.blocks[p.b].id))
  {
    hide Started, Step, ApplyAll, SameLayout;
    StartedTracks(s, d0);
    TracksIsValid(Started(s), d0);
    RunTracks(Started(s), d0, es);
  }

  /**
   The same for any run, however it was scheduled: if it ends a section with no
   dirty page and an empty log, its bytes carry the whole memory.
   */
  lemma CleanRunCopiesMemory(s: Source, d0: Dest, es: seq<Event>)
    requires ValidSource(s) && d0.ps == s.ps && SameLayout(s.blocks, d0)
    requires PossibleRun(Started(s), es) && ValidSource(Started(s))
    requires var last := Run(Started(s), es);
             && last.log == {} && last.sent != [] && last.sent[|last.sent| - 1].Eos?
             && ValidSource(last) && DirtyPages(last) == {}
    ensures var last := Run(Started(s), es);
            && ValidRecords(s.ps, last.sent)
            && var end := Replay(d0, EncodeAll(s.ps, last.sent));
            && end.Ok? && end.value.mem == last.mem
  {
    hide InStep, Started, Step, DirtyPages, ApplyAll, Replay, SameLayout;
    StartedTracks(s, d0);
    StartedSendsHeader(s);
    RunTracks(Started(s), d0, es);
    var last := Run(Started(s), es);
    InStepAndClean(last, ApplyAll(d0, last.sent).value);
    StreamReadBack(d0, last.sent);
  }

  lemma {:induction false} RunAppends(s: Source, es: seq<Event>, e: Event)
    requires ValidSource(s) && PossibleRun(s, es) && Possible(s, e)
    ensures PossibleRun(s, es + [e]) && ValidSource(Run(s, es)) && Possible(Run(s, es), e)
    ensures Run(s, es + [e]) == Step(Run(s, es), e)
    decreases |es|
  {
    hide Step, ValidSource, Possible;
    if es == [] {
      assert es + [e] == [e] && [e][1..] == [];
      StepKeepsValid(s, e);
    } else {
      StepKeepsValid(s, es[0]);
      SamePossible(s, Step(s, es[0]), es);
      SamePossible(s, Step(s, es[0]), [es[0], e]);
      assert [es[0], e][1..][0] == e;
      RunAppends(Step(s, es[0]), es[1..], e);
      assert (es + [e])[1..] == es[1..] + [e];
    }
  }

  /**
   The assumptions of the theorems can be met: one page is sent, written behind
   the sender's back, collected and sent again, and the section ends clean.
   */
  lemma SomeMigration(page: Page, other: Page, stale: Page) returns (s: Source, d0: Dest, es: seq<Event>)
    requires |page| == |other| == |stale| == 64
    ensures ValidSource(s) && d0.ps == s.ps && SameLayout(s.blocks, d0) && PossibleRun(Started(s), es)
    ensures s.mem[s.blocks[0].id] == [page] && GuestWrite(Pos(0, 0), other, true) in es
    ensures ValidSource(Started(s))
    ensures var last := Run(Started(s), es);
            && last.log == {} && last.sent != [] && last.sent[|last.sent| - 1].Eos?
            && ValidSource(last) && DirtyPages(last) == {}
  {
    hide Step, Run, Started, SameLayout, ValidSource, DirtyPages;
    s, d0 := OnePageMachines(page, stale);
    StartedInStep(s, d0);
    InStepIsValid(Started(s), d0);
    OnePageStarted(s);
    var begun := [SendOne, GuestWrite(Pos(0, 0), other, true)];
    es := begun + [Sync] + [SendOne] + [EndSection];
    assert es[1] == GuestWrite(Pos(0, 0), other, true);
    OnePageEndsClean(Started(s), begun);
  }

  /** A sender and a receiver with one block of one page. */
  lemma OnePageMachines(page: Page, stale: Page) returns (s: Source, d0: Dest)
    requires |page| == |stale| == 64
    ensures ValidSource(s) && s.ps == d0.ps == 64 && SameLayout(s.blocks, d0)
    ensures |s.blocks| == 1 && s.blocks[0].pages == 1
    ensures s.blocks[0].id in s.mem && s.mem[s.blocks[0].id] == [page]
  {
    var block := RamBlock([1], 0, 1);
    var blocks := [block];
    s := Source(64, blocks, map[block.id := [page]], [0], {}, None, []);
    d0 := Dest(64, blocks, map[block.id := [stale]], None);
    OneBlock(block);
    assert BlockFits(64, s.mem, block) && BlockFits(64, d0.mem, block);
    assert IdsOf(blocks) == {block.id};
    assert Known(d0, block.id, 1);
  }

  lemma OnePageStarted(s: Source)
    requires ValidSource(s) && |s.blocks| == 1 && s.blocks[0].pages == 1
    ensures Started(s).blocks == s.blocks && Started(s).ps == s.ps
  {
    OneBlock(s.blocks[0]);
    assert s.blocks == [s.blocks[0]];
  }

  /** With a single page, collecting the log, sending one page and ending the section leaves nothing behind. */
  lemma OnePageEndsClean(s: Source, es: seq<Event>)
    requires ValidSource(s) && |s.blocks| == 1 && s.blocks[0].pages == 1 && PossibleRun(s, es)
    ensures PossibleRun(s, es + [Sync] + [SendOne] + [EndSection])
    ensures var last := Run(s, es + [Sync] + [SendOne] + [EndSection]);
            && last.log == {} && last.sent != [] && last.sent[|last.sent| - 1].Eos?
            && ValidSource(last) && DirtyPages(last) == {}
  {
    hide Run, ValidBlocks, MemoryFits, Total, FirstDirty, RecordFor, IsDirty;
    RunAppends(s, es, Sync);
    RunAppends(s, es + [Sync], SendOne);
    RunAppends(s, es + [Sync] + [SendOne], EndSection);
    RunKeepsBlocks(s, es);
    var s1 := Run(s, es + [Sync]);
    var s2 := Send(s1);
    StepKeepsValid(Run(s, es), Sync);
    SendKeepsValid(s1);
    SendClearsOne(s1);
    assert forall p | p in DirtyPages(s1) :: p == Pos(0, 0);
    if FirstDirty(s1, ScanStart(s1), Total(s1.blocks)).None? {
      SameFlagsSameDirty(s1, s2);
    }
    assert DirtyPages(s2) == {};
    StepKeepsValid(s2, EndSection);
    SameFlagsSameDirty(s2, Step(s2, EndSection));
  }

  lemma {:induction false} RunKeepsBlocks(s: Source, es: seq<Event>)
    requires ValidSource(s) && PossibleRun(s, es)
    ensures ValidSource(Run(s, es)) && Run(s, es).blocks == s.blocks && Run(s, es).ps == s.ps
    decreases |es|
  {
    hide Step, ValidSource, Possible;
    if es != [] {
      StepKeepsValid(s, es[0]);
      SamePossible(s, Step(s, es[0]), es);
      RunKeepsBlocks(Step(s, es[0]), es[1..]);
    }
  }

  lemma OneBlock(block: RamBlock)
    requires block.pages == 1 && |block.id| < 256
    ensures ValidBlocks([block]) && Total([block]) == 1 && SortBlocks([block]) == [block]
  {
    assert [block][1..] == [] && [block][..0] == [];
  }
}
