/**
 RAM migration with the guest running inside ram_save_block: the page's flag is
 cleared first and the page copied later, while the guest may store into it;
 and any access may move a block to the front of the list.
 */
module RamTearing {
  import opened Basics
  import opened Bits
  import opened RamModel
  import opened RamStream
  import opened RamMigration
  import opened RamReceiver

  /** The page that has been picked but not yet put on the stream, and whether the guest has stored into it since. */
  datatype Hand = Free | Holding(p: Pos, touched: bool)

  datatype Fine = Fine(s: Source, hand: Hand)

  datatype Act =
    | Other(e: Event)       // guest stores at any time; synchronisation and ends of sections between pages
    | Pick                  // the scan, and the flag cleared
    | Put(data: Page)       // the page as it was read meanwhile
    | ToTheFront(b: nat)    // qemu_get_ram_ptr on some page of block b

  // ----- what the acts do

  /** The record of the page with these contents. */
  function RecordWith(s: Source, p: Pos, data: Page): Record
    requires ValidPos(s.blocks, p) && |data| > 0
  {
    var cont := s.last.Some? && s.last.value.b == p.b;
    var id := s.blocks[p.b].id;
    if IsDup(data) then DupPage(p.k, cont, id, data[0]) else FullPage(p.k, cont, id, data)
  }

  /** Where a page is once block b has moved to the front. */
  function Moved(p: Pos, b: nat): Pos {
    if p.b == b then Pos(0, p.k) else if p.b < b then Pos(p.b + 1, p.k) else p
  }

  function Reordered(s: Source, b: nat): Source
    requires b < |s.blocks|
  {
    s.(blocks := ToFront(s.blocks, b), last := if s.last.None? then None else Some(Moved(s.last.value, b)))
  }

  /**
   What is read of a page into which the guest stores meanwhile may be torn in
   any way; otherwise it is the page.
   */
  ghost predicate CanAct(f: Fine, a: Act) {
    && ValidSource(f.s) && (f.hand.Holding? ==> ValidPos(f.s.blocks, f.hand.p))
    && match a
       case Other(e) => Possible(f.s, e) && !e.SendOne? && (f.hand.Holding? ==> e.GuestWrite?)
       case Pick => f.hand.Free?
       case Put(data) => f.hand.Holding? && |data| == f.s.ps && (!f.hand.touched ==> data == Content(f.s, f.hand.p))
       case ToTheFront(b) => b < |f.s.blocks|
  }

  function Clear(s: Source, p: Pos): Source
    requires ValidSource(s) && ValidPos(s.blocks, p)
  {
    var n := PageNo(s.blocks, p);
    ClearedFlagIsByte(s.flags[n]);
    s.(flags := s.flags[n := ClearBit(s.flags[n], MIGRATION_BIT)])
  }

  ghost function Do(f: Fine, a: Act): Fine
    requires CanAct(f, a)
  {
    match a
    case Other(e) =>
      Fine(Step(f.s, e), if f.hand.Holding? && e.p == f.hand.p then f.hand.(touched := true) else f.hand)
    case Pick =>
      (match FirstDirty(f.s, ScanStart(f.s), Total(f.s.blocks))
       case None => f.(s := f.s.(last := Some(ScanStart(f.s))))
       case Some(p) => Fine(Clear(f.s, p), Holding(p, false)))
    case Put(data) =>
      Fine(f.s.(last := Some(f.hand.p), sent := f.s.sent + [RecordWith(f.s, f.hand.p, data)]), Free)
    case ToTheFront(b) =>
      Fine(Reordered(f.s, b), if f.hand.Holding? then f.hand.(p := Moved(f.hand.p, b)) else Free)
  }

  /** Sending a page at once is picking it and putting it on the stream with nothing in between. */
  lemma SendIsPickAndPut(s: Source)
    requires ValidSource(s)
    ensures var f := Do(Fine(s, Free), Pick);
            if f.hand.Free? then f.s == Send(s)
            else ValidPos(s.blocks, f.hand.p) && CanAct(f, Put(Content(s, f.hand.p))) && Do(f, Put(Content(s, f.hand.p))) == Fine(Send(s), Free)
  {
    hide ValidBlocks, MemoryFits, Total, FirstDirty, ClearBit;
    match FirstDirty(s, ScanStart(s), Total(s.blocks))
    case None =>
    case Some(p) => ContentIsAPage(s, p);
  }

  // ----- the invariant

  /** The state as if the page in hand still had its flag. */
  ghost predicate Shadows(f: Fine, t: Source) {
    && t == f.s.(flags := t.flags) && |t.flags| == |f.s.flags| && ValidSource(t) && ValidSource(f.s)
    && (forall q | ValidPos(t.blocks, q) && IsDirty(t, q) :: IsDirty(f.s, q) || (f.hand.Holding? && q == f.hand.p))
    && (forall q | ValidPos(t.blocks, q) && IsDirty(f.s, q) :: IsDirty(t, q))
    && (f.hand.Holding? ==> ValidPos(f.s.blocks, f.hand.p) && IsDirty(t, f.hand.p)
                            && (f.hand.touched ==> Pending(f.s, f.hand.p)))
  }

  ghost predicate Kept(f: Fine, d0: Dest) { exists t: Source :: Shadows(f, t) && Tracks(t, d0) }

  lemma PickKeeps(f: Fine, d0: Dest)
    requires Kept(f, d0) && CanAct(f, Pick)
    ensures Kept(Do(f, Pick), d0)
  {
    hide ValidSource, Tracks, FirstDirty, Total, Bit, ClearBit;
    var t: Source :| Shadows(f, t) && Tracks(t, d0);
    match FirstDirty(f.s, ScanStart(f.s), Total(f.s.blocks))
    case None =>
      NothingPicked(f, t, d0);
    case Some(p) =>
      PickedStaysPending(f, t, p, d0);
  }

  lemma NothingPicked(f: Fine, t: Source, d0: Dest)
    requires Shadows(f, t) && Tracks(t, d0) && CanAct(f, Pick) && FirstDirty(f.s, ScanStart(f.s), Total(f.s.blocks)).None?
    ensures Kept(Do(f, Pick), d0)
  {
    hide ValidBlocks, MemoryFits, Total, FirstDirty, SameLayout, Bit, ApplyAll;
    if f.s.last.None? {
      AtLeastOnePage(f.s.blocks);
      FirstPageFound(f.s);
    }
    var t' := t.(last := Some(ScanStart(f.s)));
    var d := ApplyAll(d0, t.sent).value;
    forall q | ValidPos(t.blocks, q) ensures Pending(t', q) || SamePage(t', d, q) {
      assert Pending(t, q) || SamePage(t, d, q);
    }
    assert Shadows(Do(f, Pick), t') && Tracks(t', d0);
  }

  lemma PickedStaysPending(f: Fine, t: Source, p: Pos, d0: Dest)
    requires Shadows(f, t) && Tracks(t, d0) && CanAct(f, Pick) && FirstDirty(f.s, ScanStart(f.s), Total(f.s.blocks)) == Some(p)
    ensures Kept(Do(f, Pick), d0)
  {
    hide ValidBlocks, MemoryFits, Total, FirstDirty, Tracks, Bit, ClearBit;
    assert ValidPos(f.s.blocks, p) && IsDirty(f.s, p);
    var f' := Do(f, Pick);
    forall q | ValidPos(f.s.blocks, q) ensures IsDirty(f'.s, q) == (q != p && IsDirty(f.s, q)) {
      FlagsAfterSend(f.s, p, q);
    }
    assert Shadows(f', t);
  }

  lemma StoreKeeps(f: Fine, d0: Dest, e: Event)
    requires Kept(f, d0) && CanAct(f, Other(e)) && e.GuestWrite?
    ensures Kept(Do(f, Other(e)), d0)
  {
    hide ValidBlocks, MemoryFits, Total, Tracks, Bit;
    var t: Source :| Shadows(f, t) && Tracks(t, d0);
    StepTracks(t, d0, e);
    StepKeepsValid(t, e);
    StepKeepsValid(f.s, e);
    FullFlagsAreDirty();
    var f', t' := Do(f, Other(e)), Step(t, e);
    forall q | ValidPos(f.s.blocks, q)
      ensures e.logged ==> IsDirty(f'.s, q) == IsDirty(f.s, q) && IsDirty(t', q) == IsDirty(t, q)
      ensures !e.logged && q == e.p ==> IsDirty(f'.s, q) && IsDirty(t', q)
      ensures !e.logged && q != e.p ==> IsDirty(f'.s, q) == IsDirty(f.s, q) && IsDirty(t', q) == IsDirty(t, q)
    {
      if q != e.p && PageNo(f.s.blocks, q) == PageNo(f.s.blocks, e.p) {
        DistinctPages(f.s.blocks, q, e.p);
      }
    }
    assert Shadows(f', t');
  }

  lemma BetweenKeeps(f: Fine, d0: Dest, e: Event)
    requires Kept(f, d0) && CanAct(f, Other(e)) && (e.Sync? || e.EndSection?)
    ensures Kept(Do(f, Other(e)), d0)
  {
    hide ValidBlocks, MemoryFits, Total, Tracks, Bit;
    var t: Source :| Shadows(f, t) && Tracks(t, d0);
    StepTracks(t, d0, e);
    StepKeepsValid(t, e);
    StepKeepsValid(f.s, e);
    FullFlagsAreDirty();
    assert Shadows(Do(f, Other(e)), Step(t, e));
  }

  /** The receiver stores the page that was sent, whatever it holds, in the block the sender meant. */
  lemma AnyPageArrives(s: Source, d: Dest, p: Pos, data: Page)
    requires InStep(s, d) && ValidPos(s.blocks, p) && |data| == s.ps
    ensures var id := s.blocks[p.b].id;
            && id in d.mem && p.k < |d.mem[id]|
            && Apply(d, RecordWith(s, p, data)) == Ok(d.(mem := d.mem[id := d.mem[id][p.k := data]], block := Some(id)))
  {
    var x := s.blocks[p.b];
    if IsDup(data) {
      DupIsFilled(data);
    }
    assert Known(d, x.id, x.pages);
    FindBlockFinds(d.blocks, x.id);
    assert BlockFits(d.ps, d.mem, d.blocks[FindBlock(d.blocks, x.id).value]);
  }

  /** Its page is then the sender's, or will be sent again. */
  lemma PutInStep(s: Source, s': Source, d: Dest, p: Pos, data: Page)
    requires InStep(s, d) && ValidPos(s.blocks, p) && |data| == s.ps && ValidSource(s')
    requires s' == s.(flags := s'.flags, last := Some(p), sent := s.sent + [RecordWith(s, p, data)])
    requires forall q | ValidPos(s.blocks, q) && q != p && IsDirty(s, q) :: IsDirty(s', q)
    requires data == Content(s, p) || Pending(s', p)
    ensures Apply(d, RecordWith(s, p, data)).Ok? && InStep(s', Apply(d, RecordWith(s, p, data)).value)
  {
    hide RecordWith, Apply, SameLayout, ValidBlocks, MemoryFits, IsDirty, Total;
    AnyPageArrives(s, d, p, data);
    var d' := Apply(d, RecordWith(s, p, data)).value;
    var id := s.blocks[p.b].id;
    LayoutAfterStore(s.blocks, d, id, p.k, data, Some(id));
    forall q | ValidPos(s.blocks, q) ensures Pending(s', q) || SamePage(s', d', q) {
      assert Pending(s, q) || SamePage(s, d, q);
      SameIdSameBlock(s.blocks, p.b, q.b);
    }
  }

  lemma AnyRecordFits(s: Source, p: Pos, data: Page)
    requires ValidSource(s) && ValidPos(s.blocks, p) && |data| == s.ps
    ensures ValidRecord(s.ps, RecordWith(s, p, data))
  {
    hide Total, MemoryFits, AllCompatible;
    RankBelowTotal(s.blocks, p);
    OffsetFits(s.ps, p.k, Total(s.blocks));
  }

  lemma PutKeeps(f: Fine, d0: Dest, data: Page)
    requires Kept(f, d0) && CanAct(f, Put(data))
    ensures Kept(Do(f, Put(data)), d0)
  {
    hide RecordWith, SameLayout, ValidBlocks, MemoryFits, Total, ApplyAll, Bit, Apply;
    var t: Source :| Shadows(f, t) && Tracks(t, d0);
    var p := f.hand.p;
    var f' := Do(f, Put(data));
    var d := ApplyAll(d0, t.sent).value;
    assert RecordWith(t, p, data) == RecordWith(f.s, p, data) by { SameRecord(f.s, t, p, data); }
    assert Pending(f.s, p) ==> Pending(f'.s, p);
    PutInStep(t, f'.s, d, p, data);
    AnyRecordFits(t, p, data);
    ApplyAllAppends(d0, t.sent, RecordWith(t, p, data));
    assert Shadows(f', f'.s) && Tracks(f'.s, d0);
  }

  lemma SameRecord(s: Source, t: Source, p: Pos, data: Page)
    requires t == s.(flags := t.flags) && ValidPos(s.blocks, p) && |data| > 0
    ensures RecordWith(t, p, data) == RecordWith(s, p, data)
  {}

  // ----- a block moves to the front

  /** Where a page was before block b moved. */
  function Back(q: Pos, b: nat): Pos {
    if q.b == 0 then Pos(b, q.k) else if q.b <= b then Pos(q.b - 1, q.k) else q
  }

  lemma FrontAt(blocks: seq<RamBlock>, b: nat, p: Pos)
    requires b < |blocks|
    ensures ValidPos(blocks, p) ==> ValidPos(ToFront(blocks, b), Moved(p, b)) && ToFront(blocks, b)[Moved(p, b).b] == blocks[p.b]
                                    && PageNo(ToFront(blocks, b), Moved(p, b)) == PageNo(blocks, p) && Back(Moved(p, b), b) == p
    ensures ValidPos(ToFront(blocks, b), p) ==> ValidPos(blocks, Back(p, b)) && blocks[Back(p, b).b] == ToFront(blocks, b)[p.b]
                                                && PageNo(blocks, Back(p, b)) == PageNo(ToFront(blocks, b), p) && Moved(Back(p, b), b) == p
  {}

  lemma {:induction false} TotalConcat(a: seq<RamBlock>, b: seq<RamBlock>)
    ensures Total(a + b) == Total(a) + Total(b)
  {
    if b == [] {
      assert a + b == a;
    } else {
      TotalConcat(a, b[..|b| - 1]);
      assert (a + b)[..|a + b| - 1] == a + b[..|b| - 1];
    }
  }

  lemma FrontTotal(blocks: seq<RamBlock>, b: nat)
    requires b < |blocks|
    ensures Total(ToFront(blocks, b)) == Total(blocks)
  {
    hide Total;
    var x, before, after := [blocks[b]], blocks[..b], blocks[b + 1..];
    assert blocks == before + (x + after);
    TotalConcat(before, x + after);
    TotalConcat(x, after);
    TotalConcat(x + before, after);
    TotalConcat(x, before);
  }

  lemma FrontIndex(blocks: seq<RamBlock>, b: nat, i: nat)
    requires b < |blocks| && i < |blocks|
    ensures |ToFront(blocks, b)| == |blocks|
    ensures Back(Pos(i, 0), b).b < |blocks| && ToFront(blocks, b)[i] == blocks[Back(Pos(i, 0), b).b]
    ensures Moved(Pos(i, 0), b).b < |blocks| && ToFront(blocks, b)[Moved(Pos(i, 0), b).b] == blocks[i]
  {}

  lemma FrontIsCompatible(blocks: seq<RamBlock>, b: nat, i: nat, j: nat)
    requires AllCompatible(blocks) && b < |blocks| && i < j < |blocks|
    ensures |ToFront(blocks, b)| == |blocks| && Compatible(ToFront(blocks, b)[i], ToFront(blocks, b)[j])
  {
    hide ToFront;
    FrontIndex(blocks, b, i);
    FrontIndex(blocks, b, j);
    var x, y := Back(Pos(i, 0), b).b, Back(Pos(j, 0), b).b;
    assert x != y;
    assert x < y ==> Compatible(blocks[x], blocks[y]);
    assert y < x ==> Compatible(blocks[y], blocks[x]);
  }

  lemma FrontIds(blocks: seq<RamBlock>, b: nat)
    requires b < |blocks|
    ensures IdsOf(ToFront(blocks, b)) == IdsOf(blocks)
  {
    hide ToFront, Moved, Back;
    var front := ToFront(blocks, b);
    FrontIndex(blocks, b, 0);
    forall id | id in IdsOf(front) ensures id in IdsOf(blocks) {
      var i :| 0 <= i < |front| && front[i].id == id;
      FrontIndex(blocks, b, i);
    }
    forall id | id in IdsOf(blocks) ensures id in IdsOf(front) {
      var i :| 0 <= i < |blocks| && blocks[i].id == id;
      FrontIndex(blocks, b, i);
    }
  }

  lemma FrontIsValid(blocks: seq<RamBlock>, b: nat)
    requires ValidBlocks(blocks) && b < |blocks|
    ensures |ToFront(blocks, b)| == |blocks|
    ensures ValidBlocks(ToFront(blocks, b)) && IdsOf(ToFront(blocks, b)) == IdsOf(blocks)
    ensures forall i | 0 <= i < |blocks| :: ToFront(blocks, b)[i] in blocks
  {
    hide ToFront, Compatible, Moved, Back, IdsOf;
    var front := ToFront(blocks, b);
    FrontIndex(blocks, b, 0);
    FrontIds(blocks, b);
    forall i | 0 <= i < |blocks| ensures front[i] in blocks && front[i].pages > 0 && |front[i].id| < 256 {
      FrontIndex(blocks, b, i);
    }
    forall i, j | 0 <= i < j < |front| ensures Compatible(front[i], front[j]) {
      FrontIsCompatible(blocks, b, i, j);
    }
  }

  lemma ReorderedIsValid(s: Source, b: nat)
    requires ValidSource(s) && b < |s.blocks|
    ensures ValidSource(Reordered(s, b))
  {
    hide ValidBlocks, Total, ToFront;
    FrontIsValid(s.blocks, b);
    FrontTotal(s.blocks, b);
    forall p | true ensures ValidPos(ToFront(s.blocks, b), p)
                        ==> ValidPos(s.blocks, Back(p, b)) && PageNo(s.blocks, Back(p, b)) == PageNo(ToFront(s.blocks, b), p) {
      FrontAt(s.blocks, b, p);
    }
    if s.last.Some? {
      FrontAt(s.blocks, b, s.last.value);
    }
    forall i | 0 <= i < |s.blocks| ensures BlockFits(s.ps, s.mem, ToFront(s.blocks, b)[i]) {
      assert ToFront(s.blocks, b)[i] in s.blocks;
    }
  }

  lemma ReorderTracks(s: Source, d0: Dest, b: nat)
    requires Tracks(s, d0) && b < |s.blocks|
    ensures Tracks(Reordered(s, b), d0)
  {
    hide ValidBlocks, Total, ToFront, MemoryFits, ApplyAll, Known, Bit;
    ReorderedIsValid(s, b);
    var s' := Reordered(s, b);
    var d := ApplyAll(d0, s.sent).value;
    FrontIsValid(s.blocks, b);
    forall i | 0 <= i < |s'.blocks| ensures Known(d, s'.blocks[i].id, s'.blocks[i].pages) {
      assert s'.blocks[i] in s.blocks;
    }
    forall q | ValidPos(s'.blocks, q)
      ensures (Pending(s', q) || SamePage(s', d, q)) && (s.last.None? ==> IsDirty(s', q))
    {
      FrontAt(s.blocks, b, q);
      var p := Back(q, b);
      assert Pending(s, p) || SamePage(s, d, p);
      assert Content(s', q) == Content(s, p);
    }
    if s.last.Some? {
      FrontAt(s.blocks, b, s.last.value);
    }
  }

  lemma FrontKeeps(f: Fine, d0: Dest, b: nat)
    requires Kept(f, d0) && CanAct(f, ToTheFront(b))
    ensures Kept(Do(f, ToTheFront(b)), d0)
  {
    hide ValidBlocks, Total, ToFront, MemoryFits, Tracks, Bit;
    var t: Source :| Shadows(f, t) && Tracks(t, d0);
    ReorderTracks(t, d0, b);
    ReorderedIsValid(t, b);
    ReorderedIsValid(f.s, b);
    var f', t' := Do(f, ToTheFront(b)), Reordered(t, b);
    forall q | ValidPos(t'.blocks, q)
      ensures ValidPos(t.blocks, Back(q, b)) && Moved(Back(q, b), b) == q
      ensures IsDirty(t', q) == IsDirty(t, Back(q, b)) && IsDirty(f'.s, q) == IsDirty(f.s, Back(q, b))
    {
      FrontAt(t.blocks, b, q);
    }
    if f.hand.Holding? {
      FrontAt(t.blocks, b, f.hand.p);
    }
    assert Shadows(f', t');
  }

  // ----- whole runs

  lemma ActKeeps(f: Fine, d0: Dest, a: Act)
    requires Kept(f, d0) && CanAct(f, a)
    ensures Kept(Do(f, a), d0)
  {
    hide Kept, Do, CanAct;
    match a
    case Other(e) =>
      NoSendInside(f, e);
      if e.GuestWrite? {
        StoreKeeps(f, d0, e);
      } else {
        BetweenKeeps(f, d0, e);
      }
    case Pick => PickKeeps(f, d0);
    case Put(data) => PutKeeps(f, d0, data);
    case ToTheFront(b) => FrontKeeps(f, d0, b);
  }

  lemma NoSendInside(f: Fine, e: Event)
    requires CanAct(f, Other(e))
    ensures e.GuestWrite? || e.Sync? || e.EndSection?
  {}

  ghost predicate CanActAll(f: Fine, acts: seq<Act>)
    decreases |acts|
  {
    acts == [] || (CanAct(f, acts[0]) && CanActAll(Do(f, acts[0]), acts[1..]))
  }

  ghost function DoAll(f: Fine, acts: seq<Act>): Fine
    requires CanActAll(f, acts)
    decreases |acts|
  {
    if acts == [] then f else DoAll(Do(f, acts[0]), acts[1..])
  }

  lemma {:induction false} RunKeeps(f: Fine, d0: Dest, acts: seq<Act>)
    requires Kept(f, d0) && CanActAll(f, acts)
    ensures Kept(DoAll(f, acts), d0)
    decreases |acts|
  {
    hide Kept, Do, CanAct;
    if acts != [] {
      ActKeeps(f, d0, acts[0]);
      RunKeeps(Do(f, acts[0]), d0, acts[1..]);
    }
  }

  lemma KeptStarted(s: Source, d0: Dest)
    requires ValidSource(s) && d0.ps == s.ps && SameLayout(s.blocks, d0)
    ensures Kept(Fine(Started(s), Free), d0)
  {
    hide Started, SameLayout, Tracks, ValidSource;
    StartedTracks(s, d0);
    TracksIsValid(Started(s), d0);
    assert Shadows(Fine(Started(s), Free), Started(s));
  }

  /**
   Any run in which guest stores fall between the clearing of a page's flag and
   its copying, and blocks change places: if it ends a section with no page in
   hand, none dirty and an empty log, its bytes carry the whole memory.
   */
  lemma TornRunCopiesMemory(s: Source, d0: Dest, acts: seq<Act>)
    requires ValidSource(s) && d0.ps == s.ps && SameLayout(s.blocks, d0)
    requires CanActAll(Fine(Started(s), Free), acts)
    requires var last := DoAll(Fine(Started(s), Free), acts);
             && last.hand.Free? && last.s.log == {} && last.s.sent != [] && last.s.sent[|last.s.sent| - 1].Eos?
             && ValidSource(last.s) && DirtyPages(last.s) == {}
    ensures var last := DoAll(Fine(Started(s), Free), acts);
            && last.s.ps == s.ps && ValidRecords(s.ps, last.s.sent)
            && var end := Replay(d0, EncodeAll(s.ps, last.s.sent));
            && end.Ok? && end.value.mem == last.s.mem
  {
    hide Started, SameLayout, DoAll, CanActAll, DirtyPages, ApplyAll, Replay;
    KeptStarted(s, d0);
    RunKeeps(Fine(Started(s), Free), d0, acts);
    var last := DoAll(Fine(Started(s), Free), acts);
    var t: Source :| Shadows(last, t) && Tracks(t, d0);
    SameDirtySamePages(last.s, t);
    SamePageSize(d0, t.sent);
    InStepAndClean(t, ApplyAll(d0, t.sent).value);
    StreamReadBack(d0, t.sent);
  }

  lemma SameDirtySamePages(s: Source, t: Source)
    requires ValidSource(s) && ValidSource(t) && t.blocks == s.blocks
    requires forall q | ValidPos(t.blocks, q) :: IsDirty(t, q) <==> IsDirty(s, q)
    ensures DirtyPages(t) == DirtyPages(s)
  {}

  lemma {:induction false} SamePageSize(d: Dest, rs: seq<Record>)
    requires ApplyAll(d, rs).Ok?
    ensures ApplyAll(d, rs).value.ps == d.ps
    decreases |rs|
  {
    if rs != [] {
      SamePageSize(Apply(d, rs[0]).value, rs[1..]);
    }
  }
}
