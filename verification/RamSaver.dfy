/**
 The sending side of RAM migration as arch_init.c runs it: static cursor
 variables, a byte array of dirty flags changed in place, and an output stream.
 */
module RamSaver {
  import opened Basics
  import opened Bits
  import opened RamModel
  import opened RamStream
  import opened RamMigration

  lemma {:induction false} EncodeAllAppends(ps: nat, rs: seq<Record>, r: Record)
    requires ValidRecords(ps, rs) && ValidRecord(ps, r)
    ensures ValidRecords(ps, rs + [r])
    ensures EncodeAll(ps, rs + [r]) == EncodeAll(ps, rs) + Encode(ps, r)
  {
    hide Encode;
    if rs == [] {
      assert rs + [r] == [r] && [r][1..] == [];
    } else {
      EncodeAllAppends(ps, rs[1..], r);
      assert (rs + [r])[1..] == rs[1..] + [r];
    }
  }

  /** is_dup_page: compares the page word by word with its first byte repeated. */
  method IsDupPage(page: Page, ch: Byte) returns (dup: bool)
    requires |page| % 4 == 0
    ensures dup <==> page == Filled(|page|, ch)
  {
    var val := [ch, ch, ch, ch];
    var i := 0;
    while i < |page| / 4
      invariant 0 <= i <= |page| / 4
      invariant forall j | 0 <= j < 4 * i :: page[j] == ch
    {
      var word := page[4 * i..4 * i + 4];
      if word != val {
        assert exists j :: 0 <= j < 4 && word[j] != val[j];
        return false;
      }
      assert forall j | 0 <= j < 4 :: page[4 * i + j] == word[j];
      i := i + 1;
    }
    return true;
  }

  class Saver {
    const ps: nat
    var blocks: seq<RamBlock>
    var mem: Memory
    const physDirty: array<Byte>
    var log: set<nat>
    var lastBlock: Option<nat>
    var lastOffset: nat
    var bytesTransferred: nat
    var f: seq<Byte>
    ghost var prior: seq<Byte>
    ghost var sent: seq<Record>

    ghost function Value(): Source
      reads this, physDirty
    {
      Source(ps, blocks, mem, physDirty[..], log,
             if lastBlock.None? then None else Some(Pos(lastBlock.value, lastOffset)), sent)
    }

    ghost predicate Valid()
      reads this, physDirty
    {
      && ValidSource(Value())
      && (lastBlock.None? ==> lastOffset == 0)
      && Written()
    }

    /** The stream is what it held before this migration, then the records of this migration. */
    ghost predicate Written()
      reads this`f, this`sent, this`prior
    {
      ValidRecords(ps, sent) && f == prior + EncodeAll(ps, sent)
    }

    /** cpu_physical_memory_mask_dirty_range: clears one flag over a range of pages. */
    method MaskDirtyRange(start: nat, len: nat, bit: nat)
      requires start + len <= physDirty.Length && bit < 8
      modifies physDirty
      ensures forall n | 0 <= n < physDirty.Length ::
                physDirty[n] == if start <= n < start + len then ClearBit(old(physDirty[n]), bit) else old(physDirty[n])
    {
      var i := 0;
      while i < len
        invariant 0 <= i <= len
        invariant forall n | 0 <= n < physDirty.Length ::
                    physDirty[n] == if start <= n < start + i then ClearBit(old(physDirty[n]), bit) else old(physDirty[n])
      {
        assert Pow2(8) == 256;
        SetBitFits(physDirty[start + i], bit, 8);
        physDirty[start + i] := ClearBit(physDirty[start + i], bit);
        i := i + 1;
      }
    }

    /** Writes the record for the page at (block, offset). */
    method PutPage(block: nat, offset: nat) returns (bytesSent: nat)
      requires Valid() && ValidPos(blocks, Pos(block, offset))
      modifies this`f, this`sent
      ensures Written()
      ensures sent == old(sent) + [RecordFor(old(Value()), Pos(block, offset))]
      ensures bytesSent == if IsDup(mem[blocks[block].id][offset]) then 1 else ps
    {
      hide ValidBlocks, MemoryFits, Total, ValidRecords, ValidRecord, EncodeAll, Be, IdBytes;
      ghost var p := Pos(block, offset);
      ghost var r := RecordFor(Value(), p);
      ContentIsAPage(Value(), p);
      PageSizeIsWords(ps);
      RecordsFit(Value(), p);
      EncodeAllAppends(ps, sent, r);
      sent := sent + [r];
      var id := blocks[block].id;
      var page := mem[id][offset];
      var cont := if lastBlock == Some(block) then CONTINUE else 0;
      var dup := IsDupPage(page, page[0]);
      DupEitherWay(page);
      NamesAreShort(blocks, block);
      if dup {
        f := f + Be(8, ps * offset + cont + COMPRESS);
        if cont == 0 {
          f := f + IdBytes(id);
        }
        f := f + [page[0]];
        bytesSent := 1;
      } else {
        f := f + Be(8, ps * offset + cont + PAGE);
        if cont == 0 {
          f := f + IdBytes(id);
        }
        f := f + page;
        bytesSent := ps;
      }
      assert f == old(f) + Encode(ps, r);
    }

    /**
     The scan of ram_save_block: from the page sent last, page after page and
     block after block, until a dirty page or the starting point is reached.
     The code reads last_block without a null check at the end of a turn, so
     the first call must find the first page dirty.
     */
    method Scan() returns (found: bool, block: nat, offset: nat)
      requires Valid()
      requires lastBlock.None? ==> ValidPos(blocks, Pos(0, 0)) && IsDirty(Value(), Pos(0, 0))
      ensures ValidPos(blocks, Pos(block, offset))
      ensures FirstDirty(Value(), ScanStart(Value()), Total(blocks)) == if found then Some(Pos(block, offset)) else None
      ensures lastBlock.None? ==> found && block == 0 && offset == 0
      ensures lastBlock.Some? && found ==> FirstFrom(Value(), Pos(lastBlock.value, lastOffset), Pos(block, offset))
      ensures lastBlock.Some? && !found ==> block == lastBlock.value && offset == lastOffset && NoneDirty(Value())
    {
      hide ValidBlocks, MemoryFits, Total, ValidRecords, EncodeAll, Distance, Rank, Next, Bit;
      ghost var s := Value();
      ScanFindsFirst(s);
      ghost var start := ScanStart(s);
      ghost var all := Total(s.blocks);
      block := if lastBlock.None? then 0 else lastBlock.value;
      offset := lastOffset;
      ghost var done := 0;
      DistanceFromNext(s.blocks, start, start);
      while true
        invariant ValidPos(blocks, Pos(block, offset))
        invariant lastBlock.None? ==> block == 0 && offset == 0
        invariant done < all && Distance(s.blocks, start, Pos(block, offset)) == done
        invariant FirstDirty(s, start, all) == FirstDirty(s, Pos(block, offset), all - done)
        decreases all - done
      {
        if Bit(physDirty[blocks[block].base + offset], MIGRATION_BIT) {
          return true, block, offset;
        }
        assert lastBlock.Some?;
        ghost var p := Pos(block, offset);
        offset := offset + 1;
        if offset >= blocks[block].pages {
          offset := 0;
          block := block + 1;
          if block == |blocks| {
            block := 0;
          }
        }
        NextIs(blocks, p, Pos(block, offset));
        StepAlong(s, start, p, all, done);
        done := done + 1;
        if blocks[block].base + offset == blocks[lastBlock.value].base + lastOffset {
          DistinctPages(blocks, Pos(block, offset), start);
          return false, block, offset;
        }
      }
    }

    /** Clears the page's migration flag and writes its record. */
    method SendFound(block: nat, offset: nat) returns (bytesSent: nat)
      requires Valid() && ValidPos(blocks, Pos(block, offset))
      modifies this`lastBlock, this`lastOffset, this`f, this`sent, physDirty
      ensures Value() == SendPage(old(Value()), Pos(block, offset))
      ensures Written()
      ensures lastBlock == Some(block) && lastOffset == offset
      ensures bytesSent == (if IsDup(mem[blocks[block].id][offset]) then 1 else ps) > 0
    {
      hide ValidBlocks, MemoryFits, Total, ValidRecords, EncodeAll, RecordFor, Bit, ClearBit;
      ghost var s := Value();
      ghost var p := Pos(block, offset);
      MaskDirtyRange(blocks[block].base + offset, 1, MIGRATION_BIT);
      assert physDirty[..] == SendPage(s, p).flags;
      FlagsDoNotMatter(s, Value(), p);
      bytesSent := PutPage(block, offset);
      lastBlock, lastOffset := Some(block), offset;
    }

    /** ram_save_block */
    method SaveBlock() returns (bytesSent: nat)
      requires Valid()
      requires lastBlock.None? ==> ValidPos(blocks, Pos(0, 0)) && IsDirty(Value(), Pos(0, 0))
      modifies this`lastBlock, this`lastOffset, this`f, this`sent, physDirty
      ensures Valid() && Value() == Send(old(Value()))
      ensures bytesSent == 0 <==> DirtyPages(old(Value())) == {}
      ensures lastBlock.Some? && ValidPos(blocks, Pos(lastBlock.value, lastOffset))
      ensures old(lastBlock).None? ==> lastBlock.value == 0 && lastOffset == 0
      ensures old(lastBlock).Some? && bytesSent > 0 ==>
                FirstFrom(old(Value()), Pos(old(lastBlock).value, old(lastOffset)), Pos(lastBlock.value, lastOffset))
      ensures old(lastBlock).Some? && bytesSent == 0 ==> lastBlock == old(lastBlock) && lastOffset == old(lastOffset)
      ensures bytesSent > 0 ==> bytesSent == if IsDup(mem[blocks[lastBlock.value].id][lastOffset]) then 1 else ps
      ensures bytesSent > 0 ==> DirtyPages(Value()) == DirtyPages(old(Value())) - {Pos(lastBlock.value, lastOffset)}
      ensures bytesSent == 0 ==> f == old(f) && sent == old(sent) && DirtyPages(Value()) == {}
      ensures Payload(ps, sent) == Payload(ps, old(sent)) + bytesSent
    {
      hide ValidBlocks, MemoryFits, Total, ValidRecords, EncodeAll, SendPage, DirtyPages, FirstDirty, FirstFrom, NoneDirty;
      SendKeepsValid(Value());
      SendClearsOne(Value());
      SentIsPayload(Value());
      var found, block, offset := Scan();
      bytesSent := 0;
      if found {
        bytesSent := SendFound(block, offset);
      } else {
        lastBlock, lastOffset := Some(block), offset;
      }
    }

    /** ram_save_remaining */
    method Remaining() returns (count: nat)
      requires Valid()
      ensures count == |DirtyPages(Value())|
    {
      hide ValidBlocks, MemoryFits, Total, ValidRecords, EncodeAll, Bit, DirtyBefore;
      count := 0;
      var b := 0;
      CountFromStart(Value());
      while b < |blocks|
        invariant 0 <= b <= |blocks|
        invariant count == |DirtyBefore(Value(), b, 0)|
      {
        var k := 0;
        while k < blocks[b].pages
          invariant 0 <= k <= blocks[b].pages
          invariant count == |DirtyBefore(Value(), b, k)|
        {
          CountOne(Value(), b, k);
          if Bit(physDirty[blocks[b].base + k], MIGRATION_BIT) {
            count := count + 1;
          }
          k := k + 1;
        }
        CountNextBlock(Value(), b);
        b := b + 1;
      }
      CountToEnd(Value());
    }

    /** cpu_physical_sync_dirty_bitmap: collects the pages logged since the last call. */
    method SyncDirtyBitmap()
      requires Valid()
      modifies this`log, physDirty
      ensures Valid() && Value() == Synced(old(Value()))
      ensures log == {}
      ensures forall n | 0 <= n < physDirty.Length :: physDirty[n] == if n in old(log) then 0xff else old(physDirty[n])
    {
      hide ValidBlocks, MemoryFits, Total, ValidRecords, EncodeAll;
      StepKeepsValid(Value(), Sync);
      var n := 0;
      while n < physDirty.Length
        invariant 0 <= n <= physDirty.Length && log == old(log)
        invariant forall m | 0 <= m < physDirty.Length ::
                    physDirty[m] == if m < n && m in log then 0xff else old(physDirty[m])
      {
        if n in log {
          physDirty[n] := 0xff;
        }
        n := n + 1;
      }
      assert physDirty[..] == Synced(old(Value())).flags;
      log := {};
    }

    /** The inner loop of stage 1: the pages of one block whose flag is not yet set. */
    method MarkBlockDirty(b: nat)
      requires ValidSource(Value()) && b < |blocks|
      modifies physDirty
      ensures forall n | 0 <= n < physDirty.Length ::
                physDirty[n] == if blocks[b].base <= n < blocks[b].base + blocks[b].pages && !Bit(old(physDirty[n]), MIGRATION_BIT)
                                then 0xff else old(physDirty[n])
    {
      hide ValidBlocks, MemoryFits, Total, Bit;
      FullFlagsAreDirty();
      var k := 0;
      while k < blocks[b].pages
        invariant 0 <= k <= blocks[b].pages
        invariant forall n | 0 <= n < physDirty.Length ::
                    physDirty[n] == if blocks[b].base <= n < blocks[b].base + k && !Bit(old(physDirty[n]), MIGRATION_BIT)
                                    then 0xff else old(physDirty[n])
      {
        var n := blocks[b].base + k;
        assert ValidPos(blocks, Pos(b, k)) && PageNo(blocks, Pos(b, k)) < physDirty.Length;
        if !Bit(physDirty[n], MIGRATION_BIT) {
          physDirty[n] := 0xff;
        }
        k := k + 1;
      }
    }

    /** The loops of stage 1 that set the dirty flags that are not yet set. */
    method MarkAllDirty()
      requires ValidSource(Value())
      modifies physDirty
      ensures physDirty[..] == AllDirty(blocks, old(physDirty[..]))
      ensures forall n | 0 <= n < physDirty.Length ::
                physDirty[n] == if (exists b :: 0 <= b < |blocks| && blocks[b].base <= n < blocks[b].base + blocks[b].pages)
                                   && !Bit(old(physDirty[n]), 3)
                                then 0xff else old(physDirty[n])
    {
      hide ValidSource, MarkedOver;
      ghost var was := physDirty[..];
      NothingMarked(blocks, was);
      var b := 0;
      while b < |blocks|
        invariant 0 <= b <= |blocks| && ValidSource(Value()) && MarkedOver(blocks[..b], was, physDirty[..])
      {
        ghost var s := Value();
        MarkBlockDirty(b);
        FlagsKeepValid(s, Value());
        OneMoreBlockMarked(blocks, b, was, s.flags, physDirty[..]);
        b := b + 1;
      }
      assert blocks[..b] == blocks;
      AllBlocksMarked(blocks, was, physDirty[..]);
    }

    /** ram_bytes_total */
    method RamBytesTotal() returns (total: nat)
      ensures total == ps * Total(blocks)
    {
      total := 0;
      var b := 0;
      assert blocks[..0] == [];
      while b < |blocks|
        invariant 0 <= b <= |blocks|
        invariant total == ps * Total(blocks[..b])
      {
        TotalOfPrefix(blocks, b, b + 1);
        Distributes(ps, Total(blocks[..b]), blocks[b].pages);
        total := total + ps * blocks[b].pages;
        b := b + 1;
      }
      assert blocks[..b] == blocks;
    }

    /** The memory-size record: the total, then name and length of every block. */
    method PutHeader()
      requires ValidSource(Value()) && Written()
      modifies this`f, this`sent
      ensures sent == old(sent) + [Header(EntriesOf(blocks))]
      ensures Written()
    {
      hide MemoryFits, AllCompatible, Total, ValidRecords, EncodeAll, Be, IdBytes, PagesOf;
      ghost var r := Header(EntriesOf(blocks));
      HeaderFits(Value());
      PagesOfEntries(blocks);
      EncodeAllAppends(ps, sent, r);
      sent := sent + [r];
      var total := RamBytesTotal();
      f := f + Be(8, total + MEM_SIZE);
      var b := 0;
      assert blocks[0..] == blocks;
      while b < |blocks|
        invariant 0 <= b <= |blocks| && sent == old(sent) + [r]
        invariant ValidEntries(EntriesOf(blocks[b..]))
        invariant f + EncodeEntries(ps, EntriesOf(blocks[b..])) == old(f) + Encode(ps, r)
      {
        var id := blocks[b].id;
        EntriesSplit(ps, blocks[b..]);
        assert blocks[b..][1..] == blocks[b + 1..];
        f := f + IdBytes(id) + Be(8, ps * blocks[b].pages);
        b := b + 1;
      }
      assert EntriesOf(blocks[b..]) == [];
      assert f == old(f) + Encode(ps, r);
    }

    /** The work that only stage 1 does. */
    method StartMigration()
      requires Valid()
      modifies this, physDirty
      ensures Valid() && Value() == Started(old(Value())) && prior == old(f)
      ensures bytesTransferred == 0 && lastBlock == None && log == {} && mem == old(mem)
      ensures multiset(blocks) == multiset(old(blocks)) && Sorted(blocks)
      ensures forall p | ValidPos(blocks, p) :: IsDirty(Value(), p)
      ensures |sent| == 1 && sent[0].Header? && |sent[0].entries| == |blocks|
      ensures forall b | 0 <= b < |blocks| :: sent[0].entries[b] == (blocks[b].id, blocks[b].pages)
    {
      hide ValidBlocks, MemoryFits, Total, ValidRecords, EncodeAll, AllDirty, SortBlocks, Synced;
      ghost var s := Value();
      StartedIsValid(s);
      BlocksAreSorted(s);
      SyncDirtyBitmap();
      bytesTransferred := 0;
      lastBlock, lastOffset := None, 0;
      blocks := SortBlocks(blocks);
      SortedIsValid(s, Value());
      MarkAllDirty();
      prior, sent := f, [];
      NothingWritten(ps, f);
      SortedIsValid(s, Value());
      PutHeader();
      assert [] + [Header(EntriesOf(blocks))] == [Header(EntriesOf(blocks))];
    }

    /** Before the first page has been sent every page is still dirty. */
    ghost predicate Fresh()
      requires Valid()
      reads this, physDirty
    {
      lastBlock.None? ==> forall p | ValidPos(blocks, p) :: IsDirty(Value(), p)
    }

    /** The state is what the steps `es` of this stage lead to from `base`. */
    ghost predicate Following(base: Source, es: seq<Event>)
      reads this, physDirty
    {
      && Valid() && Fresh() && log == {}
      && ValidSource(base) && PossibleRun(base, es) && Value() == Run(base, es)
      && forall i | 0 <= i < |es| :: !es[i].GuestWrite?
    }

    /** bytes_transferred is the size of all page contents in the stream since stage 1. */
    ghost predicate Counted()
      reads this`bytesTransferred, this`sent
    {
      bytesTransferred == Payload(ps, sent)
    }

    lemma FollowingIsValid(base: Source, es: seq<Event>)
      requires Following(base, es)
      ensures ValidSource(Value())
    {}

    /** One more page, recorded in the run. */
    method SendOneMore(ghost base: Source, ghost es: seq<Event>) returns (bytesSent: nat, ghost es': seq<Event>)
      requires Following(base, es)
      modifies this`lastBlock, this`lastOffset, this`bytesTransferred, this`f, this`sent, physDirty
      ensures Following(base, es')
      ensures bytesSent == 0 ==> DirtyPages(Value()) == {} && sent == old(sent) && f == old(f)
      ensures bytesSent == 0 <==> DirtyPages(old(Value())) == {}
      ensures bytesSent > 0 ==> |DirtyPages(Value())| == |DirtyPages(old(Value()))| - 1 && |sent| == |old(sent)| + 1
      ensures old(Counted()) ==> Counted()
    {
      hide ValidBlocks, MemoryFits, Total, ValidRecords, EncodeAll, Run, DirtyPages;
      ghost var s := Value();
      AtLeastOnePage(blocks);
      bytesSent := SaveBlock();
      bytesTransferred := bytesTransferred + bytesSent;
      es' := es + [SendOne];
      RunAppends(base, es, SendOne);
      SendShrinks(s);
    }

    /** The loop that sends until the rate limit stops it or nothing is left. */
    method SendWithin(budget: nat, ghost base: Source, ghost es: seq<Event>) returns (ghost es': seq<Event>)
      requires Following(base, es)
      modifies this`lastBlock, this`lastOffset, this`bytesTransferred, this`f, this`sent, physDirty
      ensures Following(base, es')
      ensures old(Counted()) ==> Counted()
      ensures |DirtyPages(Value())| == |DirtyPages(old(Value()))| - Min(budget, |DirtyPages(old(Value()))|)
      ensures |sent| - |old(sent)| == Min(budget, |DirtyPages(old(Value()))|)
    {
      hide Following, DirtyPages, ValidSource, Counted, Fresh, Valid;
      FollowingIsValid(base, es);
      es' := es;
      var n := budget;
      while n > 0
        invariant Following(base, es') && ValidSource(Value())
        invariant old(Counted()) ==> Counted()
        invariant 0 <= n <= budget && |DirtyPages(Value())| == |DirtyPages(old(Value()))| - (budget - n)
        invariant |sent| == |old(sent)| + budget - n
      {
        var bytesSent;
        bytesSent, es' := SendOneMore(base, es');
        FollowingIsValid(base, es');
        if bytesSent == 0 { break; }
        n := n - 1;
      }
    }

    /** The loop of stage 3: whatever the rate limit says, until nothing is left. */
    method SendRest(ghost base: Source, ghost es: seq<Event>) returns (ghost es': seq<Event>)
      requires Following(base, es)
      modifies this`lastBlock, this`lastOffset, this`bytesTransferred, this`f, this`sent, physDirty
      ensures Following(base, es') && DirtyPages(Value()) == {}
      ensures old(Counted()) ==> Counted()
      ensures |sent| - |old(sent)| == |DirtyPages(old(Value()))|
    {
      hide DirtyPages, Run, ValidRecords, EncodeAll, Fresh;
      var bytesSent;
      bytesSent, es' := SendOneMore(base, es);
      while bytesSent != 0
        invariant Following(base, es')
        invariant bytesSent == 0 ==> DirtyPages(Value()) == {}
        invariant old(Counted()) ==> Counted()
        invariant |sent| - |old(sent)| + |DirtyPages(Value())| == |DirtyPages(old(Value()))|
        decreases bytesSent != 0, |DirtyPages(Value())|
      {
        bytesSent, es' := SendOneMore(base, es');
      }
    }

    /** The start of a stage: synchronise, and in stage 1 set everything up. */
    method BeginStage(stage: int) returns (ghost base: Source, ghost es: seq<Event>)
      requires Valid() && (stage == 1 || Fresh())
      modifies this, physDirty
      ensures prior == if stage == 1 then old(f) else old(prior)
      ensures Following(base, es)
      ensures base == if stage == 1 then Started(old(Value())) else old(Value())
      ensures stage == 1 || old(Counted()) ==> Counted()
    {
      hide ValidBlocks, MemoryFits, Total, ValidRecords, EncodeAll, Run, Started, Synced, IsDirty, AllDirty;
      base := Value();
      es := [];
      if stage == 1 {
        StartedIsValid(base);
        base := Started(base);
        StartMigration();
        PayloadGrows(ps, [], sent[0]);
        assert [] + [sent[0]] == sent;
        RunOfNothing(base);
      } else {
        RunOfNothing(base);
        RunAppends(base, [], Sync);
        SyncKeepsDirty(base);
        SyncDirtyBitmap();
        es := [Sync];
        assert [] + [Sync] == es;
      }
    }

    /** Ends the section with an EOS record. */
    method PutEos(ghost base: Source, ghost es: seq<Event>)
      requires Following(base, es)
      modifies this`f, this`sent
      ensures Following(base, es + [EndSection])
      ensures DirtyPages(Value()) == DirtyPages(old(Value()))
      ensures sent == old(sent) + [Eos]
      ensures old(Counted()) ==> Counted()
    {
      hide ValidBlocks, MemoryFits, Total, ValidRecords, EncodeAll, Run, DirtyPages, IsDirty, Be;
      RunAppends(base, es, EndSection);
      EncodeAllAppends(ps, sent, Eos);
      PayloadGrows(ps, sent, Eos);
      EosKeepsDirty(Value());
      f := f + Be(8, EOS);
      sent := sent + [Eos];
    }

    /**
     ram_save_live.  `syncOk` says whether the dirty log could be read, and
     `budget` how many pages the rate limit lets through; `es` lists the steps
     that were taken.  A negative stage cancels and touches neither memory nor
     stream; any other stage is a run of the state machine that ends a section,
     and stage 3 leaves nothing dirty.  Stage 1 must come first, because only
     it makes the first page dirty for a scan with no page sent last.
     */
    method SaveLive(stage: int, syncOk: bool, budget: nat) returns (fileError: bool, ghost es: seq<Event>)
      requires Valid() && (stage < 0 || stage == 1 || Fresh())
      modifies this, physDirty
      ensures Valid() && fileError == (stage >= 0 && !syncOk)
      ensures stage < 0 || !syncOk ==> Value() == old(Value()) && f == old(f) && prior == old(prior)
      ensures stage >= 0 && syncOk ==>
                && Following(if stage == 1 then Started(old(Value())) else old(Value()), es)
                && prior == (if stage == 1 then old(f) else old(prior))
                && |es| > 0 && es[|es| - 1].EndSection? && |sent| > 0 && sent[|sent| - 1] == Eos
      ensures syncOk && stage == 3 ==> DirtyPages(Value()) == {} && log == {}
      ensures (stage == 1 && syncOk) || old(Counted()) ==> Counted()
    {
      hide Run, DirtyPages, Started, Written, ValidSource, PossibleRun, Fresh;
      fileError, es := stage >= 0 && !syncOk, [];
      if stage >= 0 && syncOk {
        ghost var base;
        base, es := BeginStage(stage);
        es := SendWithin(budget, base, es);
        if stage == 3 {
          es := SendRest(base, es);
        }
        PutEos(base, es);
        es := es + [EndSection];
      }
    }

    /**
     The guest stores a page.  Its flags are set at once (`logged` false), or
     the page enters a log that the next synchronisation reads.
     */
    method GuestStore(p: Pos, data: Page, logged: bool)
      requires Valid() && ValidPos(blocks, p) && |data| == ps
      modifies this`mem, this`log, physDirty
      ensures Valid() && Value() == Write(old(Value()), p, data, logged)
      ensures mem.Keys == old(mem).Keys
      ensures forall id | id in mem :: mem[id] == if id == blocks[p.b].id then old(mem)[id][p.k := data] else old(mem)[id]
      ensures var n := blocks[p.b].base + p.k;
              && log == (if logged then old(log) + {n} else old(log))
              && forall m | 0 <= m < physDirty.Length :: physDirty[m] == if m == n && !logged then 0xff else old(physDirty[m])
      ensures old(Fresh()) ==> Fresh()
    {
      hide ValidBlocks, Total, Written, Bit, MemoryFits;
      ghost var s := Value();
      StepKeepsValid(s, GuestWrite(p, data, logged));
      StoreKeepsDirty(s, p, data, logged);
      var id := blocks[p.b].id;
      mem := mem[id := mem[id][p.k := data]];
      var n := blocks[p.b].base + p.k;
      if logged {
        log := log + {n};
      } else {
        physDirty[n] := 0xff;
      }
      assert physDirty[..] == Write(s, p, data, logged).flags;
    }
  }

  /** The size of the page contents among the records, as ram_save_block reports it. */
  function Payload(ps: nat, rs: seq<Record>): nat {
    if rs == [] then 0
    else
      var r := rs[|rs| - 1];
      Payload(ps, rs[..|rs| - 1]) + if r.DupPage? then 1 else if r.FullPage? then ps else 0
  }

  lemma PayloadGrows(ps: nat, rs: seq<Record>, r: Record)
    ensures Payload(ps, rs + [r]) == Payload(ps, rs) + if r.DupPage? then 1 else if r.FullPage? then ps else 0
  {
    assert (rs + [r])[..|rs|] == rs;
  }

  /**
   The bytes of a page's record: the offset in bytes with the flags in its low
   bits, CONTINUE (0x20) in place of the name when the page sent last is of the
   same block, and one byte (flag 2) for a page that repeats it or the whole
   page (flag 8) for any other.
   */
  lemma PageRecordBytes(s: Source, p: Pos, id: Id, page: Page)
    requires ValidSource(s) && ValidPos(s.blocks, p) && id == s.blocks[p.b].id && page == Content(s, p)
    requires |id| < 256 && |page| == s.ps && s.ps * p.k + 0x28 < TWO_64
    ensures ValidRecord(s.ps, RecordFor(s, p))
    ensures var same := s.last.Some? && s.last.value.b == p.b;
            var repeats := forall i | 0 <= i < s.ps :: page[i] == page[0];
            Encode(s.ps, RecordFor(s, p)) ==
            Be(8, s.ps * p.k + (if same then 0x20 else 0) + (if repeats then 0x02 else 0x08))
            + (if same then [] else [|id|] + id)
            + (if repeats then [page[0]] else page)
  {
    hide ValidBlocks, MemoryFits, Total, Be, Encode;
    RecordLayout(s.ps, p.k, id, page[0], page);
  }

  /** What one send adds to the stream. */
  lemma SentIsPayload(s: Source)
    requires ValidSource(s)
    ensures match FirstDirty(s, ScanStart(s), Total(s.blocks))
            case None => true
            case Some(p) =>
              Payload(s.ps, SendPage(s, p).sent) == Payload(s.ps, s.sent) + if IsDup(Content(s, p)) then 1 else s.ps
  {
    hide ValidBlocks, MemoryFits, Total, FirstDirty;
    var first := FirstDirty(s, ScanStart(s), Total(s.blocks));
    if first.Some? {
      PayloadGrows(s.ps, s.sent, RecordFor(s, first.value));
    }
  }

  lemma NothingWritten(ps: nat, f: seq<Byte>)
    ensures ValidRecords(ps, []) && f == f + EncodeAll(ps, [])
  {}

  /** The page is dirty, and every page between it and the start, in scan order and around the end, is clean. */
  ghost predicate FirstFrom(s: Source, start: Pos, p: Pos)
    requires ValidSource(s)
  {
    && ValidPos(s.blocks, start) && ValidPos(s.blocks, p) && IsDirty(s, p)
    && forall r | ValidPos(s.blocks, r) && Distance(s.blocks, start, r) < Distance(s.blocks, start, p) :: !IsDirty(s, r)
  }

  ghost predicate NoneDirty(s: Source)
    requires ValidSource(s)
  {
    forall r | ValidPos(s.blocks, r) :: !IsDirty(s, r)
  }

  lemma ScanFindsFirst(s: Source)
    requires ValidSource(s)
    ensures s.last.Some? && FirstDirty(s, ScanStart(s), Total(s.blocks)).Some? ==>
              FirstFrom(s, s.last.value, FirstDirty(s, ScanStart(s), Total(s.blocks)).value)
    ensures FirstDirty(s, ScanStart(s), Total(s.blocks)).None? ==> NoneDirty(s)
    ensures s.last.None? && ValidPos(s.blocks, Pos(0, 0)) && IsDirty(s, Pos(0, 0)) ==>
              FirstDirty(s, ScanStart(s), Total(s.blocks)) == Some(Pos(0, 0))
  {
    hide Distance, Total, ValidBlocks, MemoryFits, FirstDirty, Bit;
    ScanIsCyclic(s, ScanStart(s), Total(s.blocks));
    forall q | ValidPos(s.blocks, q) ensures Distance(s.blocks, ScanStart(s), q) < Total(s.blocks) {
      DistanceFromNext(s.blocks, ScanStart(s), q);
    }
    if s.last.None? && IsDirty(s, Pos(0, 0)) {
      FirstPageFound(s);
    }
  }

  lemma SendShrinks(s: Source)
    requires ValidSource(s)
    ensures ValidSource(Send(s))
    ensures DirtyPages(s) == {} ==> DirtyPages(Send(s)) == {}
    ensures DirtyPages(s) != {} ==> |DirtyPages(Send(s))| == |DirtyPages(s)| - 1 && |Send(s).sent| == |s.sent| + 1
    ensures Send(s).last.Some?
  {
    hide DirtyPages, FirstDirty, Total;
    SendKeepsValid(s);
    SendClearsOne(s);
    if FirstDirty(s, ScanStart(s), Total(s.blocks)).None? {
      SameFlagsSameDirty(s, Send(s));
    }
  }

  lemma RunOfNothing(s: Source)
    requires ValidSource(s)
    ensures PossibleRun(s, []) && Run(s, []) == s
  {}

  lemma SyncKeepsDirty(s: Source)
    requires ValidSource(s)
    ensures ValidSource(Synced(s)) && Synced(s) == Step(s, Sync) && Synced(s).log == {}
    ensures forall p | ValidPos(s.blocks, p) && IsDirty(s, p) :: IsDirty(Synced(s), p)
  {
    StepKeepsValid(s, Sync);
    FullFlagsAreDirty();
  }

  lemma EosKeepsDirty(s: Source)
    requires ValidSource(s)
    ensures var s' := s.(sent := s.sent + [Eos]);
            && ValidSource(s') && s' == Step(s, EndSection) && DirtyPages(s') == DirtyPages(s)
            && forall p | ValidPos(s.blocks, p) :: IsDirty(s', p) == IsDirty(s, p)
  {
    hide ValidBlocks, MemoryFits, Total;
    SameFlagsSameDirty(s, s.(sent := s.sent + [Eos]));
  }

  lemma EntriesSplit(ps: nat, blocks: seq<RamBlock>)
    requires blocks != [] && ValidEntries(EntriesOf(blocks))
    ensures |blocks[0].id| < 256 && ValidEntries(EntriesOf(blocks[1..]))
    ensures EncodeEntries(ps, EntriesOf(blocks))
         == IdBytes(blocks[0].id) + Be(8, ps * blocks[0].pages) + EncodeEntries(ps, EntriesOf(blocks[1..]))
  {
    hide Be, IdBytes;
    assert EntriesOf(blocks)[0] == (blocks[0].id, blocks[0].pages);
    assert EntriesOf(blocks)[1..] == EntriesOf(blocks[1..]);
    forall i | 0 <= i < |blocks| - 1
      ensures |EntriesOf(blocks[1..])[i].0| < 256 && EntriesOf(blocks[1..])[i].1 > 0
    {
      assert EntriesOf(blocks[1..])[i] == EntriesOf(blocks)[i + 1];
    }
  }

  lemma StartedIsValid(s: Source)
    requires ValidSource(s)
    ensures ValidSource(Started(s)) && Started(s).log == {} && Started(s).last == None
    ensures Synced(s) == s.(flags := Synced(s).flags, log := {})
    ensures |Synced(s).flags| == |s.flags| == |Started(s).flags|
    ensures forall p | ValidPos(Started(s).blocks, p) :: IsDirty(Started(s), p)
  {
    var d := Dest(s.ps, s.blocks, s.mem, None);
    forall b | 0 <= b < |s.blocks| ensures Known(d, s.blocks[b].id, s.blocks[b].pages) {
      FindBlockFinds(s.blocks, s.blocks[b].id);
      SameIdSameBlock(s.blocks, b, FindBlock(s.blocks, s.blocks[b].id).value);
    }
    StartedInStep(s, d);
  }

  lemma StoreKeepsDirty(s: Source, p: Pos, data: Page, logged: bool)
    requires ValidSource(s) && ValidPos(s.blocks, p) && |data| == s.ps && ValidSource(Write(s, p, data, logged))
    ensures s.blocks[p.b].id in s.mem && p.k < |s.mem[s.blocks[p.b].id]| && PageNo(s.blocks, p) < |s.flags|
    ensures forall q | ValidPos(s.blocks, q) && IsDirty(s, q) :: IsDirty(Write(s, p, data, logged), q)
  {
    hide ValidBlocks, Total;
    FullFlagsAreDirty();
    assert BlockFits(s.ps, s.mem, s.blocks[p.b]);
  }

  lemma BlocksAreSorted(s: Source)
    requires ValidSource(s)
    ensures multiset(SortBlocks(s.blocks)) == multiset(s.blocks) && Sorted(SortBlocks(s.blocks))
  {
    SortKeeps(s.blocks);
  }

  lemma SortedIsValid(s: Source, s': Source)
    requires ValidSource(s) && ValidSource(Started(s))
    requires s' == Started(s).(flags := s'.flags, sent := s'.sent) && |s'.flags| == |Started(s).flags|
    ensures ValidSource(s')
  {
    hide ValidBlocks, MemoryFits, Total, Started;
  }

  /** The dirty pages that come before page k of block b in scan order. */
  ghost function DirtyBefore(s: Source, b: nat, k: nat): set<Pos>
    requires ValidSource(s)
  {
    set p | p in DirtyPages(s) && (p.b < b || (p.b == b && p.k < k))
  }

  lemma CountFromStart(s: Source)
    requires ValidSource(s)
    ensures DirtyBefore(s, 0, 0) == {}
  {}

  lemma CountOne(s: Source, b: nat, k: nat)
    requires ValidSource(s) && ValidPos(s.blocks, Pos(b, k))
    ensures PageNo(s.blocks, Pos(b, k)) < |s.flags|
    ensures |DirtyBefore(s, b, k + 1)| == |DirtyBefore(s, b, k)| + if IsDirty(s, Pos(b, k)) then 1 else 0
  {
    hide IsDirty, ValidBlocks, MemoryFits, Total;
    var p := Pos(b, k);
    assert DirtyBefore(s, b, k + 1) == DirtyBefore(s, b, k) + if IsDirty(s, p) then {p} else {};
  }

  lemma CountNextBlock(s: Source, b: nat)
    requires ValidSource(s) && b < |s.blocks|
    ensures DirtyBefore(s, b + 1, 0) == DirtyBefore(s, b, s.blocks[b].pages)
  {}

  lemma CountToEnd(s: Source)
    requires ValidSource(s)
    ensures DirtyBefore(s, |s.blocks|, 0) == DirtyPages(s)
  {}

  lemma CoveredGrows(blocks: seq<RamBlock>, b: nat, n: nat)
    requires b < |blocks|
    ensures Covered(blocks[..b + 1], n) <==> Covered(blocks[..b], n) || blocks[b].base <= n < blocks[b].base + blocks[b].pages
  {
    if Covered(blocks[..b], n) {
      var c :| 0 <= c < b && blocks[..b][c].base <= n < blocks[..b][c].base + blocks[..b][c].pages;
      assert blocks[..b + 1][c] == blocks[..b][c];
    }
    if blocks[b].base <= n < blocks[b].base + blocks[b].pages {
      assert blocks[..b + 1][b] == blocks[b];
    }
    if Covered(blocks[..b + 1], n) {
      var c :| 0 <= c < b + 1 && blocks[..b + 1][c].base <= n < blocks[..b + 1][c].base + blocks[..b + 1][c].pages;
      assert c < b ==> blocks[..b][c] == blocks[..b + 1][c];
    }
  }

  lemma FlagsDoNotMatter(s: Source, s': Source, p: Pos)
    requires ValidSource(s) && ValidPos(s.blocks, p)
    requires |s'.flags| == |s.flags| && s' == s.(flags := s'.flags)
    ensures ValidSource(s') && RecordFor(s', p) == RecordFor(s, p)
  {
    hide ValidBlocks, MemoryFits, Total;
  }

  lemma NextIs(blocks: seq<RamBlock>, p: Pos, q: Pos)
    requires ValidBlocks(blocks) && ValidPos(blocks, p)
    requires q == if p.k + 1 < blocks[p.b].pages then Pos(p.b, p.k + 1)
                  else if p.b + 1 < |blocks| then Pos(p.b + 1, 0) else Pos(0, 0)
    ensures q == Next(blocks, p) && ValidPos(blocks, q)
  {}

  /** One turn of the scan over a clean page. */
  lemma StepAlong(s: Source, start: Pos, p: Pos, all: nat, done: nat)
    requires ValidSource(s) && ValidPos(s.blocks, start) && ValidPos(s.blocks, p) && !IsDirty(s, p)
    requires all == Total(s.blocks) && done < all && Distance(s.blocks, start, p) == done
    ensures ValidPos(s.blocks, Next(s.blocks, p))
    ensures FirstDirty(s, p, all - done) == FirstDirty(s, Next(s.blocks, p), all - done - 1)
    ensures if done + 1 == all then Next(s.blocks, p) == start
            else Distance(s.blocks, start, Next(s.blocks, p)) == done + 1
  {
    hide MemoryFits, ValidBlocks, Total;
    RankOfNext(s.blocks, p);
    RankBelowTotal(s.blocks, p);
    RankBelowTotal(s.blocks, start);
    if Rank(s.blocks, Next(s.blocks, p)) == Rank(s.blocks, start) {
      RankIsInjective(s.blocks, Next(s.blocks, p), start);
    }
  }

  lemma PageSizeIsWords(ps: nat)
    requires ps % 64 == 0
    ensures ps % 4 == 0
  {
    assert ps == 4 * (16 * (ps / 64));
  }

  lemma DupEitherWay(page: Page)
    requires |page| > 0
    ensures IsDup(page) <==> page == Filled(|page|, page[0])
  {
    if page == Filled(|page|, page[0]) {
      assert forall i | 0 <= i < |page| :: page[i] == Filled(|page|, page[0])[i];
    }
  }

  /** The flags after the pages of the blocks have been marked where they were not. */
  ghost predicate MarkedOver(blocks: seq<RamBlock>, was: seq<Byte>, now: seq<Byte>) {
    |now| == |was| && forall n | 0 <= n < |was| :: now[n] == if Covered(blocks, n) && !Bit(was[n], MIGRATION_BIT) then 0xff else was[n]
  }

  lemma NothingMarked(blocks: seq<RamBlock>, was: seq<Byte>)
    ensures MarkedOver(blocks[..0], was, was)
  {}

  lemma OneMoreBlockMarked(blocks: seq<RamBlock>, b: nat, was: seq<Byte>, mid: seq<Byte>, now: seq<Byte>)
    requires b < |blocks| && MarkedOver(blocks[..b], was, mid) && |now| == |mid|
    requires forall n | 0 <= n < |mid| ::
               now[n] == if blocks[b].base <= n < blocks[b].base + blocks[b].pages && !Bit(mid[n], MIGRATION_BIT) then 0xff else mid[n]
    ensures MarkedOver(blocks[..b + 1], was, now)
  {
    hide Bit, Covered;
    FullFlagsAreDirty();
    forall n | 0 <= n < |was|
      ensures now[n] == if Covered(blocks[..b + 1], n) && !Bit(was[n], MIGRATION_BIT) then 0xff else was[n]
    {
      CoveredGrows(blocks, b, n);
    }
  }

  lemma AllBlocksMarked(blocks: seq<RamBlock>, was: seq<Byte>, now: seq<Byte>)
    requires MarkedOver(blocks, was, now)
    ensures now == AllDirty(blocks, was)
  {
    hide Bit, Covered;
  }

  lemma FlagsKeepValid(s: Source, s': Source)
    requires ValidSource(s) && |s'.flags| == |s.flags| && s' == s.(flags := s'.flags)
    ensures ValidSource(s')
  {
    hide ValidBlocks, MemoryFits, Total;
  }

  lemma NamesAreShort(blocks: seq<RamBlock>, b: nat)
    requires ValidBlocks(blocks) && b < |blocks|
    ensures |blocks[b].id| < 256
  {}
}
