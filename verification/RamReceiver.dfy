/**
 The receiving side of RAM migration: ram_load with its static block pointer,
 reading one section of the stream and storing pages as it goes.
 */
module RamReceiver {
  import opened Basics
  import opened Bits
  import opened RamModel
  import opened RamStream

  class Receiver {
    const ps: nat
    var blocks: seq<RamBlock>
    var mem: Memory
    var block: Option<Id>

    ghost function Value(): Dest
      reads this
    {
      Dest(ps, blocks, mem, block)
    }

    /** One entry of the sender's block list, checked against our own; what is then left of the total. */
    method CheckEntry(f: seq<Byte>, total: nat) returns (r: Loaded<(nat, seq<Byte>)>)
      ensures r == EntryStep(Value(), f, total)
    {
      hide BeValue, FindBlock;
      var id := GetId(f);
      if id.Err? { return Err(id.why); }
      var length := GetBe64(id.value.1);
      if length.Err? { return Err(length.why); }
      var b := FindBlock(blocks, id.value.0);
      FindBlockFinds(blocks, id.value.0);
      if b.None? || ps * blocks[b.value].pages != length.value.0 { return Err(Inval); }
      return Ok(((total + TWO_64 - length.value.0 % TWO_64) % TWO_64, length.value.1));
    }

    /** The loop that checks the block list, until the total is used up. */
    method CheckBlockList(f: seq<Byte>, addr: nat) returns (r: Loaded<seq<Byte>>)
      ensures r == LoadEntries(Value(), f, addr)
    {
      hide LoadEntries, EntryStep;
      var total: nat := addr;
      var rest := f;
      while total != 0
        invariant LoadEntries(Value(), f, addr) == LoadEntries(Value(), rest, total)
        decreases |rest|
      {
        LoadEntriesStep(Value(), rest, total);
        var next := CheckEntry(rest, total);
        if next.Err? { return Err(next.why); }
        total, rest := next.value.0, next.value.1;
      }
      NoMoreEntries(Value(), rest);
      return Ok(rest);
    }

    /** host_from_stream_offset: leaves the block found, or no block, in the static pointer. */
    method HostFromStream(f: seq<Byte>, cont: bool) returns (r: Loaded<(Option<Id>, seq<Byte>)>)
      modifies this`block
      ensures r == HostBlock(old(Value()), f, cont)
      ensures r.Ok? ==> block == r.value.0
    {
      if cont {
        return Ok((block, f));
      }
      var id := GetId(f);
      if id.Err? { return Err(id.why); }
      block := if FindBlock(blocks, id.value.0).Some? then Some(id.value.0) else None;
      return Ok((block, id.value.1));
    }

    /** Writes one page of host memory. */
    method Store(host: Option<Id>, k: nat, data: Page, ifNull: Failure) returns (r: Loaded<()>)
      requires block == host
      modifies this`mem
      ensures match StorePage(old(Value()), host, k, data, ifNull)
              case Ok(d) => r == Ok(()) && Value() == d
              case Err(why) => r == Err(why)
    {
      if host.None? {
        return Err(ifNull);
      }
      if host.value !in mem || k >= |mem[host.value]| {
        return Err(Crash);
      }
      mem := mem[host.value := mem[host.value][k := data]];
      return Ok(());
    }

    method ReceiveDup(f: seq<Byte>, k: nat, cont: bool) returns (r: Loaded<seq<Byte>>)
      modifies this
      ensures match LoadDup(old(Value()), f, k, cont)
              case Ok((d, rest)) => r == Ok(rest) && Value() == d
              case Err(why) => r == Err(why)
    {
      var host := HostFromStream(f, cont);
      if host.Err? { return Err(host.why); }
      if host.value.0.None? { return Err(Inval); }
      var ch := Take(host.value.1, 1);
      if ch.Err? { return Err(ch.why); }
      var stored := Store(host.value.0, k, Filled(ps, ch.value.0[0]), Inval);
      if stored.Err? { return Err(stored.why); }
      return Ok(ch.value.1);
    }

    method ReceivePage(f: seq<Byte>, k: nat, cont: bool) returns (r: Loaded<seq<Byte>>)
      modifies this
      ensures match LoadFull(old(Value()), f, k, cont)
              case Ok((d, rest)) => r == Ok(rest) && Value() == d
              case Err(why) => r == Err(why)
    {
      var host := HostFromStream(f, cont);
      if host.Err? { return Err(host.why); }
      var data := Take(host.value.1, ps);
      if data.Err? { return Err(data.why); }
      var stored := Store(host.value.0, k, data.value.0, Crash);
      if stored.Err? { return Err(stored.why); }
      return Ok(data.value.1);
    }

    /** qemu_get_ram_ptr: finds the block by address and moves it to the front; aborts if there is none. */
    method GetRamPtr(n: nat) returns (r: Loaded<(Id, nat)>)
      modifies this`blocks
      ensures match HostAt(old(Value()), n)
              case Ok((d, id, k)) => r == Ok((id, k)) && Value() == d
              case Err(why) => r == Err(why)
    {
      var i := BlockAt(blocks, n);
      if i.None? { return Err(Crash); }
      var b := blocks[i.value];
      blocks := ToFront(blocks, i.value);
      return Ok((b.id, n - b.base));
    }

    /** A page of a version 3 stream, named by its address. */
    method ReceiveAt(f: seq<Byte>, n: nat, dup: bool) returns (r: Loaded<seq<Byte>>)
      modifies this
      ensures match LoadAt(old(Value()), f, n, dup)
              case Ok((d, rest)) => r == Ok(rest) && Value() == d
              case Err(why) => r == Err(why)
    {
      hide BlockAt, ToFront;
      var host := GetRamPtr(n);
      if host.Err? { return Err(host.why); }
      var (id, k) := host.value;
      var data := Take(f, if dup then 1 else ps);
      if data.Err? { return Err(data.why); }
      if id !in mem || k >= |mem[id]| { return Err(Crash); }
      mem := mem[id := mem[id][k := if dup then Filled(ps, data.value.0[0]) else data.value.0]];
      return Ok(data.value.1);
    }

    /** What version 4 does after the tag. */
    method ReceiveBody(f: seq<Byte>, flags: nat, addr: nat, k: nat) returns (r: Loaded<seq<Byte>>)
      modifies this
      ensures match LoadBody(old(Value()), flags, addr, k, f)
              case Ok((d, rest, _)) => r == Ok(rest) && Value() == d
              case Err(why) => r == Err(why)
    {
      hide Bit, LoadEntries, LoadDup, LoadFull;
      var rest := f;
      if Bit(flags, 2) {
        var list := CheckBlockList(rest, addr);
        if list.Err? { return Err(list.why); }
        rest := list.value;
      }
      if Bit(flags, 1) {
        rest :- ReceiveDup(rest, k, Bit(flags, 5));
      } else if Bit(flags, 3) {
        rest :- ReceivePage(rest, k, Bit(flags, 5));
      }
      return Ok(rest);
    }

    /** What version 3 does after the tag. */
    method ReceiveBody3(f: seq<Byte>, flags: nat, addr: nat, n: nat) returns (r: Loaded<seq<Byte>>)
      modifies this
      ensures match LoadBody3(old(Value()), flags, addr, n, f)
              case Ok((d, rest, _)) => r == Ok(rest) && Value() == d
              case Err(why) => r == Err(why)
    {
      hide Bit, LoadAt, Total;
      if Bit(flags, 2) && addr != ps * Total(blocks) {
        return Err(Inval);
      }
      var rest := f;
      if Bit(flags, 1) {
        rest :- ReceiveAt(rest, n, true);
      } else if Bit(flags, 3) {
        rest :- ReceiveAt(rest, n, false);
      }
      return Ok(rest);
    }

    /** One turn of the loop in ram_load. */
    method ReceiveRecord(f: seq<Byte>, version: int) returns (r: Loaded<(seq<Byte>, bool)>)
      requires ps > 0 && 3 <= version <= 4
      modifies this
      ensures match (if version == 3 then LoadRecord3(old(Value()), f) else LoadRecord(old(Value()), f))
              case Ok((d, rest, eos)) => r == Ok((rest, eos)) && Value() == d
              case Err(why) => r == Err(why)
    {
      hide Bit, BeValue, LoadEntries, LoadDup, LoadFull, LoadAt, Total;
      var tag := GetBe64(f);
      if tag.Err? { return Err(tag.why); }
      var v, rest := tag.value.0, tag.value.1;
      var flags := v % ps;
      if version == 3 {
        rest :- ReceiveBody3(rest, flags, PageMasked(ps, v), v / ps);
      } else {
        rest :- ReceiveBody(rest, flags, PageMasked(ps, v), v / ps);
      }
      return Ok((rest, Bit(flags, 4)));
    }

    /** ram_load: one section, ending with EOS. */
    method Load(f: seq<Byte>, version: int) returns (r: Loaded<seq<Byte>>)
      requires ps > 0
      modifies this
      ensures version < 3 || version > 4 ==> r == Err(Inval) && Value() == old(Value())
      ensures 3 <= version <= 4 ==>
                match (if version == 3 then LoadSection3(old(Value()), f) else LoadSection(old(Value()), f))
                case Ok((d, rest)) => r == Ok(rest) && Value() == d
                case Err(why) => r == Err(why)
    {
      if version < 3 || version > 4 {
        return Err(Inval);
      }
      hide LoadRecord, LoadRecord3;
      var rest := f;
      ghost var d0 := Value();
      while true
        invariant version == 4 ==> LoadSection(d0, f) == LoadSection(Value(), rest)
        invariant version == 3 ==> LoadSection3(d0, f) == LoadSection3(Value(), rest)
        decreases |rest|
      {
        var one := ReceiveRecord(rest, version);
        if one.Err? { return Err(one.why); }
        rest := one.value.0;
        if one.value.1 { return Ok(rest); }
      }
    }

    /** Calls ram_load until the stream is used up. */
    method LoadStream(f: seq<Byte>) returns (r: Loaded<()>)
      requires ps > 0
      modifies this
      ensures match Replay(old(Value()), f)
              case Ok(d) => r == Ok(()) && Value() == d
              case Err(why) => r == Err(why)
    {
      hide LoadSection;
      var rest := f;
      ghost var d0 := Value();
      while rest != []
        invariant Replay(d0, f) == Replay(Value(), rest)
        decreases |rest|
      {
        rest :- Load(rest, 4);
      }
      return Ok(());
    }
  }

  // ----- version 3 streams, which name a page by its address

  /** The first block that holds page n. */
  function BlockAt(blocks: seq<RamBlock>, n: nat): (r: Option<nat>)
    ensures r.Some? ==> r.value < |blocks| && blocks[r.value].base <= n < blocks[r.value].base + blocks[r.value].pages
  {
    if blocks == [] then None
    else if blocks[0].base <= n < blocks[0].base + blocks[0].pages then Some(0)
    else match BlockAt(blocks[1..], n)
         case None => None
         case Some(i) => Some(i + 1)
  }

  function ToFront(blocks: seq<RamBlock>, i: nat): seq<RamBlock>
    requires i < |blocks|
  {
    [blocks[i]] + blocks[..i] + blocks[i + 1..]
  }

  function HostAt(d: Dest, n: nat): (r: Loaded<(Dest, Id, nat)>)
    ensures r.Ok? ==> r.value.0.ps == d.ps && r.value.0.mem == d.mem
  {
    match BlockAt(d.blocks, n)
    case None => Err(Crash)
    case Some(i) => Ok((d.(blocks := ToFront(d.blocks, i)), d.blocks[i].id, n - d.blocks[i].base))
  }

  function LoadAt(d: Dest, f: seq<Byte>, n: nat, dup: bool): (r: Loaded<(Dest, seq<Byte>)>)
    ensures r.Ok? ==> |r.value.1| <= |f| && r.value.0.ps == d.ps
  {
    var (d, id, k) :- HostAt(d, n);
    var (data, f) :- Take(f, if dup then 1 else d.ps);
    if id !in d.mem || k >= |d.mem[id]| then Err(Crash)
    else Ok((d.(mem := d.mem[id := d.mem[id][k := if dup then Filled(d.ps, data[0]) else data]]), f))
  }

  function LoadBody3(d: Dest, flags: nat, addr: nat, n: nat, f: seq<Byte>): (r: Loaded<(Dest, seq<Byte>, bool)>)
    ensures r.Ok? ==> |r.value.1| <= |f| && r.value.0.ps == d.ps
  {
    if Bit(flags, 2) && addr != d.ps * Total(d.blocks) then Err(Inval)
    else
      var (d', f) :-
        if Bit(flags, 1) then LoadAt(d, f, n, true)
        else if Bit(flags, 3) then LoadAt(d, f, n, false)
        else Ok((d, f));
      Ok((d', f, Bit(flags, 4)))
  }

  function LoadRecord3(d: Dest, f: seq<Byte>): (r: Loaded<(Dest, seq<Byte>, bool)>)
    requires d.ps > 0
    ensures r.Ok? ==> |r.value.1| < |f| && r.value.0.ps == d.ps
  {
    var (v, f) :- GetBe64(f);
    LoadBody3(d, v % d.ps, PageMasked(d.ps, v), v / d.ps, f)
  }

  function LoadSection3(d: Dest, f: seq<Byte>): (r: Loaded<(Dest, seq<Byte>)>)
    requires d.ps > 0
    ensures r.Ok? ==> |r.value.1| < |f| && r.value.0.ps == d.ps
    decreases |f|
  {
    var (d', f', eos) :- LoadRecord3(d, f);
    if eos then Ok((d', f')) else LoadSection3(d', f')
  }

  lemma {:induction false} BlockAtPage(blocks: seq<RamBlock>, p: Pos)
    requires ValidBlocks(blocks) && ValidPos(blocks, p)
    ensures BlockAt(blocks, PageNo(blocks, p)) == Some(p.b)
  {
    BlockAtFound(blocks, p.b, PageNo(blocks, p));
    var i := BlockAt(blocks, PageNo(blocks, p)).value;
    DistinctPages(blocks, p, Pos(i, PageNo(blocks, p) - blocks[i].base));
  }

  lemma {:induction false} BlockAtFound(blocks: seq<RamBlock>, b: nat, n: nat)
    requires b < |blocks| && blocks[b].base <= n < blocks[b].base + blocks[b].pages
    ensures BlockAt(blocks, n).Some?
  {
    if b > 0 {
      BlockAtFound(blocks[1..], b - 1, n);
    }
  }

  lemma ToFrontPermutes(blocks: seq<RamBlock>, i: nat)
    requires i < |blocks|
    ensures multiset(ToFront(blocks, i)) == multiset(blocks)
  {
    assert blocks == blocks[..i] + [blocks[i]] + blocks[i + 1..];
  }

  /**
   A version 3 record for a page, short or whole, stores what the version 4
   record naming that page's block stores; only the order of the blocks changes.
   */
  lemma Version3StoresTheSame(d: Dest, p: Pos, dup: bool, data: seq<Byte>, rest: seq<Byte>)
    requires 64 <= d.ps && ValidBlocks(d.blocks) && MemoryFits(d.ps, d.blocks, d.mem) && ValidPos(d.blocks, p)
    requires |data| == (if dup then 1 else d.ps) && d.ps * PageNo(d.blocks, p) + PAGE < TWO_64
    ensures var got := LoadRecord3(d, Be(8, d.ps * PageNo(d.blocks, p) + if dup then COMPRESS else PAGE) + data + rest);
            var id := d.blocks[p.b].id;
            var want := Apply(d, if dup then DupPage(p.k, false, id, data[0]) else FullPage(p.k, false, id, data));
            && got.Ok? && want.Ok? && got.value.1 == rest && !got.value.2
            && got.value.0.mem == want.value.mem && multiset(got.value.0.blocks) == multiset(d.blocks)
  {
    hide Be, BeValue, Bit, ToFront, BlockAt, AllCompatible, FindBlock;
    var n, flag := PageNo(d.blocks, p), if dup then COMPRESS else PAGE;
    assert Be(8, d.ps * n + flag) + data + rest == Be(8, d.ps * n + flag) + (data + rest);
    GetBe64Back(d.ps * n + flag, data + rest);
    TagSplits(d.ps, n, flag);
    FlagValues();
    TakeBack(data, rest);
    BlockAtPage(d.blocks, p);
    ToFrontPermutes(d.blocks, p.b);
    FindBlockFinds(d.blocks, d.blocks[p.b].id);
    assert BlockFits(d.ps, d.mem, d.blocks[p.b]);
  }

  /** A version 3 stream names no blocks; its length must be that of all our blocks together. */
  lemma Version3ChecksTotal(d: Dest, pages: nat, rest: seq<Byte>)
    requires 64 <= d.ps && d.ps * pages + MEM_SIZE < TWO_64
    ensures LoadRecord3(d, Be(8, d.ps * pages + MEM_SIZE) + rest)
         == if pages == Total(d.blocks) then Ok((d, rest, false)) else Err(Inval)
    ensures LoadRecord3(d, Be(8, EOS) + rest) == Ok((d, rest, true))
  {
    hide Be, BeValue, Bit, Total;
    GetBe64Back(d.ps * pages + MEM_SIZE, rest);
    GetBe64Back(EOS, rest);
    TagSplits(d.ps, pages, MEM_SIZE);
    TagSplits(d.ps, 0, EOS);
    FlagValues();
    SameProduct(d.ps, pages, Total(d.blocks));
  }

  /** What one entry leaves of the total and of the stream. */
  function EntryStep(d: Dest, f: seq<Byte>, total: nat): Loaded<(nat, seq<Byte>)> {
    var (id, f1) :- GetId(f);
    var (length, f2) :- GetBe64(f1);
    match FindBlock(d.blocks, id)
    case None => Err(Inval)
    case Some(i) =>
      FindBlockFinds(d.blocks, id);
      if d.ps * d.blocks[i].pages != length then Err(Inval)
      else Ok(((total + TWO_64 - length % TWO_64) % TWO_64, f2))
  }

  lemma LoadEntriesStep(d: Dest, f: seq<Byte>, total: nat)
    requires total != 0
    ensures match EntryStep(d, f, total)
            case Err(why) => LoadEntries(d, f, total) == Err(why)
            case Ok(next) => LoadEntries(d, f, total) == LoadEntries(d, next.1, next.0) && |next.1| < |f|
  {
    hide BeValue, FindBlock;
  }
}
