/**
 block_load: the receiver of block migration, which finds the device by its
 name and writes each chunk, cut to what is left of the device.
 */
module BlockReceiver {
  import opened Basics
  import opened Bits
  import opened BlockMigration
  import opened BlockMigrationExact
  import opened BlockStream
  import R = RamStream

  /** bdrv_find: the first device with the name, or -1. */
  function Find(names: seq<Name>, name: Name): (r: int)
    ensures -1 <= r < |names|
    ensures r >= 0 ==> names[r] == name && forall j | 0 <= j < r :: names[j] != name
    ensures r < 0 ==> name !in names
  {
    if names == [] then -1
    else if names[0] == name then 0
    else var r := Find(names[1..], name); if r < 0 then -1 else r + 1
  }

  /** The number of sectors block_load takes from a buffer; negative beyond the end. */
  function Cut(total: nat, addr: nat): int { Min(CHUNK, total - addr) }

  datatype Outcome = Outcome(disks: seq<Disk>, ret: int)

  /** One block; a write that starts beyond the end of the device is refused. */
  function ReceiveBlock(names: seq<Name>, disks: seq<Disk>, it: Item): (o: Outcome)
    requires |names| == |disks| && it.block
    ensures |o.disks| == |disks| && o.ret <= 0
  {
    var d := Find(names, it.name);
    if d < 0 || |disks[d]| == 0 then Outcome(disks, -EINVAL)
    else if it.addr > |disks[d]| then Outcome(disks, -EIO)
    else Outcome(disks[d := Overwrite(disks[d], it.addr, it.buf[..Cut(|disks[d]|, it.addr)])], 0)
  }

  function ReceiveItem(names: seq<Name>, disks: seq<Disk>, it: Item): (o: Outcome)
    requires |names| == |disks|
    ensures |o.disks| == |disks|
  {
    if it.block then ReceiveBlock(names, disks, it)
    else Outcome(disks, if it.progress || it.eos then 0 else -EINVAL)
  }

  /** What the items of a section do; one that ends without its end mark reads as an item without flags. */
  function Receive(names: seq<Name>, disks: seq<Disk>, items: seq<Item>): (r: Outcome)
    requires |names| == |disks|
    ensures |r.disks| == |disks|
    decreases |items|
  {
    if items == [] then Outcome(disks, -EINVAL)
    else
      var o := ReceiveItem(names, disks, items[0]);
      if o.ret < 0 || items[0].eos then o else Receive(names, o.disks, items[1..])
  }

  /** The same on bytes, with the rest of the stream; one that ends inside an item is an I/O error. */
  function ReceiveBytes(names: seq<Name>, disks: seq<Disk>, f: seq<Byte>): (r: (Outcome, seq<Byte>))
    requires |names| == |disks|
    ensures |r.0.disks| == |disks| && (r.0.ret >= 0 ==> |r.1| < |f|)
    decreases |f|
  {
    match Decode(f)
    case Err(_) => (Outcome(disks, -EIO), f)
    case Ok((it, rest)) =>
      var o := ReceiveItem(names, disks, it);
      if o.ret < 0 || it.eos then (o, rest) else ReceiveBytes(names, o.disks, rest)
  }

  /** block_load is called once for each section, and a migration ends at the first error. */
  function Replay(names: seq<Name>, disks: seq<Disk>, f: seq<Byte>): (r: Outcome)
    requires |names| == |disks|
    ensures |r.disks| == |disks|
    decreases |f|
  {
    if f == [] then Outcome(disks, 0)
    else
      var (o, rest) := ReceiveBytes(names, disks, f);
      if o.ret < 0 then o else Replay(names, o.disks, rest)
  }

  /**
   What one item does: exactly the sectors of the block that lie on the first
   device of its name change, and everything else is an error with its code.
   */
  lemma ItemEffect(names: seq<Name>, disks: seq<Disk>, it: Item)
    requires |names| == |disks|
    ensures !it.block ==> ReceiveItem(names, disks, it) == Outcome(disks, if it.progress || it.eos then 0 else -22)
    ensures it.block && it.name !in names ==> ReceiveItem(names, disks, it) == Outcome(disks, -22)
    ensures it.block ==>
              forall d | 0 <= d < |names| && names[d] == it.name && (forall j | 0 <= j < d :: names[j] != it.name) ::
                BlockLands(disks, ReceiveItem(names, disks, it), it, d)
  {
    hide Overwrite, Find, ReceiveBlock;
    if it.block {
      NoDevice(names, disks, it);
      forall d | 0 <= d < |names| && names[d] == it.name && (forall j | 0 <= j < d :: names[j] != it.name)
        ensures BlockLands(disks, ReceiveBlock(names, disks, it), it, d)
      {
        FirstOfName(names, it.name, d);
        LandsOnFound(names, disks, it, d);
      }
    }
  }

  /** A block for a device of some length: what it changes, or why it is refused. */
  ghost predicate BlockLands(disks: seq<Disk>, o: Outcome, it: Item, d: nat)
    requires d < |disks| && it.block
  {
    if |disks[d]| == 0 then o == Outcome(disks, -22)
    else if it.addr > |disks[d]| then o == Outcome(disks, -5)
    else
      && |o.disks| == |disks| && o.ret == 0 && o.disks == disks[d := o.disks[d]] && |o.disks[d]| == |disks[d]|
      && forall s | 0 <= s < |disks[d]| ::
           o.disks[d][s] == if it.addr <= s < it.addr + CHUNK then it.buf[s - it.addr] else disks[d][s]
  }

  lemma NoDevice(names: seq<Name>, disks: seq<Disk>, it: Item)
    requires |names| == |disks| && it.block
    ensures it.name !in names ==> ReceiveBlock(names, disks, it) == Outcome(disks, -22)
  {}

  lemma FirstOfName(names: seq<Name>, name: Name, d: nat)
    requires d < |names| && names[d] == name && forall j | 0 <= j < d :: names[j] != name
    ensures Find(names, name) == d
  {
    var r := Find(names, name);
    assert r >= 0 && !(r < d) && !(d < r);
  }

  lemma LandsOnFound(names: seq<Name>, disks: seq<Disk>, it: Item, d: nat)
    requires |names| == |disks| && it.block && d < |names| && Find(names, it.name) == d
    ensures BlockLands(disks, ReceiveBlock(names, disks, it), it, d)
  {
    hide Overwrite, Find;
    if 0 < |disks[d]| && it.addr <= |disks[d]| {
      OverwriteAt(disks[d], it.addr, it.buf[..Cut(|disks[d]|, it.addr)]);
    }
  }

  lemma OverwriteAt(disk: Disk, sector: nat, data: seq<Sector>)
    requires sector + |data| <= |disk|
    ensures |Overwrite(disk, sector, data)| == |disk|
    ensures forall s | 0 <= s < |disk| ::
              Overwrite(disk, sector, data)[s] == if sector <= s < sector + |data| then data[s - sector] else disk[s]
  {}

  /** Where a section ends: at its end mark, at an item that is refused, or inside an item. */
  lemma SectionEnds(names: seq<Name>, disks: seq<Disk>, f: seq<Byte>)
    requires |names| == |disks|
    ensures Decode(f).Err? ==> ReceiveBytes(names, disks, f) == (Outcome(disks, -5), f)
    ensures Decode(f).Ok? ==>
              var (it, rest) := Decode(f).value;
              var o := ReceiveItem(names, disks, it);
              ReceiveBytes(names, disks, f) == if o.ret == 0 && !it.eos then ReceiveBytes(names, o.disks, rest) else (o, rest)
  {}

  class Receiver {
    const names: seq<Name>
    var disks: seq<Disk>

    constructor (names: seq<Name>, disks: seq<Disk>)
      requires |names| == |disks|
      ensures this.names == names && this.disks == disks
    {
      this.names, this.disks := names, disks;
    }

    /**
     A block: its device is looked up, and its length unless it is the device
     of the block before, whose length `total` is remembered.
     */
    method LoadBlock(it: Item, prev: int, total: nat) returns (ret: int, prev': int, total': nat)
      requires |names| == |disks| && it.block
      requires -1 <= prev < |disks| && (prev >= 0 ==> total == |disks[prev]| && total > 0)
      modifies this`disks
      ensures Outcome(disks, ret) == ReceiveBlock(names, old(disks), it) && |disks| == |names|
      ensures ret >= 0 ==> 0 <= prev' < |disks| && total' == |disks[prev']| && total' > 0
    {
      hide Overwrite, Find;
      prev', total' := prev, total;
      var d := Find(names, it.name);
      if d < 0 { return -EINVAL, prev', total'; }
      if d != prev' {
        prev' := d;
        total' := |disks[d]|;
        if total' <= 0 { return -EINVAL, prev', total'; }
      }
      if it.addr > total' { return -EIO, prev', total'; }
      var n := if total' - it.addr < CHUNK then total' - it.addr else CHUNK;
      OverwriteKeepsLength(disks[d], it.addr, it.buf[..n]);
      disks := disks[d := Overwrite(disks[d], it.addr, it.buf[..n])];
      ret := 0;
    }

    /** block_load: items up to the end mark. */
    method Load(f: seq<Byte>) returns (ret: int, rest: seq<Byte>)
      requires |names| == |disks|
      modifies this`disks
      ensures (Outcome(disks, ret), rest) == ReceiveBytes(names, old(disks), f) && |disks| == |names|
    {
      hide ReceiveBlock, Decode;
      var prev, total := -1, 0;
      rest := f;
      while true
        invariant |disks| == |names| && -1 <= prev < |disks| && (prev >= 0 ==> total == |disks[prev]| && total > 0)
        invariant ReceiveBytes(names, disks, rest) == ReceiveBytes(names, old(disks), f)
        decreases |rest|
      {
        var got := Decode(rest);
        if got.Err? { return -EIO, rest; }
        var (it, left) := got.value;
        rest := left;
        if it.block {
          ret, prev, total := LoadBlock(it, prev, total);
          if ret < 0 { return; }
        } else if !it.progress && !it.eos {
          return -EINVAL, rest;
        }
        if it.eos { return 0, rest; }
      }
    }

    /** Calls block_load until the stream is used up. */
    method LoadStream(f: seq<Byte>) returns (ret: int)
      requires |names| == |disks|
      modifies this`disks
      ensures Outcome(disks, ret) == Replay(names, old(disks), f) && |disks| == |names|
    {
      hide ReceiveBytes;
      var rest := f;
      ret := 0;
      while rest != []
        invariant |disks| == |names| && ret == 0 && Replay(names, disks, rest) == Replay(names, old(disks), f)
        decreases |rest|
      {
        ret, rest := Load(rest);
        if ret < 0 { return; }
        ret := 0;
      }
    }
  }

  // ----- the stream the sender writes

  ghost predicate Distinct(names: seq<Name>) {
    forall i, j | 0 <= i < j < |names| :: names[i] != names[j]
  }

  predicate Loadable(disks: seq<Disk>, r: Record) {
    r.dev < |disks| && r.c < ChunkCount(|disks[r.dev]|) && |r.buf| == CHUNK
  }

  /** blk_send */
  function ItemOf(names: seq<Name>, r: Record): Item
    requires r.dev < |names| && |r.buf| == CHUNK
  {
    Item(true, false, false, r.c * CHUNK, names[r.dev], r.buf)
  }

  function Progress(percent: nat): Item { Item(false, false, true, percent, [], []) }

  const EOS: Item := Item(false, true, false, 0, [], [])

  ghost predicate LoadablePieces(disks: seq<Disk>, ps: seq<Piece>) {
    forall i | 0 <= i < |ps| && ps[i].Block? :: Loadable(disks, ps[i].r)
  }

  function SectionItems(names: seq<Name>, ps: seq<Piece>): seq<Item>
    requires forall i | 0 <= i < |ps| && ps[i].Block? :: ps[i].r.dev < |names| && |ps[i].r.buf| == CHUNK
  {
    if ps == [] then [EOS]
    else [match ps[0] case Block(r) => ItemOf(names, r) case Percent(n) => Progress(n)] + SectionItems(names, ps[1..])
  }

  lemma NameFindsDevice(names: seq<Name>, d: nat)
    requires Distinct(names) && d < |names|
    ensures Find(names, names[d]) == d
  {
    var r := Find(names, names[d]);
    assert r >= 0;
  }

  lemma BlockIsLoaded(names: seq<Name>, disks: seq<Disk>, r: Record)
    requires |names| == |disks| && Distinct(names) && Loadable(disks, r)
    ensures ReceiveBlock(names, disks, ItemOf(names, r)) == Outcome(Load(disks, r), 0)
  {
    NameFindsDevice(names, r.dev);
  }

  /** LoadAll from the front. */
  lemma {:induction false} LoadAllPrepends(disks: seq<Disk>, r: Record, rs: seq<Record>)
    ensures LoadAll(disks, [r] + rs) == LoadAll(Load(disks, r), rs)
    decreases |rs|
  {
    hide Load;
    if rs == [] {
      assert [r] + rs == [r] && [r][..0] == [];
    } else {
      var n := |rs| - 1;
      LoadAllPrepends(disks, r, rs[..n]);
      assert ([r] + rs)[..n + 1] == [r] + rs[..n];
    }
  }

  /**
   A section with any mixture of blocks and progress items is consumed without
   error up to its end mark, and the disks become what its blocks say.
   */
  lemma {:induction false} SectionIsLoaded(names: seq<Name>, disks: seq<Disk>, ps: seq<Piece>)
    requires |names| == |disks| && Distinct(names) && LoadablePieces(disks, ps)
    ensures Receive(names, disks, SectionItems(names, ps)) == Outcome(LoadAll(disks, Blocks(ps)), 0)
    decreases |ps|
  {
    hide Load, LoadAll, ReceiveBlock, Distinct;
    var items := SectionItems(names, ps);
    if ps == [] {
      NothingLoaded(disks);
      assert items == [EOS] && Blocks(ps) == [];
      assert Receive(names, disks, [EOS]) == Outcome(disks, 0);
    } else {
      assert items[1..] == SectionItems(names, ps[1..]);
      match ps[0]
      case Percent(_) =>
        SectionIsLoaded(names, disks, ps[1..]);
        assert Blocks(ps) == Blocks(ps[1..]);
      case Block(r) =>
        BlockIsLoaded(names, disks, r);
        LoadKeepsShape(disks, r);
        SectionIsLoaded(names, Load(disks, r), ps[1..]);
        LoadAllPrepends(disks, r, Blocks(ps[1..]));
    }
  }

  // ----- section after section

  /** The effect of sections, one after the other up to the first error. */
  function ReceiveAll(names: seq<Name>, disks: seq<Disk>, sections: seq<seq<Item>>): (r: Outcome)
    requires |names| == |disks|
    ensures |r.disks| == |disks|
    decreases |sections|
  {
    if sections == [] then Outcome(disks, 0)
    else
      var o := Receive(names, disks, sections[0]);
      if o.ret < 0 then o else ReceiveAll(names, o.disks, sections[1..])
  }

  ghost predicate LoadableSections(disks: seq<Disk>, ss: seq<seq<Piece>>) {
    forall i | 0 <= i < |ss| :: LoadablePieces(disks, ss[i])
  }

  /** Every block is a whole chunk of a device that has a name. */
  predicate NamesDevices(names: seq<Name>, ss: seq<seq<Piece>>) {
    forall k, i | 0 <= k < |ss| && 0 <= i < |ss[k]| && ss[k][i].Block? :: ss[k][i].r.dev < |names| && |ss[k][i].r.buf| == CHUNK
  }

  function Stream(names: seq<Name>, ss: seq<seq<Piece>>): seq<seq<Item>>
    requires NamesDevices(names, ss)
  {
    if ss == [] then [] else [SectionItems(names, ss[0])] + Stream(names, ss[1..])
  }

  lemma {:induction false} LoadAllConcat(disks: seq<Disk>, a: seq<Record>, b: seq<Record>)
    ensures LoadAll(disks, a + b) == LoadAll(LoadAll(disks, a), b)
    decreases |b|
  {
    hide Load;
    if b == [] {
      assert a + b == a;
    } else {
      var n := |b| - 1;
      LoadAllConcat(disks, a, b[..n]);
      assert (a + b)[..|a| + n] == a + b[..n];
    }
  }

  lemma SameShapeSameLoadable(disks: seq<Disk>, disks': seq<Disk>, ss: seq<seq<Piece>>)
    requires |disks| == |disks'| && forall d | 0 <= d < |disks| :: |disks[d]| == |disks'[d]|
    requires LoadableSections(disks, ss)
    ensures LoadableSections(disks', ss)
  {
    forall i | 0 <= i < |ss| ensures LoadablePieces(disks', ss[i]) {
      assert LoadablePieces(disks, ss[i]);
    }
  }

  /** A whole stream, cut into sections anywhere, has the effect of its blocks. */
  lemma {:induction false} StreamIsLoaded(names: seq<Name>, disks: seq<Disk>, ss: seq<seq<Piece>>)
    requires |names| == |disks| && Distinct(names) && LoadableSections(disks, ss)
    ensures ReceiveAll(names, disks, Stream(names, ss)) == Outcome(LoadAll(disks, AllBlocks(ss)), 0)
    decreases |ss|
  {
    hide LoadAll, Receive, SectionItems, Distinct, LoadablePieces;
    SectionsNameDevices(names, disks, ss);
    if ss == [] {
      NothingLoaded(disks);
    } else {
      assert LoadablePieces(disks, ss[0]);
      SectionIsLoaded(names, disks, ss[0]);
      var mid := LoadAll(disks, Blocks(ss[0]));
      LoadAllKeepsShape(disks, Blocks(ss[0]));
      SameShapeSameLoadable(disks, mid, ss[1..]);
      StreamIsLoaded(names, mid, ss[1..]);
      LoadAllConcat(disks, Blocks(ss[0]), AllBlocks(ss[1..]));
      assert Stream(names, ss)[0] == SectionItems(names, ss[0]) && Stream(names, ss)[1..] == Stream(names, ss[1..]);
    }
  }

  lemma SectionsNameDevices(names: seq<Name>, disks: seq<Disk>, ss: seq<seq<Piece>>)
    requires |names| == |disks| && LoadableSections(disks, ss)
    ensures NamesDevices(names, ss)
  {
    forall k, i | 0 <= k < |ss| && 0 <= i < |ss[k]| && ss[k][i].Block? ensures ss[k][i].r.dev < |names| && |ss[k][i].r.buf| == CHUNK {
      assert LoadablePieces(disks, ss[k]);
    }
  }

  // ----- the same on bytes

  /** The end mark is the last item and no other. */
  predicate EndsOnce(items: seq<Item>) {
    items != [] && forall i | 0 <= i < |items| :: items[i].eos <==> i == |items| - 1
  }

  /** Reading the bytes of a section does what its items do, and stops behind it. */
  lemma {:induction false} SectionReadBack(names: seq<Name>, disks: seq<Disk>, items: seq<Item>, rest: seq<Byte>)
    requires |names| == |disks| && EndsOnce(items) && AllFit(items)
    ensures var r := ReceiveBytes(names, disks, EncodeAll(items) + rest);
            r.0 == Receive(names, disks, items) && (r.0.ret >= 0 ==> r.1 == rest)
    decreases |items|
  {
    hide Decode, Encode, ReceiveItem, Fits;
    var tail := EncodeAll(items[1..]) + rest;
    assert EncodeAll(items) + rest == Encode(items[0]) + tail;
    ItemReadBack(items[0], tail);
    var o := ReceiveItem(names, disks, items[0]);
    if o.ret < 0 || items[0].eos {
      assert items[0].eos ==> items[1..] == [] && tail == rest;
    } else {
      SectionReadBack(names, o.disks, items[1..], rest);
    }
  }

  predicate PieceFits(p: Piece) {
    match p
    case Block(r) => SECTOR * (r.c * CHUNK) + 8 <= R.TWO_64
    case Percent(n) => SECTOR * n + 8 <= R.TWO_64
  }

  /** Names and chunk numbers of the sizes that the source's types give them. */
  predicate StreamFits(names: seq<Name>, ss: seq<seq<Piece>>) {
    && (forall d | 0 <= d < |names| :: |names[d]| < 256)
    && forall k, i | 0 <= k < |ss| && 0 <= i < |ss[k]| :: PieceFits(ss[k][i])
  }

  lemma {:induction false} SectionFits(names: seq<Name>, disks: seq<Disk>, ps: seq<Piece>)
    requires |names| == |disks| && LoadablePieces(disks, ps) && StreamFits(names, [ps])
    ensures AllFit(SectionItems(names, ps)) && EndsOnce(SectionItems(names, ps))
    decreases |ps|
  {
    var items := SectionItems(names, ps);
    if ps == [] {
      assert items == [EOS];
    } else {
      assert [ps][0] == ps && PieceFits([ps][0][0]);
      forall i | 0 <= i < |ps[1..]| ensures PieceFits(ps[1..][i]) {
        assert PieceFits([ps][0][i + 1]);
      }
      SectionFits(names, disks, ps[1..]);
      assert items[1..] == SectionItems(names, ps[1..]) && Fits(items[0]) && !items[0].eos;
      forall i | 0 <= i < |items| ensures Fits(items[i]) && (items[i].eos <==> i == |items| - 1) {
        assert i > 0 ==> items[i] == items[1..][i - 1];
      }
    }
  }

  predicate AllSections(sections: seq<seq<Item>>) {
    forall i | 0 <= i < |sections| :: EndsOnce(sections[i]) && AllFit(sections[i])
  }

  function StreamBytes(sections: seq<seq<Item>>): seq<Byte>
    requires AllSections(sections)
  {
    if sections == [] then [] else EncodeAll(sections[0]) + StreamBytes(sections[1..])
  }

  lemma {:induction false} SectionsReadBack(names: seq<Name>, disks: seq<Disk>, sections: seq<seq<Item>>)
    requires |names| == |disks| && AllSections(sections)
    ensures Replay(names, disks, StreamBytes(sections)) == (var r := ReceiveAll(names, disks, sections); if r.ret >= 0 then r.(ret := 0) else r)
    decreases |sections|
  {
    hide ReceiveBytes, Receive, EncodeAll;
    if sections != [] {
      var rest := StreamBytes(sections[1..]);
      SectionReadBack(names, disks, sections[0], rest);
      SectionTakesSpace(sections[0]);
      var o := Receive(names, disks, sections[0]);
      if o.ret >= 0 {
        SectionsReadBack(names, o.disks, sections[1..]);
      }
    }
  }

  lemma SectionTakesSpace(items: seq<Item>)
    requires items != [] && AllFit(items)
    ensures EncodeAll(items) != []
  {
    assert |Encode(items[0])| >= 8;
  }

  lemma {:induction false} StreamIsSections(names: seq<Name>, disks: seq<Disk>, ss: seq<seq<Piece>>)
    requires |names| == |disks| && LoadableSections(disks, ss) && StreamFits(names, ss)
    requires NamesDevices(names, ss)
    ensures AllSections(Stream(names, ss))
    decreases |ss|
  {
    hide LoadablePieces, PieceFits, SectionItems, EndsOnce, AllFit;
    if ss != [] {
      assert LoadablePieces(disks, ss[0]);
      assert StreamFits(names, [ss[0]]);
      SectionFits(names, disks, ss[0]);
      assert StreamFits(names, ss[1..]);
      StreamIsSections(names, disks, ss[1..]);
      var all := Stream(names, ss);
      forall i | 0 <= i < |all| ensures EndsOnce(all[i]) && AllFit(all[i]) {
        assert i > 0 ==> all[i] == Stream(names, ss[1..])[i - 1];
      }
    }
  }

  /** The bytes of a whole stream, cut into sections anywhere, have the effect of its blocks. */
  lemma BytesAreLoaded(names: seq<Name>, disks: seq<Disk>, ss: seq<seq<Piece>>)
    requires |names| == |disks| && Distinct(names) && LoadableSections(disks, ss) && StreamFits(names, ss)
    ensures NamesDevices(names, ss)
    ensures AllSections(Stream(names, ss))
    ensures Replay(names, disks, StreamBytes(Stream(names, ss))) == Outcome(LoadAll(disks, AllBlocks(ss)), 0)
  {
    hide LoadAll, Receive, Replay, Stream, Distinct, LoadablePieces, PieceFits, ReceiveAll, StreamBytes, AllSections;
    SectionsNameDevices(names, disks, ss);
    StreamIsSections(names, disks, ss);
    StreamIsLoaded(names, disks, ss);
    SectionsReadBack(names, disks, Stream(names, ss));
  }

  // ----- everything a migration sends can be loaded

  ghost predicate AllLoadable(disks: seq<Disk>, rs: seq<Record>) {
    forall i | 0 <= i < |rs| :: Loadable(disks, rs[i])
  }

  lemma StepSendsLoadable(m: Mig, disks: seq<Disk>, e: Event)
    requires Valid(m) && SameShape(m, disks) && Possible(m, e) && AllLoadable(disks, m.sent)
    ensures AllLoadable(disks, Step(m, e).sent)
  {
    hide TouchedChunks, Overwrite;
    if e.SendHead? {
      assert ValidBlk(m, m.queue[0]);
    } else if e.SendDirty? {
      CursorChunk(m.devs[e.dev]);
    }
  }

  lemma {:induction false} RunSendsLoadable(m: Mig, disks: seq<Disk>, es: seq<Event>)
    requires Sound(m) && SameShape(m, disks) && PossibleAll(m, es) && AllLoadable(disks, m.sent)
    ensures AllLoadable(disks, Run(m, es).sent)
    decreases |es|
  {
    hide Possible, Step, AllLoadable, Valid, Flying;
    if es != [] {
      StepKeepsSound(m, es[0]);
      StepSendsLoadable(m, disks, es[0]);
      RunSendsLoadable(Step(m, es[0]), disks, es[1..]);
    }
  }

  /**
   Whatever a migration has sent so far, in order or not and cut into sections
   anywhere, the receiver with disks of the same sizes accepts it all.
   */
  lemma SentIsAccepted(names: seq<Name>, disks: seq<Disk>, early: seq<Pending>, disks0: seq<Disk>, es: seq<Event>, ss: seq<seq<Piece>>)
    requires |names| == |disks| == |disks0| && Distinct(names) && AreEarly(disks, early)
    requires forall d | 0 <= d < |disks| :: |disks0[d]| == |disks[d]|
    requires PossibleAll(Start(disks, early), es) && AllBlocks(ss) == Run(Start(disks, early), es).sent
    ensures LoadableSections(disks0, ss)
    ensures ReceiveAll(names, disks0, Stream(names, ss)) == Outcome(LoadAll(disks0, Run(Start(disks, early), es).sent), 0)
  {
    hide LoadAll, PossibleAll, Run, ReceiveAll, Stream, Sound;
    StartIsSound(disks, early);
    RunSendsLoadable(Start(disks, early), disks0, es);
    SectionsAreLoadable(disks0, ss);
    StreamIsLoaded(names, disks0, ss);
  }

  /**
   From end to end: the bytes of the sections that carry what a migration has
   sent, given to block_load call after call, leave the source's disks on the
   receiver.
   */
  lemma MigrationArrives(names: seq<Name>, disks: seq<Disk>, early: seq<Pending>, disks0: seq<Disk>, es: seq<Event>, es3: seq<Event>, ss: seq<seq<Piece>>)
    requires |names| == |disks| == |disks0| && Distinct(names) && AreEarly(disks, early)
    requires forall d | 0 <= d < |disks| :: |disks0[d]| == |disks[d]|
    requires GuardedAll(Start(disks, early), es) && PossibleAll(Start(disks, early), es) && ReadyForStage3(Run(Start(disks, early), es))
    requires PossibleAll(Step(Run(Start(disks, early), es), ResetCursors), es3) && AllStage3(es3)
    requires CursorsDone(Run(Step(Run(Start(disks, early), es), ResetCursors), es3))
    requires AllBlocks(ss) == Run(Step(Run(Start(disks, early), es), ResetCursors), es3).sent && StreamFits(names, ss)
    ensures LoadableSections(disks0, ss)
    ensures NamesDevices(names, ss)
    ensures AllSections(Stream(names, ss))
    ensures var last := Run(Step(Run(Start(disks, early), es), ResetCursors), es3);
            var end := Replay(names, disks0, StreamBytes(Stream(names, ss)));
            end.ret == 0 && |end.disks| == |last.devs| && forall d | 0 <= d < |last.devs| :: end.disks[d] == last.devs[d].disk
  {
    hide LoadAll, PossibleAll, GuardedAll, Run, Replay, Stream, StreamBytes, AllSections, StreamFits;
    hide Sound, Possible, InOrder, CursorsDone, Step;
    var source := Run(Start(disks, early), es);
    AlwaysReset(source);
    var m := Step(source, ResetCursors);
    GuardedMigrationCopiesDisks(disks, early, disks0, es, es3);
    StartIsSound(disks, early);
    RunKeepsSound(Start(disks, early), es);
    RunSendsLoadable(Start(disks, early), disks0, es);
    StepKeepsSound(source, ResetCursors);
    ResetSendsNothing(source, disks0);
    RunSendsLoadable(m, disks0, es3);
    SectionsAreLoadable(disks0, ss);
    BytesAreLoaded(names, disks0, ss);
  }

  lemma ResetSendsNothing(m: Mig, disks: seq<Disk>)
    requires Possible(m, ResetCursors) && SameShape(m, disks)
    ensures Step(m, ResetCursors).sent == m.sent && SameShape(Step(m, ResetCursors), disks)
  {}

  lemma {:induction false} SectionsAreLoadable(disks: seq<Disk>, ss: seq<seq<Piece>>)
    requires AllLoadable(disks, AllBlocks(ss))
    ensures LoadableSections(disks, ss)
    decreases |ss|
  {
    hide Loadable, LoadablePieces;
    if ss != [] {
      var a, b := Blocks(ss[0]), AllBlocks(ss[1..]);
      assert forall i | 0 <= i < |a| :: a[i] == AllBlocks(ss)[i];
      assert forall i | 0 <= i < |b| :: b[i] == AllBlocks(ss)[|a| + i];
      PiecesAreLoadable(disks, ss[0]);
      SectionsAreLoadable(disks, ss[1..]);
      forall i | 0 <= i < |ss| ensures LoadablePieces(disks, ss[i]) {
        if i > 0 {
          assert ss[1..][i - 1] == ss[i];
        }
      }
    }
  }

  lemma {:induction false} PiecesAreLoadable(disks: seq<Disk>, ps: seq<Piece>)
    requires AllLoadable(disks, Blocks(ps))
    ensures LoadablePieces(disks, ps)
    decreases |ps|
  {
    hide Loadable;
    if ps != [] {
      var rest := Blocks(ps[1..]);
      var k := if ps[0].Block? then 1 else 0;
      assert forall i | 0 <= i < |rest| :: rest[i] == Blocks(ps)[k + i];
      PiecesAreLoadable(disks, ps[1..]);
      assert k == 1 ==> Blocks(ps)[0] == ps[0].r;
      forall i | 0 <= i < |ps| && ps[i].Block? ensures Loadable(disks, ps[i].r) {
        if i > 0 {
          assert ps[1..][i - 1] == ps[i];
        }
      }
    }
  }
}
