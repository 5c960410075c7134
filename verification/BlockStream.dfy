/**
 The block migration stream as bytes: how blk_send lays out a block, and how
 block_load reads an item back.
 */
module BlockStream {
  import opened Basics
  import opened Bits
  import opened IoVector
  import opened BlockMigration
  import R = RamStream

  type Name = seq<Byte>

  /** One item of the stream: the flags and the number of its first word, and what follows a block flag. */
  datatype AnyItem = Item(block: bool, eos: bool, progress: bool, addr: nat, name: Name, buf: seq<Sector>)

  /** A block brings a whole chunk, and nothing else brings a name or contents. */
  type Item = it: AnyItem | if it.block then |it.buf| == CHUNK else it.name == [] && it.buf == []
    witness Item(false, true, false, 0, [], [])

  /** What one item can carry: a short name, a 64-bit first word. */
  predicate Fits(it: Item) {
    SECTOR * it.addr + 8 <= R.TWO_64 && |it.name| < 256
  }

  /** BLK_MIG_FLAG_DEVICE_BLOCK, BLK_MIG_FLAG_EOS and BLK_MIG_FLAG_PROGRESS */
  function FlagsOf(it: Item): nat {
    (if it.block then 1 else 0) + (if it.eos then 2 else 0) + (if it.progress then 4 else 0)
  }

  function Encode(it: Item): seq<Byte>
    requires Fits(it)
  {
    R.Be(8, SECTOR * it.addr + FlagsOf(it)) + if it.block then R.IdBytes(it.name) + Flat(it.buf) else []
  }

  /** A buffer cut into sectors. */
  function Sectors(bytes: seq<Byte>): seq<Sector> {
    seq(|bytes| / SECTOR, i requires 0 <= i < |bytes| / SECTOR => bytes[SECTOR * i..SECTOR * (i + 1)])
  }

  function Decode(f: seq<Byte>): (r: R.Loaded<(Item, seq<Byte>)>)
    ensures r.Ok? ==> |r.value.1| < |f|
  {
    var (v, f1) :- R.GetBe64(f);
    var flags, addr := v % SECTOR, v / SECTOR;
    if Bit(flags, 0) then
      var (name, f2) :- R.GetId(f1);
      var (bytes, f3) :- R.Take(f2, SECTOR * CHUNK);
      var it: Item := Item(true, Bit(flags, 1), Bit(flags, 2), addr, name, Sectors(bytes));
      R.Ok((it, f3))
    else
      var it: Item := Item(false, Bit(flags, 1), Bit(flags, 2), addr, [], []);
      R.Ok((it, f1))
  }

  /** The bytes of the three kinds of items; the flags are in the low bits of the first word. */
  lemma ItemLayout(addr: nat, name: Name, buf: seq<Sector>)
    requires |buf| == CHUNK && |name| < 256 && 512 * addr + 8 <= R.TWO_64
    ensures Encode(Item(true, false, false, addr, name, buf)) == R.Be(8, 512 * addr + 0x01) + [|name|] + name + Flat(buf)
    ensures Encode(Item(false, false, true, addr, [], [])) == R.Be(8, 512 * addr + 0x04)
    ensures Encode(Item(false, true, false, 0, [], [])) == R.Be(8, 0x02)
  {
    hide R.Be, Flat;
  }

  // ----- reading back

  lemma {:induction false} SectorsBack(buf: seq<Sector>)
    ensures |Flat(buf)| == SECTOR * |buf| && Sectors(Flat(buf)) == buf
  {
    if buf != [] {
      var n := |buf| - 1;
      SectorsBack(buf[..n]);
      var front := Flat(buf[..n]);
      assert Flat(buf) == front + buf[n];
      forall i | 0 <= i < |buf| ensures Sectors(Flat(buf))[i] == buf[i] {
        if i < n {
          assert Sectors(front)[i] == front[SECTOR * i..SECTOR * (i + 1)] == Flat(buf)[SECTOR * i..SECTOR * (i + 1)];
        } else {
          assert Flat(buf)[SECTOR * n..SECTOR * (n + 1)] == buf[n];
        }
      }
    }
  }

  lemma FlagsBack(it: Item)
    ensures Bit(FlagsOf(it), 0) == it.block && Bit(FlagsOf(it), 1) == it.eos && Bit(FlagsOf(it), 2) == it.progress
  {
    assert Bit(1, 0) && !Bit(1, 1) && !Bit(1, 2) && !Bit(2, 0) && Bit(2, 1) && !Bit(2, 2);
    assert Bit(3, 0) && Bit(3, 1) && !Bit(3, 2) && !Bit(4, 0) && !Bit(4, 1) && Bit(4, 2);
    assert Bit(5, 0) && !Bit(5, 1) && Bit(5, 2) && !Bit(6, 0) && Bit(6, 1) && Bit(6, 2);
    assert Bit(7, 0) && Bit(7, 1) && Bit(7, 2) && !Bit(0, 0) && !Bit(0, 1) && !Bit(0, 2);
  }

  /** Every item that fits is read back as it was, and the rest of the stream is left. */
  lemma ItemReadBack(it: Item, rest: seq<Byte>)
    requires Fits(it)
    ensures Decode(Encode(it) + rest) == R.Ok((it, rest))
  {
    hide R.Be, R.BeValue, R.IdBytes, R.GetId, R.GetBe64, Flat, Sectors, Bit, R.Take;
    var v := SECTOR * it.addr + FlagsOf(it);
    R.TagSplits(SECTOR, it.addr, FlagsOf(it));
    FlagsBack(it);
    if it.block {
      var tail := R.IdBytes(it.name) + (Flat(it.buf) + rest);
      assert Encode(it) + rest == R.Be(8, v) + tail;
      R.GetBe64Back(v, tail);
      R.GetIdBack(it.name, Flat(it.buf) + rest);
      SectorsBack(it.buf);
      R.TakeBack(Flat(it.buf), rest);
    } else {
      assert Encode(it) + rest == R.Be(8, v) + rest;
      R.GetBe64Back(v, rest);
    }
  }

  predicate AllFit(items: seq<Item>) {
    forall i | 0 <= i < |items| :: Fits(items[i])
  }

  function EncodeAll(items: seq<Item>): seq<Byte>
    requires AllFit(items)
  {
    if items == [] then [] else Encode(items[0]) + EncodeAll(items[1..])
  }

  // ----- sections

  /** What a section carries before its end mark. */
  datatype Piece = Block(r: Record) | Percent(n: nat)

  function Blocks(ps: seq<Piece>): seq<Record> {
    if ps == [] then []
    else (match ps[0] case Block(r) => [r] case Percent(_) => []) + Blocks(ps[1..])
  }

  function AllBlocks(ss: seq<seq<Piece>>): seq<Record> {
    if ss == [] then [] else Blocks(ss[0]) + AllBlocks(ss[1..])
  }

  predicate Small(ps: seq<Piece>) { forall i | 0 <= i < |ps| && ps[i].Percent? :: ps[i].n <= 100 }

  lemma {:induction false} BlocksAppend(ps: seq<Piece>, p: Piece)
    ensures Blocks(ps + [p]) == Blocks(ps) + if p.Block? then [p.r] else []
  {
    if ps == [] {
      assert ps + [p] == [p] && [p][1..] == [];
    } else {
      BlocksAppend(ps[1..], p);
      assert (ps + [p])[1..] == ps[1..] + [p];
    }
  }

  lemma {:induction false} AllBlocksAppend(ss: seq<seq<Piece>>, s: seq<Piece>)
    ensures AllBlocks(ss + [s]) == AllBlocks(ss) + Blocks(s)
  {
    hide Blocks;
    if ss == [] {
      assert ss + [s] == [s] && [s][1..] == [];
    } else {
      AllBlocksAppend(ss[1..], s);
      assert (ss + [s])[1..] == ss[1..] + [s];
    }
  }

  /** The stream of finished sections and one begun carries these blocks. */
  ghost predicate Laid(sections: seq<seq<Piece>>, section: seq<Piece>, wire: seq<Record>) {
    AllBlocks(sections) + Blocks(section) == wire
  }

  lemma LaidMore(sections: seq<seq<Piece>>, section: seq<Piece>, wire: seq<Record>, p: Piece)
    requires Laid(sections, section, wire)
    ensures Laid(sections, section + [p], wire + if p.Block? then [p.r] else [])
    ensures Small(section) && (p.Percent? ==> p.n <= 100) ==> Small(section + [p])
  {
    hide AllBlocks, Blocks;
    BlocksAppend(section, p);
  }

  lemma LaidEnd(sections: seq<seq<Piece>>, section: seq<Piece>, wire: seq<Record>)
    requires Laid(sections, section, wire)
    ensures Laid(sections + [section], [], wire)
  {
    hide AllBlocks;
    AllBlocksAppend(sections, section);
  }
}
