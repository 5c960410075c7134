/**
 Guest RAM as the migration code sees it: a list of RAM blocks, one byte of
 dirty flags per page, and the records of the migration stream.  Sizes and
 addresses are counted in pages; bytes appear only in the encoded stream.
 */
module RamModel {
  import opened Basics
  import opened Bits

  type Id = seq<Byte>
  type Page = seq<Byte>

  /** RAMBlock: name, first page in the RAM address space, number of pages. */
  datatype RamBlock = RamBlock(id: Id, base: nat, pages: nat)

  type Memory = map<Id, seq<Page>>

  /** A page of a block list: block index and page within the block. */
  datatype Pos = Pos(b: nat, k: nat)

  datatype Record =
    | Header(entries: seq<(Id, nat)>)
    | DupPage(k: nat, cont: bool, id: Id, ch: Byte)
    | FullPage(k: nat, cont: bool, id: Id, data: Page)
    | Eos

  /** The flag that migration looks at, MIGRATION_DIRTY_FLAG == 1 << 3. */
  const MIGRATION_BIT: nat := 3

  // ----- block lists

  ghost predicate ValidBlocks(blocks: seq<RamBlock>) {
    && |blocks| > 0
    && (forall b | 0 <= b < |blocks| :: blocks[b].pages > 0 && |blocks[b].id| < 256)
    && AllCompatible(blocks)
  }

  ghost predicate AllCompatible(blocks: seq<RamBlock>) {
    forall b, c | 0 <= b < c < |blocks| :: Compatible(blocks[b], blocks[c])
  }

  /** Different names and no page in common. */
  ghost predicate Compatible(x: RamBlock, y: RamBlock) {
    x.id != y.id && (x.base + x.pages <= y.base || y.base + y.pages <= x.base)
  }

  ghost predicate BlockFits(ps: nat, mem: Memory, x: RamBlock) {
    && x.id in mem
    && |mem[x.id]| == x.pages
    && forall k | 0 <= k < x.pages :: |mem[x.id][k]| == ps
  }

  ghost function IdsOf(blocks: seq<RamBlock>): set<Id> {
    set b | 0 <= b < |blocks| :: blocks[b].id
  }

  ghost predicate MemoryFits(ps: nat, blocks: seq<RamBlock>, mem: Memory) {
    && mem.Keys == IdsOf(blocks)
    && forall b | 0 <= b < |blocks| :: BlockFits(ps, mem, blocks[b])
  }

  predicate ValidPos(blocks: seq<RamBlock>, p: Pos) {
    p.b < |blocks| && p.k < blocks[p.b].pages
  }

  /** addr >> TARGET_PAGE_BITS */
  function PageNo(blocks: seq<RamBlock>, p: Pos): nat
    requires ValidPos(blocks, p)
  {
    blocks[p.b].base + p.k
  }

  lemma DistinctPages(blocks: seq<RamBlock>, p: Pos, q: Pos)
    requires ValidBlocks(blocks) && ValidPos(blocks, p) && ValidPos(blocks, q)
    requires PageNo(blocks, p) == PageNo(blocks, q)
    ensures p == q
  {
    assert p.b < q.b ==> Compatible(blocks[p.b], blocks[q.b]);
    assert q.b < p.b ==> Compatible(blocks[q.b], blocks[p.b]);
  }

  /** The page after p in scan order, wrapping around. */
  function Next(blocks: seq<RamBlock>, p: Pos): Pos
    requires ValidPos(blocks, p)
  {
    if p.k + 1 < blocks[p.b].pages then Pos(p.b, p.k + 1)
    else if p.b + 1 < |blocks| then Pos(p.b + 1, 0)
    else Pos(0, 0)
  }

  function Total(blocks: seq<RamBlock>): nat {
    if blocks == [] then 0 else Total(blocks[..|blocks| - 1]) + blocks[|blocks| - 1].pages
  }

  lemma {:induction false} TotalOfCons(x: RamBlock, xs: seq<RamBlock>)
    ensures Total([x] + xs) == x.pages + Total(xs)
  {
    if xs == [] {
      assert ([x] + xs)[..0] == [];
    } else {
      TotalOfCons(x, xs[..|xs| - 1]);
      assert ([x] + xs)[..|xs|] == [x] + xs[..|xs| - 1];
    }
  }

  /** The place of a page in scan order. */
  function Rank(blocks: seq<RamBlock>, p: Pos): nat
    requires ValidPos(blocks, p)
  {
    Total(blocks[..p.b]) + p.k
  }

  lemma {:induction false} TotalOfPrefix(blocks: seq<RamBlock>, b: nat, c: nat)
    requires b < c <= |blocks|
    ensures Total(blocks[..b]) + blocks[b].pages <= Total(blocks[..c])
    ensures c == b + 1 ==> Total(blocks[..c]) == Total(blocks[..b]) + blocks[b].pages
    decreases c
  {
    assert blocks[..c][..c - 1] == blocks[..c - 1];
    if b + 1 < c {
      TotalOfPrefix(blocks, b, c - 1);
    }
  }

  lemma RankBelowTotal(blocks: seq<RamBlock>, p: Pos)
    requires ValidPos(blocks, p)
    ensures Rank(blocks, p) < Total(blocks)
  {
    TotalOfPrefix(blocks, p.b, |blocks|);
    assert blocks[..|blocks|] == blocks;
  }

  lemma RankIsInjective(blocks: seq<RamBlock>, p: Pos, q: Pos)
    requires ValidPos(blocks, p) && ValidPos(blocks, q) && Rank(blocks, p) == Rank(blocks, q)
    ensures p == q
  {
    if p.b < q.b {
      TotalOfPrefix(blocks, p.b, q.b);
    } else if q.b < p.b {
      TotalOfPrefix(blocks, q.b, p.b);
    }
  }

  /** Moving on adds one to the rank, or wraps from the last page to the first. */
  lemma RankOfNext(blocks: seq<RamBlock>, p: Pos)
    requires ValidBlocks(blocks) && ValidPos(blocks, p)
    ensures ValidPos(blocks, Next(blocks, p))
    ensures Rank(blocks, Next(blocks, p))
         == if Rank(blocks, p) + 1 == Total(blocks) then 0 else Rank(blocks, p) + 1
  {
    TotalOfPrefix(blocks, p.b, p.b + 1);
    if p.k + 1 < blocks[p.b].pages {
      RankBelowTotal(blocks, Pos(p.b, p.k + 1));
    } else if p.b + 1 < |blocks| {
      RankBelowTotal(blocks, Pos(p.b + 1, 0));
    } else {
      assert blocks[..p.b + 1] == blocks;
      assert blocks[..0] == [];
    }
  }

  // ----- one page

  /** memset(ch) */
  function Filled(ps: nat, ch: Byte): Page { seq(ps, _ => ch) }

  predicate IsDup(data: Page) {
    |data| > 0 && forall i | 0 <= i < |data| :: data[i] == data[0]
  }

  lemma DupIsFilled(data: Page)
    requires IsDup(data)
    ensures data == Filled(|data|, data[0])
  {}
}
