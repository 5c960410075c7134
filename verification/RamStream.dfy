/**
 The RAM migration stream as bytes: how the sender lays out a record, and what
 the receiver does when it reads one back.
 */
module RamStream {
  import opened Basics
  import opened Bits
  import opened RamModel

  // ----- big-endian integers

  /** The n low bytes of v, most significant first. */
  function Be(n: nat, v: nat): (s: seq<Byte>)
    ensures |s| == n
  {
    if n == 0 then [] else Be(n - 1, v / 256) + [v % 256]
  }

  function BeValue(s: seq<Byte>): nat {
    if s == [] then 0 else 256 * BeValue(s[..|s| - 1]) + s[|s| - 1]
  }

  function Pow256(n: nat): nat { if n == 0 then 1 else 256 * Pow256(n - 1) }

  lemma {:induction false} BeRoundTrip(n: nat, v: nat)
    requires v < Pow256(n)
    ensures BeValue(Be(n, v)) == v
  {
    if n > 0 {
      BeRoundTrip(n - 1, v / 256);
      assert Be(n, v)[..n - 1] == Be(n - 1, v / 256);
    }
  }

  /** Byte i of n: the most significant one comes first. */
  lemma {:induction false} BeByte(n: nat, v: nat, i: nat)
    requires i < n
    ensures Pow256(n - 1 - i) > 0 && Be(n, v)[i] == v / Pow256(n - 1 - i) % 256
  {
    PowersPositive(n - 1 - i);
    if i < n - 1 {
      BeByte(n - 1, v / 256, i);
      PowersPositive(n - 2 - i);
      DivTwice(v, 256, Pow256(n - 2 - i));
    }
  }

  lemma {:induction false} PowersPositive(n: nat)
    ensures Pow256(n) > 0
  {
    if n > 0 {
      PowersPositive(n - 1);
    }
  }

  lemma DivTwice(v: nat, a: nat, b: nat)
    requires a > 0 && b > 0
    ensures a * b > 0 && v / a / b == v / (a * b)
  {
    var q := v / a / b;
    var r := v / a % b;
    assert v == a * (v / a) + v % a && v / a == b * q + r;
    assert a * (b * q + r) == a * b * q + a * r;
    assert a * r <= a * (b - 1);
    DivIs(v, a * b, q, a * r + v % a);
  }

  const TWO_64: nat := 0x1_0000_0000_0000_0000

  lemma Be64RoundTrip(v: nat)
    requires v < TWO_64
    ensures BeValue(Be(8, v)) == v
  {
    assert Pow256(8) == TWO_64 by {
      assert Pow256(4) == 0x1_0000_0000;
      assert Pow256(8) == 256 * (256 * (256 * (256 * Pow256(4))));
    }
    BeRoundTrip(8, v);
  }

  // ----- the layout of a record

  const COMPRESS: nat := 0x02
  const MEM_SIZE: nat := 0x04
  const PAGE: nat := 0x08
  const EOS: nat := 0x10
  const CONTINUE: nat := 0x20

  function IdBytes(id: Id): seq<Byte>
    requires |id| < 256
  {
    [|id|] + id
  }

  function PagesOf(entries: seq<(Id, nat)>): nat {
    if entries == [] then 0 else entries[0].1 + PagesOf(entries[1..])
  }

  predicate ValidEntries(entries: seq<(Id, nat)>) {
    forall i | 0 <= i < |entries| :: |entries[i].0| < 256 && entries[i].1 > 0
  }

  function EncodeEntries(ps: nat, entries: seq<(Id, nat)>): seq<Byte>
    requires ValidEntries(entries)
  {
    if entries == [] then []
    else IdBytes(entries[0].0) + Be(8, ps * entries[0].1) + EncodeEntries(ps, entries[1..])
  }

  /** The page tag: offset | cont | kind, and the block id unless it is the same block as last time. */
  function EncodeTag(ps: nat, k: nat, cont: bool, id: Id, kind: nat): seq<Byte>
    requires |id| < 256
  {
    Be(8, ps * k + (if cont then CONTINUE else 0) + kind) + (if cont then [] else IdBytes(id))
  }

  predicate ValidRecord(ps: nat, r: Record) {
    match r
    case Header(entries) => ValidEntries(entries) && ps * PagesOf(entries) + MEM_SIZE < TWO_64
    case DupPage(k, _, id, _) => |id| < 256 && ps * k + CONTINUE + PAGE < TWO_64
    case FullPage(k, _, id, data) => |id| < 256 && |data| == ps && ps * k + CONTINUE + PAGE < TWO_64
    case Eos => true
  }

  function Encode(ps: nat, r: Record): seq<Byte>
    requires ValidRecord(ps, r)
  {
    match r
    case Header(entries) => Be(8, ps * PagesOf(entries) + MEM_SIZE) + EncodeEntries(ps, entries)
    case DupPage(k, cont, id, ch) => EncodeTag(ps, k, cont, id, COMPRESS) + [ch]
    case FullPage(k, cont, id, data) => EncodeTag(ps, k, cont, id, PAGE) + data
    case Eos => Be(8, EOS)
  }

  function EncodeAll(ps: nat, rs: seq<Record>): seq<Byte>
    requires forall i | 0 <= i < |rs| :: ValidRecord(ps, rs[i])
  {
    if rs == [] then [] else Encode(ps, rs[0]) + EncodeAll(ps, rs[1..])
  }

  /** The bytes of every record, field by field. */
  lemma RecordLayout(ps: nat, k: nat, id: Id, ch: Byte, data: Page)
    requires |id| < 256 && |data| == ps && ps * k + CONTINUE + PAGE < TWO_64
    ensures Encode(ps, DupPage(k, false, id, ch)) == Be(8, ps * k + 0x02) + [|id|] + id + [ch]
    ensures Encode(ps, DupPage(k, true, id, ch)) == Be(8, ps * k + 0x20 + 0x02) + [ch]
    ensures Encode(ps, FullPage(k, false, id, data)) == Be(8, ps * k + 0x08) + [|id|] + id + data
    ensures Encode(ps, FullPage(k, true, id, data)) == Be(8, ps * k + 0x20 + 0x08) + data
    ensures Encode(ps, Eos) == Be(8, 0x10)
  {
    hide Be;
  }

  /** The header carries the length of all blocks together, then name and length of each. */
  lemma HeaderLayout(ps: nat, id: Id, pages: nat, entries: seq<(Id, nat)>)
    requires ValidEntries([(id, pages)] + entries)
    ensures ValidEntries(entries) && PagesOf([]) == 0 && PagesOf([(id, pages)] + entries) == pages + PagesOf(entries)
    ensures EncodeEntries(ps, []) == []
    ensures EncodeEntries(ps, [(id, pages)] + entries) == [|id|] + id + Be(8, ps * pages) + EncodeEntries(ps, entries)
    ensures ps * PagesOf(entries) + MEM_SIZE < TWO_64 ==>
              ValidRecord(ps, Header(entries)) && Encode(ps, Header(entries)) == Be(8, ps * PagesOf(entries) + 0x04) + EncodeEntries(ps, entries)
  {
    hide Be;
    var all := [(id, pages)] + entries;
    assert all[0] == (id, pages) && all[1..] == entries;
    forall i | 0 <= i < |entries| ensures |entries[i].0| < 256 && entries[i].1 > 0 {
      assert entries[i] == all[i + 1];
    }
  }

  // ----- the receiver

  /** `block` is the static pointer of host_from_stream_offset. */
  datatype Dest = Dest(ps: nat, blocks: seq<RamBlock>, mem: Memory, block: Option<Id>)

  /** What ram_load returns; Crash is a write through a null or out-of-range pointer. */
  datatype Failure = Inval | IoError | Crash

  datatype Loaded<T> = Ok(value: T) | Err(why: Failure) {
    predicate IsFailure() { Err? }
    function PropagateFailure<U>(): Loaded<U> requires Err? { Err(why) }
    function Extract(): T requires Ok? { value }
  }

  /** The index of the block with the given id, if there is one. */
  function FindBlock(blocks: seq<RamBlock>, id: Id): Option<nat> {
    if blocks == [] then None
    else if blocks[0].id == id then Some(0)
    else match FindBlock(blocks[1..], id)
         case None => None
         case Some(i) => Some(i + 1)
  }

  function Take(f: seq<Byte>, n: nat): Loaded<(seq<Byte>, seq<Byte>)> {
    if |f| < n then Err(IoError) else Ok((f[..n], f[n..]))
  }

  function GetBe64(f: seq<Byte>): Loaded<(nat, seq<Byte>)> {
    var (v, f) :- Take(f, 8);
    Ok((BeValue(v), f))
  }

  function GetId(f: seq<Byte>): Loaded<(Id, seq<Byte>)> {
    var (n, f) :- Take(f, 1);
    Take(f, n[0])
  }

  /** The loop that synchronises the block list; the remaining total wraps like a 64-bit counter. */
  function LoadEntries(d: Dest, f: seq<Byte>, total: nat): (r: Loaded<seq<Byte>>)
    ensures r.Ok? ==> |r.value| <= |f|
    decreases |f|
  {
    if total == 0 then Ok(f)
    else
      var (id, f1) :- GetId(f);
      var (length, f2) :- GetBe64(f1);
      match FindBlock(d.blocks, id)
      case None => Err(Inval)
      case Some(i) =>
        FindBlockFinds(d.blocks, id);
        if d.ps * d.blocks[i].pages != length then Err(Inval)
        else LoadEntries(d, f2, (total + TWO_64 - length % TWO_64) % TWO_64)
  }

  lemma {:induction false} FindBlockFinds(blocks: seq<RamBlock>, id: Id)
    ensures match FindBlock(blocks, id)
            case None => forall b | 0 <= b < |blocks| :: blocks[b].id != id
            case Some(i) => i < |blocks| && blocks[i].id == id
  {
    if blocks != [] && blocks[0].id != id {
      FindBlockFinds(blocks[1..], id);
      forall b | 0 <= b < |blocks| && FindBlock(blocks[1..], id).None? ensures blocks[b].id != id {
        assert b > 0 ==> blocks[b] == blocks[1..][b - 1];
      }
    }
  }

  /** host_from_stream_offset: the remembered block, or the one named in the stream. */
  function HostBlock(d: Dest, f: seq<Byte>, cont: bool): Loaded<(Option<Id>, seq<Byte>)> {
    if cont then Ok((d.block, f))
    else
      var (id, f) :- GetId(f);
      Ok((if FindBlock(d.blocks, id).Some? then Some(id) else None, f))
  }

  /** Stores a page through the pointer that HostBlock gave. */
  function StorePage(d: Dest, host: Option<Id>, k: nat, data: Page, ifNull: Failure): Loaded<Dest> {
    if host.None? then Err(ifNull)
    else if host.value !in d.mem || k >= |d.mem[host.value]| then Err(Crash)
    else Ok(d.(mem := d.mem[host.value := d.mem[host.value][k := data]], block := host))
  }

  /** addr & TARGET_PAGE_MASK */
  function PageMasked(ps: nat, v: nat): nat
    requires ps > 0
  {
    ModAtMost(v, ps);
    v - v % ps
  }

  lemma ModAtMost(v: nat, ps: nat)
    requires ps > 0
    ensures v % ps <= v && v % ps < ps
  {
    if v < ps {
      assert v % ps == v;
    }
  }

  /** RAM_SAVE_FLAG_COMPRESS: one byte fills the page. */
  function LoadDup(d: Dest, f: seq<Byte>, k: nat, cont: bool): (r: Loaded<(Dest, seq<Byte>)>)
    ensures r.Ok? ==> |r.value.1| <= |f| && r.value.0.ps == d.ps
  {
    var (host, f) :- HostBlock(d, f, cont);
    if host.None? then Err(Inval)
    else
      var (ch, f) :- Take(f, 1);
      var d :- StorePage(d, host, k, Filled(d.ps, ch[0]), Inval);
      Ok((d, f))
  }

  /** RAM_SAVE_FLAG_PAGE: the page follows; a null host pointer is not checked for. */
  function LoadFull(d: Dest, f: seq<Byte>, k: nat, cont: bool): (r: Loaded<(Dest, seq<Byte>)>)
    ensures r.Ok? ==> |r.value.1| <= |f| && r.value.0.ps == d.ps
  {
    var (host, f) :- HostBlock(d, f, cont);
    var (data, f) :- Take(f, d.ps);
    var d :- StorePage(d, host, k, data, Crash);
    Ok((d, f))
  }

  /** What follows the tag: the block list if it is there, then a page, and whether EOS was seen. */
  function LoadBody(d: Dest, flags: nat, addr: nat, k: nat, f: seq<Byte>): (r: Loaded<(Dest, seq<Byte>, bool)>)
    ensures r.Ok? ==> |r.value.1| <= |f| && r.value.0.ps == d.ps
  {
    var f :- if Bit(flags, 2) then LoadEntries(d, f, addr) else Ok(f);
    var (d', f) :-
      if Bit(flags, 1) then LoadDup(d, f, k, Bit(flags, 5))
      else if Bit(flags, 3) then LoadFull(d, f, k, Bit(flags, 5))
      else Ok((d, f));
    Ok((d', f, Bit(flags, 4)))
  }

  /** One turn of the loop in ram_load: the new state, the rest of the stream, and whether EOS was seen. */
  function LoadRecord(d: Dest, f: seq<Byte>): (r: Loaded<(Dest, seq<Byte>, bool)>)
    requires d.ps > 0
    ensures r.Ok? ==> |r.value.1| < |f| && r.value.0.ps == d.ps
  {
    var (v, f) :- GetBe64(f);
    LoadBody(d, v % d.ps, PageMasked(d.ps, v), v / d.ps, f)
  }

  /** One call of ram_load: records up to and including the first EOS. */
  function LoadSection(d: Dest, f: seq<Byte>): (r: Loaded<(Dest, seq<Byte>)>)
    requires d.ps > 0
    ensures r.Ok? ==> |r.value.1| < |f| && r.value.0.ps == d.ps
    decreases |f|
  {
    var (d', f', eos) :- LoadRecord(d, f);
    if eos then Ok((d', f')) else LoadSection(d', f')
  }

  /** Section after section until the stream is used up. */
  function Replay(d: Dest, f: seq<Byte>): Loaded<Dest>
    requires d.ps > 0
    decreases |f|
  {
    if f == [] then Ok(d)
    else
      var (d', f') :- LoadSection(d, f);
      Replay(d', f')
  }

  // ----- what a record means

  predicate Known(d: Dest, id: Id, pages: nat) {
    match FindBlock(d.blocks, id)
    case None => false
    case Some(b) =>
      FindBlockFinds(d.blocks, id);
      d.blocks[b].pages == pages
  }

  predicate CheckEntries(d: Dest, entries: seq<(Id, nat)>) {
    forall i | 0 <= i < |entries| :: Known(d, entries[i].0, entries[i].1)
  }

  function NamedBlock(d: Dest, cont: bool, id: Id): Option<Id> {
    if cont then d.block else if FindBlock(d.blocks, id).Some? then Some(id) else None
  }

  function Apply(d: Dest, r: Record): Loaded<Dest> {
    match r
    case Header(entries) => if CheckEntries(d, entries) then Ok(d) else Err(Inval)
    case DupPage(k, cont, id, ch) => StorePage(d, NamedBlock(d, cont, id), k, Filled(d.ps, ch), Inval)
    case FullPage(k, cont, id, data) => StorePage(d, NamedBlock(d, cont, id), k, data, Crash)
    case Eos => Ok(d)
  }

  function ApplyAll(d: Dest, rs: seq<Record>): Loaded<Dest>
    decreases |rs|
  {
    if rs == [] then Ok(d)
    else
      var d' :- Apply(d, rs[0]);
      ApplyAll(d', rs[1..])
  }

  // ----- reading a record back

  lemma TagSplits(ps: nat, k: nat, flags: nat)
    requires 64 <= ps && flags < 64
    ensures (ps * k + flags) / ps == k && (ps * k + flags) % ps == flags
  {
    DivIs(ps * k + flags, ps, k, flags);
  }

  lemma TakeBack(s: seq<Byte>, rest: seq<Byte>)
    ensures Take(s + rest, |s|) == Ok((s, rest))
  {
    assert (s + rest)[..|s|] == s && (s + rest)[|s|..] == rest;
  }

  lemma GetIdBack(id: Id, rest: seq<Byte>)
    requires |id| < 256
    ensures GetId(IdBytes(id) + rest) == Ok((id, rest))
  {
    assert IdBytes(id) + rest == [|id|] + (id + rest);
    TakeBack([|id|], id + rest);
    TakeBack(id, rest);
  }

  lemma GetBe64Back(v: nat, rest: seq<Byte>)
    requires v < TWO_64
    ensures GetBe64(Be(8, v) + rest) == Ok((v, rest))
  {
    TakeBack(Be(8, v), rest);
    Be64RoundTrip(v);
  }

  lemma PagesBound(ps: nat, entries: seq<(Id, nat)>)
    requires entries != []
    ensures ps * PagesOf(entries) == ps * entries[0].1 + ps * PagesOf(entries[1..])
  {
    Distributes(ps, entries[0].1, PagesOf(entries[1..]));
  }

  lemma Distributes(m: nat, x: nat, y: nat)
    ensures m * (x + y) == m * x + m * y
  {}

  lemma SameProduct(m: nat, x: nat, y: nat)
    requires m > 0
    ensures m * x == m * y <==> x == y
    ensures x > 0 ==> m * x > 0
  {}

  lemma FirstEntryChecked(d: Dest, entries: seq<(Id, nat)>)
    requires entries != []
    ensures CheckEntries(d, entries) <==> Known(d, entries[0].0, entries[0].1) && CheckEntries(d, entries[1..])
  {
    hide Known;
    if CheckEntries(d, entries[1..]) {
      forall i | 0 < i < |entries| ensures Known(d, entries[i].0, entries[i].1) {
        assert entries[i] == entries[1..][i - 1];
      }
    }
  }

  /**
   One turn of the list loop on one encoded entry, with any total but 0 left: an
   entry longer than what is left makes the counter wrap.
   */
  lemma EntryReadBack(d: Dest, id: Id, pages: nat, tail: seq<Byte>, total: nat)
    requires d.ps > 0 && |id| < 256 && pages > 0 && d.ps * pages < TWO_64 && 0 < total < TWO_64
    ensures LoadEntries(d, IdBytes(id) + Be(8, d.ps * pages) + tail, total)
         == if !Known(d, id, pages) then Err(Inval)
            else LoadEntries(d, tail, if total >= d.ps * pages then total - d.ps * pages else total - d.ps * pages + TWO_64)
  {
    hide Be, IdBytes, BeValue, GetId, GetBe64;
    var length := d.ps * pages;
    assert IdBytes(id) + Be(8, length) + tail == IdBytes(id) + (Be(8, length) + tail);
    GetIdBack(id, Be(8, length) + tail);
    GetBe64Back(length, tail);
    FindBlockFinds(d.blocks, id);
    SameProduct(d.ps, pages, pages);
    var b := FindBlock(d.blocks, id);
    if b.Some? {
      SameProduct(d.ps, d.blocks[b.value].pages, pages);
      Wraps(total, length);
    }
  }

  lemma Wraps(total: nat, length: nat)
    requires total < TWO_64 && length < TWO_64
    ensures (total + TWO_64 - length % TWO_64) % TWO_64 == if total >= length then total - length else total - length + TWO_64
  {}

  lemma NoMoreEntries(d: Dest, f: seq<Byte>)
    ensures LoadEntries(d, f, 0) == Ok(f) && CheckEntries(d, [])
  {}

  /** The id/length list is consumed exactly, and the counter reaches zero with its last entry. */
  lemma {:induction false} EntriesReadBack(d: Dest, entries: seq<(Id, nat)>, rest: seq<Byte>)
    requires d.ps > 0 && ValidEntries(entries) && d.ps * PagesOf(entries) < TWO_64
    ensures LoadEntries(d, EncodeEntries(d.ps, entries) + rest, d.ps * PagesOf(entries))
         == if CheckEntries(d, entries) then Ok(rest) else Err(Inval)
    decreases |entries|
  {
    hide Be, IdBytes, Known, LoadEntries, CheckEntries;
    var f := EncodeEntries(d.ps, entries) + rest;
    if entries == [] {
      assert f == rest;
      NoMoreEntries(d, rest);
    } else {
      var (id, pages) := entries[0];
      var tail := EncodeEntries(d.ps, entries[1..]) + rest;
      PagesBound(d.ps, entries);
      assert f == IdBytes(id) + Be(8, d.ps * pages) + tail;
      SameProduct(d.ps, pages, pages);
      EntryReadBack(d, id, pages, tail, d.ps * PagesOf(entries));
      EntriesReadBack(d, entries[1..], rest);
      FirstEntryChecked(d, entries);
    }
  }

  // ----- whole records

  lemma FlagValues()
    ensures Bit(COMPRESS, 1) && !Bit(COMPRESS, 2) && !Bit(COMPRESS, 4) && !Bit(COMPRESS, 5)
    ensures Bit(CONTINUE + COMPRESS, 1) && !Bit(CONTINUE + COMPRESS, 2) && !Bit(CONTINUE + COMPRESS, 4) && Bit(CONTINUE + COMPRESS, 5)
    ensures !Bit(PAGE, 1) && !Bit(PAGE, 2) && Bit(PAGE, 3) && !Bit(PAGE, 4) && !Bit(PAGE, 5)
    ensures !Bit(CONTINUE + PAGE, 1) && !Bit(CONTINUE + PAGE, 2) && Bit(CONTINUE + PAGE, 3) && !Bit(CONTINUE + PAGE, 4) && Bit(CONTINUE + PAGE, 5)
    ensures !Bit(MEM_SIZE, 1) && Bit(MEM_SIZE, 2) && !Bit(MEM_SIZE, 3) && !Bit(MEM_SIZE, 4)
    ensures !Bit(EOS, 1) && !Bit(EOS, 2) && !Bit(EOS, 3) && Bit(EOS, 4)
  {
    assert Bit(2, 1) && !Bit(2, 2) && !Bit(2, 4) && !Bit(2, 5);
    assert Bit(34, 1) && !Bit(34, 2) && !Bit(34, 4) && Bit(34, 5);
    assert !Bit(8, 1) && !Bit(8, 2) && Bit(8, 3) && !Bit(8, 4) && !Bit(8, 5);
    assert !Bit(40, 1) && !Bit(40, 2) && Bit(40, 3) && !Bit(40, 4) && Bit(40, 5);
    assert !Bit(4, 1) && Bit(4, 2) && !Bit(4, 3) && !Bit(4, 4);
    assert !Bit(16, 1) && !Bit(16, 2) && !Bit(16, 3) && Bit(16, 4);
  }

  /** What one turn of the loop does once the tag has been read. */
  function LoadTagged(d: Dest, k: nat, flags: nat, f: seq<Byte>): Loaded<(Dest, seq<Byte>, bool)> {
    LoadBody(d, flags, d.ps * k, k, f)
  }

  lemma TagReadBack(d: Dest, k: nat, flags: nat, rest: seq<Byte>)
    requires 64 <= d.ps && flags < 64 && d.ps * k + flags < TWO_64
    ensures LoadRecord(d, Be(8, d.ps * k + flags) + rest) == LoadTagged(d, k, flags, rest)
  {
    hide Be, BeValue, Bit, LoadEntries, LoadDup, LoadFull;
    GetBe64Back(d.ps * k + flags, rest);
    TagSplits(d.ps, k, flags);
  }

  lemma HostReadBack(d: Dest, cont: bool, id: Id, rest: seq<Byte>)
    requires |id| < 256
    ensures HostBlock(d, (if cont then [] else IdBytes(id)) + rest, cont) == Ok((NamedBlock(d, cont, id), rest))
  {
    if cont {
      assert [] + rest == rest;
    } else {
      GetIdBack(id, rest);
    }
  }

  /** What reading a record should give: its effect, the rest of the stream, and EOS only for Eos. */
  function ReadBack(d: Dest, r: Record, rest: seq<Byte>): Loaded<(Dest, seq<Byte>, bool)> {
    match Apply(d, r)
    case Err(why) => Err(why)
    case Ok(d') => Ok((d', rest, r.Eos?))
  }

  lemma HeaderReadBack(d: Dest, entries: seq<(Id, nat)>, rest: seq<Byte>)
    requires 64 <= d.ps && ValidRecord(d.ps, Header(entries))
    ensures LoadRecord(d, Encode(d.ps, Header(entries)) + rest) == ReadBack(d, Header(entries), rest)
  {
    hide Be, BeValue, Bit, LoadRecord, LoadEntries, EncodeEntries, CheckEntries, LoadDup, LoadFull;
    FlagValues();
    var k := PagesOf(entries);
    assert Encode(d.ps, Header(entries)) + rest == Be(8, d.ps * k + MEM_SIZE) + (EncodeEntries(d.ps, entries) + rest);
    TagReadBack(d, k, MEM_SIZE, EncodeEntries(d.ps, entries) + rest);
    EntriesReadBack(d, entries, rest);
  }

  lemma TagThenBody(ps: nat, k: nat, cont: bool, id: Id, kind: nat, body: seq<Byte>, rest: seq<Byte>)
    requires |id| < 256
    ensures EncodeTag(ps, k, cont, id, kind) + body + rest
         == Be(8, ps * k + ((if cont then CONTINUE else 0) + kind)) + ((if cont then [] else IdBytes(id)) + (body + rest))
  {
    hide Be, IdBytes;
  }

  lemma DupReadBack(d: Dest, k: nat, cont: bool, id: Id, ch: Byte, rest: seq<Byte>)
    requires 64 <= d.ps && ValidRecord(d.ps, DupPage(k, cont, id, ch))
    ensures LoadRecord(d, Encode(d.ps, DupPage(k, cont, id, ch)) + rest) == ReadBack(d, DupPage(k, cont, id, ch), rest)
  {
    hide Be, BeValue, Bit, LoadRecord, LoadEntries, LoadFull, IdBytes, EncodeTag, NamedBlock, HostBlock, StorePage, Filled, Take;
    FlagValues();
    var flags := (if cont then CONTINUE else 0) + COMPRESS;
    var name := if cont then [] else IdBytes(id);
    TagThenBody(d.ps, k, cont, id, COMPRESS, [ch], rest);
    TagReadBack(d, k, flags, name + ([ch] + rest));
    HostReadBack(d, cont, id, [ch] + rest);
    TakeBack([ch], rest);
    NullHostIsInval(d, NamedBlock(d, cont, id), k, Filled(d.ps, ch));
  }

  lemma NullHostIsInval(d: Dest, host: Option<Id>, k: nat, data: Page)
    ensures host.None? ==> StorePage(d, host, k, data, Inval) == Err(Inval)
  {}

  lemma FullReadBack(d: Dest, k: nat, cont: bool, id: Id, data: Page, rest: seq<Byte>)
    requires 64 <= d.ps && ValidRecord(d.ps, FullPage(k, cont, id, data))
    ensures LoadRecord(d, Encode(d.ps, FullPage(k, cont, id, data)) + rest) == ReadBack(d, FullPage(k, cont, id, data), rest)
  {
    hide Be, BeValue, Bit, LoadRecord, LoadEntries, LoadDup, IdBytes, EncodeTag, NamedBlock, HostBlock, StorePage, Take;
    FlagValues();
    var flags := (if cont then CONTINUE else 0) + PAGE;
    var name := if cont then [] else IdBytes(id);
    TagThenBody(d.ps, k, cont, id, PAGE, data, rest);
    TagReadBack(d, k, flags, name + (data + rest));
    HostReadBack(d, cont, id, data + rest);
    TakeBack(data, rest);
  }

  lemma EosReadBack(d: Dest, rest: seq<Byte>)
    requires 64 <= d.ps
    ensures LoadRecord(d, Encode(d.ps, Eos) + rest) == ReadBack(d, Eos, rest)
  {
    hide Be, BeValue, Bit, LoadRecord, LoadEntries, LoadDup, LoadFull;
    FlagValues();
    assert d.ps * 0 + EOS == EOS;
    TagReadBack(d, 0, EOS, rest);
  }

  /** Every record is read back exactly. */
  lemma RecordReadBack(d: Dest, r: Record, rest: seq<Byte>)
    requires 64 <= d.ps && ValidRecord(d.ps, r)
    ensures LoadRecord(d, Encode(d.ps, r) + rest) == ReadBack(d, r, rest)
  {
    hide Encode, LoadRecord, ReadBack;
    match r
    case Header(entries) => HeaderReadBack(d, entries, rest);
    case DupPage(k, cont, id, ch) => DupReadBack(d, k, cont, id, ch, rest);
    case FullPage(k, cont, id, data) => FullReadBack(d, k, cont, id, data, rest);
    case Eos => EosReadBack(d, rest);
  }

  /** What the receiver does not accept, and how it fails. */
  lemma ApplyFails(d: Dest, k: nat, id: Id, ch: Byte, data: Page)
    ensures (forall b | 0 <= b < |d.blocks| :: d.blocks[b].id != id) ==>
              Apply(d, DupPage(k, false, id, ch)) == Err(Inval) && Apply(d, FullPage(k, false, id, data)) == Err(Crash)
    ensures d.block == None ==> Apply(d, DupPage(k, true, id, ch)) == Err(Inval) && Apply(d, FullPage(k, true, id, data)) == Err(Crash)
    ensures d.block == Some(id) && id in d.mem && k < |d.mem[id]| ==>
              && Apply(d, DupPage(k, true, [], ch)) == Ok(d.(mem := d.mem[id := d.mem[id][k := seq(d.ps, _ => ch)]]))
              && Apply(d, FullPage(k, true, [], data)) == Ok(d.(mem := d.mem[id := d.mem[id][k := data]]))
    ensures d.block == Some(id) && (id !in d.mem || k >= |d.mem[id]|) ==>
              Apply(d, DupPage(k, true, [], ch)) == Err(Crash) && Apply(d, FullPage(k, true, [], data)) == Err(Crash)
    ensures Apply(d, Eos) == Ok(d)
  {
    FindBlockFinds(d.blocks, id);
    assert d.block == Some(id) ==> d.(block := Some(id)) == d;
    assert Filled(d.ps, ch) == seq(d.ps, _ => ch);
  }

  /** A header is accepted exactly when every block it lists is one of ours with the same length. */
  lemma HeaderAcceptedIff(d: Dest, entries: seq<(Id, nat)>)
    requires forall b, c | 0 <= b < c < |d.blocks| :: d.blocks[b].id != d.blocks[c].id
    ensures Apply(d, Header(entries)) == Ok(d) <==> forall i | 0 <= i < |entries| :: Has(d.blocks, entries[i].0, entries[i].1)
    ensures Apply(d, Header(entries)) != Ok(d) ==> Apply(d, Header(entries)) == Err(Inval)
  {
    hide Known, Has;
    forall i | 0 <= i < |entries|
      ensures Known(d, entries[i].0, entries[i].1) <==> Has(d.blocks, entries[i].0, entries[i].1)
    {
      KnownIff(d, entries[i].0, entries[i].1);
    }
  }

  ghost predicate Has(blocks: seq<RamBlock>, id: Id, pages: nat) {
    exists b :: 0 <= b < |blocks| && blocks[b].id == id && blocks[b].pages == pages
  }

  lemma KnownIff(d: Dest, id: Id, pages: nat)
    requires forall b, c | 0 <= b < c < |d.blocks| :: d.blocks[b].id != d.blocks[c].id
    ensures Known(d, id, pages) <==> Has(d.blocks, id, pages)
  {
    hide FindBlock;
    FindBlockFinds(d.blocks, id);
  }

  predicate ValidRecords(ps: nat, rs: seq<Record>) {
    forall i | 0 <= i < |rs| :: ValidRecord(ps, rs[i])
  }

  /** The records of the stream up to and including the first Eos, and those after it. */
  lemma {:induction false} SectionReadBack(d: Dest, rs: seq<Record>)
    requires 64 <= d.ps && ValidRecords(d.ps, rs)
    requires rs != [] && rs[|rs| - 1].Eos?
    ensures match LoadSection(d, EncodeAll(d.ps, rs))
            case Err(why) => ApplyAll(d, rs) == Err(why)
            case Ok((d', f)) =>
              exists n :: 0 < n <= |rs| && rs[n - 1].Eos?
                && f == EncodeAll(d.ps, rs[n..]) && d'.ps == d.ps && ApplyAll(d, rs) == ApplyAll(d', rs[n..])
    decreases |rs|
  {
    hide Encode, Apply, LoadRecord;
    RecordReadBack(d, rs[0], EncodeAll(d.ps, rs[1..]));
    match Apply(d, rs[0])
    case Err(why) =>
    case Ok(d') =>
      if rs[0].Eos? {
        assert rs[1 - 1].Eos?;
      } else {
        assert d'.ps == d.ps;
        SectionReadBack(d', rs[1..]);
        if LoadSection(d', EncodeAll(d.ps, rs[1..])).Ok? {
          var (d'', f) := LoadSection(d', EncodeAll(d.ps, rs[1..])).value;
          var n :| 0 < n <= |rs[1..]| && rs[1..][n - 1].Eos?
            && f == EncodeAll(d.ps, rs[1..][n..]) && d''.ps == d.ps && ApplyAll(d', rs[1..]) == ApplyAll(d'', rs[1..][n..]);
          assert rs[1..][n..] == rs[n + 1..];
          assert rs[(n + 1) - 1].Eos?;
        }
      }
  }

  /** Replaying the bytes of a stream that ends a section is applying its records. */
  lemma {:induction false} StreamReadBack(d: Dest, rs: seq<Record>)
    requires 64 <= d.ps && ValidRecords(d.ps, rs)
    requires rs != [] ==> rs[|rs| - 1].Eos?
    ensures Replay(d, EncodeAll(d.ps, rs)) == ApplyAll(d, rs)
    decreases |rs|
  {
    hide Encode, Apply, LoadSection;
    if rs != [] {
      RecordsTakeSpace(d.ps, rs);
      SectionReadBack(d, rs);
      if LoadSection(d, EncodeAll(d.ps, rs)).Ok? {
        var (d', f) := LoadSection(d, EncodeAll(d.ps, rs)).value;
        var n :| 0 < n <= |rs| && rs[n - 1].Eos?
          && f == EncodeAll(d.ps, rs[n..]) && d'.ps == d.ps && ApplyAll(d, rs) == ApplyAll(d', rs[n..]);
        StreamReadBack(d', rs[n..]);
      }
    }
  }

  lemma RecordsTakeSpace(ps: nat, rs: seq<Record>)
    requires ValidRecords(ps, rs) && rs != []
    ensures EncodeAll(ps, rs) != []
  {
    hide EncodeEntries;
    assert |Encode(ps, rs[0])| >= 8;
  }
}
