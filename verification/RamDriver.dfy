/**
 A whole migration of guest RAM: stage 1, rounds of guest stores and stage 2,
 a last round with the guest stopped and stage 3, then the receiver reading
 everything that was sent.
 */
module RamDriver {
  import opened Basics
  import opened Bits
  import opened RamModel
  import opened RamStream
  import opened RamMigration
  import opened RamSaver
  import opened RamReceiver

  /** A page the guest stores, and whether the dirty log or the flags learn of it. */
  datatype Store = Store(p: Pos, data: Page, logged: bool)

  /** What happens between two stages, and what the next stage meets. */
  datatype Round = Round(stores: seq<Store>, syncOk: bool, budget: nat)

  predicate Fits(ps: nat, blocks: seq<RamBlock>, stores: seq<Store>) {
    forall i | 0 <= i < |stores| :: ValidPos(blocks, stores[i].p) && |stores[i].data| == ps
  }

  predicate AllFit(ps: nat, blocks: seq<RamBlock>, rounds: seq<Round>) {
    forall i | 0 <= i < |rounds| :: Fits(ps, blocks, rounds[i].stores)
  }

  /** The memory after the guest's stores, whatever migration does meanwhile. */
  function Patched(blocks: seq<RamBlock>, mem: Memory, stores: seq<Store>): Memory {
    if stores == [] then mem
    else PatchedOnce(blocks, Patched(blocks, mem, stores[..|stores| - 1]), stores[|stores| - 1])
  }

  function PatchedOnce(blocks: seq<RamBlock>, mem: Memory, x: Store): Memory {
    if ValidPos(blocks, x.p) && blocks[x.p.b].id in mem && x.p.k < |mem[blocks[x.p.b].id]|
    then mem[blocks[x.p.b].id := mem[blocks[x.p.b].id][x.p.k := x.data]]
    else mem
  }

  function PatchedOver(blocks: seq<RamBlock>, mem: Memory, rounds: seq<Round>): Memory {
    if rounds == [] then mem
    else Patched(blocks, PatchedOver(blocks, mem, rounds[..|rounds| - 1]), rounds[|rounds| - 1].stores)
  }

  predicate AllSynced(rounds: seq<Round>) {
    forall i | 0 <= i < |rounds| :: rounds[i].syncOk
  }

  lemma {:induction false} RunConcat(s: Source, es: seq<Event>, fs: seq<Event>)
    requires ValidSource(s) && PossibleRun(s, es) && ValidSource(Run(s, es)) && PossibleRun(Run(s, es), fs)
    ensures PossibleRun(s, es + fs) && Run(s, es + fs) == Run(Run(s, es), fs)
    decreases |es|
  {
    hide Step, ValidSource, Possible;
    if es == [] {
      assert es + fs == fs;
    } else {
      StepKeepsValid(s, es[0]);
      var s' := Step(s, es[0]);
      SamePossible(s, s', es);
      RunConcat(s', es[1..], fs);
      assert (es + fs)[1..] == es[1..] + fs;
      ConsPossible(s, s', es + fs);
    }
  }

  lemma ConsPossible(s: Source, s': Source, es: seq<Event>)
    requires es != [] && Possible(s, es[0]) && s'.blocks == s.blocks && s'.ps == s.ps && PossibleRun(s', es[1..])
    ensures PossibleRun(s, es)
  {
    forall i | 0 <= i < |es| ensures Possible(s, es[i]) {
      assert i > 0 ==> Possible(s', es[1..][i - 1]);
    }
  }

  lemma {:induction false} OnlyTheGuestWrites(s: Source, es: seq<Event>)
    requires ValidSource(s) && PossibleRun(s, es) && forall i | 0 <= i < |es| :: !es[i].GuestWrite?
    ensures Run(s, es).mem == s.mem
    decreases |es|
  {
    hide ValidSource, Possible, Send, Synced;
    if es != [] {
      StepKeepsValid(s, es[0]);
      SendKeepsMemory(s);
      SamePossible(s, Step(s, es[0]), es);
      OnlyTheGuestWrites(Step(s, es[0]), es[1..]);
    }
  }

  lemma SendKeepsMemory(s: Source)
    requires ValidSource(s)
    ensures Send(s).mem == s.mem && Synced(s).mem == s.mem
  {
    SendKeepsValid(s);
  }

  /** The sender is where the steps `es` of the migration begun in `s0` have led it. */
  ghost predicate Underway(src: Saver, s0: Source, es: seq<Event>, prior: seq<Byte>)
    reads src, src.physDirty
  {
    && src.Valid() && src.Fresh() && src.prior == prior
    && ValidSource(s0) && ValidSource(Started(s0)) && PossibleRun(Started(s0), es)
    && src.Value() == Run(Started(s0), es)
  }

  method GuestRuns(src: Saver, stores: seq<Store>, ghost s0: Source, ghost es: seq<Event>) returns (ghost es': seq<Event>)
    requires Underway(src, s0, es, src.prior) && Fits(src.ps, src.blocks, stores)
    modifies src`mem, src`log, src.physDirty
    ensures Underway(src, s0, es', src.prior)
    ensures src.mem == Patched(src.blocks, old(src.mem), stores)
  {
    hide Underway;
    es' := es;
    var i := 0;
    assert stores[..0] == [];
    while i < |stores|
      invariant 0 <= i <= |stores| && Underway(src, s0, es', src.prior)
      invariant src.mem == Patched(src.blocks, old(src.mem), stores[..i])
    {
      es' := GuestStep(src, stores[i], s0, es');
      assert stores[..i + 1][..i] == stores[..i];
      i := i + 1;
    }
    assert stores[..i] == stores;
  }

  method GuestStep(src: Saver, x: Store, ghost s0: Source, ghost es: seq<Event>) returns (ghost es': seq<Event>)
    requires Underway(src, s0, es, src.prior) && ValidPos(src.blocks, x.p) && |x.data| == src.ps
    modifies src`mem, src`log, src.physDirty
    ensures Underway(src, s0, es', src.prior)
    ensures src.mem == PatchedOnce(src.blocks, old(src.mem), x)
  {
    hide Run, Started, ValidBlocks, Total;
    ghost var e := GuestWrite(x.p, x.data, x.logged);
    RunKeepsBlocks(Started(s0), es);
    RunAppends(Started(s0), es, e);
    assert BlockFits(src.ps, src.mem, src.blocks[x.p.b]);
    src.GuestStore(x.p, x.data, x.logged);
    es' := es + [e];
  }

  /** Stage 2 or 3 of a migration under way. */
  method LaterStage(src: Saver, stage: int, syncOk: bool, budget: nat, ghost s0: Source, ghost es: seq<Event>)
    returns (fileError: bool, ghost es': seq<Event>)
    requires Underway(src, s0, es, src.prior) && 2 <= stage <= 3
    modifies src, src.physDirty
    ensures fileError == !syncOk && src.prior == old(src.prior) && src.mem == old(src.mem) && src.blocks == old(src.blocks)
    ensures Underway(src, s0, es', src.prior)
    ensures syncOk && stage == 3 ==>
              && DirtyPages(src.Value()) == {} && src.log == {}
              && |src.sent| > 0 && src.sent[|src.sent| - 1] == Eos
  {
    hide Run, Started, ValidSource, DirtyPages;
    ghost var s := src.Value();
    ghost var fs;
    fileError, fs := src.SaveLive(stage, syncOk, budget);
    es' := es;
    if syncOk {
      RunConcat(Started(s0), es, fs);
      RunKeepsBlocks(s, fs);
      OnlyTheGuestWrites(s, fs);
      es' := es + fs;
    }
  }

  method FirstStage(src: Saver, syncOk: bool, budget: nat) returns (fileError: bool, ghost es: seq<Event>)
    requires src.Valid()
    modifies src, src.physDirty
    ensures src.mem == old(src.mem) && fileError == !syncOk
    ensures syncOk ==> Underway(src, old(src.Value()), es, old(src.f)) && src.blocks == SortBlocks(old(src.blocks))
  {
    hide Run, ValidSource;
    ghost var s := src.Value();
    StartedIsValid(s);
    fileError, es := src.SaveLive(1, syncOk, budget);
    if syncOk {
      RunKeepsBlocks(Started(s), es);
      OnlyTheGuestWrites(Started(s), es);
    }
  }

  /**
   The rounds while the guest runs.  The migration fails at the first
   synchronisation that fails.
   */
  method Iterate(src: Saver, rounds: seq<Round>, ghost s0: Source, ghost es: seq<Event>)
    returns (ok: bool, ghost es': seq<Event>)
    requires Underway(src, s0, es, src.prior) && AllFit(src.ps, src.blocks, rounds)
    modifies src, src.physDirty
    ensures ok == AllSynced(rounds) && src.prior == old(src.prior) && src.blocks == old(src.blocks)
    ensures ok ==> Underway(src, s0, es', src.prior) && src.mem == PatchedOver(src.blocks, old(src.mem), rounds)
  {
    hide Underway, Patched, Fits;
    es' := es;
    var i := 0;
    assert rounds[..0] == [];
    while i < |rounds|
      invariant 0 <= i <= |rounds| && AllSynced(rounds[..i])
      invariant src.prior == old(src.prior) && src.blocks == old(src.blocks)
      invariant Underway(src, s0, es', src.prior)
      invariant src.mem == PatchedOver(src.blocks, old(src.mem), rounds[..i])
    {
      es' := GuestRuns(src, rounds[i].stores, s0, es');
      var fileError;
      fileError, es' := LaterStage(src, 2, rounds[i].syncOk, rounds[i].budget, s0, es');
      if fileError { return false, es'; }
      assert rounds[..i + 1][..i] == rounds[..i];
      i := i + 1;
    }
    assert rounds[..i] == rounds;
    return true, es';
  }

  /**
   A migration from beginning to end.  It succeeds exactly when every
   synchronisation does, and then both machines hold the memory that the
   guest's own stores have made of the old one.
   */
  method Migrate(src: Saver, dst: Receiver, syncOk: bool, budget: nat, rounds: seq<Round>, last: Round) returns (ok: bool)
    requires src.Valid() && dst.ps == src.ps && SameLayout(src.blocks, dst.Value())
    requires AllFit(src.ps, SortBlocks(src.blocks), rounds) && Fits(src.ps, SortBlocks(src.blocks), last.stores)
    modifies src, src.physDirty, dst
    ensures ok == (syncOk && AllSynced(rounds) && last.syncOk)
    ensures ok ==> dst.mem == src.mem
    ensures ok ==> src.mem == Patched(src.blocks, PatchedOver(src.blocks, old(src.mem), rounds), last.stores)
    ensures ok ==> src.blocks == SortBlocks(old(src.blocks))
  {
    hide Underway, SameLayout, SortBlocks, Fits, AllFit, Patched, PatchedOver;
    var start := |src.f|;
    ghost var s0, f0 := src.Value(), src.f;
    var fileError;
    ghost var es;
    fileError, es := FirstStage(src, syncOk, budget);
    if fileError { return false; }
    PriorStays(src, s0, es, f0);
    ok, es := Iterate(src, rounds, s0, es);
    if !ok { return; }
    es := GuestRuns(src, last.stores, s0, es);
    fileError, es := LaterStage(src, 3, last.syncOk, last.budget, s0, es);
    if fileError { return false; }
    EndsEqual(src, s0, es, f0, dst.Value());
    var loaded := dst.LoadStream(src.f[start..]);
    return loaded.Ok?;
  }

  lemma PriorStays(src: Saver, s0: Source, es: seq<Event>, prior: seq<Byte>)
    requires Underway(src, s0, es, prior)
    ensures src.prior == prior
  {}

  /** The bytes of a migration that ended clean carry its memory. */
  lemma EndsEqual(src: Saver, s0: Source, es: seq<Event>, prior: seq<Byte>, d0: Dest)
    requires Underway(src, s0, es, prior) && d0.ps == s0.ps && SameLayout(s0.blocks, d0)
    requires DirtyPages(src.Value()) == {} && src.log == {} && |src.sent| > 0 && src.sent[|src.sent| - 1] == Eos
    ensures |prior| <= |src.f| && d0.ps > 0
    ensures Replay(d0, src.f[|prior|..]).Ok? && Replay(d0, src.f[|prior|..]).value.mem == src.mem
  {
    hide Run, Started, SameLayout, DirtyPages, Replay, EncodeAll, MemoryFits, ValidBlocks;
    CleanRunCopiesMemory(s0, d0, es);
    RunKeepsBlocks(Started(s0), es);
    StartedSendsHeader(s0);
    assert src.f[|prior|..] == EncodeAll(src.ps, src.sent);
  }
}
