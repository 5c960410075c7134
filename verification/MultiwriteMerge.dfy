/**
 multiwrite_merge: adjacent and overlapping write requests are joined before
 they are submitted.  What the joined requests write is compared with writing
 the sorted requests one by one, and zeros where only a fill lies.
 */
module MultiwriteMerge {
  import opened Basics
  import opened Bits
  import opened IoVector

  /** A write of `bytes` at byte `off`. */
  datatype Extent = Extent(off: nat, bytes: seq<Byte>)

  function End(e: Extent): nat { e.off + |e.bytes| }

  predicate Covers(e: Extent, x: nat) { e.off <= x < End(e) }

  /** Byte x of a disk that held `init` there, after the writes in order. */
  function ByteAfter(ws: seq<Extent>, x: nat, init: Byte): Byte {
    if ws == [] then init
    else
      var last := ws[|ws| - 1];
      if Covers(last, x) then last.bytes[x - last.off] else ByteAfter(ws[..|ws| - 1], x, init)
  }

  function Zeros(n: nat): seq<Byte> { seq(n, _ => 0) }

  /** The zero fill between two requests that do not touch. */
  function Gap(acc: Extent, next: Extent): Extent {
    Extent(End(acc), Zeros(if next.off > End(acc) then next.off - End(acc) else 0))
  }

  /** One join: the first request cut off where the second starts, the gap, the second request whole. */
  function Join(acc: Extent, next: Extent): Extent
    requires acc.off <= next.off
  {
    Extent(acc.off, TakeUpTo(acc.bytes, next.off - acc.off) + Gap(acc, next).bytes + next.bytes)
  }

  ghost predicate Sorted(rs: seq<Extent>) {
    forall i, j | 0 <= i < j < |rs| :: rs[i].off <= rs[j].off
  }

  /** The requests left after looking at the first n; joins[k] says whether request k was joined. */
  ghost function Merged(rs: seq<Extent>, joins: seq<bool>, n: nat): (m: seq<Extent>)
    requires 0 < n <= |rs| == |joins| && Sorted(rs)
    ensures 0 < |m| <= n && m[|m| - 1].off <= rs[n - 1].off && End(m[|m| - 1]) == End(rs[n - 1])
  {
    if n == 1 then [rs[0]]
    else
      var m := Merged(rs, joins, n - 1);
      var acc := m[|m| - 1];
      if joins[n - 1] then m[..|m| - 1] + [Join(acc, rs[n - 1])] else m + [rs[n - 1]]
  }

  // ----- what should be on the disk

  ghost predicate Requested(rs: seq<Extent>, n: nat, x: nat)
    requires n <= |rs|
  {
    exists i | 0 <= i < n :: Covers(rs[i], x)
  }

  /** A join that the driver approved fills x. */
  ghost predicate Filled(rs: seq<Extent>, joins: seq<bool>, n: nat, x: nat)
    requires n <= |rs| == |joins|
  {
    exists k | 0 < k < n :: joins[k] && Covers(Gap(rs[k - 1], rs[k]), x)
  }

  /** The plain requests decide; where there is none, an approved fill gives zero; elsewhere the disk is left alone. */
  ghost function Wanted(rs: seq<Extent>, joins: seq<bool>, n: nat, x: nat, init: Byte): Byte
    requires n <= |rs| == |joins|
  {
    if Requested(rs, n, x) then ByteAfter(rs[..n], x, init)
    else if Filled(rs, joins, n, x) then 0
    else init
  }

  /** The joined requests leave on every disk what is wanted. */
  ghost predicate KeepsMeaning(rs: seq<Extent>, joins: seq<bool>)
    requires 0 < |rs| == |joins| && Sorted(rs)
  {
    forall x: nat, init: Byte :: ByteAfter(Merged(rs, joins, |rs|), x, init) == Wanted(rs, joins, |rs|, x, init)
  }

  /**
   Byte x was cut off by a join and not written again: the request before a
   joined one reached further than it, and no later request or fill covers x.
   */
  ghost predicate Cut(rs: seq<Extent>, joins: seq<bool>, n: nat, x: nat)
    requires 0 < n <= |rs| == |joins|
  {
    n > 1 && !Covers(rs[n - 1], x) && !(joins[n - 1] && Covers(Gap(rs[n - 2], rs[n - 1]), x)) &&
    (Cut(rs, joins, n - 1, x) || (joins[n - 1] && End(rs[n - 1]) <= x < End(rs[n - 2])))
  }

  /** A fill was laid over byte x of an earlier request, and no later request covers it. */
  ghost predicate Zeroed(rs: seq<Extent>, joins: seq<bool>, n: nat, x: nat)
    requires 0 < n <= |rs| == |joins|
  {
    n > 1 && !Covers(rs[n - 1], x) &&
    (Zeroed(rs, joins, n - 1, x)
     || (joins[n - 1] && Covers(Gap(rs[n - 2], rs[n - 1]), x) && Requested(rs, n - 1, x)))
  }

  /** Some byte of a request is cut off, or zeroed when it was not zero. */
  ghost predicate LosesBytes(rs: seq<Extent>, joins: seq<bool>)
    requires 0 < |rs| == |joins|
  {
    exists x: nat :: Cut(rs, joins, |rs|, x) || (Zeroed(rs, joins, |rs|, x) && ByteAfter(rs, x, 0) != 0)
  }

  /** A step between the two: the sorted requests with the fills of the joins in between. */
  ghost function OneByOne(rs: seq<Extent>, joins: seq<bool>, n: nat): seq<Extent>
    requires 0 < n <= |rs| == |joins| && Sorted(rs)
  {
    if n == 1 then [rs[0]]
    else OneByOne(rs, joins, n - 1) + (if joins[n - 1] then [Gap(rs[n - 2], rs[n - 1])] else []) + [rs[n - 1]]
  }

  // ----- reading a list of writes

  lemma ByteAfterOne(ws: seq<Extent>, w: Extent, x: nat, init: Byte)
    ensures ByteAfter(ws + [w], x, init) == if Covers(w, x) then w.bytes[x - w.off] else ByteAfter(ws, x, init)
  {
    assert (ws + [w])[..|ws|] == ws;
  }

  lemma JoinedByte(acc: Extent, next: Extent, x: nat)
    requires acc.off <= next.off
    ensures var j := Join(acc, next);
            && (Covers(j, x) <==> Covers(next, x) || Covers(Gap(acc, next), x) || (Covers(acc, x) && x < next.off))
            && (Covers(next, x) ==> j.bytes[x - j.off] == next.bytes[x - next.off])
            && (!Covers(next, x) && Covers(Gap(acc, next), x) ==> j.bytes[x - j.off] == 0)
            && (!Covers(next, x) && !Covers(Gap(acc, next), x) && Covers(j, x) ==> j.bytes[x - j.off] == acc.bytes[x - acc.off])
  {}

  /** The requests with their fills, in terms of the last step. */
  lemma OneByOneByte(rs: seq<Extent>, joins: seq<bool>, n: nat, x: nat, init: Byte)
    requires 1 < n <= |rs| == |joins| && Sorted(rs)
    ensures ByteAfter(OneByOne(rs, joins, n), x, init)
         == if Covers(rs[n - 1], x) then rs[n - 1].bytes[x - rs[n - 1].off]
            else if joins[n - 1] && Covers(Gap(rs[n - 2], rs[n - 1]), x) then 0
            else ByteAfter(OneByOne(rs, joins, n - 1), x, init)
  {
    var before := OneByOne(rs, joins, n - 1);
    var gap := Gap(rs[n - 2], rs[n - 1]);
    if joins[n - 1] {
      ByteAfterOne(before, gap, x, init);
      ByteAfterOne(before + [gap], rs[n - 1], x, init);
    } else {
      assert before + [] == before;
      ByteAfterOne(before, rs[n - 1], x, init);
    }
  }

  /** What one join changes at byte x of a list that ends with the accumulated request. */
  lemma JoinStep(m: seq<Extent>, next: Extent, x: nat, init: Byte)
    requires |m| > 0 && m[|m| - 1].off <= next.off
    ensures ByteAfter(m[..|m| - 1] + [Join(m[|m| - 1], next)], x, init)
         == if Covers(next, x) then next.bytes[x - next.off]
            else if Covers(Gap(m[|m| - 1], next), x) then 0
            else if Covers(m[|m| - 1], x) && x >= next.off then ByteAfter(m[..|m| - 1], x, init)
            else ByteAfter(m, x, init)
  {
    hide Join, Gap, Covers, ByteAfter;
    var acc := m[|m| - 1];
    JoinedByte(acc, next, x);
    ByteAfterOne(m[..|m| - 1], Join(acc, next), x, init);
    ByteAfterOne(m[..|m| - 1], acc, x, init);
    assert m[..|m| - 1] + [acc] == m;
  }

  /** Outside the bytes that were cut off, the joined requests write what the requests with their fills write. */
  lemma {:induction false} MergedAgrees(rs: seq<Extent>, joins: seq<bool>, n: nat, x: nat, init: Byte)
    requires 0 < n <= |rs| == |joins| && Sorted(rs)
    requires !Cut(rs, joins, n, x)
    ensures ByteAfter(Merged(rs, joins, n), x, init) == ByteAfter(OneByOne(rs, joins, n), x, init)
  {
    hide Join, Gap, Covers, Sorted, ByteAfter, OneByOne;
    if n == 1 {
      FirstOne(rs, joins);
    } else {
      var m := Merged(rs, joins, n - 1);
      var acc, next := m[|m| - 1], rs[n - 1];
      SortedPair(rs, n - 2, n - 1);
      SameGap(acc, rs[n - 2], next);
      OneByOneByte(rs, joins, n, x, init);
      if !Cut(rs, joins, n - 1, x) {
        MergedAgrees(rs, joins, n - 1, x, init);
      }
      if joins[n - 1] {
        JoinStep(m, next, x, init);
        if Covers(acc, x) && x >= next.off {
          NotCutNow(rs, joins, n, acc, x);
        }
      } else {
        ByteAfterOne(m, next, x, init);
      }
    }
  }

  lemma FirstOne(rs: seq<Extent>, joins: seq<bool>)
    requires 0 < |rs| == |joins| && Sorted(rs)
    ensures OneByOne(rs, joins, 1) == [rs[0]]
  {}

  lemma SortedPair(rs: seq<Extent>, i: nat, j: nat)
    requires Sorted(rs) && i < j < |rs|
    ensures rs[i].off <= rs[j].off
  {}

  lemma SameGap(acc: Extent, prev: Extent, next: Extent)
    requires End(acc) == End(prev)
    ensures Gap(acc, next) == Gap(prev, next)
  {}

  /** A byte of the accumulated request that the join cuts off has been dropped or is written by the join. */
  lemma NotCutNow(rs: seq<Extent>, joins: seq<bool>, n: nat, acc: Extent, x: nat)
    requires 1 < n <= |rs| == |joins| && joins[n - 1] && !Cut(rs, joins, n, x)
    requires End(acc) == End(rs[n - 2]) && Covers(acc, x) && x >= rs[n - 1].off
    ensures Covers(rs[n - 1], x) || Covers(Gap(rs[n - 2], rs[n - 1]), x)
  {}

  // ----- when the joined requests mean the same

  /** Requests that touch are always joined: the limit on segments is never in the way. */
  ghost predicate TouchingJoined(rs: seq<Extent>, joins: seq<bool>)
    requires |rs| == |joins|
  {
    forall k | 0 < k < |rs| && !joins[k] :: rs[k].off > End(rs[k - 1])
  }

  ghost predicate Uncovered(m: seq<Extent>, x: nat) {
    forall i | 0 <= i < |m| :: !Covers(m[i], x)
  }

  lemma {:induction false} UncoveredKeeps(m: seq<Extent>, x: nat, init: Byte)
    requires Uncovered(m, x)
    ensures ByteAfter(m, x, init) == init
  {
    if m != [] {
      UncoveredKeeps(m[..|m| - 1], x, init);
    }
  }

  ghost predicate LastApart(m: seq<Extent>) {
    forall i | 0 <= i < |m| - 1 :: End(m[i]) <= m[|m| - 1].off
  }

  /** The requests that are left do not overlap the one accumulated last. */
  lemma {:induction false} GroupsApart(rs: seq<Extent>, joins: seq<bool>, n: nat)
    requires 0 < n <= |rs| == |joins| && Sorted(rs) && TouchingJoined(rs, joins)
    ensures LastApart(Merged(rs, joins, n))
  {
    hide Join;
    if n > 1 {
      GroupsApart(rs, joins, n - 1);
      var m := Merged(rs, joins, n - 1);
      var acc, next := m[|m| - 1], rs[n - 1];
      SortedPair(rs, n - 2, n - 1);
      if joins[n - 1] {
        JoinBounds(acc, next);
      } else {
        assert next.off > End(rs[n - 2]) == End(acc) >= acc.off;
      }
      var m' := Merged(rs, joins, n);
      forall i | 0 <= i < |m'| - 1 ensures End(m'[i]) <= m'[|m'| - 1].off {
        assert m'[i] == m[i];
        assert i < |m| - 1 ==> End(m[i]) <= acc.off;
      }
    }
  }

  lemma JoinBounds(acc: Extent, next: Extent)
    requires acc.off <= next.off
    ensures Join(acc, next).off == acc.off && End(Join(acc, next)) == End(next)
  {}

  /** A byte that was cut off is in none of the requests that are left. */
  lemma {:induction false} CutIsUncovered(rs: seq<Extent>, joins: seq<bool>, n: nat, x: nat)
    requires 0 < n <= |rs| == |joins| && Sorted(rs) && TouchingJoined(rs, joins)
    requires Cut(rs, joins, n, x)
    ensures Uncovered(Merged(rs, joins, n), x)
  {
    hide Join, Gap, Sorted, TouchingJoined;
    var m := Merged(rs, joins, n - 1);
    var acc, next := m[|m| - 1], rs[n - 1];
    GroupsApart(rs, joins, n - 1);
    SortedPair(rs, n - 2, n - 1);
    SameGap(acc, rs[n - 2], next);
    if Cut(rs, joins, n - 1, x) {
      CutIsUncovered(rs, joins, n - 1, x);
    }
    if joins[n - 1] {
      JoinedByte(acc, next, x);
    }
    var m' := Merged(rs, joins, n);
    forall i | 0 <= i < |m'| ensures !Covers(m'[i], x) {
      CutFromOne(rs, joins, n, x, i);
    }
  }

  lemma CutFromOne(rs: seq<Extent>, joins: seq<bool>, n: nat, x: nat, i: nat)
    requires 1 < n <= |rs| == |joins| && Sorted(rs)
    requires Cut(rs, joins, n, x) && i < |Merged(rs, joins, n)|
    requires var m := Merged(rs, joins, n - 1);
             && (Cut(rs, joins, n - 1, x) ==> Uncovered(m, x))
             && LastApart(m)
    ensures !Covers(Merged(rs, joins, n)[i], x)
  {
    hide Join, Gap, Sorted;
    var m := Merged(rs, joins, n - 1);
    var acc, next := m[|m| - 1], rs[n - 1];
    SortedPair(rs, n - 2, n - 1);
    SameGap(acc, rs[n - 2], next);
    if joins[n - 1] && i == |m| - 1 {
      JoinedByte(acc, next, x);
    } else if i < |m| {
      assert Merged(rs, joins, n)[i] == m[i];
    }
  }

  /** A byte that was cut off had been requested. */
  lemma {:induction false} CutWasRequested(rs: seq<Extent>, joins: seq<bool>, n: nat, x: nat)
    requires 0 < n <= |rs| == |joins| && Sorted(rs) && Cut(rs, joins, n, x)
    ensures Requested(rs, n, x)
  {
    hide Gap;
    if Cut(rs, joins, n - 1, x) {
      CutWasRequested(rs, joins, n - 1, x);
    } else {
      SortedPair(rs, n - 2, n - 1);
      assert Covers(rs[n - 2], x);
    }
  }

  lemma {:induction false} ZeroedWasRequested(rs: seq<Extent>, joins: seq<bool>, n: nat, x: nat)
    requires 0 < n <= |rs| == |joins| && Zeroed(rs, joins, n, x)
    ensures Requested(rs, n, x)
  {
    hide Gap, Covers;
    if Zeroed(rs, joins, n - 1, x) {
      ZeroedWasRequested(rs, joins, n - 1, x);
    }
  }

  /** A requested byte does not depend on what the disk held. */
  lemma {:induction false} RequestedIsWritten(rs: seq<Extent>, n: nat, x: nat, init: Byte, init': Byte)
    requires n <= |rs| && Requested(rs, n, x)
    ensures ByteAfter(rs[..n], x, init) == ByteAfter(rs[..n], x, init')
  {
    hide Covers;
    assert rs[..n][..n - 1] == rs[..n - 1];
    if !Covers(rs[n - 1], x) {
      RequestedIsWritten(rs, n - 1, x, init, init');
    }
  }

  /** One more request, one more join. */
  lemma WantedNext(rs: seq<Extent>, joins: seq<bool>, n: nat, x: nat, init: Byte)
    requires 1 < n <= |rs| == |joins|
    ensures Requested(rs, n, x) <==> Requested(rs, n - 1, x) || Covers(rs[n - 1], x)
    ensures Wanted(rs, joins, n, x, init)
         == if Covers(rs[n - 1], x) then rs[n - 1].bytes[x - rs[n - 1].off]
            else if Requested(rs, n - 1, x) then Wanted(rs, joins, n - 1, x, init)
            else if joins[n - 1] && Covers(Gap(rs[n - 2], rs[n - 1]), x) then 0
            else Wanted(rs, joins, n - 1, x, init)
  {
    hide Covers, Gap;
    assert rs[..n][..n - 1] == rs[..n - 1];
  }

  /** The fills of the joins take nothing away but the bytes they zero. */
  lemma {:induction false} FillsInBetween(rs: seq<Extent>, joins: seq<bool>, n: nat, x: nat, init: Byte)
    requires 0 < n <= |rs| == |joins| && Sorted(rs)
    ensures ByteAfter(OneByOne(rs, joins, n), x, init)
         == if Zeroed(rs, joins, n, x) then 0 else Wanted(rs, joins, n, x, init)
  {
    hide Covers, Gap, ByteAfter, OneByOne, Sorted, Wanted, Requested;
    if n == 1 {
      FirstOne(rs, joins);
      FirstWanted(rs, joins, x, init);
    } else {
      FillsInBetween(rs, joins, n - 1, x, init);
      OneByOneByte(rs, joins, n, x, init);
      WantedNext(rs, joins, n, x, init);
    }
  }

  lemma FirstWanted(rs: seq<Extent>, joins: seq<bool>, x: nat, init: Byte)
    requires 0 < |rs| == |joins|
    ensures Wanted(rs, joins, 1, x, init) == ByteAfter([rs[0]], x, init)
  {
    assert rs[..1] == [rs[0]];
  }

  /** Nothing lost, same meaning: for every way the driver and the segment limit decide. */
  lemma MergeKeepsMeaning(rs: seq<Extent>, joins: seq<bool>)
    requires 0 < |rs| == |joins| && Sorted(rs)
    requires !LosesBytes(rs, joins)
    ensures KeepsMeaning(rs, joins)
  {
    hide ByteAfter, Cut, Zeroed, Merged, OneByOne, Requested, Filled;
    var n := |rs|;
    assert rs[..n] == rs;
    forall x: nat, init: Byte ensures ByteAfter(Merged(rs, joins, n), x, init) == Wanted(rs, joins, n, x, init) {
      MergedAgrees(rs, joins, n, x, init);
      FillsInBetween(rs, joins, n, x, init);
      if Zeroed(rs, joins, n, x) {
        ZeroedWasRequested(rs, joins, n, x);
        RequestedIsWritten(rs, n, x, init, 0);
      }
    }
  }

  /** And exactly then, as long as touching requests are joined. */
  lemma MergeKeepsMeaningIff(rs: seq<Extent>, joins: seq<bool>)
    requires 0 < |rs| == |joins| && Sorted(rs) && TouchingJoined(rs, joins)
    ensures KeepsMeaning(rs, joins) <==> !LosesBytes(rs, joins)
  {
    hide ByteAfter, Cut, Zeroed, Merged, OneByOne, TouchingJoined, Requested, Filled;
    if !LosesBytes(rs, joins) {
      MergeKeepsMeaning(rs, joins);
    } else {
      var x: nat :| Cut(rs, joins, |rs|, x) || (Zeroed(rs, joins, |rs|, x) && ByteAfter(rs, x, 0) != 0);
      LostByteDiffers(rs, joins, x);
    }
  }

  lemma LostByteDiffers(rs: seq<Extent>, joins: seq<bool>, x: nat)
    requires 0 < |rs| == |joins| && Sorted(rs) && TouchingJoined(rs, joins)
    requires Cut(rs, joins, |rs|, x) || (Zeroed(rs, joins, |rs|, x) && ByteAfter(rs, x, 0) != 0)
    ensures exists init: Byte :: ByteAfter(Merged(rs, joins, |rs|), x, init) != Wanted(rs, joins, |rs|, x, init)
  {
    hide ByteAfter, Cut, Zeroed, Merged, OneByOne, TouchingJoined, Requested, Filled;
    var n, m := |rs|, Merged(rs, joins, |rs|);
    assert rs[..n] == rs;
    if Cut(rs, joins, n, x) {
      CutIsUncovered(rs, joins, n, x);
      CutWasRequested(rs, joins, n, x);
      UncoveredKeeps(m, x, 0);
      UncoveredKeeps(m, x, 1);
      RequestedIsWritten(rs, n, x, 0, 1);
    } else {
      ZeroedWasRequested(rs, joins, n, x);
      MergedAgrees(rs, joins, n, x, 0);
      FillsInBetween(rs, joins, n, x, 0);
    }
  }

  /** If no joined request ends before the one it joins, nothing is cut off. */
  lemma {:induction false} LongEnoughDropsNothing(rs: seq<Extent>, joins: seq<bool>, n: nat, x: nat)
    requires 0 < n <= |rs| == |joins|
    requires forall k | 0 < k < |rs| && joins[k] :: End(rs[k - 1]) <= End(rs[k])
    ensures !Cut(rs, joins, n, x)
  {
    if n > 1 {
      LongEnoughDropsNothing(rs, joins, n - 1, x);
    }
  }

  /** A fill meets bytes of an earlier request exactly when that request ends behind the one right before the gap. */
  lemma FillMeetsRequestIff(rs: seq<Extent>, k: nat, j: nat)
    requires 0 < k < |rs| && j < k && Sorted(rs)
    ensures (exists x: nat :: Covers(Gap(rs[k - 1], rs[k]), x) && Covers(rs[j], x))
       <==> End(rs[k - 1]) < rs[k].off && End(rs[k - 1]) < End(rs[j])
  {
    if End(rs[k - 1]) < rs[k].off && End(rs[k - 1]) < End(rs[j]) {
      if j < k - 1 { SortedPair(rs, j, k - 1); }
      var x := End(rs[k - 1]);
      assert Covers(Gap(rs[k - 1], rs[k]), x) && Covers(rs[j], x);
    }
  }

  lemma {:induction false} EndsGrow(rs: seq<Extent>, i: nat, j: nat)
    requires i <= j < |rs|
    requires forall i | 0 < i < |rs| :: End(rs[i - 1]) <= End(rs[i])
    ensures End(rs[i]) <= End(rs[j])
  {
    if i < j {
      EndsGrow(rs, i, j - 1);
    }
  }

  lemma {:induction false} GrowingZeroesNothing(rs: seq<Extent>, joins: seq<bool>, n: nat, x: nat)
    requires 0 < n <= |rs| == |joins|
    requires forall i | 0 < i < |rs| :: End(rs[i - 1]) <= End(rs[i])
    ensures !Zeroed(rs, joins, n, x)
  {
    if n > 1 {
      GrowingZeroesNothing(rs, joins, n - 1, x);
      if Covers(Gap(rs[n - 2], rs[n - 1]), x) {
        forall i | 0 <= i < n - 1 ensures !Covers(rs[i], x) {
          EndsGrow(rs, i, n - 2);
        }
      }
    }
  }

  /** Requests of which none ends before the one it joins: the merge keeps their meaning. */
  lemma LongEnoughKeepsMeaning(rs: seq<Extent>, joins: seq<bool>)
    requires 0 < |rs| == |joins| && Sorted(rs) && TouchingJoined(rs, joins)
    requires forall k | 0 < k < |rs| && joins[k] :: End(rs[k - 1]) <= End(rs[k])
    ensures KeepsMeaning(rs, joins)
  {
    hide Cut, Zeroed, KeepsMeaning;
    assert forall k | 0 < k < |rs| :: End(rs[k - 1]) <= End(rs[k]);
    forall x: nat ensures !Cut(rs, joins, |rs|, x) && !Zeroed(rs, joins, |rs|, x) {
      LongEnoughDropsNothing(rs, joins, |rs|, x);
      GrowingZeroesNothing(rs, joins, |rs|, x);
    }
    MergeKeepsMeaning(rs, joins);
  }

  /** One sector written inside three: the last of the three is lost, whatever they hold. */
  lemma ShortRequestLosesTail(a: seq<Byte>, b: seq<Byte>)
    requires |a| == 3 * SECTOR && |b| == SECTOR
    ensures var rs, joins := [Extent(0, a), Extent(SECTOR, b)], [false, true];
            Sorted(rs) && TouchingJoined(rs, joins) && !KeepsMeaning(rs, joins)
  {
    var rs, joins := [Extent(0, a), Extent(SECTOR, b)], [false, true];
    var x := 2 * SECTOR;
    assert !Covers(rs[1], x) && !Covers(Gap(rs[0], rs[1]), x) && End(rs[1]) <= x < End(rs[0]);
    assert Cut(rs, joins, 2, x);
    assert LosesBytes(rs, joins);
    MergeKeepsMeaningIff(rs, joins);
  }

  /**
   After a short join the accumulated request ends early, and the next approved
   gap is filled over the lost tail: sectors 2 to 4 of the first request are
   zeroed, which matters unless they were zero.
   */
  lemma FillOverwritesRequest(a: seq<Byte>, b: seq<Byte>, c: seq<Byte>, x: nat)
    requires |a| == 8 * SECTOR && |b| == SECTOR && |c| == 3 * SECTOR && 2 * SECTOR <= x < 5 * SECTOR && a[x] != 0
    ensures var rs, joins := [Extent(0, a), Extent(SECTOR, b), Extent(5 * SECTOR, c)], [false, true, true];
            && Sorted(rs) && TouchingJoined(rs, joins) && (forall y: nat :: !Cut(rs, joins, |rs|, y))
            && Wanted(rs, joins, 3, x, 0) == a[x] && ByteAfter(Merged(rs, joins, 3), x, 0) == 0
            && !KeepsMeaning(rs, joins)
  {
    hide Merged, OneByOne;
    var rs, joins := [Extent(0, a), Extent(SECTOR, b), Extent(5 * SECTOR, c)], [false, true, true];
    assert Covers(rs[0], x) && !Covers(rs[1], x) && !Covers(rs[2], x);
    assert Requested(rs, 2, x) && Requested(rs, 3, x) && Covers(Gap(rs[1], rs[2]), x);
    assert Zeroed(rs, joins, 3, x);
    assert rs[..3] == rs && rs[..2] == [rs[0], rs[1]] && rs[..2][..1] == [rs[0]];
    assert ByteAfter(rs, x, 0) == ByteAfter(rs[..2], x, 0) == ByteAfter([rs[0]], x, 0) == a[x];
    assert forall y: nat | Cut(rs, joins, 2, y) :: 2 * SECTOR <= y < 8 * SECTOR;
    assert forall y: nat | 2 * SECTOR <= y < 8 * SECTOR :: Covers(rs[2], y) || Covers(Gap(rs[1], rs[2]), y);
    assert forall y: nat :: !Cut(rs, joins, 3, y);
    MergedAgrees(rs, joins, 3, x, 0);
    FillsInBetween(rs, joins, 3, x, 0);
  }

  // ----- the method

  /** A request with the segments of its vector; `tag` stands for the fields the merge leaves alone. */
  datatype Request = Request(sector: nat, nb: nat, iov: seq<Segment>, tag: int)

  /** The request writes the bytes of the extent. */
  ghost predicate Describes(r: Request, e: Extent) {
    e.off == SECTOR * r.sector && e.bytes == Flat(r.iov) && |e.bytes| == SECTOR * r.nb
  }

  /** The request that takes the place of the accumulated one after a join. */
  method JoinRequests(first: Request, second: Request, ghost acc: Extent, ghost next: Extent) returns (r: Request)
    requires Describes(first, acc) && Describes(second, next) && acc.off <= next.off
    ensures Describes(r, Join(acc, next)) && r.tag == first.tag
    ensures |r.iov| <= |first.iov| + |second.iov| + 1
  {
    hide Flat, TakeUpTo, Zeros;
    var oldLast := first.sector + first.nb;
    var firstQiov := new Qiov.External(first.iov);
    var secondQiov := new Qiov.External(second.iov);
    var qiov := new Qiov(|first.iov| + |second.iov| + 1);
    NothingCopied(0, 0);
    var size := SECTOR * (second.sector - first.sector);
    ghost var front := TakeUpTo(acc.bytes, next.off - acc.off);
    qiov.Concat(firstQiov, size);
    assert [] + front == front;
    ghost var gap := Gap(acc, next).bytes;
    if second.sector > oldLast {
      var zeroBytes := SECTOR * (second.sector - oldLast);
      FlatAppends(qiov.iov, Zeros(zeroBytes));
      qiov.Add(Zeros(zeroBytes));
    } else {
      NoZeros();
      assert front + [] == front;
    }
    assert Flat(qiov.iov) == front + gap;
    qiov.Concat(secondQiov, secondQiov.size);
    WholeTaken(next.bytes);
    JoinBounds(acc, next);
    r := first.(nb := qiov.size / SECTOR, iov := qiov.iov);
  }

  lemma NoZeros()
    ensures Zeros(0) == []
  {}

  lemma WholeTaken(s: seq<Byte>)
    ensures TakeUpTo(s, |s|) == s
  {}

  const IOV_MAX: nat := 1024

  /** Whether the block driver wants two requests joined across a gap: sector and length of both. */
  type MergeHook = (nat, nat, nat, nat) -> bool

  function SumOf(segs: seq<nat>, n: nat): nat
    requires n <= |segs|
  {
    if n == 0 then 0 else SumOf(segs, n - 1) + segs[n - 1] + 1
  }

  lemma {:induction false} SumGrows(segs: seq<nat>, i: nat, j: nat)
    requires i <= j <= |segs|
    ensures SumOf(segs, i) <= SumOf(segs, j)
  {
    if i < j {
      SumGrows(segs, i, j - 1);
    }
  }

  /** The decisions of the loop up to request n. */
  ghost predicate Decided(rs: seq<Extent>, joins: seq<bool>, segs: seq<nat>, hook: MergeHook, n: nat)
    requires 0 < n <= |rs| == |joins| == |segs| && Sorted(rs)
  {
    forall k | 0 < k < n ::
      && (joins[k] ==> rs[k].off <= End(rs[k - 1]) || Approved(rs, joins, hook, k))
      && (!joins[k] && SumOf(segs, k + 1) <= IOV_MAX ==> rs[k].off > End(rs[k - 1]) && !Approved(rs, joins, hook, k))
  }

  /** The hook, asked about the accumulated request and request k. */
  ghost predicate Approved(rs: seq<Extent>, joins: seq<bool>, hook: MergeHook, k: nat)
    requires 0 < k < |rs| == |joins| && Sorted(rs)
  {
    var m := Merged(rs, joins, k);
    var acc := m[|m| - 1];
    hook(acc.off / SECTOR, |acc.bytes| / SECTOR, rs[k].off / SECTOR, |rs[k].bytes| / SECTOR)
  }

  lemma {:induction false} MergedByPrefix(rs: seq<Extent>, joins: seq<bool>, joins': seq<bool>, n: nat)
    requires 0 < n <= |rs| == |joins| == |joins'| && Sorted(rs) && joins[..n] == joins'[..n]
    ensures Merged(rs, joins, n) == Merged(rs, joins', n)
  {
    hide Join, Sorted;
    if n > 1 {
      assert joins[..n - 1] == joins[..n][..n - 1] && joins'[..n - 1] == joins'[..n][..n - 1];
      MergedByPrefix(rs, joins, joins', n - 1);
      assert joins[n - 1] == joins[..n][n - 1] == joins'[n - 1];
    }
  }

  /** One more decision. */
  lemma DecidedNext(rs: seq<Extent>, joins: seq<bool>, segs: seq<nat>, hook: MergeHook, n: nat, b: bool)
    requires 0 < n < |rs| == |joins| == |segs| && Sorted(rs) && Decided(rs, joins, segs, hook, n)
    requires b ==> rs[n].off <= End(rs[n - 1]) || Approved(rs, joins, hook, n)
    requires !b && SumOf(segs, n + 1) <= IOV_MAX ==> rs[n].off > End(rs[n - 1]) && !Approved(rs, joins, hook, n)
    ensures Decided(rs, joins[n := b], segs, hook, n + 1)
    ensures Merged(rs, joins[n := b], n) == Merged(rs, joins, n)
  {
    hide Merged, SumOf, Sorted;
    var joins' := joins[n := b];
    forall k | 0 < k <= n ensures Approved(rs, joins', hook, k) == Approved(rs, joins, hook, k) {
      assert joins[..k] == joins'[..k];
      MergedByPrefix(rs, joins, joins', k);
    }
    assert joins[..n] == joins'[..n];
    MergedByPrefix(rs, joins, joins', n);
  }

  /** With few enough segments in all, touching requests are always joined. */
  lemma FewSegmentsTouchingJoined(rs: seq<Extent>, joins: seq<bool>, segs: seq<nat>, hook: MergeHook)
    requires 0 < |rs| == |joins| == |segs| && Sorted(rs) && Decided(rs, joins, segs, hook, |rs|)
    requires SumOf(segs, |segs|) <= IOV_MAX
    ensures TouchingJoined(rs, joins)
  {
    hide SumOf, Sorted, Approved;
    forall k | 0 < k < |rs| && !joins[k] ensures rs[k].off > End(rs[k - 1]) {
      SumGrows(segs, k + 1, |segs|);
    }
  }

  /**
   The compaction loop of multiwrite_merge, on requests already sorted by
   sector.  The first `count` requests end up as the joined ones; the tag of
   every slot stays where it was.
   */
  method Merge(reqs: array<Request>, hook: MergeHook, ghost rs: seq<Extent>, ghost segs: seq<nat>)
    returns (count: nat, ghost joins: seq<bool>)
    requires 0 < reqs.Length == |rs| == |segs| && Sorted(rs)
    requires forall k | 0 <= k < reqs.Length :: Describes(reqs[k], rs[k]) && |reqs[k].iov| == segs[k]
    modifies reqs
    ensures |joins| == |rs| && count == |Merged(rs, joins, |rs|)|
    ensures forall k | 0 <= k < count :: Describes(reqs[k], Merged(rs, joins, |rs|)[k])
    ensures forall k | 0 <= k < reqs.Length :: reqs[k].tag == old(reqs[k].tag)
    ensures Decided(rs, joins, segs, hook, |rs|)
  {
    hide Sorted, Join, Approved, Decided, SumOf, Merged, Describes, LoopState;
    joins := seq(|rs|, _ => false);
    var out, i := 0, 1;
    LoopStart(reqs[..], rs, joins, segs, hook);
    while i < reqs.Length
      invariant 1 <= i <= reqs.Length && 0 <= out < i && LoopState(reqs[..], rs, joins, segs, hook, i, out)
      invariant forall k | 0 <= k < reqs.Length :: reqs[k].tag == old(reqs[k].tag)
    {
      ghost var before := reqs[..];
      LoopFacts(before, rs, joins, segs, hook, i, out);
      var first, second := reqs[out], reqs[i];
      var join := Decide(first, second, hook, rs, joins, segs, i);
      if join {
        var joined := JoinRequests(first, second, Merged(rs, joins, i)[out], rs[i]);
        reqs[out] := joined;
        AfterJoin(before, rs, joins, segs, hook, i, out, joined);
        assert reqs[..] == before[out := joined];
      } else {
        out := out + 1;
        var moved := second.(tag := reqs[out].tag);
        reqs[out] := moved;
        AfterMove(before, rs, joins, segs, hook, i, out - 1, moved);
        assert reqs[..] == before[out := moved];
      }
      joins := joins[i := join];
      i := i + 1;
    }
    count := out + 1;
    LoopEnd(reqs[..], rs, joins, segs, hook, i, out);
  }

  /** The first requests are the merged ones. */
  ghost predicate Done(rq: seq<Request>, m: seq<Extent>) {
    |m| <= |rq| && forall k | 0 <= k < |m| :: Describes(rq[k], m[k])
  }

  /** The requests from i on have not been touched. */
  ghost predicate Ahead(rq: seq<Request>, rs: seq<Extent>, segs: seq<nat>, i: nat) {
    |rq| == |rs| == |segs| && forall k | i <= k < |rq| :: Describes(rq[k], rs[k]) && |rq[k].iov| == segs[k]
  }

  /** What the loop knows before it looks at request i; `out` is the accumulated request. */
  ghost predicate LoopState(rq: seq<Request>, rs: seq<Extent>, joins: seq<bool>, segs: seq<nat>, hook: MergeHook, i: nat, out: nat) {
    && 0 < i <= |rq| == |rs| == |joins| == |segs| && Sorted(rs) && out < i
    && out + 1 == |Merged(rs, joins, i)| && Decided(rs, joins, segs, hook, i)
    && Done(rq, Merged(rs, joins, i)) && Ahead(rq, rs, segs, i)
    && |rq[out].iov| + 1 <= SumOf(segs, i)
  }

  lemma LoopFacts(rq: seq<Request>, rs: seq<Extent>, joins: seq<bool>, segs: seq<nat>, hook: MergeHook, i: nat, out: nat)
    requires LoopState(rq, rs, joins, segs, hook, i, out) && i < |rs|
    ensures |rq| == |rs| == |joins| == |segs| && Sorted(rs)
    ensures var m := Merged(rs, joins, i);
            && |m| == out + 1 && Describes(rq[out], m[out]) && Describes(rq[i], rs[i]) && |rq[i].iov| == segs[i]
            && |rq[out].iov| + 1 <= SumOf(segs, i) && m[out].off <= rs[i].off
  {
    hide Describes, Merged, Decided, SumOf;
    SortedPair(rs, i - 1, i);
  }

  lemma LoopEnd(rq: seq<Request>, rs: seq<Extent>, joins: seq<bool>, segs: seq<nat>, hook: MergeHook, i: nat, out: nat)
    requires LoopState(rq, rs, joins, segs, hook, i, out) && i == |rs|
    ensures |joins| == |rs| == |segs| && Sorted(rs) && out + 1 == |Merged(rs, joins, |rs|)| && Decided(rs, joins, segs, hook, |rs|)
    ensures forall k | 0 <= k <= out :: Describes(rq[k], Merged(rs, joins, |rs|)[k])
  {
    hide Describes, Merged, Decided, SumOf;
  }

  lemma AfterJoin(rq: seq<Request>, rs: seq<Extent>, joins: seq<bool>, segs: seq<nat>, hook: MergeHook, i: nat, out: nat, r: Request)
    requires LoopState(rq, rs, joins, segs, hook, i, out) && i < |rs|
    requires rs[i].off <= End(rs[i - 1]) || Approved(rs, joins, hook, i)
    requires Merged(rs, joins, i)[out].off <= rs[i].off && Describes(r, Join(Merged(rs, joins, i)[out], rs[i]))
    requires |r.iov| <= |rq[out].iov| + |rq[i].iov| + 1
    ensures LoopState(rq[out := r], rs, joins[i := true], segs, hook, i + 1, out)
  {
    hide Sorted, Describes, Merged, Decided, SumOf, Approved, Join;
    DecidedNext(rs, joins, segs, hook, i, true);
    MergedNext(rs, joins[i := true], i);
    SumNext(segs, i);
  }

  lemma AfterMove(rq: seq<Request>, rs: seq<Extent>, joins: seq<bool>, segs: seq<nat>, hook: MergeHook, i: nat, out: nat, r: Request)
    requires LoopState(rq, rs, joins, segs, hook, i, out) && i < |rs| && r == rq[i].(tag := r.tag)
    requires SumOf(segs, i + 1) <= IOV_MAX ==> rs[i].off > End(rs[i - 1]) && !Approved(rs, joins, hook, i)
    ensures LoopState(rq[out + 1 := r], rs, joins[i := false], segs, hook, i + 1, out + 1)
  {
    hide Sorted, Describes, Merged, Decided, SumOf, Approved, Join, Done, Ahead;
    var m := Merged(rs, joins, i);
    DecidedNext(rs, joins, segs, hook, i, false);
    SortedPair(rs, i - 1, i);
    MergedNext(rs, joins[i := false], i);
    SumNext(segs, i);
    RequestMoved(rq, m, rs, segs, i, r);
  }

  lemma RequestMoved(rq: seq<Request>, m: seq<Extent>, rs: seq<Extent>, segs: seq<nat>, i: nat, r: Request)
    requires Done(rq, m) && Ahead(rq, rs, segs, i) && |m| <= i < |rq| && r == rq[i].(tag := r.tag)
    ensures Done(rq[|m| := r], m + [rs[i]]) && Ahead(rq[|m| := r], rs, segs, i + 1) && |r.iov| == segs[i]
  {
    TagDoesNotMatter(rq[i], r, rs[i]);
    hide Describes;
  }

  lemma TagDoesNotMatter(r: Request, r': Request, e: Extent)
    requires r' == r.(tag := r'.tag)
    ensures Describes(r', e) == Describes(r, e)
  {}

  lemma LoopStart(rq: seq<Request>, rs: seq<Extent>, joins: seq<bool>, segs: seq<nat>, hook: MergeHook)
    requires 0 < |rq| == |rs| == |joins| == |segs| && Sorted(rs)
    requires forall k | 0 <= k < |rq| :: Describes(rq[k], rs[k]) && |rq[k].iov| == segs[k]
    ensures LoopState(rq, rs, joins, segs, hook, 1, 0)
  {
    hide Describes;
    assert SumOf(segs, 0) == 0 && Merged(rs, joins, 1) == [rs[0]];
  }

  lemma MergedNext(rs: seq<Extent>, joins: seq<bool>, n: nat)
    requires 0 < n < |rs| == |joins| && Sorted(rs)
    requires Merged(rs, joins, n)[|Merged(rs, joins, n)| - 1].off <= rs[n].off
    ensures var m := Merged(rs, joins, n);
            Merged(rs, joins, n + 1)
            == if joins[n] then m[..|m| - 1] + [Join(m[|m| - 1], rs[n])] else m + [rs[n]]
  {}

  lemma SumNext(segs: seq<nat>, n: nat)
    requires n < |segs|
    ensures SumOf(segs, n + 1) == SumOf(segs, n) + segs[n] + 1
  {}

  /** The three tests that decide whether request i joins the accumulated one. */
  method Decide(first: Request, second: Request, hook: MergeHook,
                ghost rs: seq<Extent>, ghost joins: seq<bool>, ghost segs: seq<nat>, ghost i: nat) returns (join: bool)
    requires 0 < i < |rs| == |joins| == |segs| && Sorted(rs)
    requires Describes(first, Merged(rs, joins, i)[|Merged(rs, joins, i)| - 1]) && Describes(second, rs[i])
    requires |second.iov| == segs[i] && |first.iov| + 1 <= SumOf(segs, i)
    ensures join <==> |first.iov| + |second.iov| + 1 <= IOV_MAX
                      && (rs[i].off <= End(rs[i - 1]) || Approved(rs, joins, hook, i))
    ensures join ==> rs[i].off <= End(rs[i - 1]) || Approved(rs, joins, hook, i)
    ensures !join && SumOf(segs, i + 1) <= IOV_MAX ==> rs[i].off > End(rs[i - 1]) && !Approved(rs, joins, hook, i)
  {
    var oldLast := first.sector + first.nb;
    join := second.sector <= oldLast;
    if !join {
      join := hook(first.sector, first.nb, second.sector, second.nb);
    }
    if |first.iov| + |second.iov| + 1 > IOV_MAX {
      join := false;
    }
  }

  // ----- sorting first

  predicate BySector(rs: seq<Request>) {
    forall i, j | 0 <= i < j < |rs| :: rs[i].sector <= rs[j].sector
  }

  function InsertRequest(rs: seq<Request>, r: Request): (s: seq<Request>)
    ensures |s| == |rs| + 1
  {
    if rs == [] || r.sector <= rs[0].sector then [r] + rs else [rs[0]] + InsertRequest(rs[1..], r)
  }

  /** qsort, which may order requests for the same sector in any way. */
  function SortRequests(rs: seq<Request>): (s: seq<Request>)
    ensures |s| == |rs|
  {
    if rs == [] then [] else InsertRequest(SortRequests(rs[1..]), rs[0])
  }

  predicate NoneBefore(rs: seq<Request>, sector: nat) { forall i | 0 <= i < |rs| :: sector <= rs[i].sector }

  lemma {:induction false} InsertKeepsAll(rs: seq<Request>, r: Request)
    ensures multiset(InsertRequest(rs, r)) == multiset(rs) + multiset{r}
  {
    if rs != [] {
      InsertKeepsAll(rs[1..], r);
      assert rs == [rs[0]] + rs[1..];
    }
  }

  lemma {:induction false} InsertKeepsBound(rs: seq<Request>, r: Request, sector: nat)
    requires NoneBefore(rs, sector) && sector <= r.sector
    ensures NoneBefore(InsertRequest(rs, r), sector)
  {
    if rs != [] {
      InsertKeepsBound(rs[1..], r, sector);
    }
  }

  lemma BySectorCons(r: Request, rs: seq<Request>)
    requires BySector(rs) && NoneBefore(rs, r.sector)
    ensures BySector([r] + rs)
  {}

  lemma {:induction false} InsertIsSorted(rs: seq<Request>, r: Request)
    requires BySector(rs)
    ensures BySector(InsertRequest(rs, r))
  {
    hide BySector, NoneBefore;
    if rs == [] || r.sector <= rs[0].sector {
      HeadIsLeast(rs, r.sector);
      BySectorCons(r, rs);
    } else {
      TailIsSorted(rs);
      InsertIsSorted(rs[1..], r);
      InsertKeepsBound(rs[1..], r, rs[0].sector);
      BySectorCons(rs[0], InsertRequest(rs[1..], r));
    }
  }

  lemma HeadIsLeast(rs: seq<Request>, sector: nat)
    requires BySector(rs) && (rs != [] ==> sector <= rs[0].sector)
    ensures NoneBefore(rs, sector)
  {}

  lemma TailIsSorted(rs: seq<Request>)
    requires BySector(rs) && rs != []
    ensures BySector(rs[1..]) && NoneBefore(rs[1..], rs[0].sector)
  {}

  lemma {:induction false} SortIsSorted(rs: seq<Request>)
    ensures BySector(SortRequests(rs)) && multiset(SortRequests(rs)) == multiset(rs)
  {
    if rs != [] {
      SortIsSorted(rs[1..]);
      InsertIsSorted(SortRequests(rs[1..]), rs[0]);
      InsertKeepsAll(SortRequests(rs[1..]), rs[0]);
      assert rs == [rs[0]] + rs[1..];
    }
  }

  /** The bytes a request writes. */
  ghost function ExtentOf(r: Request): Extent { Extent(SECTOR * r.sector, Flat(r.iov)) }

  ghost function Extents(rs: seq<Request>): seq<Extent> { seq(|rs|, i requires 0 <= i < |rs| => ExtentOf(rs[i])) }

  ghost predicate WholeSectors(r: Request) { |Flat(r.iov)| == SECTOR * r.nb }

  /**
   multiwrite_merge on requests in any order: some sorted arrangement of them
   is joined in front, and every slot keeps the fields that go with it.
   */
  method SortAndMerge(reqs: array<Request>, hook: MergeHook) returns (count: nat, ghost sorted: seq<Request>, ghost joins: seq<bool>)
    requires 0 < reqs.Length && forall k | 0 <= k < reqs.Length :: WholeSectors(reqs[k])
    modifies reqs
    ensures multiset(sorted) == multiset(old(reqs[..])) && BySector(sorted)
    ensures |joins| == |sorted| == reqs.Length && Sorted(Extents(sorted))
    ensures count == |Merged(Extents(sorted), joins, |sorted|)|
    ensures forall k | 0 <= k < count :: Describes(reqs[k], Merged(Extents(sorted), joins, |sorted|)[k])
    ensures forall k | 0 <= k < reqs.Length :: reqs[k].tag == sorted[k].tag
    ensures Decided(Extents(sorted), joins, seq(|sorted|, i requires 0 <= i < |sorted| => |sorted[i].iov|), hook, |sorted|)
  {
    hide Flat, Merged, Decided, SortRequests;
    ghost var was := reqs[..];
    var arranged := SortRequests(reqs[..]);
    SortIsSorted(reqs[..]);
    forall k | 0 <= k < reqs.Length {
      reqs[k] := arranged[k];
    }
    sorted := arranged;
    assert reqs[..] == arranged;
    forall k | 0 <= k < |arranged| ensures WholeSectors(arranged[k]) {
      assert arranged[k] in multiset(arranged);
      assert arranged[k] in was;
    }
    count, joins := Merge(reqs, hook, Extents(sorted), seq(|sorted|, i requires 0 <= i < |sorted| => |sorted[i].iov|));
  }
}
