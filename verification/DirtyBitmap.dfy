/**
 The dirty bitmap of a block device: one bit per chunk of sectors, packed into
 64-bit words, with a cached count of the bits that are set.
 */
module DirtyBitmap {
  import opened Basics
  import opened Bits

  type Word64 = w: nat | w < 0x1_0000_0000_0000_0000

  predicate BitAt(words: seq<Word64>, c: nat) {
    c / 64 < |words| && Bit(words[c / 64], c % 64)
  }

  /** The number of bits set in all words. */
  function CountBits(words: seq<Word64>): nat {
    if words == [] then 0 else CountBits(words[..|words| - 1]) + PopCount(words[|words| - 1])
  }

  function PutBit(w: Word64, k: nat, on: bool): Word64
    requires k < 64
  {
    assert Pow2(64) == 0x1_0000_0000_0000_0000 by { PowerOf64(); }
    SetBitFits(w, k, 64);
    if on then SetBit(w, k) else ClearBit(w, k)
  }

  lemma PowerOf64()
    ensures Pow2(64) == 0x1_0000_0000_0000_0000
  {
    assert Pow2(8) == 0x100;
    PowersAdd(8, 8);
    PowersAdd(16, 16);
    PowersAdd(32, 32);
  }

  lemma {:induction false} PowersAdd(m: nat, n: nat)
    ensures Pow2(m + n) == Pow2(m) * Pow2(n)
  {
    if m > 0 {
      PowersAdd(m - 1, n);
      assert 2 * (Pow2(m - 1) * Pow2(n)) == (2 * Pow2(m - 1)) * Pow2(n);
    }
  }

  function PutChunk(words: seq<Word64>, c: nat, on: bool): seq<Word64>
    requires c / 64 < |words|
  {
    words[c / 64 := PutBit(words[c / 64], c % 64, on)]
  }

  /** Bits and count after marking the chunks start .. end, one by one. */
  datatype Tracked = Tracked(words: seq<Word64>, count: int)

  function PutRange(t: Tracked, start: nat, end: int, on: bool): (r: Tracked)
    requires end < 64 * |t.words|
    ensures |r.words| == |t.words|
    decreases end + 1 - start
  {
    if start > end then t
    else
      var was := BitAt(t.words, start);
      var count := if on && !was then t.count + 1 else if !on && was then t.count - 1 else t.count;
      PutRange(Tracked(PutChunk(t.words, start, on), count), start + 1, end, on)
  }

  // ----- what a single update does

  lemma BitAfterPut(words: seq<Word64>, c: nat, on: bool, d: nat)
    requires c / 64 < |words|
    ensures BitAt(PutChunk(words, c, on), d) == if d == c then on else BitAt(words, d)
  {
    BitOfSetBit(words[c / 64], c % 64, d % 64);
    BitOfClearBit(words[c / 64], c % 64, d % 64);
  }

  lemma {:induction false} CountAfterUpdate(words: seq<Word64>, i: nat, w: Word64)
    requires i < |words|
    ensures CountBits(words[i := w]) == CountBits(words) - PopCount(words[i]) + PopCount(w)
  {
    var n := |words| - 1;
    if i == n {
      assert words[i := w][..n] == words[..n];
    } else {
      CountAfterUpdate(words[..n], i, w);
      assert words[i := w][..n] == words[..n][i := w];
    }
  }

  lemma CountAfterPut(words: seq<Word64>, c: nat, on: bool)
    requires c / 64 < |words|
    ensures CountBits(PutChunk(words, c, on))
         == CountBits(words) + (if on && !BitAt(words, c) then 1 else if !on && BitAt(words, c) then -1 else 0)
  {
    CountAfterUpdate(words, c / 64, PutBit(words[c / 64], c % 64, on));
    PopCountOfSetBit(words[c / 64], c % 64);
    PopCountOfClearBit(words[c / 64], c % 64);
  }

  /** Exactly the chunks of the range take the new value, and the cached count stays right. */
  lemma {:induction false} RangeIsPut(t: Tracked, start: nat, end: int, on: bool)
    requires end < 64 * |t.words|
    ensures forall d: nat :: BitAt(PutRange(t, start, end, on).words, d) == if start <= d <= end then on else BitAt(t.words, d)
    ensures PutRange(t, start, end, on).count - CountBits(PutRange(t, start, end, on).words) == t.count - CountBits(t.words)
    decreases end + 1 - start
  {
    hide PutChunk, BitAt, CountBits;
    if start <= end {
      var was := BitAt(t.words, start);
      var count := if on && !was then t.count + 1 else if !on && was then t.count - 1 else t.count;
      assert |PutChunk(t.words, start, on)| == |t.words| by { ChunkKeepsLength(t.words, start, on); }
      CountAfterPut(t.words, start, on);
      RangeIsPut(Tracked(PutChunk(t.words, start, on), count), start + 1, end, on);
      forall d: nat
        ensures BitAt(PutRange(t, start, end, on).words, d) == if start <= d <= end then on else BitAt(t.words, d)
      {
        BitAfterPut(t.words, start, on, d);
      }
    }
  }

  lemma ChunkKeepsLength(words: seq<Word64>, c: nat, on: bool)
    requires c / 64 < |words|
    ensures |PutChunk(words, c, on)| == |words|
  {}

  // ----- histories

  /** A tracked device is written or reset over a range of sectors. */
  datatype Op = Wrote(sector: nat, n: nat) | Reset(sector: nat, n: nat)

  function FirstChunk(op: Op): nat { op.sector / CHUNK }
  function LastChunk(op: Op): int { CDiv(op.sector + op.n - 1, CHUNK) }

  /** The chunk holds one of the sectors the operation names. */
  predicate HoldsSectorOf(op: Op, c: nat) {
    exists s | op.sector <= s < op.sector + op.n :: s / CHUNK == c
  }

  predicate InBitmap(words: nat, op: Op) {
    op.n > 0 && LastChunk(op) < 64 * words
  }

  function Track(t: Tracked, op: Op): Tracked
    requires InBitmap(|t.words|, op)
  {
    PutRange(t, FirstChunk(op), LastChunk(op), op.Wrote?)
  }

  function TrackAll(t: Tracked, ops: seq<Op>): (r: Tracked)
    requires forall i | 0 <= i < |ops| :: InBitmap(|t.words|, ops[i])
    ensures |r.words| == |t.words|
  {
    if ops == [] then t else Track(TrackAll(t, ops[..|ops| - 1]), ops[|ops| - 1])
  }

  /** The chunk was written after its last reset. */
  predicate WrittenSinceReset(ops: seq<Op>, c: nat) {
    ops != [] &&
    var last := ops[|ops| - 1];
    if HoldsSectorOf(last, c) then last.Wrote? else WrittenSinceReset(ops[..|ops| - 1], c)
  }

  lemma TouchedChunks(op: Op, c: nat)
    requires op.n > 0
    ensures HoldsSectorOf(op, c) <==> FirstChunk(op) <= c <= LastChunk(op)
    ensures HoldsSectorOf(op, c) <==> Touches(op.sector, op.n, c)
  {
    if FirstChunk(op) <= c <= LastChunk(op) {
      var s := if op.sector / CHUNK == c then op.sector else c * CHUNK;
      assert s / CHUNK == c && op.sector <= s < op.sector + op.n;
    }
  }

  /** bdrv_set_dirty_tracking: a fresh bitmap, or the old one with its count forgotten. */
  function Enabled(bitmap: seq<Word64>, on: bool, words: nat): Tracked {
    if on then Tracked(bitmap, 0) else Tracked(ZeroWords(words), 0)
  }

  function ZeroWords(words: nat): seq<Word64> { seq(words, _ => 0) }

  lemma {:induction false} NoBits(words: nat)
    ensures CountBits(ZeroWords(words)) == 0
    ensures forall c: nat :: !BitAt(ZeroWords(words), c)
  {
    var zs := ZeroWords(words);
    forall c: nat ensures !BitAt(zs, c) {
      ZeroHasNoBits(c % 64);
    }
    if words > 0 {
      NoBits(words - 1);
      assert zs[..words - 1] == ZeroWords(words - 1);
    }
  }

  /**
   For every history of non-empty writes and resets since tracking was turned
   on: the cached count is the number of bits set, and a chunk's bit is set
   exactly when it was written after its last reset.
   */
  lemma {:induction false} BitmapFollowsHistory(words: nat, ops: seq<Op>)
    requires forall i | 0 <= i < |ops| :: InBitmap(words, ops[i])
    ensures var t := TrackAll(Enabled([], false, words), ops);
            && t.count == CountBits(t.words)
            && forall c: nat :: BitAt(t.words, c) <==> WrittenSinceReset(ops, c)
    decreases |ops|
  {
    hide BitAt, CountBits, HoldsSectorOf, FirstChunk, LastChunk;
    if ops == [] {
      NoBits(words);
    } else {
      var n := |ops| - 1;
      BitmapFollowsHistory(words, ops[..n]);
      var before := TrackAll(Enabled([], false, words), ops[..n]);
      RangeIsPut(before, FirstChunk(ops[n]), LastChunk(ops[n]), ops[n].Wrote?);
      forall c: nat ensures BitAt(Track(before, ops[n]).words, c) <==> WrittenSinceReset(ops, c) {
        TouchedChunks(ops[n], c);
      }
    }
  }

  lemma {:induction false} NoCountNoBits(words: seq<Word64>)
    ensures CountBits(words) == 0 <==> forall c: nat :: !BitAt(words, c)
  {
    if words != [] {
      var n := |words| - 1;
      NoCountNoBits(words[..n]);
      if CountBits(words) == 0 {
        forall c: nat ensures !BitAt(words, c) {
          if c / 64 == n {
            if Bit(words[n], c % 64) { SomeBitCounts(words[n], c % 64); }
          } else {
            assert !BitAt(words[..n], c);
          }
        }
      } else if PopCount(words[n]) > 0 {
        var k := SomeBitSet(words[n]);
        BitsBelow(words[n], k, 64);
        assert BitAt(words, 64 * n + k);
      } else {
        var c: nat :| BitAt(words[..n], c);
        assert BitAt(words, c);
      }
    }
  }

  lemma {:induction false} SomeBitSet(w: nat) returns (k: nat)
    requires PopCount(w) > 0
    ensures Bit(w, k)
  {
    if w % 2 == 1 {
      k := 0;
    } else {
      k := SomeBitSet(w / 2);
      k := k + 1;
    }
  }

  lemma {:induction false} BitsBelow(w: nat, k: nat, n: nat)
    requires Bit(w, k) && w < 0x1_0000_0000_0000_0000 && n == 64
    ensures k < 64
  {
    PowerOf64();
    BitsFit(w, k, 64);
  }

  lemma {:induction false} BitsFit(w: nat, k: nat, n: nat)
    requires Bit(w, k) && w < Pow2(n)
    ensures k < n
  {
    if n == 0 {
      ZeroHasNoBits(k);
    } else if k > 0 {
      BitsFit(w / 2, k - 1, n - 1);
    }
  }

  /**
   Turning tracking on when it is already on forgets the count but keeps the
   bits.  The count is then right exactly when no bit was set.
   */
  lemma ReenablingKeepsCountIffClean(bitmap: seq<Word64>, words: nat)
    ensures Enabled(bitmap, true, words).count == CountBits(Enabled(bitmap, true, words).words)
       <==> forall c: nat :: !BitAt(bitmap, c)
  {
    NoCountNoBits(bitmap);
  }

  /** One chunk written, tracking turned on again: count 0, one bit set. */
  lemma ReenablingLosesCount()
    ensures InBitmap(1, Wrote(0, 1))
    ensures var t := TrackAll(Enabled([], false, 1), [Wrote(0, 1)]);
            Enabled(t.words, true, 1).count != CountBits(Enabled(t.words, true, 1).words)
  {
    var t := TrackAll(Enabled([], false, 1), [Wrote(0, 1)]);
    BitmapFollowsHistory(1, [Wrote(0, 1)]);
    assert HoldsSectorOf(Wrote(0, 1), 0) by { TouchedChunks(Wrote(0, 1), 0); }
    assert [Wrote(0, 1)][..0] == [];
    assert WrittenSinceReset([Wrote(0, 1)], 0);
    assert BitAt(t.words, 0);
    ReenablingKeepsCountIffClean(t.words, 1);
  }

  /** The bits of `b` are those of `a` and the chunks lo .. hi. */
  ghost predicate Marked(a: seq<Word64>, b: seq<Word64>, lo: int, hi: int) {
    forall c: nat :: BitAt(b, c) <==> BitAt(a, c) || lo <= c <= hi
  }

  /** The bits of `b` are those of `a` and some of the chunks lo .. hi. */
  ghost predicate MarkedWithin(a: seq<Word64>, b: seq<Word64>, lo: int, hi: int) {
    forall c: nat :: (BitAt(a, c) ==> BitAt(b, c)) && (BitAt(b, c) ==> BitAt(a, c) || lo <= c <= hi)
  }

  lemma RangeMarks(t: Tracked, lo: nat, hi: int)
    requires hi < 64 * |t.words|
    ensures Marked(t.words, PutRange(t, lo, hi, true).words, lo, hi)
    ensures t.count == CountBits(t.words) ==> PutRange(t, lo, hi, true).count == CountBits(PutRange(t, lo, hi, true).words)
  {
    hide PutRange, BitAt, CountBits;
    RangeIsPut(t, lo, hi, true);
  }

  lemma MarkedChains(a: seq<Word64>, b: seq<Word64>, c: seq<Word64>, lo: int, mid: int, mid': int, hi: int)
    requires Marked(a, b, lo, mid)
    requires lo <= mid' <= mid + 1 && mid <= hi
    ensures Marked(b, c, mid', hi) ==> Marked(a, c, lo, hi)
    ensures MarkedWithin(b, c, mid', hi) ==> MarkedWithin(a, c, lo, hi)
  {
    hide BitAt;
  }
}
