/**
 Machine words as natural numbers, with the bit operations of the C sources
 defined bit by bit.  A word of n bits is a natural number below Pow2(n).
 */
module Bits {

  type Byte = x: nat | x < 256

  function Pow2(n: nat): (p: nat)
    ensures p > 0
  {
    if n == 0 then 1 else 2 * Pow2(n - 1)
  }

  /** w & (1 << k), as a truth value. */
  predicate Bit(w: nat, k: nat) {
    if k == 0 then w % 2 == 1 else Bit(w / 2, k - 1)
  }

  /** w | (1 << k) */
  function SetBit(w: nat, k: nat): nat {
    if k == 0 then w - w % 2 + 1 else 2 * SetBit(w / 2, k - 1) + w % 2
  }

  /** w & ~(1 << k) */
  function ClearBit(w: nat, k: nat): nat {
    if k == 0 then w - w % 2 else 2 * ClearBit(w / 2, k - 1) + w % 2
  }

  /** The number of bits set. */
  function PopCount(w: nat): nat {
    if w == 0 then 0 else w % 2 + PopCount(w / 2)
  }

  /** a ^ b */
  function Xor(a: nat, b: nat): nat {
    if a == 0 then b
    else if b == 0 then a
    else 2 * Xor(a / 2, b / 2) + (if a % 2 == b % 2 then 0 else 1)
  }

  // ----- single bits

  lemma {:induction false} BitOfSetBit(w: nat, k: nat, j: nat)
    ensures Bit(SetBit(w, k), j) == (j == k || Bit(w, j))
  {
    if k > 0 && j > 0 {
      BitOfSetBit(w / 2, k - 1, j - 1);
    }
  }

  lemma {:induction false} BitOfClearBit(w: nat, k: nat, j: nat)
    ensures Bit(ClearBit(w, k), j) == (j != k && Bit(w, j))
  {
    if k > 0 && j > 0 {
      BitOfClearBit(w / 2, k - 1, j - 1);
    }
  }

  lemma {:induction false} ZeroHasNoBits(k: nat)
    ensures !Bit(0, k)
  {
    if k > 0 {
      ZeroHasNoBits(k - 1);
    }
  }

  lemma {:induction false} SetBitFits(w: nat, k: nat, n: nat)
    requires w < Pow2(n) && k < n
    ensures SetBit(w, k) < Pow2(n) && ClearBit(w, k) < Pow2(n)
  {
    if k > 0 {
      SetBitFits(w / 2, k - 1, n - 1);
    }
  }

  lemma PopCountDouble(h: nat, l: nat)
    requires l < 2
    ensures PopCount(2 * h + l) == PopCount(h) + l
  {
    assert (2 * h + l) / 2 == h && (2 * h + l) % 2 == l;
  }

  /** Setting a clear bit adds one to the population count; setting a set bit changes nothing. */
  lemma {:induction false} PopCountOfSetBit(w: nat, k: nat)
    ensures PopCount(SetBit(w, k)) == PopCount(w) + (if Bit(w, k) then 0 else 1)
    ensures Bit(w, k) ==> SetBit(w, k) == w
  {
    PopCountDouble(w / 2, w % 2);
    if k == 0 {
      PopCountDouble(w / 2, 1);
    } else {
      PopCountOfSetBit(w / 2, k - 1);
      PopCountDouble(SetBit(w / 2, k - 1), w % 2);
    }
  }

  lemma {:induction false} PopCountOfClearBit(w: nat, k: nat)
    ensures PopCount(ClearBit(w, k)) == PopCount(w) - (if Bit(w, k) then 1 else 0)
    ensures !Bit(w, k) ==> ClearBit(w, k) == w
  {
    PopCountDouble(w / 2, w % 2);
    if k == 0 {
      PopCountDouble(w / 2, 0);
    } else {
      PopCountOfClearBit(w / 2, k - 1);
      PopCountDouble(ClearBit(w / 2, k - 1), w % 2);
    }
  }

  lemma {:induction false} SomeBitCounts(w: nat, k: nat)
    requires Bit(w, k)
    ensures PopCount(w) > 0
  {
    if k > 0 {
      SomeBitCounts(w / 2, k - 1);
    }
  }

  // ----- exclusive or

  lemma {:induction false} BitOfXor(a: nat, b: nat, k: nat)
    ensures Bit(Xor(a, b), k) == (Bit(a, k) != Bit(b, k))
  {
    if a == 0 || b == 0 {
      ZeroHasNoBits(k);
    } else if k > 0 {
      BitOfXor(a / 2, b / 2, k - 1);
    }
  }

  lemma XorBits()
    ensures forall a, b, k {:trigger Bit(Xor(a, b), k)} :: Bit(Xor(a, b), k) == (Bit(a, k) != Bit(b, k))
    ensures forall k :: !Bit(0, k)
  {
    forall a, b, k ensures Bit(Xor(a, b), k) == (Bit(a, k) != Bit(b, k)) {
      BitOfXor(a, b, k);
    }
    forall k ensures !Bit(0, k) {
      ZeroHasNoBits(k);
    }
  }

  /** Two words with the same bits are the same word. */
  lemma {:induction false} SameBits(a: nat, b: nat)
    requires forall k: nat :: Bit(a, k) == Bit(b, k)
    ensures a == b
    decreases a + b
  {
    assert Bit(a, 0) == Bit(b, 0);
    if a + b > 0 {
      forall k: nat ensures Bit(a / 2, k) == Bit(b / 2, k) {
        assert Bit(a, k + 1) == Bit(b, k + 1);
      }
      SameBits(a / 2, b / 2);
    }
  }

  lemma XorMedial(a: nat, b: nat, c: nat, d: nat)
    ensures Xor(Xor(a, b), Xor(c, d)) == Xor(Xor(a, c), Xor(b, d))
  {
    XorBits();
    SameBits(Xor(Xor(a, b), Xor(c, d)), Xor(Xor(a, c), Xor(b, d)));
  }

  lemma XorCancels(a: nat, b: nat)
    ensures Xor(Xor(a, b), b) == a
    ensures Xor(a, a) == 0
  {
    XorBits();
    SameBits(Xor(Xor(a, b), b), a);
    SameBits(Xor(a, a), 0);
  }

  lemma {:induction false} XorFits(a: nat, b: nat, n: nat)
    requires a < Pow2(n) && b < Pow2(n)
    ensures Xor(a, b) < Pow2(n)
  {
    if a != 0 && b != 0 {
      XorFits(a / 2, b / 2, n - 1);
    }
  }

  function XorByte(a: Byte, b: Byte): (r: Byte) {
    assert Pow2(8) == 256;
    XorFits(a, b, 8);
    Xor(a, b)
  }

  lemma XorDouble(a: nat, i: nat, b: nat, j: nat)
    requires i < 2 && j < 2
    ensures Xor(2 * a + i, 2 * b + j) == 2 * Xor(a, b) + Xor(i, j)
  {
    assert (2 * a + i) / 2 == a && (2 * a + i) % 2 == i;
    assert (2 * b + j) / 2 == b && (2 * b + j) % 2 == j;
  }

  lemma XorHalves(a: nat, b: nat)
    ensures Xor(a, b) / 2 == Xor(a / 2, b / 2)
    ensures Xor(a, b) % 2 == Xor(a % 2, b % 2)
  {}

  /** The word with high part h above n low bits taken from l. */
  function Join(n: nat, h: nat, l: nat): nat {
    if n == 0 then h else 2 * Join(n - 1, h, l / 2) + l % 2
  }

  lemma {:induction false} JoinIsSum(n: nat, h: nat, l: nat)
    requires l < Pow2(n)
    ensures Join(n, h, l) == Pow2(n) * h + l
  {
    if n > 0 {
      var m := Pow2(n - 1);
      JoinIsSum(n - 1, h, l / 2);
      assert 2 * (m * h + l / 2) == (2 * m) * h + 2 * (l / 2);
    }
  }

  lemma {:induction false} XorJoin(n: nat, h: nat, l: nat, h': nat, l': nat)
    ensures Xor(Join(n, h, l), Join(n, h', l')) == Join(n, Xor(h, h'), Xor(l, l'))
  {
    if n > 0 {
      XorJoin(n - 1, h, l / 2, h', l' / 2);
      XorDouble(Join(n - 1, h, l / 2), l % 2, Join(n - 1, h', l' / 2), l' % 2);
      XorHalves(l, l');
    }
  }

  /** Exclusive or works on the high part and the low n bits of a word separately. */
  lemma XorSplit(n: nat, h: nat, l: nat, h': nat, l': nat)
    requires l < Pow2(n) && l' < Pow2(n)
    ensures Xor(Pow2(n) * h + l, Pow2(n) * h' + l') == Pow2(n) * Xor(h, h') + Xor(l, l')
    ensures Xor(l, l') < Pow2(n)
  {
    JoinIsSum(n, h, l);
    JoinIsSum(n, h', l');
    XorJoin(n, h, l, h', l');
    XorFits(l, l', n);
    JoinIsSum(n, Xor(h, h'), Xor(l, l'));
  }

  lemma XorBytes(h: nat, l: Byte, h': nat, l': Byte)
    ensures Xor(256 * h + l, 256 * h' + l') == 256 * Xor(h, h') + XorByte(l, l')
  {
    assert Pow2(8) == 256;
    XorSplit(8, h, l, h', l');
  }
}
