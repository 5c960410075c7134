/**
 The byte arithmetic under the AES rounds (sections 4.2 and 5.1.3 of FIPS 197):
 multiplication by the constants that appear in the T-table formulas, and the
 fact that the inverse column transform undoes the forward one.

 Every constant is written through one doubling function `x2`.  The lemmas ask
 of it only that it distributes over exclusive or; `XtimeIsLinear` shows that
 the AES doubling does.
 */
module AesField {
  import opened Bits

  /** One column of the state, most significant byte first. */
  datatype Col = Col(b0: Byte, b1: Byte, b2: Byte, b3: Byte)

  type Doubling = Byte -> Byte

  ghost predicate Linear(x2: Doubling) {
    forall a: Byte, b: Byte {:trigger x2(XorByte(a, b))} :: x2(XorByte(a, b)) == XorByte(x2(a), x2(b))
  }

  /** Exclusive or of three and of four bytes, grouped to the left as in C. */
  function Xor3(a: Byte, b: Byte, c: Byte): Byte { XorByte(XorByte(a, b), c) }
  function Xor4(a: Byte, b: Byte, c: Byte, d: Byte): Byte { XorByte(XorByte(XorByte(a, b), c), d) }

  function Mul3(x2: Doubling, x: Byte): Byte { XorByte(x2(x), x) }
  function Mul9(x2: Doubling, x: Byte): Byte { XorByte(x2(x2(x2(x))), x) }
  function MulB(x2: Doubling, x: Byte): Byte { Xor3(x2(x2(x2(x))), x2(x), x) }
  function MulD(x2: Doubling, x: Byte): Byte { Xor3(x2(x2(x2(x))), x2(x2(x)), x) }
  function MulE(x2: Doubling, x: Byte): Byte { Xor3(x2(x2(x2(x))), x2(x2(x)), x2(x)) }

  function MixColumn(x2: Doubling, c: Col): Col {
    Col(Xor4(x2(c.b0), Mul3(x2, c.b1), c.b2, c.b3),
        Xor4(c.b0, x2(c.b1), Mul3(x2, c.b2), c.b3),
        Xor4(c.b0, c.b1, x2(c.b2), Mul3(x2, c.b3)),
        Xor4(Mul3(x2, c.b0), c.b1, c.b2, x2(c.b3)))
  }

  function InvMixColumn(x2: Doubling, c: Col): Col {
    Col(Xor4(MulE(x2, c.b0), MulB(x2, c.b1), MulD(x2, c.b2), Mul9(x2, c.b3)),
        Xor4(Mul9(x2, c.b0), MulE(x2, c.b1), MulB(x2, c.b2), MulD(x2, c.b3)),
        Xor4(MulD(x2, c.b0), Mul9(x2, c.b1), MulE(x2, c.b2), MulB(x2, c.b3)),
        Xor4(MulB(x2, c.b0), MulD(x2, c.b1), Mul9(x2, c.b2), MulE(x2, c.b3)))
  }

  function XorCol(c: Col, d: Col): Col {
    Col(XorByte(c.b0, d.b0), XorByte(c.b1, d.b1), XorByte(c.b2, d.b2), XorByte(c.b3, d.b3))
  }

  // ----- the doubling of AES

  /** xtime of section 4.2.1 of FIPS 197. */
  function Xtime(x: Byte): Byte {
    XorByte((2 * x) % 256, if x >= 128 then 0x1b else 0)
  }

  lemma SevenLowBits(h: nat, l: nat, h': nat, l': nat)
    requires l < 128 && l' < 128
    ensures Xor(128 * h + l, 128 * h' + l') == 128 * Xor(h, h') + Xor(l, l')
    ensures Xor(l, l') < 128
  {
    assert Pow2(7) == 128;
    XorSplit(7, h, l, h', l');
  }

  lemma XorOfBits(h: nat, h': nat)
    requires h < 2 && h' < 2
    ensures Xor(h, h') == if h == h' then 0 else 1
  {}

  lemma DoubledLowBits(l: nat, l': nat)
    ensures Xor(2 * l, 2 * l') == 2 * Xor(l, l')
  {
    XorDouble(l, 0, l', 0);
  }

  lemma XorBySevenBits(a: Byte, b: Byte)
    ensures XorByte(a, b) == 128 * Xor(a / 128, b / 128) + Xor(a % 128, b % 128)
    ensures Xor(a % 128, b % 128) < 128
  {
    SevenLowBits(a / 128, a % 128, b / 128, b % 128);
  }

  lemma TopBitOfXor(a: Byte, b: Byte)
    ensures (XorByte(a, b) >= 128) == ((a >= 128) != (b >= 128))
    ensures (2 * XorByte(a, b)) % 256 == 2 * Xor(a % 128, b % 128)
  {
    XorBySevenBits(a, b);
    XorOfBits(a / 128, b / 128);
  }

  lemma ShiftDropsTopBit(a: Byte)
    ensures (2 * a) % 256 == 2 * (a % 128)
  {}

  lemma ShiftOfXor(a: Byte, b: Byte)
    ensures (2 * XorByte(a, b)) % 256 == XorByte((2 * a) % 256, (2 * b) % 256)
  {
    TopBitOfXor(a, b);
    calc {
      Xor((2 * a) % 256, (2 * b) % 256);
      { ShiftDropsTopBit(a); ShiftDropsTopBit(b); }
      Xor(2 * (a % 128), 2 * (b % 128));
      { DoubledLowBits(a % 128, b % 128); }
      2 * Xor(a % 128, b % 128);
    }
  }

  lemma XtimeIsLinear()
    ensures Linear(Xtime)
  {
    forall a: Byte, b: Byte ensures Xtime(XorByte(a, b)) == XorByte(Xtime(a), Xtime(b)) {
      TopBitOfXor(a, b);
      ShiftOfXor(a, b);
      XorCancels(0x1b, 0);
      XorMedial((2 * a) % 256, if a >= 128 then 0x1b else 0, (2 * b) % 256, if b >= 128 then 0x1b else 0);
    }
  }

  // ----- linearity of the constants

  lemma Xor3Adds(a: Byte, b: Byte, c: Byte, a': Byte, b': Byte, c': Byte)
    ensures Xor3(XorByte(a, a'), XorByte(b, b'), XorByte(c, c')) == XorByte(Xor3(a, b, c), Xor3(a', b', c'))
  {
    XorMedial(a, a', b, b');
    XorMedial(XorByte(a, b), XorByte(a', b'), c, c');
  }

  lemma Xor4Adds(a: Byte, b: Byte, c: Byte, d: Byte, a': Byte, b': Byte, c': Byte, d': Byte)
    ensures Xor4(XorByte(a, a'), XorByte(b, b'), XorByte(c, c'), XorByte(d, d'))
         == XorByte(Xor4(a, b, c, d), Xor4(a', b', c', d'))
  {
    Xor3Adds(a, b, c, a', b', c');
    XorMedial(Xor3(a, b, c), Xor3(a', b', c'), d, d');
  }

  lemma ConstantsAdd(x2: Doubling, x: Byte, y: Byte)
    requires Linear(x2)
    ensures MulE(x2, XorByte(x, y)) == XorByte(MulE(x2, x), MulE(x2, y))
    ensures MulB(x2, XorByte(x, y)) == XorByte(MulB(x2, x), MulB(x2, y))
    ensures MulD(x2, XorByte(x, y)) == XorByte(MulD(x2, x), MulD(x2, y))
    ensures Mul9(x2, XorByte(x, y)) == XorByte(Mul9(x2, x), Mul9(x2, y))
  {
    var p, p' := x2(x), x2(y);
    var q, q' := x2(p), x2(p');
    var r, r' := x2(q), x2(q');
    assert x2(XorByte(x, y)) == XorByte(p, p');
    assert x2(XorByte(p, p')) == XorByte(q, q');
    assert x2(XorByte(q, q')) == XorByte(r, r');
    Xor3Adds(r, q, p, r', q', p');
    Xor3Adds(r, p, x, r', p', y);
    Xor3Adds(r, q, x, r', q', y);
    XorMedial(r, r', x, y);
  }

  /** The inverse column transform distributes over adding a round key. */
  lemma InvMixColumnAdds(x2: Doubling, c: Col, d: Col)
    requires Linear(x2)
    ensures InvMixColumn(x2, XorCol(c, d)) == XorCol(InvMixColumn(x2, c), InvMixColumn(x2, d))
  {
    ConstantsAdd(x2, c.b0, d.b0);
    ConstantsAdd(x2, c.b1, d.b1);
    ConstantsAdd(x2, c.b2, d.b2);
    ConstantsAdd(x2, c.b3, d.b3);
    Xor4Adds(MulE(x2, c.b0), MulB(x2, c.b1), MulD(x2, c.b2), Mul9(x2, c.b3),
             MulE(x2, d.b0), MulB(x2, d.b1), MulD(x2, d.b2), Mul9(x2, d.b3));
    Xor4Adds(Mul9(x2, c.b0), MulE(x2, c.b1), MulB(x2, c.b2), MulD(x2, c.b3),
             Mul9(x2, d.b0), MulE(x2, d.b1), MulB(x2, d.b2), MulD(x2, d.b3));
    Xor4Adds(MulD(x2, c.b0), Mul9(x2, c.b1), MulE(x2, c.b2), MulB(x2, c.b3),
             MulD(x2, d.b0), Mul9(x2, d.b1), MulE(x2, d.b2), MulB(x2, d.b3));
    Xor4Adds(MulB(x2, c.b0), MulD(x2, c.b1), Mul9(x2, c.b2), MulE(x2, c.b3),
             MulB(x2, d.b0), MulD(x2, d.b1), Mul9(x2, d.b2), MulE(x2, d.b3));
  }

  // ----- the inverse column transform undoes the forward one

  /**
   The products of a row of the inverse matrix with a column of the forward
   one, as polynomials in the doublings p, q, r, s of x: one on the diagonal
   and zero off it.
   */
  lemma CancelDiagonal(x: Byte, p: Byte, q: Byte, r: Byte, s: Byte)
    ensures Xor4(Xor3(s, r, q), Xor3(r, p, x), Xor3(r, q, x), XorByte(XorByte(s, r), XorByte(p, x))) == x
  {
    XorBits();
    SameBits(Xor4(Xor3(s, r, q), Xor3(r, p, x), Xor3(r, q, x), XorByte(XorByte(s, r), XorByte(p, x))), x);
  }

  lemma CancelOff1(x: Byte, p: Byte, q: Byte, r: Byte, s: Byte)
    ensures Xor4(Xor3(XorByte(s, r), XorByte(r, q), XorByte(q, p)), Xor3(s, q, p), Xor3(r, q, x), XorByte(r, x)) == 0
  {
    XorBits();
    SameBits(Xor4(Xor3(XorByte(s, r), XorByte(r, q), XorByte(q, p)), Xor3(s, q, p), Xor3(r, q, x), XorByte(r, x)), 0);
  }

  lemma CancelOff2(x: Byte, p: Byte, q: Byte, r: Byte, s: Byte)
    ensures Xor4(Xor3(r, q, p), Xor3(XorByte(s, r), XorByte(q, p), XorByte(p, x)), Xor3(s, r, p), XorByte(r, x)) == 0
  {
    XorBits();
    SameBits(Xor4(Xor3(r, q, p), Xor3(XorByte(s, r), XorByte(q, p), XorByte(p, x)), Xor3(s, r, p), XorByte(r, x)), 0);
  }

  lemma CancelOff3(x: Byte, p: Byte, q: Byte, r: Byte, s: Byte)
    ensures Xor4(Xor3(r, q, p), Xor3(r, p, x), Xor3(XorByte(s, r), XorByte(r, q), XorByte(p, x)), XorByte(s, p)) == 0
  {
    XorBits();
    SameBits(Xor4(Xor3(r, q, p), Xor3(r, p, x), Xor3(XorByte(s, r), XorByte(r, q), XorByte(p, x)), XorByte(s, p)), 0);
  }

  /** One output byte of the inverse column transform. */
  function InvRow(x2: Doubling, p: Byte, q: Byte, r: Byte, s: Byte): Byte {
    Xor4(MulE(x2, p), MulB(x2, q), MulD(x2, r), Mul9(x2, s))
  }

  lemma RowTimesColumn(x2: Doubling, x: Byte)
    requires Linear(x2)
    ensures InvRow(x2, x2(x), x, x, Mul3(x2, x)) == x
    ensures InvRow(x2, Mul3(x2, x), x2(x), x, x) == 0
    ensures InvRow(x2, x, Mul3(x2, x), x2(x), x) == 0
    ensures InvRow(x2, x, x, Mul3(x2, x), x2(x)) == 0
  {
    var p := x2(x);
    var q := x2(p);
    var r := x2(q);
    var s := x2(r);
    assert x2(XorByte(p, x)) == XorByte(q, p);
    assert x2(XorByte(q, p)) == XorByte(r, q);
    assert x2(XorByte(r, q)) == XorByte(s, r);
    CancelDiagonal(x, p, q, r, s);
    CancelOff1(x, p, q, r, s);
    CancelOff2(x, p, q, r, s);
    CancelOff3(x, p, q, r, s);
  }

  lemma InvRowAdds(x2: Doubling, p: Byte, q: Byte, r: Byte, s: Byte, p': Byte, q': Byte, r': Byte, s': Byte)
    requires Linear(x2)
    ensures InvRow(x2, XorByte(p, p'), XorByte(q, q'), XorByte(r, r'), XorByte(s, s'))
         == XorByte(InvRow(x2, p, q, r, s), InvRow(x2, p', q', r', s'))
  {
    ConstantsAdd(x2, p, p');
    ConstantsAdd(x2, q, q');
    ConstantsAdd(x2, r, r');
    ConstantsAdd(x2, s, s');
    Xor4Adds(MulE(x2, p), MulB(x2, q), MulD(x2, r), Mul9(x2, s), MulE(x2, p'), MulB(x2, q'), MulD(x2, r'), Mul9(x2, s'));
  }

  /** A row applied to a mixed column gives back the byte the row meets on the diagonal. */
  lemma RowRecovers(x2: Doubling, a: Byte, b: Byte, c: Byte, d: Byte)
    requires Linear(x2)
    ensures InvRow(x2,
                   Xor4(x2(a), Mul3(x2, b), c, d),
                   Xor4(a, x2(b), Mul3(x2, c), d),
                   Xor4(a, b, x2(c), Mul3(x2, d)),
                   Xor4(Mul3(x2, a), b, c, x2(d))) == a
  {
    InvRowAdds(x2, Xor3(x2(a), Mul3(x2, b), c), Xor3(a, x2(b), Mul3(x2, c)), Xor3(a, b, x2(c)), Xor3(Mul3(x2, a), b, c),
               d, d, Mul3(x2, d), x2(d));
    InvRowAdds(x2, XorByte(x2(a), Mul3(x2, b)), XorByte(a, x2(b)), XorByte(a, b), XorByte(Mul3(x2, a), b),
               c, Mul3(x2, c), x2(c), c);
    InvRowAdds(x2, x2(a), a, a, Mul3(x2, a), Mul3(x2, b), x2(b), b, b);
    RowTimesColumn(x2, a);
    RowTimesColumn(x2, b);
    RowTimesColumn(x2, c);
    RowTimesColumn(x2, d);
  }

  lemma Rotate4(a: Byte, b: Byte, c: Byte, d: Byte)
    ensures Xor4(a, b, c, d) == Xor4(b, c, d, a)
  {
    XorBits();
    SameBits(Xor4(a, b, c, d), Xor4(b, c, d, a));
  }

  lemma Rotations(a: Byte, b: Byte, c: Byte, d: Byte)
    ensures Xor4(a, b, c, d) == Xor4(b, c, d, a) == Xor4(c, d, a, b) == Xor4(d, a, b, c)
  {
    Rotate4(a, b, c, d);
    Rotate4(b, c, d, a);
    Rotate4(c, d, a, b);
  }

  lemma InvMixColumnUndoesMixColumn(x2: Doubling, c: Col)
    requires Linear(x2)
    ensures InvMixColumn(x2, MixColumn(x2, c)) == c
  {
    var m := MixColumn(x2, c);
    Rotations(x2(c.b0), Mul3(x2, c.b1), c.b2, c.b3);
    Rotations(c.b0, x2(c.b1), Mul3(x2, c.b2), c.b3);
    Rotations(c.b0, c.b1, x2(c.b2), Mul3(x2, c.b3));
    Rotations(Mul3(x2, c.b0), c.b1, c.b2, x2(c.b3));
    RowRecovers(x2, c.b0, c.b1, c.b2, c.b3);
    RowRecovers(x2, c.b1, c.b2, c.b3, c.b0);
    RowRecovers(x2, c.b2, c.b3, c.b0, c.b1);
    RowRecovers(x2, c.b3, c.b0, c.b1, c.b2);
    Rotations(MulE(x2, m.b1), MulB(x2, m.b2), MulD(x2, m.b3), Mul9(x2, m.b0));
    Rotations(MulE(x2, m.b2), MulB(x2, m.b3), MulD(x2, m.b0), Mul9(x2, m.b1));
    Rotations(MulE(x2, m.b3), MulB(x2, m.b0), MulD(x2, m.b1), Mul9(x2, m.b2));
  }

  // ----- the matrices of FIPS 197

  /** The product with a constant: double and add, as section 4.2.1 explains. */
  function Times(x2: Doubling, k: nat, x: Byte): Byte {
    if k == 0 then 0 else XorByte(if k % 2 == 1 then x else 0, Times(x2, k / 2, x2(x)))
  }

  function At(c: Col, r: nat): Byte
    requires r < 4
  {
    if r == 0 then c.b0 else if r == 1 then c.b1 else if r == 2 then c.b2 else c.b3
  }

  lemma XorWithZero(a: Byte, b: Byte)
    ensures XorByte(a, 0) == a == XorByte(0, a) && XorByte(a, b) == XorByte(b, a)
  {
    XorBits();
    SameBits(Xor(a, 0), a);
    SameBits(Xor(0, a), a);
    SameBits(Xor(a, b), Xor(b, a));
  }

  lemma Factors(x2: Doubling, x: Byte)
    ensures Times(x2, 1, x) == x && Times(x2, 2, x) == x2(x) && Times(x2, 3, x) == Mul3(x2, x)
    ensures Times(x2, 0x9, x) == Mul9(x2, x) && Times(x2, 0xb, x) == MulB(x2, x)
    ensures Times(x2, 0xd, x) == MulD(x2, x) && Times(x2, 0xe, x) == MulE(x2, x)
  {
    var y := x2(x);
    var z := x2(y);
    var w := x2(z);
    OneFactor(x2, x);
    OneFactor(x2, y);
    OneFactor(x2, z);
    OneFactor(x2, w);
    XorWithZero(x, y);
    XorWithZero(w, x);
    XorWithZero(w, z);
    XorWithZero(z, w);
    XorWithZero(XorByte(w, z), x);
    XorWithZero(XorByte(w, z), y);
    XorWithZero(XorByte(z, w), y);
    XorWithZero(XorByte(w, y), x);
    XorWithZero(y, w);
    assert Times(x2, 9, x) == XorByte(x, Times(x2, 4, y)) && Times(x2, 4, y) == Times(x2, 2, z) == Times(x2, 1, w);
    assert Times(x2, 0xb, x) == XorByte(x, Times(x2, 5, y)) && Times(x2, 5, y) == XorByte(y, Times(x2, 2, z));
    assert Times(x2, 0xd, x) == XorByte(x, Times(x2, 6, y)) && Times(x2, 6, y) == Times(x2, 3, z) == XorByte(z, Times(x2, 1, w));
    assert Times(x2, 0xe, x) == Times(x2, 7, y) == XorByte(y, Times(x2, 3, z));
  }

  lemma OneFactor(x2: Doubling, x: Byte)
    ensures Times(x2, 1, x) == x
    ensures forall k: nat | k > 0 && k % 2 == 0 :: Times(x2, k, x) == Times(x2, k / 2, x2(x))
  {
    XorWithZero(x, 0);
    forall k: nat | k > 0 && k % 2 == 0 ensures Times(x2, k, x) == Times(x2, k / 2, x2(x)) {
      XorWithZero(Times(x2, k / 2, x2(x)), 0);
    }
  }

  /** Each byte of a mixed column by the circulant matrices of sections 5.1.3 and 5.3.3. */
  lemma MixedAt(x2: Doubling, c: Col, r: nat)
    requires r < 4
    ensures At(MixColumn(x2, c), r)
         == Xor4(Times(x2, 2, At(c, r)), Times(x2, 3, At(c, (r + 1) % 4)), At(c, (r + 2) % 4), At(c, (r + 3) % 4))
    ensures At(InvMixColumn(x2, c), r)
         == Xor4(Times(x2, 0xe, At(c, r)), Times(x2, 0xb, At(c, (r + 1) % 4)),
                 Times(x2, 0xd, At(c, (r + 2) % 4)), Times(x2, 0x9, At(c, (r + 3) % 4)))
  {
    hide Times, Mul3, Mul9, MulB, MulD, MulE, Xor4;
    forall i | 0 <= i < 4 ensures Times(x2, 2, At(c, i)) == x2(At(c, i)) && Times(x2, 3, At(c, i)) == Mul3(x2, At(c, i))
      && Times(x2, 0xe, At(c, i)) == MulE(x2, At(c, i)) && Times(x2, 0xb, At(c, i)) == MulB(x2, At(c, i))
      && Times(x2, 0xd, At(c, i)) == MulD(x2, At(c, i)) && Times(x2, 0x9, At(c, i)) == Mul9(x2, At(c, i))
    {
      Factors(x2, At(c, i));
    }
    var s0, s1, s2, s3 := At(c, r), At(c, (r + 1) % 4), At(c, (r + 2) % 4), At(c, (r + 3) % 4);
    Rotations(x2(s0), Mul3(x2, s1), s2, s3);
    Rotations(MulE(x2, s0), MulB(x2, s1), MulD(x2, s2), Mul9(x2, s3));
  }
}
