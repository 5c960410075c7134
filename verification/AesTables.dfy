/**
 The T-table implementation of AES on 32-bit words, as the C code runs it:
 four state words, a moving key index, two rounds per loop iteration.  Every
 method is proved to compute the transformations of AesCipher.
 */
module AesTables {
  import opened Bits
  import opened AesField
  import opened AesCipher

  type Word = w: nat | w < 0x1_0000_0000

  function Pack(b0: Byte, b1: Byte, b2: Byte, b3: Byte): Word {
    256 * (256 * (256 * b0 + b1) + b2) + b3
  }

  /** (w >> 24), (w >> 16) & 0xff, (w >> 8) & 0xff, w & 0xff */
  function Byte0(w: Word): Byte { w / 0x100_0000 }
  function Byte1(w: Word): Byte { w / 0x1_0000 % 256 }
  function Byte2(w: Word): Byte { w / 256 % 256 }
  function Byte3(w: Word): Byte { w % 256 }

  function ColOf(w: Word): Col { Col(Byte0(w), Byte1(w), Byte2(w), Byte3(w)) }

  function XorWord(u: Word, v: Word): Word {
    XorWordBytes(u, v);
    Xor(u, v)
  }

  /** The four masks of the last round. */
  function Mask0(w: Word): Word { Pack(Byte0(w), 0, 0, 0) }
  function Mask1(w: Word): Word { Pack(0, Byte1(w), 0, 0) }
  function Mask2(w: Word): Word { Pack(0, 0, Byte2(w), 0) }
  function Mask3(w: Word): Word { Pack(0, 0, 0, Byte3(w)) }

  // The table formulas.
  function Te0(t: Tables, x: Byte): Word { var s := t.S(x); Pack(t.x2(s), s, s, Mul3(t.x2, s)) }
  function Te1(t: Tables, x: Byte): Word { var s := t.S(x); Pack(Mul3(t.x2, s), t.x2(s), s, s) }
  function Te2(t: Tables, x: Byte): Word { var s := t.S(x); Pack(s, Mul3(t.x2, s), t.x2(s), s) }
  function Te3(t: Tables, x: Byte): Word { var s := t.S(x); Pack(s, s, Mul3(t.x2, s), t.x2(s)) }
  function Te4(t: Tables, x: Byte): Word { var s := t.S(x); Pack(s, s, s, s) }

  function Td0(t: Tables, x: Byte): Word {
    var s := t.Si(x); Pack(MulE(t.x2, s), Mul9(t.x2, s), MulD(t.x2, s), MulB(t.x2, s))
  }
  function Td1(t: Tables, x: Byte): Word {
    var s := t.Si(x); Pack(MulB(t.x2, s), MulE(t.x2, s), Mul9(t.x2, s), MulD(t.x2, s))
  }
  function Td2(t: Tables, x: Byte): Word {
    var s := t.Si(x); Pack(MulD(t.x2, s), MulB(t.x2, s), MulE(t.x2, s), Mul9(t.x2, s))
  }
  function Td3(t: Tables, x: Byte): Word {
    var s := t.Si(x); Pack(Mul9(t.x2, s), MulD(t.x2, s), MulB(t.x2, s), MulE(t.x2, s))
  }
  function Td4(t: Tables, x: Byte): Word { var s := t.Si(x); Pack(s, s, s, s) }

  // ----- words and columns

  lemma ColOfPack(b0: Byte, b1: Byte, b2: Byte, b3: Byte)
    ensures ColOf(Pack(b0, b1, b2, b3)) == Col(b0, b1, b2, b3)
  {
    var a := 256 * b0 + b1;
    var b := 256 * a + b2;
    var w := 256 * b + b3;
    LastByte(b, b3);
    LastByte(a, b2);
    LastByte(b0, b1);
    assert w / 0x1_0000 == (w / 256) / 256 && w / 0x100_0000 == (w / 0x1_0000) / 256;
  }

  lemma LastByte(high: nat, low: Byte)
    ensures (256 * high + low) / 256 == high && (256 * high + low) % 256 == low
  {}

  lemma PackOfBytes(w: Word)
    ensures Pack(Byte0(w), Byte1(w), Byte2(w), Byte3(w)) == w
  {
    var a, b := w / 256, w / 0x1_0000;
    assert a / 256 == b && b / 256 == w / 0x100_0000;
    assert w == 256 * a + w % 256 && a == 256 * b + a % 256 && b == 256 * (b / 256) + b % 256;
  }

  lemma XorOfPacks(a0: Byte, a1: Byte, a2: Byte, a3: Byte, b0: Byte, b1: Byte, b2: Byte, b3: Byte)
    ensures Xor(Pack(a0, a1, a2, a3), Pack(b0, b1, b2, b3))
         == Pack(XorByte(a0, b0), XorByte(a1, b1), XorByte(a2, b2), XorByte(a3, b3))
  {
    hide XorByte, Xor;
    XorBytes(256 * (256 * a0 + a1) + a2, a3, 256 * (256 * b0 + b1) + b2, b3);
    XorBytes(256 * a0 + a1, a2, 256 * b0 + b1, b2);
    XorBytes(a0, a1, b0, b1);
    XorByteIsXor(a0, b0);
  }

  lemma XorByteIsXor(a: Byte, b: Byte)
    ensures XorByte(a, b) == Xor(a, b)
  {}

  lemma XorWordBytes(u: Word, v: Word)
    ensures Xor(u, v) < 0x1_0000_0000
    ensures ColOf(Xor(u, v)) == XorCol(ColOf(u), ColOf(v))
  {
    hide XorByte;
    PackOfBytes(u);
    PackOfBytes(v);
    XorOfPacks(Byte0(u), Byte1(u), Byte2(u), Byte3(u), Byte0(v), Byte1(v), Byte2(v), Byte3(v));
    ColOfPack(XorByte(Byte0(u), Byte0(v)), XorByte(Byte1(u), Byte1(v)), XorByte(Byte2(u), Byte2(v)), XorByte(Byte3(u), Byte3(v)));
  }

  function StateOf(s0: Word, s1: Word, s2: Word, s3: Word): State {
    State(ColOf(s0), ColOf(s1), ColOf(s2), ColOf(s3))
  }

  // ----- one word of a round

  function Xor4Words(a: Word, b: Word, c: Word, d: Word): Word {
    XorWord(XorWord(XorWord(a, b), c), d)
  }

  lemma Xor4WordsBytes(a: Word, b: Word, c: Word, d: Word)
    ensures ColOf(Xor4Words(a, b, c, d)) == XorCol(XorCol(XorCol(ColOf(a), ColOf(b)), ColOf(c)), ColOf(d))
  {
    hide ColOf, XorCol;
    XorWordBytes(a, b);
    XorWordBytes(XorWord(a, b), c);
    XorWordBytes(XorWord(XorWord(a, b), c), d);
  }

  function EncWord(t: Tables, a: Word, b: Word, c: Word, d: Word, k: Word): Word {
    XorWord(Xor4Words(Te0(t, Byte0(a)), Te1(t, Byte1(b)), Te2(t, Byte2(c)), Te3(t, Byte3(d))), k)
  }

  function DecWord(t: Tables, a: Word, b: Word, c: Word, d: Word, k: Word): Word {
    XorWord(Xor4Words(Td0(t, Byte0(a)), Td1(t, Byte1(b)), Td2(t, Byte2(c)), Td3(t, Byte3(d))), k)
  }

  function LastEncWord(t: Tables, a: Word, b: Word, c: Word, d: Word, k: Word): Word {
    XorWord(Xor4Words(Mask0(Te4(t, Byte0(a))), Mask1(Te4(t, Byte1(b))), Mask2(Te4(t, Byte2(c))), Mask3(Te4(t, Byte3(d)))), k)
  }

  function LastDecWord(t: Tables, a: Word, b: Word, c: Word, d: Word, k: Word): Word {
    XorWord(Xor4Words(Mask0(Td4(t, Byte0(a))), Mask1(Td4(t, Byte1(b))), Mask2(Td4(t, Byte2(c))), Mask3(Td4(t, Byte3(d)))), k)
  }

  lemma EncWordMixes(t: Tables, a: Word, b: Word, c: Word, d: Word, k: Word)
    ensures ColOf(EncWord(t, a, b, c, d, k))
         == XorCol(MixColumn(t.x2, Col(t.S(Byte0(a)), t.S(Byte1(b)), t.S(Byte2(c)), t.S(Byte3(d)))), ColOf(k))
  {
    hide Byte0, Byte1, Byte2, Byte3, Pack, XorByte, XorWord, Mul3;
    var p, q, r, s := t.S(Byte0(a)), t.S(Byte1(b)), t.S(Byte2(c)), t.S(Byte3(d));
    ColOfPack(t.x2(p), p, p, Mul3(t.x2, p));
    ColOfPack(Mul3(t.x2, q), t.x2(q), q, q);
    ColOfPack(r, Mul3(t.x2, r), t.x2(r), r);
    ColOfPack(s, s, Mul3(t.x2, s), t.x2(s));
    Xor4WordsBytes(Te0(t, Byte0(a)), Te1(t, Byte1(b)), Te2(t, Byte2(c)), Te3(t, Byte3(d)));
    XorWordIsXor(Xor4Words(Te0(t, Byte0(a)), Te1(t, Byte1(b)), Te2(t, Byte2(c)), Te3(t, Byte3(d))), k);
  }

  lemma XorWordIsXor(u: Word, v: Word)
    ensures ColOf(XorWord(u, v)) == XorCol(ColOf(u), ColOf(v))
  {
    XorWordBytes(u, v);
  }

  lemma DecWordMixes(t: Tables, a: Word, b: Word, c: Word, d: Word, k: Word)
    ensures ColOf(DecWord(t, a, b, c, d, k))
         == XorCol(InvMixColumn(t.x2, Col(t.Si(Byte0(a)), t.Si(Byte1(b)), t.Si(Byte2(c)), t.Si(Byte3(d)))), ColOf(k))
  {
    hide Byte0, Byte1, Byte2, Byte3, Pack, XorByte, XorWord, MulE, MulB, MulD, Mul9;
    var p, q, r, s := t.Si(Byte0(a)), t.Si(Byte1(b)), t.Si(Byte2(c)), t.Si(Byte3(d));
    ColOfPack(MulE(t.x2, p), Mul9(t.x2, p), MulD(t.x2, p), MulB(t.x2, p));
    ColOfPack(MulB(t.x2, q), MulE(t.x2, q), Mul9(t.x2, q), MulD(t.x2, q));
    ColOfPack(MulD(t.x2, r), MulB(t.x2, r), MulE(t.x2, r), Mul9(t.x2, r));
    ColOfPack(Mul9(t.x2, s), MulD(t.x2, s), MulB(t.x2, s), MulE(t.x2, s));
    Xor4WordsBytes(Td0(t, Byte0(a)), Td1(t, Byte1(b)), Td2(t, Byte2(c)), Td3(t, Byte3(d)));
    XorWordIsXor(Xor4Words(Td0(t, Byte0(a)), Td1(t, Byte1(b)), Td2(t, Byte2(c)), Td3(t, Byte3(d))), k);
  }

  /** Four masked words select one byte each. */
  lemma MasksSelect(u: Word, v: Word, w: Word, z: Word, k: Word)
    ensures ColOf(XorWord(Xor4Words(Mask0(u), Mask1(v), Mask2(w), Mask3(z)), k))
         == XorCol(Col(Byte0(u), Byte1(v), Byte2(w), Byte3(z)), ColOf(k))
  {
    hide Byte0, Byte1, Byte2, Byte3, Pack, XorWord;
    ColOfPack(Byte0(u), 0, 0, 0);
    ColOfPack(0, Byte1(v), 0, 0);
    ColOfPack(0, 0, Byte2(w), 0);
    ColOfPack(0, 0, 0, Byte3(z));
    Xor4WordsBytes(Mask0(u), Mask1(v), Mask2(w), Mask3(z));
    XorWordIsXor(Xor4Words(Mask0(u), Mask1(v), Mask2(w), Mask3(z)), k);
  }

  lemma LastEncWordSelects(t: Tables, a: Word, b: Word, c: Word, d: Word, k: Word)
    ensures ColOf(LastEncWord(t, a, b, c, d, k))
         == XorCol(Col(t.S(Byte0(a)), t.S(Byte1(b)), t.S(Byte2(c)), t.S(Byte3(d))), ColOf(k))
  {
    hide Pack, XorWord, Mask0, Mask1, Mask2, Mask3;
    ColOfPack(t.S(Byte0(a)), t.S(Byte0(a)), t.S(Byte0(a)), t.S(Byte0(a)));
    ColOfPack(t.S(Byte1(b)), t.S(Byte1(b)), t.S(Byte1(b)), t.S(Byte1(b)));
    ColOfPack(t.S(Byte2(c)), t.S(Byte2(c)), t.S(Byte2(c)), t.S(Byte2(c)));
    ColOfPack(t.S(Byte3(d)), t.S(Byte3(d)), t.S(Byte3(d)), t.S(Byte3(d)));
    MasksSelect(Te4(t, Byte0(a)), Te4(t, Byte1(b)), Te4(t, Byte2(c)), Te4(t, Byte3(d)), k);
  }

  lemma LastDecWordSelects(t: Tables, a: Word, b: Word, c: Word, d: Word, k: Word)
    ensures ColOf(LastDecWord(t, a, b, c, d, k))
         == XorCol(Col(t.Si(Byte0(a)), t.Si(Byte1(b)), t.Si(Byte2(c)), t.Si(Byte3(d))), ColOf(k))
  {
    hide Pack, XorWord, Mask0, Mask1, Mask2, Mask3;
    ColOfPack(t.Si(Byte0(a)), t.Si(Byte0(a)), t.Si(Byte0(a)), t.Si(Byte0(a)));
    ColOfPack(t.Si(Byte1(b)), t.Si(Byte1(b)), t.Si(Byte1(b)), t.Si(Byte1(b)));
    ColOfPack(t.Si(Byte2(c)), t.Si(Byte2(c)), t.Si(Byte2(c)), t.Si(Byte2(c)));
    ColOfPack(t.Si(Byte3(d)), t.Si(Byte3(d)), t.Si(Byte3(d)), t.Si(Byte3(d)));
    MasksSelect(Td4(t, Byte0(a)), Td4(t, Byte1(b)), Td4(t, Byte2(c)), Td4(t, Byte3(d)), k);
  }

  // ----- one round on four words

  lemma EncRoundOnWords(t: Tables, s0: Word, s1: Word, s2: Word, s3: Word, k0: Word, k1: Word, k2: Word, k3: Word)
    ensures StateOf(EncWord(t, s0, s1, s2, s3, k0), EncWord(t, s1, s2, s3, s0, k1),
                    EncWord(t, s2, s3, s0, s1, k2), EncWord(t, s3, s0, s1, s2, k3))
         == CipherRound(t, StateOf(s0, s1, s2, s3), StateOf(k0, k1, k2, k3))
  {
    hide EncWord, XorCol, MixColumn, Byte0, Byte1, Byte2, Byte3;
    EncWordMixes(t, s0, s1, s2, s3, k0);
    EncWordMixes(t, s1, s2, s3, s0, k1);
    EncWordMixes(t, s2, s3, s0, s1, k2);
    EncWordMixes(t, s3, s0, s1, s2, k3);
  }

  lemma DecRoundOnWords(t: Tables, s0: Word, s1: Word, s2: Word, s3: Word, k0: Word, k1: Word, k2: Word, k3: Word)
    ensures StateOf(DecWord(t, s0, s3, s2, s1, k0), DecWord(t, s1, s0, s3, s2, k1),
                    DecWord(t, s2, s1, s0, s3, k2), DecWord(t, s3, s2, s1, s0, k3))
         == InvCipherRound(t, StateOf(s0, s1, s2, s3), StateOf(k0, k1, k2, k3))
  {
    hide DecWord, XorCol, InvMixColumn, Byte0, Byte1, Byte2, Byte3;
    DecWordMixes(t, s0, s3, s2, s1, k0);
    DecWordMixes(t, s1, s0, s3, s2, k1);
    DecWordMixes(t, s2, s1, s0, s3, k2);
    DecWordMixes(t, s3, s2, s1, s0, k3);
  }

  lemma LastEncRoundOnWords(t: Tables, s0: Word, s1: Word, s2: Word, s3: Word, k0: Word, k1: Word, k2: Word, k3: Word)
    ensures StateOf(LastEncWord(t, s0, s1, s2, s3, k0), LastEncWord(t, s1, s2, s3, s0, k1),
                    LastEncWord(t, s2, s3, s0, s1, k2), LastEncWord(t, s3, s0, s1, s2, k3))
         == AddRoundKey(Scramble(t, StateOf(s0, s1, s2, s3)), StateOf(k0, k1, k2, k3))
  {
    hide LastEncWord, XorCol, Byte0, Byte1, Byte2, Byte3;
    LastEncWordSelects(t, s0, s1, s2, s3, k0);
    LastEncWordSelects(t, s1, s2, s3, s0, k1);
    LastEncWordSelects(t, s2, s3, s0, s1, k2);
    LastEncWordSelects(t, s3, s0, s1, s2, k3);
  }

  lemma LastDecRoundOnWords(t: Tables, s0: Word, s1: Word, s2: Word, s3: Word, k0: Word, k1: Word, k2: Word, k3: Word)
    ensures StateOf(LastDecWord(t, s0, s3, s2, s1, k0), LastDecWord(t, s1, s0, s3, s2, k1),
                    LastDecWord(t, s2, s1, s0, s3, k2), LastDecWord(t, s3, s2, s1, s0, k3))
         == AddRoundKey(Unscramble(t, StateOf(s0, s1, s2, s3)), StateOf(k0, k1, k2, k3))
  {
    hide LastDecWord, XorCol, Byte0, Byte1, Byte2, Byte3;
    LastDecWordSelects(t, s0, s3, s2, s1, k0);
    LastDecWordSelects(t, s1, s0, s3, s2, k1);
    LastDecWordSelects(t, s2, s1, s0, s3, k2);
    LastDecWordSelects(t, s3, s2, s1, s0, k3);
  }

  // ----- blocks of bytes and key schedules

  type Block = b: seq<Byte> | |b| == 16 witness seq(16, _ => 0)

  function StateOfBlock(b: Block): State {
    State(Col(b[0], b[1], b[2], b[3]), Col(b[4], b[5], b[6], b[7]),
          Col(b[8], b[9], b[10], b[11]), Col(b[12], b[13], b[14], b[15]))
  }

  function BytesOfCol(c: Col): seq<Byte> { [c.b0, c.b1, c.b2, c.b3] }

  function BlockOfState(s: State): Block {
    BytesOfCol(s.c0) + BytesOfCol(s.c1) + BytesOfCol(s.c2) + BytesOfCol(s.c3)
  }

  lemma BlockOfStateOfBlock(b: Block)
    ensures BlockOfState(StateOfBlock(b)) == b
  {}

  lemma StateOfBlockOfState(s: State)
    ensures StateOfBlock(BlockOfState(s)) == s
  {}

  /** Round key number q of a schedule. */
  function KeyOf(rk: seq<Word>, q: nat): State
    requires 4 * q + 4 <= |rk|
  {
    StateOf(rk[4 * q], rk[4 * q + 1], rk[4 * q + 2], rk[4 * q + 3])
  }

  /** The round keys in the first 4 * (rounds + 1) words of a schedule. */
  function RoundKeys(rk: seq<Word>, rounds: nat): seq<State>
    requires 4 * rounds + 4 <= |rk|
  {
    seq(rounds + 1, q requires 0 <= q <= rounds => KeyOf(rk, q))
  }

  function EncryptBlock(t: Tables, rk: seq<Word>, rounds: nat, b: Block): Block
    requires rounds >= 1 && 4 * rounds + 4 <= |rk|
  {
    BlockOfState(Cipher(t, RoundKeys(rk, rounds), StateOfBlock(b)))
  }

  function DecryptBlock(t: Tables, rk: seq<Word>, rounds: nat, b: Block): Block
    requires rounds >= 1 && 4 * rounds + 4 <= |rk|
  {
    BlockOfState(EqInvCipher(t, RoundKeys(rk, rounds), StateOfBlock(b)))
  }

  /** GETU32 */
  method GetWord(a: array<Byte>, off: nat) returns (w: Word)
    requires off + 4 <= a.Length
    ensures ColOf(w) == Col(a[off], a[off + 1], a[off + 2], a[off + 3])
  {
    w := Pack(a[off], a[off + 1], a[off + 2], a[off + 3]);
    ColOfPack(a[off], a[off + 1], a[off + 2], a[off + 3]);
  }

  /** PUTU32 */
  method PutWord(a: array<Byte>, off: nat, w: Word)
    requires off + 4 <= a.Length
    modifies a
    ensures Col(a[off], a[off + 1], a[off + 2], a[off + 3]) == ColOf(w)
    ensures forall j | 0 <= j < a.Length && !(off <= j < off + 4) :: a[j] == old(a[j])
  {
    a[off], a[off + 1], a[off + 2], a[off + 3] := Byte0(w), Byte1(w), Byte2(w), Byte3(w);
  }
}
