/**
 AES_encrypt, AES_decrypt and the schedule rewriting of AES_set_decrypt_key,
 working on byte and word arrays in place.
 */
module AesBlock {
  import opened Bits
  import opened AesField
  import opened AesCipher
  import opened AesTables

  lemma KeyAt(rk: seq<Word>, rounds: nat, i: nat)
    requires 4 * rounds + 4 <= |rk| && i <= rounds
    ensures |RoundKeys(rk, rounds)| == rounds + 1
    ensures RoundKeys(rk, rounds)[i] == StateOf(rk[4 * i], rk[4 * i + 1], rk[4 * i + 2], rk[4 * i + 3])
  {}

  /** All rounds after the first key, two at a time. */
  method EncryptWords(t: Tables, w0: Word, w1: Word, w2: Word, w3: Word, rk: array<Word>, rounds: nat, ghost s: State)
    returns (s0: Word, s1: Word, s2: Word, s3: Word)
    requires rounds >= 2 && rounds % 2 == 0 && 4 * rounds + 4 <= rk.Length
    requires StateOf(w0, w1, w2, w3) == AddRoundKey(s, RoundKeys(rk[..], rounds)[0])
    ensures StateOf(s0, s1, s2, s3) == Cipher(t, RoundKeys(rk[..], rounds), s)
  {
    hide CipherRound, AddRoundKey, Scramble, StateOf, EncWord, LastEncWord, RoundKeys;
    ghost var keys := RoundKeys(rk[..], rounds);
    KeyAt(rk[..], rounds, 0);
    s0, s1, s2, s3 := w0, w1, w2, w3;
    var t0, t1, t2, t3: Word := 0, 0, 0, 0;
    var p := 0;
    var r := rounds / 2;
    while true
      invariant 1 <= r && p + 8 * r == 4 * rounds && p % 8 == 0
      invariant StateOf(s0, s1, s2, s3) == CipherRounds(t, keys, s, p / 4)
      decreases r
    {
      EncRoundOnWords(t, s0, s1, s2, s3, rk[p + 4], rk[p + 5], rk[p + 6], rk[p + 7]);
      t0, t1, t2, t3 := EncWord(t, s0, s1, s2, s3, rk[p + 4]),
                        EncWord(t, s1, s2, s3, s0, rk[p + 5]),
                        EncWord(t, s2, s3, s0, s1, rk[p + 6]),
                        EncWord(t, s3, s0, s1, s2, rk[p + 7]);
      KeyAt(rk[..], rounds, p / 4 + 1);
      assert StateOf(t0, t1, t2, t3) == CipherRounds(t, keys, s, p / 4 + 1);
      p, r := p + 8, r - 1;
      if r == 0 { break; }
      EncRoundOnWords(t, t0, t1, t2, t3, rk[p], rk[p + 1], rk[p + 2], rk[p + 3]);
      s0, s1, s2, s3 := EncWord(t, t0, t1, t2, t3, rk[p]),
                        EncWord(t, t1, t2, t3, t0, rk[p + 1]),
                        EncWord(t, t2, t3, t0, t1, rk[p + 2]),
                        EncWord(t, t3, t0, t1, t2, rk[p + 3]);
      KeyAt(rk[..], rounds, p / 4);
    }
    LastEncRoundOnWords(t, t0, t1, t2, t3, rk[p], rk[p + 1], rk[p + 2], rk[p + 3]);
    KeyAt(rk[..], rounds, rounds);
    s0, s1, s2, s3 := LastEncWord(t, t0, t1, t2, t3, rk[p]),
                        LastEncWord(t, t1, t2, t3, t0, rk[p + 1]),
                        LastEncWord(t, t2, t3, t0, t1, rk[p + 2]),
                        LastEncWord(t, t3, t0, t1, t2, rk[p + 3]);
  }

  /** All inverse rounds after the first key, two at a time. */
  method DecryptWords(t: Tables, w0: Word, w1: Word, w2: Word, w3: Word, rk: array<Word>, rounds: nat, ghost s: State)
    returns (s0: Word, s1: Word, s2: Word, s3: Word)
    requires rounds >= 2 && rounds % 2 == 0 && 4 * rounds + 4 <= rk.Length
    requires StateOf(w0, w1, w2, w3) == AddRoundKey(s, RoundKeys(rk[..], rounds)[0])
    ensures StateOf(s0, s1, s2, s3) == EqInvCipher(t, RoundKeys(rk[..], rounds), s)
  {
    hide InvCipherRound, AddRoundKey, Unscramble, StateOf, DecWord, LastDecWord, RoundKeys;
    ghost var keys := RoundKeys(rk[..], rounds);
    KeyAt(rk[..], rounds, 0);
    s0, s1, s2, s3 := w0, w1, w2, w3;
    var t0, t1, t2, t3: Word := 0, 0, 0, 0;
    var p := 0;
    var r := rounds / 2;
    while true
      invariant 1 <= r && p + 8 * r == 4 * rounds && p % 8 == 0
      invariant StateOf(s0, s1, s2, s3) == EqInvCipherRounds(t, keys, s, p / 4)
      decreases r
    {
      DecRoundOnWords(t, s0, s1, s2, s3, rk[p + 4], rk[p + 5], rk[p + 6], rk[p + 7]);
      t0, t1, t2, t3 := DecWord(t, s0, s3, s2, s1, rk[p + 4]),
                        DecWord(t, s1, s0, s3, s2, rk[p + 5]),
                        DecWord(t, s2, s1, s0, s3, rk[p + 6]),
                        DecWord(t, s3, s2, s1, s0, rk[p + 7]);
      KeyAt(rk[..], rounds, p / 4 + 1);
      assert StateOf(t0, t1, t2, t3) == EqInvCipherRounds(t, keys, s, p / 4 + 1);
      p, r := p + 8, r - 1;
      if r == 0 { break; }
      DecRoundOnWords(t, t0, t1, t2, t3, rk[p], rk[p + 1], rk[p + 2], rk[p + 3]);
      s0, s1, s2, s3 := DecWord(t, t0, t3, t2, t1, rk[p]),
                        DecWord(t, t1, t0, t3, t2, rk[p + 1]),
                        DecWord(t, t2, t1, t0, t3, rk[p + 2]),
                        DecWord(t, t3, t2, t1, t0, rk[p + 3]);
      KeyAt(rk[..], rounds, p / 4);
    }
    LastDecRoundOnWords(t, t0, t1, t2, t3, rk[p], rk[p + 1], rk[p + 2], rk[p + 3]);
    KeyAt(rk[..], rounds, rounds);
    s0, s1, s2, s3 := LastDecWord(t, t0, t3, t2, t1, rk[p]),
                        LastDecWord(t, t1, t0, t3, t2, rk[p + 1]),
                        LastDecWord(t, t2, t1, t0, t3, rk[p + 2]),
                        LastDecWord(t, t3, t2, t1, t0, rk[p + 3]);
  }

  /** Maps a block to the state words and adds the first round key. */
  method LoadState(inp: array<Byte>, i: nat, rk: array<Word>) returns (s0: Word, s1: Word, s2: Word, s3: Word)
    requires i + 16 <= inp.Length && 4 <= rk.Length
    ensures StateOf(s0, s1, s2, s3)
         == AddRoundKey(StateOfBlock(inp[i..i + 16]), StateOf(rk[0], rk[1], rk[2], rk[3]))
  {
    hide ColOf, XorWord, XorCol;
    s0 := GetWord(inp, i);
    s1 := GetWord(inp, i + 4);
    s2 := GetWord(inp, i + 8);
    s3 := GetWord(inp, i + 12);
    XorWordIsXor(s0, rk[0]);
    XorWordIsXor(s1, rk[1]);
    XorWordIsXor(s2, rk[2]);
    XorWordIsXor(s3, rk[3]);
    s0, s1, s2, s3 := XorWord(s0, rk[0]), XorWord(s1, rk[1]), XorWord(s2, rk[2]), XorWord(s3, rk[3]);
  }

  /** Maps the state words to a block. */
  method StoreState(out: array<Byte>, o: nat, s0: Word, s1: Word, s2: Word, s3: Word)
    requires o + 16 <= out.Length
    modifies out
    ensures out[o..o + 16] == BlockOfState(StateOf(s0, s1, s2, s3))
    ensures forall j | 0 <= j < out.Length && !(o <= j < o + 16) :: out[j] == old(out[j])
  {
    hide ColOf;
    PutWord(out, o, s0);
    PutWord(out, o + 4, s1);
    PutWord(out, o + 8, s2);
    PutWord(out, o + 12, s3);
  }

  /** Encrypts the block of `inp` at `i` into `out` at `o`; the two may be the same memory. */
  method Encrypt(t: Tables, inp: array<Byte>, i: nat, out: array<Byte>, o: nat, rk: array<Word>, rounds: nat)
    requires i + 16 <= inp.Length && o + 16 <= out.Length
    requires rounds >= 2 && rounds % 2 == 0 && 4 * rounds + 4 <= rk.Length
    modifies out
    ensures out[o..o + 16] == EncryptBlock(t, rk[..], rounds, old(inp[i..i + 16]))
    ensures forall j | 0 <= j < out.Length && !(o <= j < o + 16) :: out[j] == old(out[j])
  {
    hide Cipher, EqInvCipher, AddRoundKey;
    ghost var blk: Block := inp[i..i + 16];
    var s0, s1, s2, s3 := LoadState(inp, i, rk);
    s0, s1, s2, s3 := EncryptWords(t, s0, s1, s2, s3, rk, rounds, StateOfBlock(blk));
    StoreState(out, o, s0, s1, s2, s3);
  }

  /** Decrypts the block of `inp` at `i` into `out` at `o`; the two may be the same memory. */
  method Decrypt(t: Tables, inp: array<Byte>, i: nat, out: array<Byte>, o: nat, rk: array<Word>, rounds: nat)
    requires i + 16 <= inp.Length && o + 16 <= out.Length
    requires rounds >= 2 && rounds % 2 == 0 && 4 * rounds + 4 <= rk.Length
    modifies out
    ensures out[o..o + 16] == DecryptBlock(t, rk[..], rounds, old(inp[i..i + 16]))
    ensures forall j | 0 <= j < out.Length && !(o <= j < o + 16) :: out[j] == old(out[j])
  {
    hide Cipher, EqInvCipher, AddRoundKey;
    ghost var blk: Block := inp[i..i + 16];
    var s0, s1, s2, s3 := LoadState(inp, i, rk);
    s0, s1, s2, s3 := DecryptWords(t, s0, s1, s2, s3, rk, rounds, StateOfBlock(blk));
    StoreState(out, o, s0, s1, s2, s3);
  }
  // ----- the decryption schedule

  /** Td0[Te4[(w >> 24)] & 0xff] ^ ... : the inverse column transform by table lookup. */
  function InvMixWord(t: Tables, w: Word): Word {
    Xor4Words(Td0(t, Byte3(Te4(t, Byte0(w)))), Td1(t, Byte3(Te4(t, Byte1(w)))),
              Td2(t, Byte3(Te4(t, Byte2(w)))), Td3(t, Byte3(Te4(t, Byte3(w)))))
  }

  lemma InvMixWordMixes(t: Tables, w: Word)
    requires ValidTables(t)
    ensures ColOf(InvMixWord(t, w)) == InvMixColumn(t.x2, ColOf(w))
  {
    hide Pack, XorByte, XorWord, MulE, MulB, MulD, Mul9;
    var p, q, r, s := Byte0(w), Byte1(w), Byte2(w), Byte3(w);
    ColOfPack(t.S(p), t.S(p), t.S(p), t.S(p));
    ColOfPack(t.S(q), t.S(q), t.S(q), t.S(q));
    ColOfPack(t.S(r), t.S(r), t.S(r), t.S(r));
    ColOfPack(t.S(s), t.S(s), t.S(s), t.S(s));
    ColOfPack(MulE(t.x2, p), Mul9(t.x2, p), MulD(t.x2, p), MulB(t.x2, p));
    ColOfPack(MulB(t.x2, q), MulE(t.x2, q), Mul9(t.x2, q), MulD(t.x2, q));
    ColOfPack(MulD(t.x2, r), MulB(t.x2, r), MulE(t.x2, r), Mul9(t.x2, r));
    ColOfPack(Mul9(t.x2, s), MulD(t.x2, s), MulB(t.x2, s), MulE(t.x2, s));
    Xor4WordsBytes(Td0(t, t.S(p)), Td1(t, t.S(q)), Td2(t, t.S(r)), Td3(t, t.S(s)));
  }

  /** Round key p of one schedule and round key q of another hold the same words. */
  ghost predicate SameKey(a: seq<Word>, p: nat, b: seq<Word>, q: nat)
    requires 4 * p + 4 <= |a| && 4 * q + 4 <= |b|
  {
    a[4 * p] == b[4 * q] && a[4 * p + 1] == b[4 * q + 1] && a[4 * p + 2] == b[4 * q + 2] && a[4 * p + 3] == b[4 * q + 3]
  }

  /** Round key q of `a` is the round key of `b` that lies as far from the end as q from the start. */
  ghost predicate Mirrored(a: seq<Word>, b: seq<Word>, rounds: nat, q: nat)
    requires q <= rounds && 4 * rounds + 4 <= |a| && 4 * rounds + 4 <= |b|
  {
    SameKey(a, q, b, rounds - q)
  }

  /** Exchanges two round keys, word by word. */
  method SwapKeys(rk: array<Word>, i: nat, j: nat)
    requires 4 * i + 4 <= rk.Length && 4 * j + 4 <= rk.Length && i != j
    modifies rk
    ensures SameKey(rk[..], i, old(rk[..]), j) && SameKey(rk[..], j, old(rk[..]), i)
    ensures forall m | 0 <= m < rk.Length && m / 4 != i && m / 4 != j :: rk[m] == old(rk[m])
  {
    rk[4 * i], rk[4 * j] := rk[4 * j], rk[4 * i];
    rk[4 * i + 1], rk[4 * j + 1] := rk[4 * j + 1], rk[4 * i + 1];
    rk[4 * i + 2], rk[4 * j + 2] := rk[4 * j + 2], rk[4 * i + 2];
    rk[4 * i + 3], rk[4 * j + 3] := rk[4 * j + 3], rk[4 * i + 3];
  }

  lemma UntouchedKey(a: seq<Word>, b: seq<Word>, q: nat)
    requires |a| == |b| && 4 * q + 4 <= |a|
    requires forall m | 4 * q <= m < 4 * q + 4 :: a[m] == b[m]
    ensures SameKey(a, q, b, q)
  {}

  /** The loop that reverses the order of the round keys in place. */
  method ReverseKeys(rk: array<Word>, rounds: nat)
    requires 4 * rounds + 4 <= rk.Length
    modifies rk
    ensures forall q | 0 <= q <= rounds :: Mirrored(rk[..], old(rk[..]), rounds, q)
    ensures forall m | 4 * rounds + 4 <= m < rk.Length :: rk[m] == old(rk[m])
  {
    hide SameKey;
    ghost var was := rk[..];
    var i, j := 0, rounds;
    forall q | 0 <= q <= rounds ensures SameKey(rk[..], q, was, q) { UntouchedKey(rk[..], was, q); }
    while i < j
      invariant i + j == rounds && 0 <= i <= j + 1
      invariant forall q | 0 <= q < i || j < q <= rounds :: Mirrored(rk[..], was, rounds, q)
      invariant forall q | i <= q <= j :: SameKey(rk[..], q, was, q)
      invariant forall m | 4 * rounds + 4 <= m < rk.Length :: rk[m] == was[m]
    {
      ghost var before := rk[..];
      SwapKeys(rk, i, j);
      forall q | 0 <= q <= rounds && q != i && q != j ensures SameKey(rk[..], q, before, q) {
        UntouchedKey(rk[..], before, q);
      }
      KeysChain(rk[..], before, was, rounds, i, j);
      i, j := i + 1, j - 1;
    }
  }

  lemma SameKeyTransitive(a: seq<Word>, p: nat, b: seq<Word>, q: nat, c: seq<Word>, r: nat)
    requires 4 * p + 4 <= |a| && 4 * q + 4 <= |b| && 4 * r + 4 <= |c|
    requires SameKey(a, p, b, q) && SameKey(b, q, c, r)
    ensures SameKey(a, p, c, r)
  {}

  lemma KeysChain(now: seq<Word>, before: seq<Word>, was: seq<Word>, rounds: nat, i: nat, j: nat)
    requires |now| == |before| == |was| && 4 * rounds + 4 <= |was|
    requires i < j && i + j == rounds
    requires forall q | 0 <= q < i || j < q <= rounds :: Mirrored(before, was, rounds, q)
    requires forall q | i <= q <= j :: SameKey(before, q, was, q)
    requires forall q | 0 <= q <= rounds && q != i && q != j :: SameKey(now, q, before, q)
    requires SameKey(now, i, before, j) && SameKey(now, j, before, i)
    ensures forall q | 0 <= q <= i || j <= q <= rounds :: Mirrored(now, was, rounds, q)
    ensures forall q | i < q < j :: SameKey(now, q, was, q)
  {
    hide SameKey;
    SameKeyTransitive(now, i, before, j, was, j);
    SameKeyTransitive(now, j, before, i, was, i);
    forall q | 0 <= q < i || j < q <= rounds ensures Mirrored(now, was, rounds, q) {
      assert Mirrored(before, was, rounds, q);
      SameKeyTransitive(now, q, before, q, was, rounds - q);
    }
    forall q | i < q < j ensures SameKey(now, q, was, q) {
      SameKeyTransitive(now, q, before, q, was, q);
    }
  }

  /** Transforms one round key in place. */
  method TransformKey(t: Tables, rk: array<Word>, q: nat)
    requires ValidTables(t)
    requires 4 * q + 4 <= rk.Length
    modifies rk
    ensures KeyOf(rk[..], q) == InvMixColumns(t.x2, KeyOf(old(rk[..]), q))
    ensures forall m | 0 <= m < rk.Length && !(4 * q <= m < 4 * q + 4) :: rk[m] == old(rk[m])
  {
    hide InvMixWord, InvMixColumn, ColOf;
    var p := 4 * q;
    InvMixWordMixes(t, rk[p]);
    InvMixWordMixes(t, rk[p + 1]);
    InvMixWordMixes(t, rk[p + 2]);
    InvMixWordMixes(t, rk[p + 3]);
    rk[p] := InvMixWord(t, rk[p]);
    rk[p + 1] := InvMixWord(t, rk[p + 1]);
    rk[p + 2] := InvMixWord(t, rk[p + 2]);
    rk[p + 3] := InvMixWord(t, rk[p + 3]);
  }

  lemma KeyUnchanged(a: seq<Word>, b: seq<Word>, q: nat)
    requires |a| == |b| && 4 * q + 4 <= |a|
    requires forall m | 4 * q <= m < 4 * q + 4 :: a[m] == b[m]
    ensures KeyOf(a, q) == KeyOf(b, q)
  {}

  /** AES_set_decrypt_key, applied to an encryption schedule: the schedule of the equivalent inverse cipher. */
  method SetDecryptKey(t: Tables, rk: array<Word>, rounds: nat)
    requires ValidTables(t)
    requires 4 * rounds + 4 <= rk.Length
    modifies rk
    ensures RoundKeys(rk[..], rounds) == DecryptionKeys(t, RoundKeys(old(rk[..]), rounds))
    ensures forall m | 4 * rounds + 4 <= m < rk.Length :: rk[m] == old(rk[m])
  {
    hide InvMixColumns, StateOf;
    ghost var was := rk[..];
    ReverseKeys(rk, rounds);
    ghost var mid := rk[..];
    forall q | 0 <= q <= rounds ensures KeyOf(mid, q) == KeyOf(was, rounds - q) {
      assert Mirrored(mid, was, rounds, q);
    }
    hide KeyOf;
    var i := 1;
    while i < rounds
      invariant 1 <= i
      invariant forall q | 0 < q < i && q < rounds :: KeyOf(rk[..], q) == InvMixColumns(t.x2, KeyOf(mid, q))
      invariant forall q | q == 0 || i <= q <= rounds :: KeyOf(rk[..], q) == KeyOf(mid, q)
      invariant rounds > 0 ==> KeyOf(rk[..], rounds) == KeyOf(mid, rounds)
      invariant forall m | 4 * rounds + 4 <= m < rk.Length :: rk[m] == was[m]
    {
      ghost var before := rk[..];
      TransformKey(t, rk, i);
      forall q | 0 <= q <= rounds && q != i ensures KeyOf(rk[..], q) == KeyOf(before, q) {
        KeyUnchanged(rk[..], before, q);
      }
      i := i + 1;
    }
  }

  /**
   For every schedule, every block and every number of rounds: decrypting with
   a schedule that SetDecryptKey leaves undoes encrypting with the original one.
   */
  lemma DecryptUndoesEncrypt(t: Tables, rk: seq<Word>, dk: seq<Word>, rounds: nat, b: Block)
    requires ValidTables(t)
    requires rounds >= 1 && 4 * rounds + 4 <= |rk| && 4 * rounds + 4 <= |dk|
    requires RoundKeys(dk, rounds) == DecryptionKeys(t, RoundKeys(rk, rounds))
    ensures DecryptBlock(t, dk, rounds, EncryptBlock(t, rk, rounds, b)) == b
  {
    hide Cipher, EqInvCipher, StateOfBlock, BlockOfState;
    StateOfBlockOfState(Cipher(t, RoundKeys(rk, rounds), StateOfBlock(b)));
    InverseCipherUndoesCipher(t, RoundKeys(rk, rounds), StateOfBlock(b));
    BlockOfStateOfBlock(b);
  }
}
