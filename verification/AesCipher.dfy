/**
 The AES block cipher: the transformations of FIPS 197 on a state of four
 columns, the equivalent inverse cipher of its section 5.3.5, and the proof
 that the inverse cipher under the transformed key schedule undoes the cipher,
 for every key schedule and every number of rounds.
 */
module AesCipher {
  import opened Bits
  import opened AesField

  /** The substitution box, its inverse, and doubling in the field. */
  datatype Tables = Tables(S: Byte -> Byte, Si: Byte -> Byte, x2: Doubling)

  /** All that the cipher needs of its tables. */
  ghost predicate ValidTables(t: Tables) {
    && Linear(t.x2)
    && forall x: Byte :: t.Si(t.S(x)) == x
  }

  datatype State = State(c0: Col, c1: Col, c2: Col, c3: Col)

  function MapCol(f: Byte -> Byte, c: Col): Col {
    Col(f(c.b0), f(c.b1), f(c.b2), f(c.b3))
  }

  function SubBytes(f: Byte -> Byte, s: State): State {
    State(MapCol(f, s.c0), MapCol(f, s.c1), MapCol(f, s.c2), MapCol(f, s.c3))
  }

  /** Row r moves r columns to the left. */
  function ShiftRows(s: State): State {
    State(Col(s.c0.b0, s.c1.b1, s.c2.b2, s.c3.b3),
          Col(s.c1.b0, s.c2.b1, s.c3.b2, s.c0.b3),
          Col(s.c2.b0, s.c3.b1, s.c0.b2, s.c1.b3),
          Col(s.c3.b0, s.c0.b1, s.c1.b2, s.c2.b3))
  }

  /** Row r moves r columns to the right. */
  function InvShiftRows(s: State): State {
    State(Col(s.c0.b0, s.c3.b1, s.c2.b2, s.c1.b3),
          Col(s.c1.b0, s.c0.b1, s.c3.b2, s.c2.b3),
          Col(s.c2.b0, s.c1.b1, s.c0.b2, s.c3.b3),
          Col(s.c3.b0, s.c2.b1, s.c1.b2, s.c0.b3))
  }

  function MixColumns(x2: Doubling, s: State): State {
    State(MixColumn(x2, s.c0), MixColumn(x2, s.c1), MixColumn(x2, s.c2), MixColumn(x2, s.c3))
  }

  function InvMixColumns(x2: Doubling, s: State): State {
    State(InvMixColumn(x2, s.c0), InvMixColumn(x2, s.c1), InvMixColumn(x2, s.c2), InvMixColumn(x2, s.c3))
  }

  function AddRoundKey(s: State, k: State): State {
    State(XorCol(s.c0, k.c0), XorCol(s.c1, k.c1), XorCol(s.c2, k.c2), XorCol(s.c3, k.c3))
  }

  /** The byte substitution followed by the row shift. */
  function Scramble(t: Tables, s: State): State {
    ShiftRows(SubBytes(t.S, s))
  }

  function Unscramble(t: Tables, s: State): State {
    InvShiftRows(SubBytes(t.Si, s))
  }

  function CipherRound(t: Tables, s: State, k: State): State {
    AddRoundKey(MixColumns(t.x2, Scramble(t, s)), k)
  }

  function InvCipherRound(t: Tables, s: State, k: State): State {
    AddRoundKey(InvMixColumns(t.x2, Unscramble(t, s)), k)
  }

  /** The state after the initial key and n full rounds of the cipher. */
  function CipherRounds(t: Tables, keys: seq<State>, s: State, n: nat): State
    requires n < |keys|
  {
    if n == 0 then AddRoundKey(s, keys[0])
    else CipherRound(t, CipherRounds(t, keys, s, n - 1), keys[n])
  }

  /** The cipher of section 5.1 of FIPS 197, with |keys| - 1 rounds. */
  function Cipher(t: Tables, keys: seq<State>, s: State): State
    requires |keys| >= 2
  {
    AddRoundKey(Scramble(t, CipherRounds(t, keys, s, |keys| - 2)), keys[|keys| - 1])
  }

  function EqInvCipherRounds(t: Tables, keys: seq<State>, s: State, n: nat): State
    requires n < |keys|
  {
    if n == 0 then AddRoundKey(s, keys[0])
    else InvCipherRound(t, EqInvCipherRounds(t, keys, s, n - 1), keys[n])
  }

  /** The equivalent inverse cipher of section 5.3.5 of FIPS 197. */
  function EqInvCipher(t: Tables, keys: seq<State>, s: State): State
    requires |keys| >= 2
  {
    AddRoundKey(Unscramble(t, EqInvCipherRounds(t, keys, s, |keys| - 2)), keys[|keys| - 1])
  }

  /** The schedule of the equivalent inverse cipher: reversed, with all inner keys transformed. */
  function DecryptionKeys(t: Tables, keys: seq<State>): seq<State> {
    seq(|keys|, i requires 0 <= i < |keys| =>
      var k := keys[|keys| - 1 - i];
      if 0 < i < |keys| - 1 then InvMixColumns(t.x2, k) else k)
  }

  function Column(s: State, c: nat): Col
    requires c < 4
  {
    if c == 0 then s.c0 else if c == 1 then s.c1 else if c == 2 then s.c2 else s.c3
  }

  /** Every byte after a row shift, as sections 5.1.2 and 5.3.1 of FIPS 197 index it. */
  lemma ShiftedAt(s: State, r: nat, c: nat)
    requires r < 4 && c < 4
    ensures At(Column(ShiftRows(s), c), r) == At(Column(s, (c + r) % 4), r)
    ensures At(Column(InvShiftRows(s), (c + r) % 4), r) == At(Column(s, c), r)
  {}

  lemma XorColCancels(c: Col, k: Col)
    ensures XorCol(XorCol(c, k), k) == c
  {
    XorCancels(c.b0, k.b0);
    XorCancels(c.b1, k.b1);
    XorCancels(c.b2, k.b2);
    XorCancels(c.b3, k.b3);
  }

  lemma AddRoundKeyTwice(s: State, k: State)
    ensures AddRoundKey(AddRoundKey(s, k), k) == s
  {
    XorColCancels(s.c0, k.c0);
    XorColCancels(s.c1, k.c1);
    XorColCancels(s.c2, k.c2);
    XorColCancels(s.c3, k.c3);
  }

  lemma SubstitutionUndone(t: Tables, s: State)
    requires ValidTables(t)
    ensures Unscramble(t, Scramble(t, s)) == s
  {}

  lemma MixUndone(t: Tables, s: State, k: State)
    requires ValidTables(t)
    ensures AddRoundKey(InvMixColumns(t.x2, AddRoundKey(MixColumns(t.x2, s), k)), InvMixColumns(t.x2, k)) == s
  {
    var m := MixColumns(t.x2, s);
    InvMixColumnAdds(t.x2, m.c0, k.c0);
    InvMixColumnAdds(t.x2, m.c1, k.c1);
    InvMixColumnAdds(t.x2, m.c2, k.c2);
    InvMixColumnAdds(t.x2, m.c3, k.c3);
    InvMixColumnUndoesMixColumn(t.x2, s.c0);
    InvMixColumnUndoesMixColumn(t.x2, s.c1);
    InvMixColumnUndoesMixColumn(t.x2, s.c2);
    InvMixColumnUndoesMixColumn(t.x2, s.c3);
    assert InvMixColumns(t.x2, AddRoundKey(m, k)) == AddRoundKey(s, InvMixColumns(t.x2, k));
    AddRoundKeyTwice(s, InvMixColumns(t.x2, k));
  }

  /** An inverse round turns the scrambled result of a round into its scrambled argument. */
  lemma RoundRetraced(t: Tables, s: State, k: State)
    requires ValidTables(t)
    ensures InvCipherRound(t, Scramble(t, CipherRound(t, s, k)), InvMixColumns(t.x2, k)) == Scramble(t, s)
  {
    SubstitutionUndone(t, CipherRound(t, s, k));
    MixUndone(t, Scramble(t, s), k);
  }

  /**
   After n inverse rounds the inverse cipher holds what the cipher held, after
   substitution and row shift, n rounds before its end.
   */
  lemma {:induction false} InverseRoundsRetrace(t: Tables, keys: seq<State>, s: State, n: nat)
    requires ValidTables(t)
    requires n + 2 <= |keys|
    ensures EqInvCipherRounds(t, DecryptionKeys(t, keys), Cipher(t, keys, s), n)
         == Scramble(t, CipherRounds(t, keys, s, |keys| - 2 - n))
  {
    hide AddRoundKey, InvMixColumns, Scramble, CipherRound, InvCipherRound;
    var last := |keys| - 1;
    if n == 0 {
      AddRoundKeyTwice(Scramble(t, CipherRounds(t, keys, s, last - 1)), keys[last]);
    } else {
      InverseRoundsRetrace(t, keys, s, n - 1);
      RoundRetraced(t, CipherRounds(t, keys, s, last - n - 1), keys[last - n]);
    }
  }

  /** Decryption under the transformed schedule undoes encryption. */
  lemma InverseCipherUndoesCipher(t: Tables, keys: seq<State>, s: State)
    requires ValidTables(t)
    requires |keys| >= 2
    ensures EqInvCipher(t, DecryptionKeys(t, keys), Cipher(t, keys, s)) == s
  {
    hide AddRoundKey, InvMixColumns, Scramble, Unscramble, CipherRound, InvCipherRound;
    InverseRoundsRetrace(t, keys, s, |keys| - 2);
    SubstitutionUndone(t, CipherRounds(t, keys, s, 0));
    AddRoundKeyTwice(s, keys[0]);
  }
}
