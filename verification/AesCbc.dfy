/**
 Cipher block chaining (section 6.2 of NIST SP 800-38A) as AES_cbc_encrypt runs
 it: on any length, with a short last block padded by the chaining vector, and
 with input and output allowed to be the same memory.

 The chaining functions and their laws hold for any pair of block functions;
 the method at the end runs them with AES.
 */
module AesCbc {
  import opened Bits
  import opened AesCipher
  import opened AesTables
  import AesBlock

  type BlockFn = Block -> Block

  /** `d` undoes `e`. */
  ghost predicate Undoes(d: BlockFn, e: BlockFn) {
    forall b: Block :: d(e(b)) == b
  }

  function XorSeq(a: seq<Byte>, b: seq<Byte>): (r: seq<Byte>)
    requires |a| <= |b|
    ensures |r| == |a|
  {
    seq(|a|, i requires 0 <= i < |a| => XorByte(a[i], b[i]))
  }

  /** Output bytes and the chaining vector left behind. */
  datatype Chained = Chained(bytes: seq<Byte>, ivec: Block)

  function Encrypted(e: BlockFn, iv: Block, p: seq<Byte>): (r: Chained)
    ensures |r.bytes| % 16 == 0 && |p| <= |r.bytes| < |p| + 16
    decreases |p|
  {
    if |p| >= 16 then
      var c := e(XorSeq(p[..16], iv));
      var rest := Encrypted(e, c, p[16..]);
      Chained(c + rest.bytes, rest.ivec)
    else if |p| > 0 then
      var c := e(XorSeq(p, iv) + iv[|p|..]);
      Chained(c, c)
    else Chained([], iv)
  }

  /** Decrypts the first `len` bytes; like the C code it reads whole blocks of `c`. */
  function Decrypted(d: BlockFn, iv: Block, c: seq<Byte>, len: nat): (r: Chained)
    requires len <= |c| && |c| % 16 == 0
    ensures |r.bytes| == len
    decreases len
  {
    if len >= 16 then
      var rest := Decrypted(d, c[..16], c[16..], len - 16);
      Chained(XorSeq(d(c[..16]), iv) + rest.bytes, rest.ivec)
    else if len > 0 then
      var tmp := d(c[..16]);
      Chained(XorSeq(tmp[..len], iv), tmp)
    else Chained([], iv)
  }

  lemma XorSeqTwice(a: seq<Byte>, b: seq<Byte>)
    requires |a| <= |b|
    ensures XorSeq(XorSeq(a, b), b) == a
  {
    forall i | 0 <= i < |a| ensures XorSeq(XorSeq(a, b), b)[i] == a[i] {
      XorCancels(a[i], b[i]);
    }
  }

  /** Decryption undoes encryption, for every length. */
  lemma {:induction false} DecryptionUndoesEncryption(e: BlockFn, d: BlockFn, iv: Block, p: seq<Byte>)
    requires Undoes(d, e)
    ensures Decrypted(d, iv, Encrypted(e, iv, p).bytes, |p|).bytes == p
    decreases |p|
  {
    hide XorSeq;
    var c := Encrypted(e, iv, p).bytes;
    if |p| >= 16 {
      var x := XorSeq(p[..16], iv);
      assert d(e(x)) == x;
      XorSeqTwice(p[..16], iv);
      DecryptionUndoesEncryption(e, d, e(x), p[16..]);
      assert c[..16] == e(x) && c[16..] == Encrypted(e, e(x), p[16..]).bytes;
      assert p == p[..16] + p[16..];
    } else if |p| > 0 {
      var x := XorSeq(p, iv) + iv[|p|..];
      assert d(e(x)) == x;
      XorSeqTwice(p, iv);
      assert c[..16] == e(x) && x[..|p|] == XorSeq(p, iv);
    }
  }

  /**
   Both directions leave the same chaining vector behind exactly when there is
   no partial block, or the last block is a fixed point of decryption: after a
   partial block the decrypting side keeps the decrypted block.
   */
  lemma {:induction false} SameVectorLeftBehind(e: BlockFn, d: BlockFn, iv: Block, p: seq<Byte>)
    requires Undoes(d, e)
    ensures var last := Encrypted(e, iv, p).ivec;
            Decrypted(d, iv, Encrypted(e, iv, p).bytes, |p|).ivec == last <==> |p| % 16 == 0 || d(last) == last
    decreases |p|
  {
    hide XorSeq, Encrypted, Decrypted;
    var c := Encrypted(e, iv, p).bytes;
    if |p| >= 16 {
      var x := e(XorSeq(p[..16], iv));
      FirstBlockEncrypted(e, iv, p);
      FirstBlockDecrypted(d, iv, c, |p|);
      SameVectorLeftBehind(e, d, x, p[16..]);
      assert c[..16] == x && c[16..] == Encrypted(e, x, p[16..]).bytes;
    } else {
      ShortPieceVectors(e, d, iv, p);
    }
  }

  lemma FirstBlockDecrypted(d: BlockFn, iv: Block, c: seq<Byte>, len: nat)
    requires 16 <= len <= |c| && |c| % 16 == 0
    ensures Decrypted(d, iv, c, len).ivec == Decrypted(d, c[..16], c[16..], len - 16).ivec
  {}

  lemma ShortPieceVectors(e: BlockFn, d: BlockFn, iv: Block, p: seq<Byte>)
    requires |p| < 16
    ensures var c := Encrypted(e, iv, p);
            Decrypted(d, iv, c.bytes, |p|).ivec == if p == [] then c.ivec else d(c.ivec)
  {
    hide XorSeq;
    var c := Encrypted(e, iv, p);
    assert p != [] ==> c.bytes[..16] == c.ivec;
  }

  lemma NothingEncrypted(e: BlockFn, iv: Block)
    ensures Encrypted(e, iv, []) == Chained([], iv)
  {}

  lemma FirstBlockEncrypted(e: BlockFn, iv: Block, p: seq<Byte>)
    requires |p| >= 16
    ensures var c := e(XorSeq(p[..16], iv));
            var rest := Encrypted(e, c, p[16..]);
            Encrypted(e, iv, p) == Chained(c + rest.bytes, rest.ivec)
  {}

  /** Block i of the ciphertext, or the vector the chain starts with. */
  function Before(iv: Block, c: seq<Byte>, i: nat): Block
    requires 16 * i <= |c|
  {
    if i == 0 then iv else c[16 * i - 16..16 * i]
  }

  /** What goes into the block function: the text xored with the block before, which also fills up a short last block. */
  ghost predicate GoesIn(x: Block, p: seq<Byte>, i: nat, before: Block) {
    forall j | 0 <= j < 16 :: x[j] == if 16 * i + j < |p| then XorByte(p[16 * i + j], before[j]) else before[j]
  }

  /** Every block of the ciphertext by itself; the last one is the vector left behind. */
  lemma {:induction false} EncryptedBlock(e: BlockFn, iv: Block, p: seq<Byte>, i: nat) returns (x: Block)
    requires 16 * i < |p|
    ensures var c := Encrypted(e, iv, p).bytes;
            && 16 * i + 16 <= |c| && GoesIn(x, p, i, Before(iv, c, i)) && c[16 * i..16 * i + 16] == e(x)
            && (16 * i + 16 >= |p| ==> Encrypted(e, iv, p).ivec == e(x))
    decreases i
  {
    hide Encrypted, GoesIn, Before;
    if i == 0 {
      x := FirstBlock(e, iv, p);
    } else {
      FirstBlockEncrypted(e, iv, p);
      var first := e(XorSeq(p[..16], iv));
      var rest := Encrypted(e, first, p[16..]);
      x := EncryptedBlock(e, first, p[16..], i - 1);
      ShiftedBlock(first, rest.bytes, i);
      BeforeIsShifted(iv, first, rest.bytes, i);
      GoesInShifted(x, p, i, Before(first, rest.bytes, i - 1));
    }
  }

  lemma FirstBlock(e: BlockFn, iv: Block, p: seq<Byte>) returns (x: Block)
    requires |p| > 0
    ensures var c := Encrypted(e, iv, p).bytes;
            && 16 <= |c| && GoesIn(x, p, 0, Before(iv, c, 0)) && c[0..16] == e(x)
            && (16 >= |p| ==> Encrypted(e, iv, p).ivec == e(x))
  {
    if |p| < 16 {
      x := XorSeq(p, iv) + iv[|p|..];
    } else {
      x := XorSeq(p[..16], iv);
      FirstBlockEncrypted(e, iv, p);
      assert |p| == 16 ==> p[16..] == [];
      NothingEncrypted(e, e(x));
    }
  }

  lemma GoesInShifted(x: Block, p: seq<Byte>, i: nat, before: Block)
    requires i > 0 && |p| >= 16 && GoesIn(x, p[16..], i - 1, before)
    ensures GoesIn(x, p, i, before)
  {}

  /** Blocks of a text without its first one. */
  lemma ShiftedBlock(head: Block, rest: seq<Byte>, i: nat)
    requires i > 0 && 16 * i <= |rest|
    ensures (head + rest)[16 * i..16 * i + 16] == rest[16 * (i - 1)..16 * i]
    ensures (head + rest)[16 * i - 16..16 * i] == Before(head, rest, i - 1)
  {}

  /** Every byte of the plaintext by itself, and the vector left behind. */
  lemma {:induction false} DecryptedByte(d: BlockFn, iv: Block, c: seq<Byte>, len: nat, i: nat, j: nat)
    requires len <= |c| && |c| % 16 == 0 && 16 * i + j < len && j < 16
    ensures var r := Decrypted(d, iv, c, len);
            && r.bytes[16 * i + j] == XorByte(d(c[16 * i..16 * i + 16])[j], Before(iv, c, i)[j])
            && (16 * i + 16 >= len ==> r.ivec == if 16 * i + 16 == len then c[16 * i..16 * i + 16] else d(c[16 * i..16 * i + 16]))
    decreases i
  {
    hide Decrypted, Before;
    if i == 0 {
      FirstByteDecrypted(d, iv, c, len, j);
    } else {
      RestDecrypted(d, iv, c, len, i, j);
      DecryptedByte(d, c[..16], c[16..], len - 16, i - 1, j);
      ShiftedBlock(c[..16], c[16..], i);
      BeforeIsShifted(iv, c[..16], c[16..], i);
      assert c[..16] + c[16..] == c;
    }
  }

  lemma FirstByteDecrypted(d: BlockFn, iv: Block, c: seq<Byte>, len: nat, j: nat)
    requires len <= |c| && |c| % 16 == 0 && j < len && j < 16
    ensures var r := Decrypted(d, iv, c, len);
            && r.bytes[j] == XorByte(d(c[..16])[j], Before(iv, c, 0)[j])
            && (16 >= len ==> r.ivec == if len == 16 then c[..16] else d(c[..16]))
            && c[0..16] == c[..16]
  {
    assert len == 16 ==> Decrypted(d, c[..16], c[16..], 0) == Chained([], c[..16]);
  }

  lemma RestDecrypted(d: BlockFn, iv: Block, c: seq<Byte>, len: nat, i: nat, j: nat)
    requires len <= |c| && |c| % 16 == 0 && 16 * i + j < len && j < 16 && i > 0
    ensures var rest := Decrypted(d, c[..16], c[16..], len - 16);
            && Decrypted(d, iv, c, len).bytes[16 * i + j] == rest.bytes[16 * (i - 1) + j]
            && Decrypted(d, iv, c, len).ivec == rest.ivec
  {
    hide XorSeq;
  }

  lemma BeforeIsShifted(iv: Block, head: Block, rest: seq<Byte>, i: nat)
    requires i > 0 && 16 * i <= |rest|
    ensures Before(iv, head + rest, i) == Before(head, rest, i - 1)
  {}

  /** Two pieces with the carried vector encrypt like their concatenation. */
  lemma {:induction false} EncryptionInPieces(e: BlockFn, iv: Block, p: seq<Byte>, q: seq<Byte>)
    requires |p| % 16 == 0
    ensures var first := Encrypted(e, iv, p);
            var second := Encrypted(e, first.ivec, q);
            Encrypted(e, iv, p + q) == Chained(first.bytes + second.bytes, second.ivec)
    decreases |p|
  {
    hide XorSeq, Encrypted;
    if p == [] {
      NothingEncrypted(e, iv);
      assert p + q == q;
      assert [] + Encrypted(e, iv, q).bytes == Encrypted(e, iv, q).bytes;
    } else {
      var c := e(XorSeq(p[..16], iv));
      FirstBlockEncrypted(e, iv, p);
      FirstBlockEncrypted(e, iv, p + q);
      EncryptionInPieces(e, c, p[16..], q);
      assert (p + q)[..16] == p[..16] && (p + q)[16..] == p[16..] + q;
      var first := Encrypted(e, c, p[16..]);
      var second := Encrypted(e, first.ivec, q);
      assert (c + first.bytes) + second.bytes == c + (first.bytes + second.bytes);
    }
  }

  /** Two pieces with the carried vector decrypt like their concatenation. */
  lemma {:induction false} DecryptionInPieces(f: BlockFn, iv: Block, c: seq<Byte>, d: seq<Byte>, len: nat)
    requires |c| % 16 == 0 && |d| % 16 == 0 && len <= |d|
    ensures var first := Decrypted(f, iv, c, |c|);
            var second := Decrypted(f, first.ivec, d, len);
            Decrypted(f, iv, c + d, |c| + len) == Chained(first.bytes + second.bytes, second.ivec)
    decreases |c|
  {
    hide XorSeq, Decrypted;
    if c == [] {
      NothingDecrypted(f, iv);
      assert c + d == d;
      assert [] + Decrypted(f, iv, d, len).bytes == Decrypted(f, iv, d, len).bytes;
    } else {
      var c0: Block, c1 := c[..16], c[16..];
      assert |c1| == |c| - 16 && |c1| % 16 == 0 && c == c0 + c1;
      DecryptionInPieces(f, c0, c1, d, len);
      BlockThenRest(f, iv, c0, c1, |c1|);
      assert c + d == c0 + (c1 + d);
      BlockThenRest(f, iv, c0, c1 + d, |c1| + len);
      var first := Decrypted(f, c0, c1, |c1|);
      Associates(XorSeq(f(c0), iv), first.bytes, Decrypted(f, first.ivec, d, len).bytes);
    }
  }

  lemma Associates(a: seq<Byte>, b: seq<Byte>, c: seq<Byte>)
    ensures (a + b) + c == a + (b + c)
  {}

  lemma BlockThenRest(d: BlockFn, iv: Block, c0: Block, c1: seq<Byte>, len: nat)
    requires len <= |c1| && |c1| % 16 == 0
    ensures var rest := Decrypted(d, c0, c1, len);
            Decrypted(d, iv, c0 + c1, 16 + len) == Chained(XorSeq(d(c0), iv) + rest.bytes, rest.ivec)
  {
    assert (c0 + c1)[..16] == c0 && (c0 + c1)[16..] == c1;
  }

  // ----- the method on buffers

  /** A key schedule together with the tables and the round count. */
  datatype Key = Key(t: Tables, rk: seq<Word>, rounds: nat)

  predicate ValidKey(k: Key) {
    k.rounds >= 2 && k.rounds % 2 == 0 && 4 * k.rounds + 4 <= |k.rk|
  }

  function Encipher(k: Key): BlockFn
    requires ValidKey(k)
  {
    (b: Block) => EncryptBlock(k.t, k.rk, k.rounds, b)
  }

  function Decipher(k: Key): BlockFn
    requires ValidKey(k)
  {
    (b: Block) => DecryptBlock(k.t, k.rk, k.rounds, b)
  }

  /** The whole stack: AES in chaining mode, for every length, key schedule and round count. */
  lemma AesCbcRoundTrip(ek: Key, dk: Key, iv: Block, p: seq<Byte>)
    requires ValidKey(ek) && ValidKey(dk)
    requires ek.t == dk.t && ek.rounds == dk.rounds && ValidTables(ek.t)
    requires RoundKeys(dk.rk, dk.rounds) == DecryptionKeys(ek.t, RoundKeys(ek.rk, ek.rounds))
    ensures Decrypted(Decipher(dk), iv, Encrypted(Encipher(ek), iv, p).bytes, |p|).bytes == p
  {
    hide EncryptBlock, DecryptBlock;
    forall b: Block ensures Decipher(dk)(Encipher(ek)(b)) == b {
      AesBlock.DecryptUndoesEncrypt(ek.t, ek.rk, dk.rk, ek.rounds, b);
    }
    DecryptionUndoesEncryption(Encipher(ek), Decipher(dk), iv, p);
  }

  /** tmp[n] = in[off + n] ^ ivec[n] for n < len, and ivec[n] from there on. */
  method XorWithVector(inp: array<Byte>, off: nat, ivec: array<Byte>, tmp: array<Byte>, len: nat)
    requires off + len <= inp.Length && ivec.Length == 16 && tmp.Length == 16 && len <= 16
    requires tmp != inp && tmp != ivec
    modifies tmp
    ensures tmp[..] == XorSeq(inp[off..off + len], ivec[..]) + ivec[len..]
  {
    var n := 0;
    while n < len
      invariant n <= len
      invariant tmp[..n] == XorSeq(inp[off..off + n], ivec[..])
    {
      tmp[n] := XorByte(inp[off + n], ivec[n]);
      n := n + 1;
    }
    while n < 16
      invariant len <= n <= 16
      invariant tmp[..len] == XorSeq(inp[off..off + len], ivec[..])
      invariant tmp[len..n] == ivec[len..n]
    {
      tmp[n] := ivec[n];
      n := n + 1;
    }
    assert tmp[..] == tmp[..len] + tmp[len..n];
    assert ivec[len..n] == ivec[len..];
  }

  /** memcpy of one block. */
  method CopyBlock(src: array<Byte>, off: nat, dst: array<Byte>, to: nat)
    requires off + 16 <= src.Length && to + 16 <= dst.Length && src != dst
    modifies dst
    ensures dst[to..to + 16] == src[off..off + 16]
    ensures forall j | 0 <= j < dst.Length && !(to <= j < to + 16) :: dst[j] == old(dst[j])
  {
    var n := 0;
    while n < 16
      invariant n <= 16
      invariant dst[to..to + n] == src[off..off + n]
      invariant forall j | 0 <= j < dst.Length && !(to <= j < to + n) :: dst[j] == old(dst[j])
    {
      dst[to + n] := src[off + n];
      n := n + 1;
    }
  }

  function BlocksOf(len: nat): nat { (len + 15) / 16 * 16 }

  /** What one block of input turns into, given the vector; short input is padded by the vector. */
  ghost function ChainedBlock(e: BlockFn, iv: Block, p: seq<Byte>): Block
    requires |p| <= 16
  {
    e(XorSeq(p, iv) + iv[|p|..])
  }

  lemma OneMoreBlock(e: BlockFn, iv: Block, p: seq<Byte>, off: nat, to: nat)
    requires off % 16 == 0 && off < to <= |p| && (to == off + 16 || to == |p| < off + 16)
    ensures var done := Encrypted(e, iv, p[..off]);
            var c := ChainedBlock(e, done.ivec, p[off..to]);
            Encrypted(e, iv, p[..to]) == Chained(done.bytes + c, c)
  {
    hide XorSeq;
    var last := p[off..to];
    EncryptionInPieces(e, iv, p[..off], last);
    assert p[..off] + last == p[..to];
    var done := Encrypted(e, iv, p[..off]);
    var c := ChainedBlock(e, done.ivec, last);
    if to == off + 16 {
      assert last[..16] == last && last[16..] == [];
      assert XorSeq(last, done.ivec) + done.ivec[16..] == XorSeq(last, done.ivec);
      assert c + [] == c;
    }
  }

  lemma SamePiece(a: array<Byte>, p: seq<Byte>, from: nat, to: nat)
    requires from <= to <= a.Length && to <= |p|
    requires forall j | from <= j < to :: a[j] == p[j]
    ensures a[from..to] == p[from..to]
  {}

  /** One whole block: the cipher writes into the output, which becomes the vector. */
  method EncryptWholeBlock(k: Key, inp: array<Byte>, off: nat, out: array<Byte>, rk: array<Word>, ivec: array<Byte>)
    requires ValidKey(k) && rk[..] == k.rk
    requires off + 16 <= inp.Length && off + 16 <= out.Length && ivec.Length == 16
    requires ivec != inp && ivec != out
    modifies out, ivec
    ensures out[off..off + 16] == ivec[..] == ChainedBlock(Encipher(k), old(ivec[..]), old(inp[off..off + 16]))
    ensures forall j | 0 <= j < out.Length && !(off <= j < off + 16) :: out[j] == old(out[j])
  {
    hide XorSeq, EncryptBlock;
    var tmp := new Byte[16](_ => 0);
    XorWithVector(inp, off, ivec, tmp, 16);
    assert tmp[0..16] == tmp[..];
    AesBlock.Encrypt(k.t, tmp, 0, out, off, rk, k.rounds);
    CopyBlock(out, off, ivec, 0);
    assert ivec[..] == ivec[0..16];
  }

  /** The last, short block: the cipher works in the scratch block, which is then copied to both places. */
  method EncryptPartialBlock(k: Key, inp: array<Byte>, off: nat, len: nat, out: array<Byte>, rk: array<Word>, ivec: array<Byte>)
    requires ValidKey(k) && rk[..] == k.rk
    requires len < 16 && off + len <= inp.Length && off + 16 <= out.Length && ivec.Length == 16
    requires ivec != inp && ivec != out
    modifies out, ivec
    ensures out[off..off + 16] == ivec[..] == ChainedBlock(Encipher(k), old(ivec[..]), old(inp[off..off + len]))
    ensures forall j | 0 <= j < out.Length && !(off <= j < off + 16) :: out[j] == old(out[j])
  {
    hide XorSeq, EncryptBlock;
    var tmp := new Byte[16](_ => 0);
    XorWithVector(inp, off, ivec, tmp, len);
    assert tmp[0..16] == tmp[..];
    AesBlock.Encrypt(k.t, tmp, 0, tmp, 0, rk, k.rounds);
    CopyBlock(tmp, 0, out, off);
    CopyBlock(tmp, 0, ivec, 0);
    assert ivec[..] == ivec[0..16];
  }

  /** The loop over whole blocks; `off` is where it stops. */
  method EncryptWholeBlocks(k: Key, inp: array<Byte>, out: array<Byte>, length: nat, rk: array<Word>, ivec: array<Byte>)
    returns (off: nat)
    requires ValidKey(k) && rk[..] == k.rk
    requires length <= inp.Length && BlocksOf(length) <= out.Length && ivec.Length == 16
    requires ivec != inp && ivec != out
    modifies out, ivec
    ensures off == length / 16 * 16
    ensures var r := Encrypted(Encipher(k), old(ivec[..]), old(inp[..off]));
            out[..off] == r.bytes && ivec[..] == r.ivec
    ensures forall j | off <= j < inp.Length :: inp[j] == old(inp[j])
    ensures forall j | off <= j < out.Length :: out[j] == old(out[j])
  {
    hide Encrypted, Encipher, ChainedBlock, BlocksOf;
    ghost var p := inp[..length];
    ghost var iv: Block := ivec[..];
    ghost var e := Encipher(k);
    assert BlocksOf(length) >= length by { BlocksCover(length); }
    off := 0;
    NothingEncrypted(e, iv);
    assert p[..0] == [];
    while off + 16 <= length
      invariant off % 16 == 0 && off <= length
      invariant forall j | off <= j < inp.Length :: inp[j] == old(inp[j])
      invariant forall j | off <= j < out.Length :: out[j] == old(out[j])
      invariant Chained(out[..off], ivec[..]) == Encrypted(e, iv, p[..off])
    {
      ghost var done := out[..off];
      SamePiece(inp, p, off, off + 16);
      OneMoreBlock(e, iv, p, off, off + 16);
      EncryptWholeBlock(k, inp, off, out, rk, ivec);
      assert forall j | 0 <= j < off :: out[j] == done[j];
      assert out[..off] == done;
      assert out[..off + 16] == out[..off] + out[off..off + 16];
      off := off + 16;
    }
    assert p[..off] == old(inp[..off]);
  }

  lemma BlocksCover(len: nat)
    ensures len <= BlocksOf(len) && BlocksOf(len) == len / 16 * 16 + (if len % 16 == 0 then 0 else 16)
  {}

  /** The encrypting half of AES_cbc_encrypt. */
  method CbcEncrypt(k: Key, inp: array<Byte>, out: array<Byte>, length: nat, rk: array<Word>, ivec: array<Byte>)
    requires ValidKey(k) && rk[..] == k.rk
    requires length <= inp.Length && BlocksOf(length) <= out.Length && ivec.Length == 16
    requires ivec != inp && ivec != out
    modifies out, ivec
    ensures Chained(out[..BlocksOf(length)], ivec[..]) == Encrypted(Encipher(k), old(ivec[..]), old(inp[..length]))
    ensures forall j | BlocksOf(length) <= j < out.Length :: out[j] == old(out[j])
  {
    hide Encrypted, Encipher, ChainedBlock, BlocksOf;
    ghost var p := inp[..length];
    ghost var iv: Block := ivec[..];
    BlocksCover(length);
    var off := EncryptWholeBlocks(k, inp, out, length, rk, ivec);
    assert p[..off] == old(inp[..off]);
    if off < length {
      ghost var done := out[..off];
      assert off + (length - off) == length;
      SamePiece(inp, p, off, length);
      OneMoreBlock(Encipher(k), iv, p, off, length);
      EncryptPartialBlock(k, inp, off, length - off, out, rk, ivec);
      assert forall j | 0 <= j < off :: out[j] == done[j];
      assert out[..off] == done;
      assert out[..off + 16] == out[..off] + out[off..off + 16];
    }
    assert p[..length] == p;
  }

  /** What the first n bytes of one block of ciphertext turn into, and the vector left behind. */
  ghost function UnchainedBlock(d: BlockFn, iv: Block, c: Block, n: nat): Chained
    requires n <= 16
  {
    Chained(XorSeq(d(c)[..n], iv), if n == 16 then c else d(c))
  }

  lemma OneMoreDecrypted(d: BlockFn, iv: Block, c: seq<Byte>, off: nat, n: nat)
    requires off % 16 == 0 && off + 16 <= |c| && 0 < n <= 16
    ensures var done := Decrypted(d, iv, c[..off], off);
            var r := UnchainedBlock(d, done.ivec, c[off..off + 16], n);
            Decrypted(d, iv, c[..off + 16], off + n) == Chained(done.bytes + r.bytes, r.ivec)
  {
    hide XorSeq;
    var last: Block := c[off..off + 16];
    DecryptionInPieces(d, iv, c[..off], last, n);
    assert c[..off] + last == c[..off + 16];
    var done := Decrypted(d, iv, c[..off], off);
    assert last[..16] == last && last[16..] == [];
    if n == 16 {
      assert d(last)[..16] == d(last);
      assert XorSeq(d(last), done.ivec) + [] == XorSeq(d(last), done.ivec);
    }
  }

  /** out[off + n] = src[from + n] ^ ivec[n] for n < len; source and destination may be the same place. */
  method XorOut(src: array<Byte>, from: nat, ivec: array<Byte>, out: array<Byte>, off: nat, len: nat)
    requires from + len <= src.Length && ivec.Length == 16 && off + len <= out.Length && len <= 16
    requires out != ivec && (src == out ==> from == off)
    modifies out
    ensures out[off..off + len] == XorSeq(old(src[from..from + len]), ivec[..])
    ensures forall j | 0 <= j < out.Length && !(off <= j < off + len) :: out[j] == old(out[j])
  {
    hide XorByte;
    ghost var was := src[from..from + len];
    var n := 0;
    while n < len
      invariant n <= len
      invariant forall j | 0 <= j < n :: out[off + j] == XorByte(was[j], ivec[j])
      invariant forall j | n <= j < len :: src[from + j] == was[j]
      invariant forall j | 0 <= j < out.Length && !(off <= j < off + n) :: out[j] == old(out[j])
    {
      out[off + n] := XorByte(src[from + n], ivec[n]);
      n := n + 1;
    }
    assert out[off..off + len] == XorSeq(was, ivec[..]);
  }

  /** One whole block: decrypt into the output, then add the vector in place. */
  method DecryptWholeBlock(k: Key, inp: array<Byte>, off: nat, out: array<Byte>, rk: array<Word>, ivec: array<Byte>)
    requires ValidKey(k) && rk[..] == k.rk
    requires off + 16 <= inp.Length && off + 16 <= out.Length && ivec.Length == 16
    requires ivec != inp && ivec != out
    modifies out, ivec
    ensures Chained(out[off..off + 16], ivec[..])
         == UnchainedBlock(Decipher(k), old(ivec[..]), old(inp[off..off + 16]), 16)
    ensures forall j | 0 <= j < out.Length && !(off <= j < off + 16) :: out[j] == old(out[j])
  {
    hide XorSeq, DecryptBlock;
    var tmp := new Byte[16](_ => 0);
    CopyBlock(inp, off, tmp, 0);
    AesBlock.Decrypt(k.t, inp, off, out, off, rk, k.rounds);
    XorOut(out, off, ivec, out, off, 16);
    CopyBlock(tmp, 0, ivec, 0);
    assert ivec[..] == ivec[0..16];
    ghost var c: Block := old(inp[off..off + 16]);
    assert Decipher(k)(c)[..16] == Decipher(k)(c);
  }

  /** The last, short block: decrypt in the scratch block, which becomes the vector. */
  method DecryptPartialBlock(k: Key, inp: array<Byte>, off: nat, len: nat, out: array<Byte>, rk: array<Word>, ivec: array<Byte>)
    requires ValidKey(k) && rk[..] == k.rk
    requires len < 16 && off + 16 <= inp.Length && off + len <= out.Length && ivec.Length == 16
    requires ivec != inp && ivec != out
    modifies out, ivec
    ensures Chained(out[off..off + len], ivec[..])
         == UnchainedBlock(Decipher(k), old(ivec[..]), old(inp[off..off + 16]), len)
    ensures forall j | 0 <= j < out.Length && !(off <= j < off + len) :: out[j] == old(out[j])
  {
    hide XorSeq, DecryptBlock;
    var tmp := new Byte[16](_ => 0);
    CopyBlock(inp, off, tmp, 0);
    AesBlock.Decrypt(k.t, tmp, 0, tmp, 0, rk, k.rounds);
    assert tmp[0..16][..len] == tmp[0..0 + len];
    XorOut(tmp, 0, ivec, out, off, len);
    CopyBlock(tmp, 0, ivec, 0);
    assert ivec[..] == ivec[0..16];
  }

  lemma NothingDecrypted(d: BlockFn, iv: Block)
    ensures Decrypted(d, iv, [], 0) == Chained([], iv)
  {}

  /** The decrypting loop over whole blocks; `off` is where it stops. */
  method DecryptWholeBlocks(k: Key, inp: array<Byte>, out: array<Byte>, length: nat, rk: array<Word>, ivec: array<Byte>)
    returns (off: nat)
    requires ValidKey(k) && rk[..] == k.rk
    requires length <= inp.Length && length <= out.Length && ivec.Length == 16
    requires ivec != inp && ivec != out
    modifies out, ivec
    ensures off == length / 16 * 16
    ensures Chained(out[..off], ivec[..]) == Decrypted(Decipher(k), old(ivec[..]), old(inp[..off]), off)
    ensures forall j | off <= j < inp.Length :: inp[j] == old(inp[j])
    ensures forall j | off <= j < out.Length :: out[j] == old(out[j])
  {
    hide Decrypted, Decipher, UnchainedBlock;
    ghost var c := inp[..];
    ghost var iv: Block := ivec[..];
    ghost var d := Decipher(k);
    off := 0;
    NothingDecrypted(d, iv);
    assert c[..0] == [];
    while off + 16 <= length
      invariant off % 16 == 0 && off <= length
      invariant forall j | off <= j < inp.Length :: inp[j] == c[j]
      invariant forall j | off <= j < out.Length :: out[j] == old(out[j])
      invariant Chained(out[..off], ivec[..]) == Decrypted(d, iv, c[..off], off)
    {
      ghost var done := out[..off];
      SamePiece(inp, c, off, off + 16);
      OneMoreDecrypted(d, iv, c, off, 16);
      DecryptWholeBlock(k, inp, off, out, rk, ivec);
      assert forall j | 0 <= j < off :: out[j] == done[j];
      assert out[..off] == done;
      assert out[..off + 16] == out[..off] + out[off..off + 16];
      off := off + 16;
    }
    assert c[..off] == old(inp[..off]);
  }

  /** The decrypting half of AES_cbc_encrypt. */
  method CbcDecrypt(k: Key, inp: array<Byte>, out: array<Byte>, length: nat, rk: array<Word>, ivec: array<Byte>)
    requires ValidKey(k) && rk[..] == k.rk
    requires BlocksOf(length) <= inp.Length && length <= out.Length && ivec.Length == 16
    requires ivec != inp && ivec != out
    modifies out, ivec
    ensures length <= BlocksOf(length)
    ensures Chained(out[..length], ivec[..])
         == Decrypted(Decipher(k), old(ivec[..]), old(inp[..BlocksOf(length)]), length)
    ensures forall j | length <= j < out.Length :: out[j] == old(out[j])
  {
    hide Decrypted, Decipher, UnchainedBlock, BlocksOf;
    ghost var c := inp[..];
    ghost var iv: Block := ivec[..];
    BlocksCover(length);
    var off := DecryptWholeBlocks(k, inp, out, length, rk, ivec);
    assert c[..off] == old(inp[..off]);
    if off < length {
      ghost var done := out[..off];
      SamePiece(inp, c, off, off + 16);
      OneMoreDecrypted(Decipher(k), iv, c, off, length - off);
      DecryptPartialBlock(k, inp, off, length - off, out, rk, ivec);
      assert out[..length] == done + out[off..off + (length - off)];
    }
    assert c[..BlocksOf(length)] == old(inp[..BlocksOf(length)]);
  }
}
