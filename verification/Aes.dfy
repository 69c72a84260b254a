/**
 AESCrypter and the digests around it. The block cipher and SHA-256 are parameters: the proofs
 use only that decrypting a block undoes encrypting it.
 */
module Aes {
  import opened Basics
  import opened KeyState

  const BLOCK := 16

  type Block = b: Bytes | |b| == BLOCK witness seq(16, i => 0)

  type Digest = b: Bytes | |b| == 32 witness seq(32, i => 0)

  datatype Cipher = Cipher(enc: (Key, Block) -> Block, dec: (Key, Block) -> Block)

  ghost predicate LawfulCipher(c: Cipher) {
    forall k: Key, b: Block :: c.dec(k, c.enc(k, b)) == b
  }

  datatype CipherMode = Ecb | Cbc

  // ---------------------------------------------------------------- exclusive or

  function Pow2(n: nat): (p: nat)
    ensures p > 0
  {
    if n == 0 then 1 else 2 * Pow2(n - 1)
  }

  function XorBit(a: nat, b: nat): (r: nat)
    ensures r < 2
  {
    if a % 2 == b % 2 then 0 else 1
  }

  /** The lowest n bits of a and b combined bit by bit. */
  function XorBits(n: nat, a: nat, b: nat): (r: nat)
    ensures r < Pow2(n)
  {
    if n == 0 then 0 else 2 * XorBits(n - 1, a / 2, b / 2) + XorBit(a, b)
  }

  lemma HalfAndBit(x: nat, half: nat, bit: nat)
    requires x == 2 * half + bit && bit < 2
    ensures x / 2 == half && x % 2 == bit
  {
  }

  lemma {:induction false} XorBitsUndo(n: nat, a: nat, b: nat)
    requires a < Pow2(n)
    ensures XorBits(n, XorBits(n, a, b), b) == a
  {
    if n > 0 {
      var rest := XorBits(n - 1, a / 2, b / 2);
      XorBitsUndo(n - 1, a / 2, b / 2);
      var x := XorBits(n, a, b);
      HalfAndBit(x, rest, XorBit(a, b));
      assert XorBits(n, x, b) == 2 * (a / 2) + XorBit(x, b);
    }
  }

  lemma {:induction false} XorBitsCommute(n: nat, a: nat, b: nat)
    ensures XorBits(n, a, b) == XorBits(n, b, a)
  {
    if n > 0 {
      XorBitsCommute(n - 1, a / 2, b / 2);
    }
  }

  lemma BitsOfByte()
    ensures Pow2(8) == 256
  {
    assert Pow2(2) == 4;
    assert Pow2(4) == 16;
    assert Pow2(6) == 64;
  }

  function XorByte(a: byte, b: byte): byte {
    BitsOfByte();
    XorBits(8, a, b)
  }

  lemma XorByteUndo(a: byte, b: byte)
    ensures XorByte(XorByte(a, b), b) == a
  {
    BitsOfByte();
    XorBitsUndo(8, a, b);
  }

  function XorBytes(a: Bytes, b: Bytes): (r: Bytes)
    requires |a| == |b|
    ensures |r| == |a|
  {
    seq(|a|, i requires 0 <= i < |a| => XorByte(a[i], b[i]))
  }

  lemma XorBytesUndo(a: Bytes, b: Bytes)
    requires |a| == |b|
    ensures XorBytes(XorBytes(a, b), b) == a
  {
    forall i | 0 <= i < |a|
      ensures XorBytes(XorBytes(a, b), b)[i] == a[i]
    {
      XorByteUndo(a[i], b[i]);
    }
  }

  lemma XorBytesCommute(a: Bytes, b: Bytes)
    requires |a| == |b|
    ensures XorBytes(a, b) == XorBytes(b, a)
  {
    forall i | 0 <= i < |a|
      ensures XorBytes(a, b)[i] == XorBytes(b, a)[i]
    {
      XorBitsCommute(8, a[i], b[i]);
    }
  }

  /** memxor: a stretch of a buffer combined with another one. */
  method MemXor(dst: array<byte>, at: nat, src: Bytes)
    requires at + |src| <= dst.Length
    modifies dst
    ensures dst[..at] == old(dst[..at])
    ensures dst[at..at + |src|] == XorBytes(old(dst[at..at + |src|]), src)
    ensures dst[at + |src|..] == old(dst[at + |src|..])
    ensures at == 0 && |src| == dst.Length ==> dst[..] == XorBytes(old(dst[..]), src)
  {
    var i := 0;
    while i < |src|
      invariant 0 <= i <= |src|
      invariant forall j :: 0 <= j < i ==> dst[at + j] == XorByte(old(dst[at + j]), src[j])
      invariant forall j :: 0 <= j < dst.Length && !(at <= j < at + i) ==> dst[j] == old(dst[j])
    {
      dst[at + i] := XorByte(dst[at + i], src[i]);
      i := i + 1;
    }
  }

  /** xor_buffer; false when its assertion on the sizes fails, and then nothing has changed. */
  method XorBuffer(buf: array<byte>, second: Bytes) returns (ok: bool)
    modifies buf
    ensures ok <==> buf.Length == |second|
    ensures buf[..] == if ok then XorBytes(old(buf[..]), second) else old(buf[..])
  {
    if buf.Length != |second| {
      return false;
    }
    MemXor(buf, 0, second);
    return true;
  }

  // ---------------------------------------------------------------- the modes of operation

  predicate Aligned(b: Bytes) {
    |b| % BLOCK == 0
  }

  function Repeat(n: nat, x: byte): (b: Bytes)
    ensures |b| == n
  {
    seq(n, i => x)
  }

  function ZeroIv(): Block {
    Repeat(BLOCK, 0)
  }

  function EcbEncrypt(c: Cipher, k: Key, p: Bytes): (r: Bytes)
    requires Aligned(p)
    ensures |r| == |p|
  {
    if p == [] then [] else c.enc(k, p[..BLOCK]) + EcbEncrypt(c, k, p[BLOCK..])
  }

  function EcbDecrypt(c: Cipher, k: Key, x: Bytes): (r: Bytes)
    requires Aligned(x)
    ensures |r| == |x|
  {
    if x == [] then [] else c.dec(k, x[..BLOCK]) + EcbDecrypt(c, k, x[BLOCK..])
  }

  function CbcEncrypt(c: Cipher, k: Key, iv: Block, p: Bytes): (r: Bytes)
    requires Aligned(p)
    ensures |r| == |p|
    decreases |p|
  {
    if p == [] then []
    else
      var first := c.enc(k, XorBytes(iv, p[..BLOCK]));
      first + CbcEncrypt(c, k, first, p[BLOCK..])
  }

  function CbcDecrypt(c: Cipher, k: Key, iv: Block, x: Bytes): (r: Bytes)
    requires Aligned(x)
    ensures |r| == |x|
    decreases |x|
  {
    if x == [] then []
    else
      XorBytes(c.dec(k, x[..BLOCK]), iv) + CbcDecrypt(c, k, x[..BLOCK], x[BLOCK..])
  }

  lemma {:induction false} EcbUndo(c: Cipher, k: Key, p: Bytes)
    requires LawfulCipher(c) && Aligned(p)
    ensures EcbDecrypt(c, k, EcbEncrypt(c, k, p)) == p
    decreases |p|
  {
    if p != [] {
      var first: Bytes := c.enc(k, p[..BLOCK]);
      var rest := EcbEncrypt(c, k, p[BLOCK..]);
      EcbUndo(c, k, p[BLOCK..]);
      assert (first + rest)[..BLOCK] == first && (first + rest)[BLOCK..] == rest;
      assert p == p[..BLOCK] + p[BLOCK..];
    }
  }

  lemma {:induction false} CbcUndo(c: Cipher, k: Key, iv: Block, p: Bytes)
    requires LawfulCipher(c) && Aligned(p)
    ensures CbcDecrypt(c, k, iv, CbcEncrypt(c, k, iv, p)) == p
    decreases |p|
  {
    if p != [] {
      var head := p[..BLOCK];
      var first: Bytes := c.enc(k, XorBytes(iv, head));
      var rest := CbcEncrypt(c, k, first, p[BLOCK..]);
      CbcUndo(c, k, first, p[BLOCK..]);
      XorBytesCommute(iv, head);
      XorBytesUndo(head, iv);
      assert (first + rest)[..BLOCK] == first && (first + rest)[BLOCK..] == rest;
      assert p == head + p[BLOCK..];
    }
  }

  function BlockAt(b: Bytes, j: nat): Block
    requires BLOCK * (j + 1) <= |b|
  {
    b[BLOCK * j..BLOCK * (j + 1)]
  }

  lemma BlockOfTail(first: Block, rest: Bytes, j: nat)
    requires j > 0 && BLOCK * j <= |rest|
    ensures BlockAt(first + rest, j) == BlockAt(rest, j - 1)
  {
    assert forall i | 0 <= i < BLOCK :: BlockAt(first + rest, j)[i] == BlockAt(rest, j - 1)[i];
  }

  /** The equations of section 6.2 of NIST SP 800-38A: each block is chained to the one before it. */
  lemma {:induction false} CbcEquations(c: Cipher, k: Key, iv: Block, p: Bytes, j: nat)
    requires Aligned(p) && BLOCK * (j + 1) <= |p|
    ensures BlockAt(CbcEncrypt(c, k, iv, p), j)
         == c.enc(k, XorBytes(if j == 0 then iv else BlockAt(CbcEncrypt(c, k, iv, p), j - 1), BlockAt(p, j)))
    decreases j
  {
    var first: Bytes := c.enc(k, XorBytes(iv, p[..BLOCK]));
    var rest := CbcEncrypt(c, k, first, p[BLOCK..]);
    var x := CbcEncrypt(c, k, iv, p);
    assert x == first + rest;
    assert BlockAt(x, 0) == first && BlockAt(p, 0) == p[..BLOCK];
    if j > 0 {
      CbcEquations(c, k, first, p[BLOCK..], j - 1);
      BlockOfTail(first, rest, j);
      assert p == p[..BLOCK] + p[BLOCK..];
      BlockOfTail(p[..BLOCK], p[BLOCK..], j);
      if j > 1 {
        BlockOfTail(first, rest, j - 1);
      }
    }
  }

  /** The equation of section 6.1: each block is encrypted by itself. */
  lemma {:induction false} EcbEquations(c: Cipher, k: Key, p: Bytes, j: nat)
    requires Aligned(p) && BLOCK * (j + 1) <= |p|
    ensures BlockAt(EcbEncrypt(c, k, p), j) == c.enc(k, BlockAt(p, j))
    decreases j
  {
    var first: Bytes := c.enc(k, p[..BLOCK]);
    var rest := EcbEncrypt(c, k, p[BLOCK..]);
    var x := EcbEncrypt(c, k, p);
    assert x == first + rest;
    if j == 0 {
      assert BlockAt(x, 0) == first && BlockAt(p, 0) == p[..BLOCK];
    } else {
      EcbEquations(c, k, p[BLOCK..], j - 1);
      BlockOfTail(first, rest, j);
      assert p == p[..BLOCK] + p[BLOCK..];
      BlockOfTail(p[..BLOCK], p[BLOCK..], j);
    }
  }

  // ---------------------------------------------------------------- encrypt and decrypt

  /** A text under a mode, from the given chaining value on. */
  function EncryptFrom(c: Cipher, k: Key, mode: CipherMode, iv: Block, p: Bytes): (r: Bytes)
    requires Aligned(p)
    ensures |r| == |p|
  {
    if mode == Cbc then CbcEncrypt(c, k, iv, p) else EcbEncrypt(c, k, p)
  }

  function DecryptFrom(c: Cipher, k: Key, mode: CipherMode, iv: Block, x: Bytes): (r: Bytes)
    requires Aligned(x)
    ensures |r| == |x|
  {
    if mode == Cbc then CbcDecrypt(c, k, iv, x) else EcbDecrypt(c, k, x)
  }

  /** AESCrypter::encrypt; None when the size is refused. */
  function Encrypt(c: Cipher, k: Key, mode: CipherMode, p: Bytes): (r: Option<Bytes>)
    ensures r.Some? <==> p != [] && Aligned(p)
    ensures r.Some? ==> |r.value| == |p|
  {
    if p == [] || !Aligned(p) then None
    else Some(EncryptFrom(c, k, mode, ZeroIv(), p))
  }

  /** AESCrypter::decrypt; None when the size is refused. */
  function Decrypt(c: Cipher, k: Key, mode: CipherMode, x: Bytes): (r: Option<Bytes>)
    ensures r.Some? <==> x != [] && Aligned(x)
    ensures r.Some? ==> |r.value| == |x|
  {
    if x == [] || !Aligned(x) then None
    else Some(DecryptFrom(c, k, mode, ZeroIv(), x))
  }

  lemma DecryptEncrypt(c: Cipher, k: Key, mode: CipherMode, p: Bytes)
    requires LawfulCipher(c) && Encrypt(c, k, mode, p).Some?
    ensures Decrypt(c, k, mode, Encrypt(c, k, mode, p).value) == Some(p)
  {
    EcbUndo(c, k, p);
    CbcUndo(c, k, ZeroIv(), p);
  }

  /** memcpy into a buffer. */
  method CopyInto(dst: array<byte>, at: nat, src: Bytes)
    requires at + |src| <= dst.Length
    modifies dst
    ensures dst[..at] == old(dst[..at])
    ensures dst[at..at + |src|] == src
    ensures dst[..at + |src|] == old(dst[..at]) + src
    ensures dst[at + |src|..] == old(dst[at + |src|..])
    ensures at == 0 && |src| == dst.Length ==> dst[..] == src
  {
    forall i | 0 <= i < |src| {
      dst[at + i] := src[i];
    }
  }

  /** One block through the chaining buffer. */
  method EncryptBlock(c: Cipher, k: Key, mode: CipherMode, iv: array<byte>, text: Block) returns (out: Block)
    requires iv.Length == BLOCK
    modifies iv
    ensures out == c.enc(k, if mode == Cbc then XorBytes(old(iv[..]), text) else text)
    ensures mode == Cbc ==> iv[..] == out
  {
    if mode == Cbc {
      MemXor(iv, 0, text);
    } else {
      CopyInto(iv, 0, text);
    }
    out := c.enc(k, iv[..]);
    if mode == Cbc {
      CopyInto(iv, 0, out);
    }
  }

  /** The first offs bytes of the input are done, and `iv` is the chaining value for the others. */
  ghost predicate EncryptedUpTo(c: Cipher, k: Key, mode: CipherMode, input: Bytes, offs: nat, done: Bytes, iv: Block) {
    && Aligned(input) && offs <= |input| && Aligned(input[offs..])
    && done + EncryptFrom(c, k, mode, iv, input[offs..]) == EncryptFrom(c, k, mode, ZeroIv(), input)
  }

  method EncryptLoop(c: Cipher, k: Key, mode: CipherMode, input: Bytes) returns (r: Option<Bytes>)
    ensures r == Encrypt(c, k, mode, input)
  {
    if |input| == 0 || |input| % BLOCK != 0 {
      return None;
    }
    var result := new byte[|input|](i => 0);
    var iv := new byte[BLOCK](i => 0);
    assert iv[..] == ZeroIv();
    var offs := 0;
    assert input[0..] == input && result[..0] == [];
    while offs < |input|
      invariant 0 <= offs <= |input|
      invariant EncryptedUpTo(c, k, mode, input, offs, result[..offs], iv[..])
    {
      ghost var done, chain := result[..offs], iv[..];
      BlockFits(input, offs);
      var out := EncryptBlock(c, k, mode, iv, input[offs..offs + BLOCK]);
      CopyInto(result, offs, out);
      EncryptStep(c, k, mode, input, offs, done, chain, out, iv[..]);
      offs := offs + BLOCK;
    }
    EncryptEnd(c, k, mode, input, result[..], iv[..]);
    assert result[..offs] == result[..];
    r := Some(result[..]);
  }

  /** What is left of an aligned text is empty or holds a block. */
  lemma BlockFits(input: Bytes, offs: nat)
    requires offs < |input| && Aligned(input[offs..])
    ensures offs + BLOCK <= |input|
    ensures input[offs..][..BLOCK] == input[offs..offs + BLOCK] && input[offs..][BLOCK..] == input[offs + BLOCK..]
    ensures Aligned(input[offs + BLOCK..])
  {
  }

  /** One round of the loop moves one block from what is left to what is done. */
  lemma EncryptStep(c: Cipher, k: Key, mode: CipherMode, input: Bytes, offs: nat, done: Bytes, iv: Block, out: Block, iv': Block)
    requires offs + BLOCK <= |input| && EncryptedUpTo(c, k, mode, input, offs, done, iv)
    requires out == c.enc(k, if mode == Cbc then XorBytes(iv, input[offs..offs + BLOCK]) else input[offs..offs + BLOCK])
    requires mode == Cbc ==> iv' == out
    ensures EncryptedUpTo(c, k, mode, input, offs + BLOCK, done + out, iv')
  {
    BlockFits(input, offs);
    assert EncryptFrom(c, k, mode, iv, input[offs..]) == out + EncryptFrom(c, k, mode, iv', input[offs + BLOCK..]);
  }

  lemma EncryptEnd(c: Cipher, k: Key, mode: CipherMode, input: Bytes, done: Bytes, iv: Block)
    requires |done| == |input| && EncryptedUpTo(c, k, mode, input, |input|, done[..|input|], iv)
    ensures done == EncryptFrom(c, k, mode, ZeroIv(), input)
  {
    assert input[|input|..] == [] && done[..|input|] == done;
  }

  /** One block decrypted into its place and combined with the one before. */
  method DecryptBlock(c: Cipher, k: Key, mode: CipherMode, result: array<byte>, offs: nat, iv: array<byte>, ivNext: Block)
    requires iv != result && iv.Length == BLOCK && offs + BLOCK <= result.Length
    modifies result, iv
    ensures result[..offs] == old(result[..offs])
    ensures result[..offs + BLOCK] == old(result[..offs]) + (if mode == Cbc then XorBytes(c.dec(k, ivNext), old(iv[..])) else c.dec(k, ivNext))
    ensures mode == Cbc ==> iv[..] == ivNext
  {
    var plain := c.dec(k, ivNext);
    CopyInto(result, offs, plain);
    if mode == Cbc {
      MemXor(result, offs, iv[..]);
      CopyInto(iv, 0, ivNext);
    }
    assert result[..offs + BLOCK] == result[..offs] + result[offs..offs + BLOCK];
  }

  ghost predicate DecryptedUpTo(c: Cipher, k: Key, mode: CipherMode, input: Bytes, offs: nat, done: Bytes, iv: Block) {
    && Aligned(input) && offs <= |input| && Aligned(input[offs..])
    && done + DecryptFrom(c, k, mode, iv, input[offs..]) == DecryptFrom(c, k, mode, ZeroIv(), input)
  }

  method DecryptLoop(c: Cipher, k: Key, mode: CipherMode, input: Bytes) returns (r: Option<Bytes>)
    ensures r == Decrypt(c, k, mode, input)
  {
    if |input| == 0 || |input| % BLOCK != 0 {
      return None;
    }
    var result := new byte[|input|](i => 0);
    var iv := new byte[BLOCK](i => 0);
    assert iv[..] == ZeroIv();
    var offs := 0;
    assert input[0..] == input && result[..0] == [];
    while offs < |input|
      invariant 0 <= offs <= |input|
      invariant DecryptedUpTo(c, k, mode, input, offs, result[..offs], iv[..])
    {
      ghost var done, chain := result[..offs], iv[..];
      BlockFits(input, offs);
      DecryptBlock(c, k, mode, result, offs, iv, input[offs..offs + BLOCK]);
      DecryptStep(c, k, mode, input, offs, done, chain, iv[..]);
      offs := offs + BLOCK;
    }
    DecryptEnd(c, k, mode, input, result[..], iv[..]);
    assert result[..offs] == result[..];
    r := Some(result[..]);
  }

  lemma DecryptStep(c: Cipher, k: Key, mode: CipherMode, input: Bytes, offs: nat, done: Bytes, iv: Block, iv': Block)
    requires offs + BLOCK <= |input| && DecryptedUpTo(c, k, mode, input, offs, done, iv)
    requires mode == Cbc ==> iv' == input[offs..offs + BLOCK]
    ensures var plain := c.dec(k, input[offs..offs + BLOCK]);
            DecryptedUpTo(c, k, mode, input, offs + BLOCK, done + (if mode == Cbc then XorBytes(plain, iv) else plain), iv')
  {
    BlockFits(input, offs);
    var plain := c.dec(k, input[offs..offs + BLOCK]);
    var out := if mode == Cbc then XorBytes(plain, iv) else plain;
    assert DecryptFrom(c, k, mode, iv, input[offs..]) == out + DecryptFrom(c, k, mode, iv', input[offs + BLOCK..]);
  }

  lemma DecryptEnd(c: Cipher, k: Key, mode: CipherMode, input: Bytes, done: Bytes, iv: Block)
    requires |done| == |input| && DecryptedUpTo(c, k, mode, input, |input|, done[..|input|], iv)
    ensures done == DecryptFrom(c, k, mode, ZeroIv(), input)
  {
    assert input[|input|..] == [] && done[..|input|] == done;
  }

  // ---------------------------------------------------------------- HMAC-SHA256

  const HMAC_BLOCK := 64

  /** The key of section 2 of RFC 2104, hashed when it is longer than a block and padded with zeros. */
  function HmacKeyBlock(sha: Bytes -> Digest, hk: Bytes): (k: Bytes)
    ensures |k| == HMAC_BLOCK
  {
    var key := if |hk| > HMAC_BLOCK then sha(hk) else hk;
    key + Repeat(HMAC_BLOCK - |key|, 0)
  }

  /** H(K xor opad, H(K xor ipad, text)) */
  function Hmac(sha: Bytes -> Digest, hk: Bytes, text: Bytes): Digest {
    var key := HmacKeyBlock(sha, hk);
    var inner := sha(XorBytes(key, Repeat(HMAC_BLOCK, 0x36)) + text);
    sha(XorBytes(key, Repeat(HMAC_BLOCK, 0x5c)) + inner)
  }

  /** hmac_sha256_digest */
  method HmacSha256Digest(sha: Bytes -> Digest, hk: Bytes, text: Bytes) returns (digest: Digest)
    ensures digest == Hmac(sha, hk, text)
  {
    var key := hk;
    if |key| > HMAC_BLOCK {
      key := sha(key);
    }
    if |key| < HMAC_BLOCK {
      key := key + Repeat(HMAC_BLOCK - |key|, 0);
    }
    assert key == HmacKeyBlock(sha, hk);
    var oKeyPad := new byte[HMAC_BLOCK](i => 0x5c);
    assert oKeyPad[..] == Repeat(HMAC_BLOCK, 0x5c);
    var _ := XorBuffer(oKeyPad, key);
    var iKeyPad := new byte[HMAC_BLOCK](i => 0x36);
    assert iKeyPad[..] == Repeat(HMAC_BLOCK, 0x36);
    var _ := XorBuffer(iKeyPad, key);
    XorBytesCommute(key, Repeat(HMAC_BLOCK, 0x5c));
    XorBytesCommute(key, Repeat(HMAC_BLOCK, 0x36));
    digest := sha(oKeyPad[..] + sha(iKeyPad[..] + text));
  }

  /**
   The construction byte by byte: the inner text starts with the key combined with 0x36, the outer
   one with the key combined with 0x5c, in 64 bytes each.
   */
  lemma HmacLayout(sha: Bytes -> Digest, hk: Bytes, text: Bytes) returns (inner: Bytes, outer: Bytes)
    ensures Hmac(sha, hk, text) == sha(outer + sha(inner + text))
    ensures |inner| == 64 && |outer| == 64
    ensures forall j | 0 <= j < 64 ::
              var key: byte := if |hk| > 64 then (if j < 32 then sha(hk)[j] else 0) else if j < |hk| then hk[j] else 0;
              inner[j] == XorByte(key, 0x36) && outer[j] == XorByte(key, 0x5c)
  {
    var key := HmacKeyBlock(sha, hk);
    inner, outer := XorBytes(key, Repeat(HMAC_BLOCK, 0x36)), XorBytes(key, Repeat(HMAC_BLOCK, 0x5c));
  }

  // ---------------------------------------------------------------- bit by bit

  lemma {:induction false} OneBitMore(n: nat, a: nat, b: nat)
    requires a < Pow2(n) && b < Pow2(n)
    ensures XorBits(n + 1, a, b) == XorBits(n, a, b)
  {
    if n > 0 {
      OneBitMore(n - 1, a / 2, b / 2);
    }
  }

  /** The lowest bit of the combination is set when one of the two is, and the rest is that of the halves. */
  lemma XorByteBits(a: byte, b: byte)
    ensures XorByte(a, b) % 2 == (a as nat + b as nat) % 2
    ensures XorByte(a, b) / 2 == XorByte(a / 2, b / 2)
  {
    BitsOfByte();
    OneBitMore(7, a / 2, b / 2);
    HalfAndBit(XorBits(8, a, b), XorBits(7, a / 2, b / 2), XorBit(a, b));
    XorBitIsParity(a, b);
  }

  lemma XorBitIsParity(a: nat, b: nat)
    ensures XorBit(a, b) == (a + b) % 2
  {
  }

  lemma {:induction false} XorBitsZero(n: nat, b: nat)
    requires b < Pow2(n)
    ensures XorBits(n, 0, b) == b
  {
    if n > 0 {
      XorBitsZero(n - 1, b / 2);
    }
  }

  /** The chaining value of zeros changes nothing: the first block is encrypted as it is, in both modes. */
  lemma FirstBlock(c: Cipher, k: Key, mode: CipherMode, p: Bytes)
    requires Encrypt(c, k, mode, p).Some?
    ensures |p| >= 16 && BlockAt(Encrypt(c, k, mode, p).value, 0) == c.enc(k, BlockAt(p, 0))
  {
    forall i | 0 <= i < 16
      ensures XorByte(0, p[i]) == p[i]
    {
      BitsOfByte();
      XorBitsZero(8, p[i]);
    }
    assert XorBytes(ZeroIv(), BlockAt(p, 0)) == BlockAt(p, 0);
    CbcEquations(c, k, ZeroIv(), p, 0);
    EcbEquations(c, k, p, 0);
  }

  /** Decrypting block by block, any aligned text: in the chained mode each is combined with the cipher block before it. */
  lemma {:induction false} CbcDecryptEquations(c: Cipher, k: Key, iv: Block, x: Bytes, j: nat)
    requires Aligned(x) && BLOCK * (j + 1) <= |x|
    ensures BlockAt(CbcDecrypt(c, k, iv, x), j)
         == XorBytes(c.dec(k, BlockAt(x, j)), if j == 0 then iv else BlockAt(x, j - 1))
    decreases j
  {
    var first := XorBytes(c.dec(k, x[..BLOCK]), iv);
    var rest := CbcDecrypt(c, k, x[..BLOCK], x[BLOCK..]);
    assert CbcDecrypt(c, k, iv, x) == first + rest;
    assert BlockAt(x, 0) == x[..BLOCK] && BlockAt(first + rest, 0) == first;
    if j > 0 {
      CbcDecryptEquations(c, k, x[..BLOCK], x[BLOCK..], j - 1);
      BlockOfTail(first, rest, j);
      assert x == x[..BLOCK] + x[BLOCK..];
      BlockOfTail(x[..BLOCK], x[BLOCK..], j);
      if j > 1 {
        BlockOfTail(x[..BLOCK], x[BLOCK..], j - 1);
      }
    }
  }

  lemma {:induction false} EcbDecryptEquations(c: Cipher, k: Key, x: Bytes, j: nat)
    requires Aligned(x) && BLOCK * (j + 1) <= |x|
    ensures BlockAt(EcbDecrypt(c, k, x), j) == c.dec(k, BlockAt(x, j))
    decreases j
  {
    var first: Bytes := c.dec(k, x[..BLOCK]);
    var rest := EcbDecrypt(c, k, x[BLOCK..]);
    assert EcbDecrypt(c, k, x) == first + rest;
    if j == 0 {
      assert BlockAt(first + rest, 0) == first && BlockAt(x, 0) == x[..BLOCK];
    } else {
      EcbDecryptEquations(c, k, x[BLOCK..], j - 1);
      BlockOfTail(first, rest, j);
      assert x == x[..BLOCK] + x[BLOCK..];
      BlockOfTail(x[..BLOCK], x[BLOCK..], j);
    }
  }
}
