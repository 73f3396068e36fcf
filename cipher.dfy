/** The block cipher codec of `encrypt`, `decrypt` and `get_secret_key`: AES-128 in
    electronic-codebook mode (section 6.1 of NIST SP 800-38A), PKCS#7 padding
    (section 6.3 of RFC 5652), and standard base64 for the ciphertext. The AES block
    permutation itself is a parameter. */
module Cipher {

  import opened Wrappers
  import opened Text
  import Base64

  const BLOCK_SIZE: nat := 16

  type Block = s: seq<byte> | |s| == 16 witness seq(16, _ => 0)

  /** An AES-128 key: always exactly 16 bytes. */
  type Key = s: seq<byte> | |s| == 16 witness seq(16, _ => 0)

  /** The block function of a 128-bit block cipher, in both directions. */
  datatype BlockCipher = BlockCipher(encrypt: (Key, Block) -> Block, decrypt: (Key, Block) -> Block)

  /** What is known of AES here: under each key the two directions are inverse
      permutations of the 16-byte blocks. */
  ghost predicate IsPermutation(c: BlockCipher) {
    && (forall k: Key, b: Block :: c.decrypt(k, c.encrypt(k, b)) == b)
    && (forall k: Key, b: Block :: c.encrypt(k, c.decrypt(k, b)) == b)
  }

  datatype CipherError = InvalidBase64 | UnpadError

  /** `get_secret_key`: the key's bytes resized to 16, cut off or filled with zeros. */
  function SecretKey(key: seq<byte>): (r: Key)
    ensures forall i :: 0 <= i < 16 ==> r[i] == if i < |key| then key[i] else 0
  {
    if |key| >= 16 then key[..16] else key + seq(16 - |key|, _ => 0)
  }

  /** Only the first 16 bytes of a key matter. */
  lemma {:induction false} SecretKeyPrefix(k1: seq<byte>, k2: seq<byte>)
    requires |k1| >= 16 && |k2| >= 16 && k1[..16] == k2[..16]
    ensures SecretKey(k1) == SecretKey(k2)
  {
  }

  lemma {:induction false} SecretKeyIdempotent(key: seq<byte>)
    ensures SecretKey(SecretKey(key)) == SecretKey(key)
  {
  }

  /** PKCS#7 padding to the block size: n = 16 - |p| mod 16 bytes, each of value n,
      a whole block of them when p already fills its last block. */
  function Pad(p: seq<byte>): (r: seq<byte>)
    ensures |r| % BLOCK_SIZE == 0
    ensures |p| < |r| <= |p| + BLOCK_SIZE
    ensures r[..|p|] == p
    ensures forall i :: |p| <= i < |r| ==> r[i] == |r| - |p|
  {
    var n := BLOCK_SIZE - |p| % BLOCK_SIZE;
    p + seq(n, _ => n)
  }

  /** PKCS#7 unpadding of the last block: its last byte n must be in 1..16 and the
      n - 1 bytes before it must all equal n. */
  function Unpad(x: seq<byte>): (r: Option<seq<byte>>)
    requires |x| >= BLOCK_SIZE
    ensures r.Some? ==> |x| - BLOCK_SIZE <= |r.value| < |x| && r.value == x[..|r.value|]
  {
    var n := x[|x| - 1];
    if n == 0 || n > BLOCK_SIZE then None
    else if exists i :: |x| - n <= i < |x| - 1 && x[i] != n then None
    else Some(x[..|x| - n])
  }

  lemma {:induction false} UnpadPad(p: seq<byte>)
    ensures Unpad(Pad(p)) == Some(p)
  {
    var r := Pad(p);
    assert r[|r| - 1] == |r| - |p|;
  }

  /** Unpadding accepts exactly the padded texts. */
  lemma {:induction false} PadUnpad(x: seq<byte>)
    requires |x| >= BLOCK_SIZE && |x| % BLOCK_SIZE == 0 && Unpad(x).Some?
    ensures Pad(Unpad(x).value) == x
  {
    var p := Unpad(x).value;
    var n := x[|x| - 1];
    assert |p| == |x| - n;
    assert (|x| - n) % BLOCK_SIZE == BLOCK_SIZE - n by {
      assert |x| - n == (|x| - BLOCK_SIZE) + (BLOCK_SIZE - n);
    }
    var r := Pad(p);
    assert |r| == |x|;
    forall i | 0 <= i < |x| ensures r[i] == x[i] {
      if i >= |p| { assert r[i] == n; }
    }
  }

  /** Electronic-codebook mode: every 16-byte block through the block function on its
      own, no chaining and no initialisation vector. */
  function Ecb(f: (Key, Block) -> Block, key: Key, data: seq<byte>): (r: seq<byte>)
    requires |data| % BLOCK_SIZE == 0
    ensures |r| == |data|
    decreases |data|
  {
    if data == [] then [] else f(key, data[..BLOCK_SIZE]) + Ecb(f, key, data[BLOCK_SIZE..])
  }

  lemma {:induction false} EcbAppend(f: (Key, Block) -> Block, key: Key, x: seq<byte>, y: seq<byte>)
    requires |x| % BLOCK_SIZE == 0 && |y| % BLOCK_SIZE == 0
    ensures Ecb(f, key, x + y) == Ecb(f, key, x) + Ecb(f, key, y)
    decreases |x|
  {
    if x != [] {
      assert (x + y)[..BLOCK_SIZE] == x[..BLOCK_SIZE];
      assert (x + y)[BLOCK_SIZE..] == x[BLOCK_SIZE..] + y;
      EcbAppend(f, key, x[BLOCK_SIZE..], y);
    } else {
      assert x + y == y;
    }
  }

  lemma {:induction false} EcbInverse(c: BlockCipher, key: Key, x: seq<byte>)
    requires IsPermutation(c) && |x| % BLOCK_SIZE == 0
    ensures Ecb(c.decrypt, key, Ecb(c.encrypt, key, x)) == x
    ensures Ecb(c.encrypt, key, Ecb(c.decrypt, key, x)) == x
    decreases |x|
  {
    if x != [] {
      EcbInverse(c, key, x[BLOCK_SIZE..]);
      var e := Ecb(c.encrypt, key, x);
      assert e[..BLOCK_SIZE] == c.encrypt(key, x[..BLOCK_SIZE]);
      assert e[BLOCK_SIZE..] == Ecb(c.encrypt, key, x[BLOCK_SIZE..]);
      var d := Ecb(c.decrypt, key, x);
      assert d[..BLOCK_SIZE] == c.decrypt(key, x[..BLOCK_SIZE]);
      assert d[BLOCK_SIZE..] == Ecb(c.decrypt, key, x[BLOCK_SIZE..]);
      assert x == x[..BLOCK_SIZE] + x[BLOCK_SIZE..];
    }
  }

  /** The text `encrypt(plain, key)` returns. */
  function Ciphertext(c: BlockCipher, plain: seq<byte>, key: seq<byte>): seq<byte>
  {
    Base64.Encode(Ecb(c.encrypt, SecretKey(key), Pad(plain)))
  }

  /** `encrypt`: the plaintext is copied into a buffer one block longer than itself,
      padded there and encrypted block by block in place; the padded prefix is then
      base64-encoded. The buffer is always long enough, so the padding error the
      source maps to `Err` cannot occur. */
  method Encrypt(c: BlockCipher, plain: seq<byte>, key: seq<byte>) returns (text: seq<byte>)
    ensures text == Ciphertext(c, plain, key)
  {
    var secretKey := SecretKey(key);
    var buffer := new byte[|plain| + BLOCK_SIZE];
    for i := 0 to |plain|
      invariant forall j :: 0 <= j < i ==> buffer[j] == plain[j]
    {
      buffer[i] := plain[i];
    }
    assert buffer[..|plain|] == plain;
    var total := PadInPlace(buffer, |plain|);
    EncryptBlocksInPlace(c, secretKey, buffer, total);
    text := Base64.Encode(buffer[..total]);
  }

  /** The PKCS#7 step of `encrypt_padded_mut`: pads the message held in `buffer[..len]`
      inside the buffer and returns the padded length. */
  method PadInPlace(buffer: array<byte>, len: nat) returns (total: nat)
    requires len + BLOCK_SIZE <= buffer.Length
    modifies buffer
    ensures total == |Pad(old(buffer[..len]))|
    ensures buffer[..total] == Pad(old(buffer[..len]))
  {
    ghost var padded := Pad(buffer[..len]);
    var padLen := BLOCK_SIZE - len % BLOCK_SIZE;
    total := len + padLen;
    for i := len to total
      invariant buffer[..i] == padded[..i]
    {
      buffer[i] := padLen;
    }
  }

  /** The ECB step of `encrypt_padded_mut`: every block of `buffer[..total]` replaced
      by its encryption. */
  method EncryptBlocksInPlace(c: BlockCipher, key: Key, buffer: array<byte>, total: nat)
    requires total <= buffer.Length && total % BLOCK_SIZE == 0
    modifies buffer
    ensures buffer[..total] == Ecb(c.encrypt, key, old(buffer[..total]))
  {
    ghost var padded := buffer[..total];
    var b := 0;
    while b < total / BLOCK_SIZE
      invariant 0 <= b <= total / BLOCK_SIZE
      invariant buffer[..BLOCK_SIZE * b] == Ecb(c.encrypt, key, padded[..BLOCK_SIZE * b])
      invariant buffer[BLOCK_SIZE * b..total] == padded[BLOCK_SIZE * b..total]
    {
      var start := BLOCK_SIZE * b;
      assert start + BLOCK_SIZE <= total;
      ghost var block := padded[start..start + BLOCK_SIZE];
      assert block == buffer[start..total][..BLOCK_SIZE] == buffer[start..start + BLOCK_SIZE];
      ghost var done := buffer[..start];
      ghost var rest := buffer[start + BLOCK_SIZE..total];
      EncryptBlockAt(c, key, buffer, start);
      assert buffer[..start + BLOCK_SIZE] == buffer[..start] + buffer[start..start + BLOCK_SIZE];
      assert buffer[..start + BLOCK_SIZE] == done + c.encrypt(key, block);
      assert buffer[start + BLOCK_SIZE..total] == rest;
      EcbBlock(c.encrypt, key, padded, b);
      b := b + 1;
    }
    assert padded[..total] == padded;
  }

  /** Encrypts the block at `start` in place, leaving the rest of the buffer alone. */
  method EncryptBlockAt(c: BlockCipher, key: Key, buffer: array<byte>, start: nat)
    requires start + BLOCK_SIZE <= buffer.Length
    modifies buffer
    ensures buffer[..start] == old(buffer[..start])
    ensures buffer[start..start + BLOCK_SIZE] == c.encrypt(key, old(buffer[start..start + BLOCK_SIZE]))
    ensures forall i :: start + BLOCK_SIZE <= i < buffer.Length ==> buffer[i] == old(buffer[i])
  {
    var block: Block := buffer[start..start + BLOCK_SIZE];
    var out := c.encrypt(key, block);
    forall j | 0 <= j < BLOCK_SIZE {
      buffer[start + j] := out[j];
    }
    assert buffer[start..start + BLOCK_SIZE] == out;
  }

  /** Encrypting one more block extends the encrypted prefix by that block's image. */
  lemma {:induction false} EcbBlock(f: (Key, Block) -> Block, key: Key, x: seq<byte>, b: nat)
    requires |x| % BLOCK_SIZE == 0 && BLOCK_SIZE * (b + 1) <= |x|
    ensures Ecb(f, key, x[..BLOCK_SIZE * (b + 1)])
      == Ecb(f, key, x[..BLOCK_SIZE * b]) + f(key, x[BLOCK_SIZE * b..BLOCK_SIZE * (b + 1)])
  {
    var blk := x[BLOCK_SIZE * b..BLOCK_SIZE * (b + 1)];
    assert x[..BLOCK_SIZE * (b + 1)] == x[..BLOCK_SIZE * b] + blk;
    EcbAppend(f, key, x[..BLOCK_SIZE * b], blk);
    assert blk[BLOCK_SIZE..] == [];
    assert blk[..BLOCK_SIZE] == blk;
  }

  /** `decrypt`: base64-decode, decrypt every block, strip the PKCS#7 padding. A
      ciphertext that is empty or not a whole number of blocks fails to unpad. */
  function Decrypt(c: BlockCipher, text: seq<byte>, key: seq<byte>): (r: Result<seq<byte>, CipherError>)
    ensures r == Err(InvalidBase64) <==> Base64.Decode(text).None?
  {
    match Base64.Decode(text)
    case None => Err(InvalidBase64)
    case Some(ct) =>
      if |ct| == 0 || |ct| % BLOCK_SIZE != 0 then Err(UnpadError)
      else
        match Unpad(Ecb(c.decrypt, SecretKey(key), ct))
        case None => Err(UnpadError)
        case Some(p) => Ok(p)
  }

  /** Decryption inverts encryption under the same key ... */
  lemma {:induction false} DecryptEncrypt(c: BlockCipher, plain: seq<byte>, key: seq<byte>)
    requires IsPermutation(c)
    ensures Decrypt(c, Ciphertext(c, plain, key), key) == Ok(plain)
  {
    var k := SecretKey(key);
    var ct := Ecb(c.encrypt, k, Pad(plain));
    Base64.DecodeEncode(ct);
    EcbInverse(c, k, Pad(plain));
    UnpadPad(plain);
  }

  /** ... and a text decrypts to a plaintext only if it is that plaintext's ciphertext. */
  lemma {:induction false} EncryptDecrypt(c: BlockCipher, text: seq<byte>, key: seq<byte>)
    requires IsPermutation(c) && Decrypt(c, text, key).Ok?
    ensures Ciphertext(c, Decrypt(c, text, key).value, key) == text
  {
    var k := SecretKey(key);
    var ct := Base64.Decode(text).value;
    var pt := Ecb(c.decrypt, k, ct);
    assert |ct| >= BLOCK_SIZE && |ct| % BLOCK_SIZE == 0 && Unpad(pt).Some?;
    var plain := Unpad(pt).value;
    assert Decrypt(c, text, key).value == plain;
    assert Pad(plain) == pt by {
      PadUnpad(pt);
    }
    assert Ecb(c.encrypt, k, pt) == ct by {
      EcbInverse(c, k, ct);
    }
    Base64.EncodeDecode(text);
  }
}
