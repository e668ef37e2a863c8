/**
 * The cipher object and the whole-message operations: a 256-bit key and
 * eight substitution tables fixed at construction, the eight stage keys
 * derived from the key, the 32-round block transformation, and the
 * encryption and decryption of byte messages in the ECB, CBC, CFB and OFB
 * modes.
 */
module Magma {

  import opened Words
  import opened Feistel
  import opened RoundFunction
  import opened KeySchedule
  import opened Splitting
  import opened Modes

  /** Block encryption (`encrypt_`, that is `encrypt<24>`) under `key` and the tables `sb`. */
  function EncryptBlock(sb: SBoxes, key: bv256, m: bv64): bv64 {
    Network(RoundOf(sb), Schedule(StageKeysOf(key), EncryptStraight), m)
  }

  /** Block decryption (`decrypt_`, that is `encrypt<8>`) under `key` and the tables `sb`. */
  function DecryptBlock(sb: SBoxes, key: bv256, m: bv64): bv64 {
    Network(RoundOf(sb), Schedule(StageKeysOf(key), DecryptStraight), m)
  }

  /** Block encryption as a block transformation for the modes. */
  function Encryption(sb: SBoxes, key: bv256): BlockFn {
    m => EncryptBlock(sb, key, m)
  }

  /** Block decryption as a block transformation for the modes. */
  function Decryption(sb: SBoxes, key: bv256): BlockFn {
    m => DecryptBlock(sb, key, m)
  }

  /** Length of every mode's output for an `n`-byte message: 8 bytes per started block. */
  function OutputLength(n: nat): (r: nat)
    ensures r % 8 == 0 && n <= r < n + 8
    ensures n % 8 == 0 ==> r == n
  {
    8 * ((n + 7) / 8)
  }

  /** `EncryptECB` of a message. */
  function EcbEncryption(sb: SBoxes, key: bv256, message: seq<byte>): (r: seq<byte>)
    ensures |r| == OutputLength(|message|)
  {
    SplitLength(message);
    Serialize(Ecb(Encryption(sb, key), Split(message)))
  }

  /** `DecryptECB` of a message. */
  function EcbDecryption(sb: SBoxes, key: bv256, message: seq<byte>): (r: seq<byte>)
    ensures |r| == OutputLength(|message|)
  {
    SplitLength(message);
    Serialize(Ecb(Decryption(sb, key), Split(message)))
  }

  /** `EncryptCBC` of a message with initialization vector `iv`. */
  function CbcEncryption(sb: SBoxes, key: bv256, message: seq<byte>, iv: bv64): (r: seq<byte>)
    ensures |r| == OutputLength(|message|)
  {
    SplitLength(message);
    Serialize(CbcEncrypt(Encryption(sb, key), iv, Split(message)))
  }

  /** `DecryptCBC` of a message with initialization vector `iv`. */
  function CbcDecryption(sb: SBoxes, key: bv256, message: seq<byte>, iv: bv64): (r: seq<byte>)
    ensures |r| == OutputLength(|message|)
  {
    SplitLength(message);
    Serialize(CbcDecrypt(Decryption(sb, key), iv, Split(message)))
  }

  /** `EncryptCFB` of a message with initialization vector `iv`. */
  function CfbEncryption(sb: SBoxes, key: bv256, message: seq<byte>, iv: bv64): (r: seq<byte>)
    ensures |r| == OutputLength(|message|)
  {
    SplitLength(message);
    Serialize(CfbEncrypt(Encryption(sb, key), iv, Split(message)))
  }

  /** `DecryptCFB` of a message with initialization vector `iv`. */
  function CfbDecryption(sb: SBoxes, key: bv256, message: seq<byte>, iv: bv64): (r: seq<byte>)
    ensures |r| == OutputLength(|message|)
  {
    SplitLength(message);
    Serialize(CfbDecrypt(Encryption(sb, key), iv, Split(message)))
  }

  /** `EncryptOFB` of a message with initialization vector `iv`; `DecryptOFB` is the same operation. */
  function OfbEncryption(sb: SBoxes, key: bv256, message: seq<byte>, iv: bv64): (r: seq<byte>)
    ensures |r| == OutputLength(|message|)
  {
    SplitLength(message);
    Serialize(Ofb(Encryption(sb, key), iv, Split(message)))
  }

  // ----- Lemmas -----

  /** Decrypting an encrypted block gives it back, and so does encrypting a decrypted one. */
  lemma BlockRoundTrip(sb: SBoxes, key: bv256, m: bv64)
    ensures DecryptBlock(sb, key, EncryptBlock(sb, key, m)) == m
    ensures EncryptBlock(sb, key, DecryptBlock(sb, key, m)) == m
  {
    EncryptDecrypt(RoundOf(sb), StageKeysOf(key), m);
  }

  /** `Decryption` inverts `Encryption` and conversely, for every block. */
  lemma TransformsInverse(sb: SBoxes, key: bv256)
    ensures forall x :: Decryption(sb, key)(Encryption(sb, key)(x)) == x
    ensures forall x :: Encryption(sb, key)(Decryption(sb, key)(x)) == x
  {
    forall x: bv64 {
      BlockRoundTrip(sb, key, x);
    }
  }

  /** ECB output block `k` is the encryption of message block `k` alone. */
  lemma EcbBlockwise(sb: SBoxes, key: bv256, message: seq<byte>, k: nat)
    requires k < (|message| + 7) / 8
    ensures EcbEncryption(sb, key, message)[8 * k..8 * k + 8] == LeBytes(EncryptBlock(sb, key, Split(message)[k]))
  {
    SplitLength(message);
    SerializeAt(Ecb(Encryption(sb, key), Split(message)), k);
  }

  /** ECB decryption of an ECB encryption gives the zero-padded message. */
  lemma EcbMessageRoundTrip(sb: SBoxes, key: bv256, message: seq<byte>)
    ensures EcbDecryption(sb, key, EcbEncryption(sb, key, message)) == Padded(message)
    ensures EcbDecryption(sb, key, EcbEncryption(sb, key, message)) == message <==> |message| % 8 == 0
  {
    var ws := Ecb(Encryption(sb, key), Split(message));
    SplitSerialize(ws);
    TransformsInverse(sb, key);
    EcbRoundTrip(Encryption(sb, key), Decryption(sb, key), Split(message));
    SerializeSplit(message);
    PaddedUnchanged(message);
  }

  /** CBC decryption with the same `iv` of a CBC encryption gives the zero-padded message. */
  lemma CbcMessageRoundTrip(sb: SBoxes, key: bv256, message: seq<byte>, iv: bv64)
    ensures CbcDecryption(sb, key, CbcEncryption(sb, key, message, iv), iv) == Padded(message)
    ensures CbcDecryption(sb, key, CbcEncryption(sb, key, message, iv), iv) == message <==> |message| % 8 == 0
  {
    var ws := CbcEncrypt(Encryption(sb, key), iv, Split(message));
    SplitSerialize(ws);
    TransformsInverse(sb, key);
    CbcRoundTrip(Encryption(sb, key), Decryption(sb, key), iv, Split(message));
    SerializeSplit(message);
    PaddedUnchanged(message);
  }

  /** CFB decryption with the same `iv` of a CFB encryption gives the zero-padded message. */
  lemma CfbMessageRoundTrip(sb: SBoxes, key: bv256, message: seq<byte>, iv: bv64)
    ensures CfbDecryption(sb, key, CfbEncryption(sb, key, message, iv), iv) == Padded(message)
    ensures CfbDecryption(sb, key, CfbEncryption(sb, key, message, iv), iv) == message <==> |message| % 8 == 0
  {
    var ws := CfbEncrypt(Encryption(sb, key), iv, Split(message));
    SplitSerialize(ws);
    CfbRoundTrip(Encryption(sb, key), iv, Split(message));
    SerializeSplit(message);
    PaddedUnchanged(message);
  }

  /** OFB applied twice with the same `iv` gives the zero-padded message. */
  lemma OfbMessageRoundTrip(sb: SBoxes, key: bv256, message: seq<byte>, iv: bv64)
    ensures OfbEncryption(sb, key, OfbEncryption(sb, key, message, iv), iv) == Padded(message)
    ensures OfbEncryption(sb, key, OfbEncryption(sb, key, message, iv), iv) == message <==> |message| % 8 == 0
  {
    var ws := Ofb(Encryption(sb, key), iv, Split(message));
    SplitSerialize(ws);
    OfbInvolution(Encryption(sb, key), iv, Split(message));
    SerializeSplit(message);
    PaddedUnchanged(message);
  }

  /** Round `i` of `encrypt<straight>` reads stage key `i % 8` or `7 - i % 8`, which is round key `i` of the schedule. */
  lemma RoundKey(sk: seq<bv32>, straight: nat, i: nat)
    requires |sk| == 8 && i < 32
    ensures sk[if i < straight then i % 8 else 7 - i % 8] == Schedule(sk, straight)[i]
  {
  }

  // ----- One loop iteration of each mode method -----

  /** A CBC decryption step: output `t ^ v` where `t` is the decrypted block, then chain on the ciphertext block. */
  lemma CbcDecryptAdvance(D: BlockFn, v: bv64, ms: seq<bv64>, i: nat, t: bv64, done: seq<byte>, total: seq<byte>)
    requires i < |ms| && t == D(ms[i])
    requires done + Serialize(CbcDecrypt(D, v, ms[i..])) == total
    ensures (done + LeBytes(t ^ v)) + Serialize(CbcDecrypt(D, ms[i], ms[i + 1..])) == total
  {
    CbcDecryptFrom(D, v, ms, i);
    SerializeCons(t ^ v, CbcDecrypt(D, ms[i], ms[i + 1..]));
  }

  /** A CFB encryption step: the next register and output block is `s ^ ms[i]`, where `s` is the encrypted register. */
  lemma CfbEncryptAdvance(E: BlockFn, v: bv64, ms: seq<bv64>, i: nat, s: bv64, done: seq<byte>, total: seq<byte>)
    requires i < |ms| && s == E(v)
    requires done + Serialize(CfbEncrypt(E, v, ms[i..])) == total
    ensures (done + LeBytes(s ^ ms[i])) + Serialize(CfbEncrypt(E, s ^ ms[i], ms[i + 1..])) == total
  {
    var c := Xor(E(v), ms[i]);
    assert c == s ^ ms[i];
    CfbEncryptFrom(E, v, ms, i);
    SerializeCons(c, CfbEncrypt(E, c, ms[i + 1..]));
  }

  /** A CFB decryption step: output `s ^ ms[i]`, where `s` is the encrypted register, then chain on the ciphertext block. */
  lemma CfbDecryptAdvance(E: BlockFn, v: bv64, ms: seq<bv64>, i: nat, s: bv64, done: seq<byte>, total: seq<byte>)
    requires i < |ms| && s == E(v)
    requires done + Serialize(CfbDecrypt(E, v, ms[i..])) == total
    ensures (done + LeBytes(s ^ ms[i])) + Serialize(CfbDecrypt(E, ms[i], ms[i + 1..])) == total
  {
    CfbDecryptFrom(E, v, ms, i);
    SerializeCons(s ^ ms[i], CfbDecrypt(E, ms[i], ms[i + 1..]));
  }

  /** An OFB step: the register becomes `s`, its encryption, and the output block is `s ^ ms[i]`. */
  lemma OfbAdvance(E: BlockFn, v: bv64, ms: seq<bv64>, i: nat, s: bv64, done: seq<byte>, total: seq<byte>)
    requires i < |ms| && s == E(v)
    requires done + Serialize(Ofb(E, v, ms[i..])) == total
    ensures (done + LeBytes(s ^ ms[i])) + Serialize(Ofb(E, s, ms[i + 1..])) == total
  {
    OfbFrom(E, v, ms, i);
    SerializeCons(s ^ ms[i], Ofb(E, s, ms[i + 1..]));
  }

  /**
   * The cipher object: key and tables given at construction, and the stage
   * keys derived from the key into an array of eight words.
   */
  class Cipher {
    const key: bv256
    const blocks: SBoxes
    const stageKeys: array<bv32>

    /** The stage keys are those of the key. */
    ghost predicate Valid()
      reads this, stageKeys
    {
      stageKeys.Length == 8 && stageKeys[..] == StageKeysOf(key)
    }

    /** A cipher with the given key and tables; the stage keys are derived at once. */
    constructor (key: bv256, blocks: SBoxes)
      ensures this.key == key && this.blocks == blocks
      ensures Valid() && fresh(stageKeys)
    {
      this.key := key;
      this.blocks := blocks;
      stageKeys := new bv32[8];
      new;
      GenStageKeys();
    }

    /**
     * `gen_stage_keys`: stage key `i - 1` is the low 32 bits of the key
     * shifted right `i - 1` times by 32 bits. `Low32(k)` is
     * `(k & 0xffffffff).to_ulong()` and `Shift32(k)` is `k >> 32`.
     */
    method GenStageKeys()
      requires stageKeys.Length == 8
      modifies stageKeys
      ensures Valid()
    {
      var k := key;
      for i := 1 to 9
        invariant stageKeys[..i - 1] == KeyWords(key, i - 1)
        invariant k == ShiftedKey(key, i - 1)
      {
        stageKeys[i - 1] := Low32(k);
        assert stageKeys[..i] == stageKeys[..i - 1] + [stageKeys[i - 1]];
        k := Shift32(k);
      }
    }

    /**
     * The round function `f` with this cipher's tables: add the key, then
     * for each nibble `i` OR in `blocks[i][x & 0xf] << i * 4` and shift `x`
     * right by 4, then rotate left by 11 bits.
     */
    method F(a: bv32, stageKey: bv32) returns (r: bv32)
      ensures r == Round(blocks, a, stageKey)
    {
      var x := a + stageKey;
      ghost var sum := x;
      r := 0;
      for i := 0 to 8
        invariant x == Shifted(sum, i)
        invariant r == SubstPrefix(blocks, sum, i)
      {
        SubstStep(blocks, sum, i);
        r := Or32(r, AtNibble(blocks[i][Low4(x)], i));
        x := Shift4(x);
      }
      RotatedSubstitution(blocks, a, stageKey, r);
      r := (r << 11) | (r >> 21);
    }

    /**
     * `encrypt<I>` with `straight` for `I`: halve the block, run 32 swapping
     * rounds, the first `straight` keyed by the stage keys in straight order
     * and the rest in reverse order, and return `(a << 32) | b`.
     */
    method Transform(straight: nat, m: bv64) returns (r: bv64)
      requires Valid()
      ensures r == Network(RoundOf(blocks), Schedule(StageKeysOf(key), straight), m)
    {
      ghost var sk := stageKeys[..];
      ghost var ks := Schedule(sk, straight);
      var h := Halve(m);
      var a, b := h.a, h.b;
      for i := 0 to 32
        invariant Halves(a, b) == Run(RoundOf(blocks), ks[..i], h)
      {
        RoundKey(sk, straight, i);
        var t := F(a, stageKeys[if i < straight then i % 8 else 7 - i % 8]);
        t := b ^ t;
        RoundAdvance(RoundOf(blocks), ks, i, h, a, b, t);
        b := a;
        a := t;
      }
      assert ks[..32] == ks;
      r := Merge(Halves(a, b));
    }

    /**
     * `encrypt` of the older revision: 31 swapping rounds with the first 24
     * keys in straight order, then a last round with stage key 0 that updates
     * `b` in place, returning `(b << 32) | a`. It is `encrypt<24>`.
     */
    method Encrypt(m: bv64) returns (r: bv64)
      requires Valid()
      ensures r == EncryptBlock(blocks, key, m)
    {
      ghost var sk := stageKeys[..];
      ghost var ks := Schedule(sk, EncryptStraight);
      var h := Halve(m);
      var a, b := h.a, h.b;
      for i := 0 to 31
        invariant Halves(a, b) == Run(RoundOf(blocks), ks[..i], h)
      {
        RoundKey(sk, EncryptStraight, i);
        var t := F(a, stageKeys[if i < 24 then i % 8 else 7 - i % 8]);
        t := b ^ t;
        RoundAdvance(RoundOf(blocks), ks, i, h, a, b, t);
        b := a;
        a := t;
      }
      RoundKey(sk, EncryptStraight, 31);
      var t := F(a, stageKeys[0]);
      LastRoundUnswapped(RoundOf(blocks), ks, m, a, b, t);
      b := b ^ t;
      r := Merge(Halves(b, a));
    }

    /**
     * `decrypt` of the older revision: as `Encrypt`, with only the first 8
     * keys in straight order. It is `encrypt<8>`.
     */
    method Decrypt(m: bv64) returns (r: bv64)
      requires Valid()
      ensures r == DecryptBlock(blocks, key, m)
    {
      ghost var sk := stageKeys[..];
      ghost var ks := Schedule(sk, DecryptStraight);
      var h := Halve(m);
      var a, b := h.a, h.b;
      for i := 0 to 31
        invariant Halves(a, b) == Run(RoundOf(blocks), ks[..i], h)
      {
        RoundKey(sk, DecryptStraight, i);
        var t := F(a, stageKeys[if i < 8 then i % 8 else 7 - i % 8]);
        t := b ^ t;
        RoundAdvance(RoundOf(blocks), ks, i, h, a, b, t);
        b := a;
        a := t;
      }
      RoundKey(sk, DecryptStraight, 31);
      var t := F(a, stageKeys[0]);
      LastRoundUnswapped(RoundOf(blocks), ks, m, a, b, t);
      b := b ^ t;
      r := Merge(Halves(b, a));
    }

    /** `EncryptECB`: every block encrypted on its own, the bytes appended in order. */
    method EncryptECB(message: seq<byte>) returns (result: seq<byte>)
      requires Valid()
      ensures result == EcbEncryption(blocks, key, message)
    {
      var ms := SplitMessage(message);
      result := [];
      for i := 0 to |ms|
        invariant result + Serialize(Ecb(Encryption(blocks, key), ms[i..])) == EcbEncryption(blocks, key, message)
      {
        var c := Encrypt(ms[i]);
        var bytes := ToBytes(c);
        EcbFrom(Encryption(blocks, key), ms, i);
        SerializeCons(c, Ecb(Encryption(blocks, key), ms[i + 1..]));
        result := result + bytes;
      }
    }

    /** `DecryptECB`: every block decrypted on its own, the bytes appended in order. */
    method DecryptECB(message: seq<byte>) returns (result: seq<byte>)
      requires Valid()
      ensures result == EcbDecryption(blocks, key, message)
    {
      var ms := SplitMessage(message);
      result := [];
      for i := 0 to |ms|
        invariant result + Serialize(Ecb(Decryption(blocks, key), ms[i..])) == EcbDecryption(blocks, key, message)
      {
        var p := Decrypt(ms[i]);
        var bytes := ToBytes(p);
        EcbFrom(Decryption(blocks, key), ms, i);
        SerializeCons(p, Ecb(Decryption(blocks, key), ms[i + 1..]));
        result := result + bytes;
      }
    }

    /** `EncryptCBC`: each block is XORed with the previous ciphertext block (`iv` first), then encrypted. */
    method EncryptCBC(message: seq<byte>, iv: bv64) returns (result: seq<byte>)
      requires Valid()
      ensures result == CbcEncryption(blocks, key, message, iv)
    {
      var ms := SplitMessage(message);
      result := [];
      var v := iv;
      for i := 0 to |ms|
        invariant result + Serialize(CbcEncrypt(Encryption(blocks, key), v, ms[i..])) == CbcEncryption(blocks, key, message, iv)
      {
        CbcEncryptFrom(Encryption(blocks, key), v, ms, i);
        v := Encrypt(ms[i] ^ v);
        var bytes := ToBytes(v);
        SerializeCons(v, CbcEncrypt(Encryption(blocks, key), v, ms[i + 1..]));
        result := result + bytes;
      }
    }

    /** `DecryptCBC`: each block is decrypted, then XORed with the previous ciphertext block (`iv` first). */
    method DecryptCBC(message: seq<byte>, iv: bv64) returns (result: seq<byte>)
      requires Valid()
      ensures result == CbcDecryption(blocks, key, message, iv)
    {
      var ms := SplitMessage(message);
      result := [];
      var v := iv;
      for i := 0 to |ms|
        invariant result + Serialize(CbcDecrypt(Decryption(blocks, key), v, ms[i..])) == CbcDecryption(blocks, key, message, iv)
      {
        var t := Decrypt(ms[i]);
        var bytes := ToBytes(t ^ v);
        CbcDecryptAdvance(Decryption(blocks, key), v, ms, i, t, result, CbcDecryption(blocks, key, message, iv));
        result := result + bytes;
        v := ms[i];
      }
    }

    /** `EncryptCFB`: the encrypted previous ciphertext block (`iv` first) XORed with the block is the next ciphertext block. */
    method EncryptCFB(message: seq<byte>, iv: bv64) returns (result: seq<byte>)
      requires Valid()
      ensures result == CfbEncryption(blocks, key, message, iv)
    {
      var ms := SplitMessage(message);
      result := [];
      var v := iv;
      for i := 0 to |ms|
        invariant result + Serialize(CfbEncrypt(Encryption(blocks, key), v, ms[i..])) == CfbEncryption(blocks, key, message, iv)
      {
        var s := Encrypt(v);
        CfbEncryptAdvance(Encryption(blocks, key), v, ms, i, s, result, CfbEncryption(blocks, key, message, iv));
        v := s ^ ms[i];
        var bytes := ToBytes(v);
        result := result + bytes;
      }
    }

    /** `DecryptCFB`: the encrypted previous ciphertext block (`iv` first) XORed with the ciphertext block is the plaintext block. */
    method DecryptCFB(message: seq<byte>, iv: bv64) returns (result: seq<byte>)
      requires Valid()
      ensures result == CfbDecryption(blocks, key, message, iv)
    {
      var ms := SplitMessage(message);
      result := [];
      var v := iv;
      for i := 0 to |ms|
        invariant result + Serialize(CfbDecrypt(Encryption(blocks, key), v, ms[i..])) == CfbDecryption(blocks, key, message, iv)
      {
        var s := Encrypt(v);
        CfbDecryptAdvance(Encryption(blocks, key), v, ms, i, s, result, CfbDecryption(blocks, key, message, iv));
        v := s;
        var bytes := ToBytes(v ^ ms[i]);
        result := result + bytes;
        v := ms[i];
      }
    }

    /** `EncryptOFB`: the register is encrypted again for each block and XORed with it. */
    method EncryptOFB(message: seq<byte>, iv: bv64) returns (result: seq<byte>)
      requires Valid()
      ensures result == OfbEncryption(blocks, key, message, iv)
    {
      var ms := SplitMessage(message);
      result := [];
      var v := iv;
      for i := 0 to |ms|
        invariant result + Serialize(Ofb(Encryption(blocks, key), v, ms[i..])) == OfbEncryption(blocks, key, message, iv)
      {
        var s := Encrypt(v);
        OfbAdvance(Encryption(blocks, key), v, ms, i, s, result, OfbEncryption(blocks, key, message, iv));
        v := s;
        var bytes := ToBytes(v ^ ms[i]);
        result := result + bytes;
      }
    }

    /** `DecryptOFB` is `EncryptOFB`. */
    method DecryptOFB(message: seq<byte>, iv: bv64) returns (result: seq<byte>)
      requires Valid()
      ensures result == OfbEncryption(blocks, key, message, iv)
      ensures OfbEncryption(blocks, key, result, iv) == Padded(message)
    {
      result := EncryptOFB(message, iv);
      OfbMessageRoundTrip(blocks, key, message, iv);
    }
  }
}
