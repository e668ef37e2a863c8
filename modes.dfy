/**
 * The four modes of operation on sequences of 64-bit blocks, over an
 * arbitrary block transformation: electronic codebook, cipher block
 * chaining, cipher feedback with full 64-bit feedback, and output feedback
 * (sections 6.1 to 6.4 of NIST SP 800-38A). Each function consumes the
 * blocks front to back, carrying the feedback word the way the loops carry
 * their `IV` variable.
 */
module Modes {

  /** A block transformation: the cipher's encryption or decryption with a fixed key. */
  type BlockFn = bv64 -> bv64

  /** The feedback word in force at block `i`: `iv` for the first block, block `i - 1` of `cs` after it. */
  function Prev(iv: bv64, cs: seq<bv64>, i: nat): bv64
    requires i <= |cs|
  {
    if i == 0 then iv else cs[i - 1]
  }

  /** Bitwise exclusive or of two blocks. */
  function Xor(a: bv64, b: bv64): bv64 { a ^ b }

  /** ECB: every block transformed on its own. */
  function Ecb(E: BlockFn, ms: seq<bv64>): (cs: seq<bv64>)
    ensures |cs| == |ms|
    ensures forall i :: 0 <= i < |ms| ==> cs[i] == E(ms[i])
    decreases |ms|
  {
    if ms == [] then [] else [E(ms[0])] + Ecb(E, ms[1..])
  }

  /** CBC encryption, chaining each cipher block into the next. */
  function CbcEncrypt(E: BlockFn, iv: bv64, ms: seq<bv64>): (cs: seq<bv64>)
    ensures |cs| == |ms|
    decreases |ms|
  {
    if ms == [] then [] else var c := E(Xor(ms[0], iv)); [c] + CbcEncrypt(E, c, ms[1..])
  }

  /** CBC decryption: each block decrypted and XOR-ed with the cipher block before it. */
  function CbcDecrypt(D: BlockFn, iv: bv64, cs: seq<bv64>): (ms: seq<bv64>)
    ensures |ms| == |cs|
    decreases |cs|
  {
    if cs == [] then [] else [Xor(D(cs[0]), iv)] + CbcDecrypt(D, cs[0], cs[1..])
  }

  /** CFB encryption, feeding each cipher block back through `E`. */
  function CfbEncrypt(E: BlockFn, iv: bv64, ms: seq<bv64>): (cs: seq<bv64>)
    ensures |cs| == |ms|
    decreases |ms|
  {
    if ms == [] then [] else var c := Xor(E(iv), ms[0]); [c] + CfbEncrypt(E, c, ms[1..])
  }

  /** CFB decryption; like encryption it uses the encryption direction of the cipher. */
  function CfbDecrypt(E: BlockFn, iv: bv64, cs: seq<bv64>): (ms: seq<bv64>)
    ensures |ms| == |cs|
    decreases |cs|
  {
    if cs == [] then [] else [Xor(E(iv), cs[0])] + CfbDecrypt(E, cs[0], cs[1..])
  }

  /** The OFB key stream of `n` words: `s_1 = E(iv)`, `s_{i+1} = E(s_i)`. */
  function Keystream(E: BlockFn, iv: bv64, n: nat): (ks: seq<bv64>)
    ensures |ks| == n
    decreases n
  {
    if n == 0 then [] else [E(iv)] + Keystream(E, E(iv), n - 1)
  }

  /** OFB, in either direction, feeding the key stream forward. */
  function Ofb(E: BlockFn, iv: bv64, ms: seq<bv64>): (cs: seq<bv64>)
    ensures |cs| == |ms|
    decreases |ms|
  {
    if ms == [] then [] else var s := E(iv); [Xor(s, ms[0])] + Ofb(E, s, ms[1..])
  }

  // ----- Lemmas -----

  /** XOR-ing the same block twice cancels. */
  lemma XorCancel(a: bv64, b: bv64)
    ensures Xor(Xor(a, b), b) == a
    ensures Xor(a, Xor(a, b)) == b
  {
  }

  /** CBC encryption computes `c_i = E(m_i ^ c_{i-1})` with `c_{-1} = iv`. */
  lemma {:induction false} CbcEncryptAt(E: BlockFn, iv: bv64, ms: seq<bv64>, i: nat)
    requires i < |ms|
    ensures var cs := CbcEncrypt(E, iv, ms); cs[i] == E(Xor(ms[i], Prev(iv, cs, i)))
    decreases i
  {
    if i > 0 {
      var c := E(Xor(ms[0], iv));
      var cs := CbcEncrypt(E, iv, ms);
      assert cs == [c] + CbcEncrypt(E, c, ms[1..]);
      CbcEncryptAt(E, c, ms[1..], i - 1);
      assert Prev(c, cs[1..], i - 1) == Prev(iv, cs, i);
    }
  }

  /** CBC decryption computes `m_i = D(c_i) ^ c_{i-1}` with `c_{-1} = iv`. */
  lemma {:induction false} CbcDecryptAt(D: BlockFn, iv: bv64, cs: seq<bv64>, i: nat)
    requires i < |cs|
    ensures CbcDecrypt(D, iv, cs)[i] == Xor(D(cs[i]), Prev(iv, cs, i))
    decreases i
  {
    if i > 0 {
      CbcDecryptAt(D, cs[0], cs[1..], i - 1);
      assert Prev(cs[0], cs[1..], i - 1) == Prev(iv, cs, i);
    }
  }

  /** CFB encryption computes `c_i = E(c_{i-1}) ^ m_i` with `c_{-1} = iv`. */
  lemma {:induction false} CfbEncryptAt(E: BlockFn, iv: bv64, ms: seq<bv64>, i: nat)
    requires i < |ms|
    ensures var cs := CfbEncrypt(E, iv, ms); cs[i] == Xor(E(Prev(iv, cs, i)), ms[i])
    decreases i
  {
    if i > 0 {
      var c := Xor(E(iv), ms[0]);
      var cs := CfbEncrypt(E, iv, ms);
      assert cs == [c] + CfbEncrypt(E, c, ms[1..]);
      CfbEncryptAt(E, c, ms[1..], i - 1);
      assert Prev(c, cs[1..], i - 1) == Prev(iv, cs, i);
    }
  }

  /** CFB decryption computes `m_i = E(c_{i-1}) ^ c_i` with `c_{-1} = iv`. */
  lemma {:induction false} CfbDecryptAt(E: BlockFn, iv: bv64, cs: seq<bv64>, i: nat)
    requires i < |cs|
    ensures CfbDecrypt(E, iv, cs)[i] == Xor(E(Prev(iv, cs, i)), cs[i])
    decreases i
  {
    if i > 0 {
      CfbDecryptAt(E, cs[0], cs[1..], i - 1);
      assert Prev(cs[0], cs[1..], i - 1) == Prev(iv, cs, i);
    }
  }

  /** Key-stream word `i` is `E` of the word before it, `iv` for the first one. */
  lemma {:induction false} KeystreamAt(E: BlockFn, iv: bv64, n: nat, i: nat)
    requires i < n
    ensures var ks := Keystream(E, iv, n); ks[i] == E(Prev(iv, ks, i))
    decreases i
  {
    if i > 0 {
      var s := E(iv);
      var ks := Keystream(E, iv, n);
      assert ks == [s] + Keystream(E, s, n - 1);
      KeystreamAt(E, s, n - 1, i - 1);
      assert Prev(s, ks[1..], i - 1) == Prev(iv, ks, i);
    }
  }

  /** OFB word `i` is input word `i` XOR key-stream word `i`. */
  lemma {:induction false} OfbAt(E: BlockFn, iv: bv64, ms: seq<bv64>, i: nat)
    requires i < |ms|
    ensures Ofb(E, iv, ms)[i] == Xor(Keystream(E, iv, |ms|)[i], ms[i])
    decreases i
  {
    if i > 0 {
      var s := E(iv);
      OfbHead(E, iv, ms);
      KeystreamHead(E, iv, |ms|);
      OfbAt(E, s, ms[1..], i - 1);
      assert Ofb(E, iv, ms)[i] == Ofb(E, s, ms[1..])[i - 1];
      assert Keystream(E, iv, |ms|)[i] == Keystream(E, s, |ms| - 1)[i - 1];
    }
  }

  lemma OfbHead(E: BlockFn, iv: bv64, ms: seq<bv64>)
    requires ms != []
    ensures Ofb(E, iv, ms) == [Xor(E(iv), ms[0])] + Ofb(E, E(iv), ms[1..])
  {
  }

  lemma KeystreamHead(E: BlockFn, iv: bv64, n: nat)
    requires n > 0
    ensures Keystream(E, iv, n) == [E(iv)] + Keystream(E, E(iv), n - 1)
  {
  }

  /** ECB with the inverse transformation undoes ECB. */
  lemma EcbRoundTrip(E: BlockFn, D: BlockFn, ms: seq<bv64>)
    requires forall x :: D(E(x)) == x
    ensures Ecb(D, Ecb(E, ms)) == ms
  {
    var rs := Ecb(D, Ecb(E, ms));
    forall i | 0 <= i < |ms|
      ensures rs[i] == ms[i]
    {
    }
  }

  /** CBC decryption with the inverse transformation and the same `iv` undoes CBC encryption. */
  lemma {:induction false} CbcRoundTrip(E: BlockFn, D: BlockFn, iv: bv64, ms: seq<bv64>)
    requires forall x :: D(E(x)) == x
    ensures CbcDecrypt(D, iv, CbcEncrypt(E, iv, ms)) == ms
    decreases |ms|
  {
    if ms != [] {
      var c := E(Xor(ms[0], iv));
      CbcRoundTrip(E, D, c, ms[1..]);
      XorCancel(ms[0], iv);
    }
  }

  /** CBC encryption with the same `iv` undoes CBC decryption when `E` inverts `D`. */
  lemma {:induction false} CbcRoundTripBack(E: BlockFn, D: BlockFn, iv: bv64, cs: seq<bv64>)
    requires forall x :: E(D(x)) == x
    ensures CbcEncrypt(E, iv, CbcDecrypt(D, iv, cs)) == cs
    decreases |cs|
  {
    if cs != [] {
      CbcRoundTripBack(E, D, cs[0], cs[1..]);
      XorCancel(D(cs[0]), iv);
    }
  }

  /** CFB decryption with the same `iv` undoes CFB encryption, whatever `E` is. */
  lemma {:induction false} CfbRoundTrip(E: BlockFn, iv: bv64, ms: seq<bv64>)
    ensures CfbDecrypt(E, iv, CfbEncrypt(E, iv, ms)) == ms
    decreases |ms|
  {
    if ms != [] {
      var c := Xor(E(iv), ms[0]);
      CfbRoundTrip(E, c, ms[1..]);
      XorCancel(E(iv), ms[0]);
      assert ms == [ms[0]] + ms[1..];
    }
  }

  /** CFB encryption with the same `iv` undoes CFB decryption, whatever `E` is. */
  lemma {:induction false} CfbRoundTripBack(E: BlockFn, iv: bv64, cs: seq<bv64>)
    ensures CfbEncrypt(E, iv, CfbDecrypt(E, iv, cs)) == cs
    decreases |cs|
  {
    if cs != [] {
      CfbRoundTripBack(E, cs[0], cs[1..]);
      XorCancel(E(iv), cs[0]);
    }
  }

  /** OFB is an involution: applying it twice with the same `iv` gives the input back, whatever `E` is. */
  lemma {:induction false} OfbInvolution(E: BlockFn, iv: bv64, ms: seq<bv64>)
    ensures Ofb(E, iv, Ofb(E, iv, ms)) == ms
    decreases |ms|
  {
    if ms != [] {
      var s := E(iv);
      var cs := Ofb(E, iv, ms);
      assert cs == [Xor(s, ms[0])] + Ofb(E, s, ms[1..]);
      assert Ofb(E, iv, cs) == [Xor(s, cs[0])] + Ofb(E, s, cs[1..]);
      OfbInvolution(E, s, ms[1..]);
      XorCancel(s, ms[0]);
    }
  }

  // ----- One block at a time, as the loops consume them -----

  lemma EcbFrom(E: BlockFn, ms: seq<bv64>, i: nat)
    requires i < |ms|
    ensures Ecb(E, ms[i..]) == [E(ms[i])] + Ecb(E, ms[i + 1..])
  {
    assert ms[i..][1..] == ms[i + 1..];
  }

  lemma CbcEncryptFrom(E: BlockFn, iv: bv64, ms: seq<bv64>, i: nat)
    requires i < |ms|
    ensures var c := E(Xor(ms[i], iv)); CbcEncrypt(E, iv, ms[i..]) == [c] + CbcEncrypt(E, c, ms[i + 1..])
  {
    assert ms[i..][1..] == ms[i + 1..];
  }

  lemma CbcDecryptFrom(D: BlockFn, iv: bv64, cs: seq<bv64>, i: nat)
    requires i < |cs|
    ensures CbcDecrypt(D, iv, cs[i..]) == [Xor(D(cs[i]), iv)] + CbcDecrypt(D, cs[i], cs[i + 1..])
  {
    assert cs[i..][1..] == cs[i + 1..];
  }

  lemma CfbEncryptFrom(E: BlockFn, iv: bv64, ms: seq<bv64>, i: nat)
    requires i < |ms|
    ensures var c := Xor(E(iv), ms[i]); CfbEncrypt(E, iv, ms[i..]) == [c] + CfbEncrypt(E, c, ms[i + 1..])
  {
    assert ms[i..][1..] == ms[i + 1..];
  }

  lemma CfbDecryptFrom(E: BlockFn, iv: bv64, cs: seq<bv64>, i: nat)
    requires i < |cs|
    ensures CfbDecrypt(E, iv, cs[i..]) == [Xor(E(iv), cs[i])] + CfbDecrypt(E, cs[i], cs[i + 1..])
  {
    assert cs[i..][1..] == cs[i + 1..];
  }

  lemma OfbFrom(E: BlockFn, iv: bv64, ms: seq<bv64>, i: nat)
    requires i < |ms|
    ensures var s := E(iv); Ofb(E, iv, ms[i..]) == [Xor(s, ms[i])] + Ofb(E, s, ms[i + 1..])
  {
    assert ms[i..][1..] == ms[i + 1..];
  }
}
