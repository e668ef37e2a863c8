/**
 * The 32-round Feistel network of the cipher, over an arbitrary round
 * function `F` and an arbitrary sequence of round keys, together with the
 * two key orders the cipher uses (`encrypt<24>` and `encrypt<8>`).
 *
 * A 64-bit block is held as two 32-bit halves: `a`, the low half, which is
 * fed to the round function, and `b`, the high half.
 */
module Feistel {

  /** The two halves of a block during the rounds: `a` low, `b` high. */
  datatype Halves = Halves(a: bv32, b: bv32)

  /** A round function: half-block and round key to a 32-bit word. */
  type RoundFn = (bv32, bv32) -> bv32

  /** Splits a block: `b` gets the high 32 bits, `a` the low 32 bits. */
  function Halve(m: bv64): Halves {
    Halves((m & 0xffff_ffff) as bv32, (m >> 32) as bv32)
  }

  /** Reassembles a block with `h.a` in the high and `h.b` in the low half. */
  function Merge(h: Halves): bv64 {
    ((h.a as bv64) << 32) | (h.b as bv64)
  }

  /** The halves exchanged. */
  function Swap(h: Halves): Halves {
    Halves(h.b, h.a)
  }

  /** One swapping round: `t = b ^ F(a, k); b = a; a = t`. */
  function Step(F: RoundFn, h: Halves, k: bv32): Halves {
    Halves(h.b ^ F(h.a, k), h.a)
  }

  /** The rounds keyed by `ks`, in order, starting from `h`. */
  function Run(F: RoundFn, ks: seq<bv32>, h: Halves): Halves
    decreases |ks|
  {
    if ks == [] then h else Step(F, Run(F, ks[..|ks| - 1], h), ks[|ks| - 1])
  }

  /** The whole network: halve, run every round, merge with the halves swapped. */
  function Network(F: RoundFn, ks: seq<bv32>, m: bv64): bv64 {
    Merge(Run(F, ks, Halve(m)))
  }

  /** `s` in reverse order. */
  function Reversed<T>(s: seq<T>): (r: seq<T>)
    ensures |r| == |s|
    ensures forall i :: 0 <= i < |s| ==> r[i] == s[|s| - 1 - i]
  {
    seq(|s|, i requires 0 <= i < |s| => s[|s| - 1 - i])
  }

  /**
   * Index of the stage key used in round `i` of `encrypt<straight>`: the
   * first `straight` rounds take the keys in straight order, the rest in
   * reverse order.
   */
  function KeyIndex(straight: nat, i: nat): (r: nat)
    ensures r < 8
  {
    if i < straight then i % 8 else 7 - i % 8
  }

  /** The 32 round keys of `encrypt<straight>` for the stage keys `sk`. */
  function Schedule(sk: seq<bv32>, straight: nat): (ks: seq<bv32>)
    requires |sk| == 8
    ensures |ks| == 32
    ensures forall i :: 0 <= i < 32 ==> ks[i] == sk[KeyIndex(straight, i)]
  {
    seq(32, i requires 0 <= i < 32 => sk[KeyIndex(straight, i)])
  }

  /** Number of straight-order rounds of the encryption binding `encrypt_`. */
  const EncryptStraight: nat := 24
  /** Number of straight-order rounds of the decryption binding `decrypt_`. */
  const DecryptStraight: nat := 8

  // ----- Lemmas -----

  /** Halving a merged block gives the halves back exchanged. */
  lemma HalveMerge(h: Halves)
    ensures Halve(Merge(h)) == Swap(h)
  {
  }

  /** Merging the exchanged halves of a block gives the block back. */
  lemma MergeSwapHalve(m: bv64)
    ensures Merge(Swap(Halve(m))) == m
  {
  }

  /** Running a key sequence that starts with `k` is one step followed by the rest. */
  lemma {:induction false} RunCons(F: RoundFn, k: bv32, ks: seq<bv32>, h: Halves)
    ensures Run(F, [k] + ks, h) == Run(F, ks, Step(F, h, k))
    decreases |ks|
  {
    if ks == [] {
      assert [k] + ks == [k];
      assert [k][..0] == [];
    } else {
      var ks' := ks[..|ks| - 1];
      assert ([k] + ks)[..|ks|] == [k] + ks';
      RunCons(F, k, ks', h);
    }
  }

  /** A round applied to the exchanged output of the same round restores the exchanged input. */
  lemma StepUndone(F: RoundFn, h: Halves, k: bv32)
    ensures Step(F, Swap(Step(F, h, k)), k) == Swap(h)
  {
  }

  /**
   * The swap lemma: running the reversed keys from the exchanged final
   * state of a run gives the exchanged initial state, whatever `F` is.
   */
  lemma {:induction false} RunReversed(F: RoundFn, ks: seq<bv32>, h: Halves)
    ensures Run(F, Reversed(ks), Swap(Run(F, ks, h))) == Swap(h)
    decreases |ks|
  {
    if ks != [] {
      var xs, k := ks[..|ks| - 1], ks[|ks| - 1];
      var mid := Run(F, xs, h);
      assert Reversed(ks) == [k] + Reversed(xs);
      RunCons(F, k, Reversed(xs), Swap(Step(F, mid, k)));
      StepUndone(F, mid, k);
      RunReversed(F, xs, h);
    }
  }

  /** Feistel involution: the network keyed by `Reversed(ks)` undoes the one keyed by `ks`, for every `F`. */
  lemma NetworkReversed(F: RoundFn, ks: seq<bv32>, m: bv64)
    ensures Network(F, Reversed(ks), Network(F, ks, m)) == m
  {
    HalveMerge(Run(F, ks, Halve(m)));
    RunReversed(F, ks, Halve(m));
    MergeSwapHalve(m);
  }

  /** The decryption schedule is the encryption schedule read backwards, and conversely. */
  lemma ScheduleReversed(sk: seq<bv32>)
    requires |sk| == 8
    ensures Schedule(sk, DecryptStraight) == Reversed(Schedule(sk, EncryptStraight))
    ensures Schedule(sk, EncryptStraight) == Reversed(Schedule(sk, DecryptStraight))
  {
    forall i | 0 <= i < 32
      ensures KeyIndex(DecryptStraight, i) == KeyIndex(EncryptStraight, 31 - i)
    {
    }
  }

  /** The encryption schedule is K0..K7 three times, then K7..K0. */
  lemma EncryptionSchedule(sk: seq<bv32>)
    requires |sk| == 8
    ensures Schedule(sk, EncryptStraight) == sk + sk + sk + Reversed(sk)
  {
  }

  /** The decryption schedule is K0..K7 once, then K7..K0 three times. */
  lemma DecryptionSchedule(sk: seq<bv32>)
    requires |sk| == 8
    ensures Schedule(sk, DecryptStraight) == sk + Reversed(sk) + Reversed(sk) + Reversed(sk)
  {
  }

  /** `encrypt_` then `decrypt_` is the identity, and so is `decrypt_` then `encrypt_`, for every `F`. */
  lemma EncryptDecrypt(F: RoundFn, sk: seq<bv32>, m: bv64)
    requires |sk| == 8
    ensures Network(F, Schedule(sk, DecryptStraight), Network(F, Schedule(sk, EncryptStraight), m)) == m
    ensures Network(F, Schedule(sk, EncryptStraight), Network(F, Schedule(sk, DecryptStraight), m)) == m
  {
    ScheduleReversed(sk);
    NetworkReversed(F, Schedule(sk, EncryptStraight), m);
    NetworkReversed(F, Schedule(sk, DecryptStraight), m);
  }

  /**
   * The form of the older revision: 31 swapping rounds followed by one
   * round that updates `b` in place with the last round key, reassembled
   * as `(b << 32) | a`, equals the 32-round network.
   */
  lemma LastRoundUnswapped(F: RoundFn, ks: seq<bv32>, m: bv64, a: bv32, b: bv32, t: bv32)
    requires |ks| == 32 && Halves(a, b) == Run(F, ks[..31], Halve(m)) && t == F(a, ks[31])
    ensures Merge(Halves(b ^ t, a)) == Network(F, ks, m)
  {
    assert ks[..|ks| - 1] == ks[..31];
    LastRun(F, ks, Halve(m), a, b, t);
  }

  /** A last round `t = F(a, k)` that updates `b` in place completes the run. */
  lemma LastRun(F: RoundFn, ks: seq<bv32>, h: Halves, a: bv32, b: bv32, t: bv32)
    requires ks != [] && Halves(a, b) == Run(F, ks[..|ks| - 1], h) && t == F(a, ks[|ks| - 1])
    ensures Run(F, ks, h) == Halves(b ^ t, a)
  {
  }

  /** One more swapping round `t = b ^ F(a, ks[i]); b = a; a = t` runs one more key of `ks`. */
  lemma RoundAdvance(F: RoundFn, ks: seq<bv32>, i: nat, h: Halves, a: bv32, b: bv32, t: bv32)
    requires i < |ks| && Halves(a, b) == Run(F, ks[..i], h) && t == b ^ F(a, ks[i])
    ensures Halves(t, a) == Run(F, ks[..i + 1], h)
  {
    RunPrefixStep(F, ks, i, h);
  }

  /** Running one more key of `ks` is one more step. */
  lemma RunPrefixStep(F: RoundFn, ks: seq<bv32>, i: nat, h: Halves)
    requires i < |ks|
    ensures Run(F, ks[..i + 1], h) == Step(F, Run(F, ks[..i], h), ks[i])
  {
    assert ks[..i + 1][..i] == ks[..i];
  }
}
