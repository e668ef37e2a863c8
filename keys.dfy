/**
 * The stage keys of the cipher: the 256-bit key cut into eight 32-bit
 * words, least significant word first (`gen_stage_keys`).
 */
module KeySchedule {

  /** The key shifted right by one stage key, as `k >>= 32` does. */
  function Shift32(k: bv256): bv256 {
    k >> 32
  }

  /** The low 32 bits of `k`, as `(k & 0xffffffff).to_ulong()` reads them. */
  function Low32(k: bv256): bv32 {
    (k & 0xffff_ffff) as bv32
  }

  /** `key` shifted right by 32 bits `n` times, as `gen_stage_keys` shifts its copy of the key. */
  function ShiftedKey(key: bv256, n: nat): bv256 {
    if n == 0 then key else Shift32(ShiftedKey(key, n - 1))
  }

  /** The first `n` stage keys of `key`: word `i` is the low 32 bits of the key shifted `i` times. */
  function KeyWords(key: bv256, n: nat): (r: seq<bv32>)
    ensures |r| == n
  {
    if n == 0 then [] else KeyWords(key, n - 1) + [Low32(ShiftedKey(key, n - 1))]
  }

  /** The eight stage keys of `key`. */
  function StageKeysOf(key: bv256): (sk: seq<bv32>)
    ensures |sk| == 8
  {
    KeyWords(key, 8)
  }

  /** Eight words joined into a key, word `i` shifted left by `32*i` bits. */
  function Join(w0: bv32, w1: bv32, w2: bv32, w3: bv32, w4: bv32, w5: bv32, w6: bv32, w7: bv32): bv256 {
    (w0 as bv256) | ((w1 as bv256) << 32) | ((w2 as bv256) << 64) | ((w3 as bv256) << 96)
    | ((w4 as bv256) << 128) | ((w5 as bv256) << 160) | ((w6 as bv256) << 192) | ((w7 as bv256) << 224)
  }

  /** The 256-bit key whose stage keys are `sk`. */
  function JoinKeys(sk: seq<bv32>): bv256
    requires |sk| == 8
  {
    Join(sk[0], sk[1], sk[2], sk[3], sk[4], sk[5], sk[6], sk[7])
  }

  // ----- Lemmas -----

  /** One more stage key is the low word of the key shifted once more. */
  lemma KeyWordsStep(key: bv256, n: nat)
    requires 0 < n
    ensures KeyWords(key, n) == KeyWords(key, n - 1) + [Low32(ShiftedKey(key, n - 1))]
  {
  }
  lemma ShiftedKeyStep(key: bv256, n: nat)
    requires 0 < n
    ensures ShiftedKey(key, n) == Shift32(ShiftedKey(key, n - 1))
  {
  }
  /** Shifting by 32 bits after a shift by a multiple of 32 bits, for each multiple below 256. */
  lemma ShiftTwice(key: bv256)
    ensures Shift32(key) == key >> 32 && Shift32(key >> 32) == key >> 64 && Shift32(key >> 64) == key >> 96
    ensures Shift32(key >> 96) == key >> 128 && Shift32(key >> 128) == key >> 160
    ensures Shift32(key >> 160) == key >> 192 && Shift32(key >> 192) == key >> 224
  {
  }
  lemma ShiftedKeyBits(key: bv256)
    ensures ShiftedKey(key, 0) == key
    ensures ShiftedKey(key, 1) == key >> 32
    ensures ShiftedKey(key, 2) == key >> 64
    ensures ShiftedKey(key, 3) == key >> 96
    ensures ShiftedKey(key, 4) == key >> 128
    ensures ShiftedKey(key, 5) == key >> 160
    ensures ShiftedKey(key, 6) == key >> 192
    ensures ShiftedKey(key, 7) == key >> 224
  {
    ShiftTwice(key);
    ShiftedKeyStep(key, 1); ShiftedKeyStep(key, 2); ShiftedKeyStep(key, 3); ShiftedKeyStep(key, 4);
    ShiftedKeyStep(key, 5); ShiftedKeyStep(key, 6); ShiftedKeyStep(key, 7);
  }
  /** Stage key `i` is the low word of the key shifted `i` times. */
  lemma {:induction false} KeyWordsAt(key: bv256, n: nat, i: nat)
    requires i < n
    ensures KeyWords(key, n)[i] == Low32(ShiftedKey(key, i))
    decreases n
  {
    KeyWordsStep(key, n);
    if i < n - 1 {
      KeyWordsAt(key, n - 1, i);
    }
  }
  lemma EightWords(sk: seq<bv32>)
    requires |sk| == 8
    ensures sk == [sk[0], sk[1], sk[2], sk[3], sk[4], sk[5], sk[6], sk[7]]
  {
  }
  lemma StageKeysTerms(key: bv256)
    ensures StageKeysOf(key) == [ Low32(key), Low32(key >> 32), Low32(key >> 64), Low32(key >> 96),
                                  Low32(key >> 128), Low32(key >> 160), Low32(key >> 192), Low32(key >> 224) ]
  {
    EightWords(StageKeysOf(key));
    KeyWordsAt(key, 8, 0); KeyWordsAt(key, 8, 1); KeyWordsAt(key, 8, 2); KeyWordsAt(key, 8, 3);
    KeyWordsAt(key, 8, 4); KeyWordsAt(key, 8, 5); KeyWordsAt(key, 8, 6); KeyWordsAt(key, 8, 7);
    ShiftedKeyBits(key);
  }
  /** The stage keys lose nothing of the key: joining them gives the key back. */
  lemma JoinStageKeys(key: bv256)
    ensures JoinKeys(StageKeysOf(key)) == key
  {
    StageKeysTerms(key);
  }

  /** The word joined at `32*i` can be sliced back out, for every `i`. */
  lemma Unjoin(k: bv256, w0: bv32, w1: bv32, w2: bv32, w3: bv32, w4: bv32, w5: bv32, w6: bv32, w7: bv32)
    requires k == Join(w0, w1, w2, w3, w4, w5, w6, w7)
    ensures Low32(k) == w0 && Low32(k >> 32) == w1 && Low32(k >> 64) == w2 && Low32(k >> 96) == w3
            && Low32(k >> 128) == w4 && Low32(k >> 160) == w5 && Low32(k >> 192) == w6 && Low32(k >> 224) == w7
  {
  }

  /** Every eight words are the stage keys of exactly the key they join into. */
  lemma StageKeysOfJoin(sk: seq<bv32>)
    requires |sk| == 8
    ensures StageKeysOf(JoinKeys(sk)) == sk
  {
    var k := JoinKeys(sk);
    StageKeysTerms(k);
    Unjoin(k, sk[0], sk[1], sk[2], sk[3], sk[4], sk[5], sk[6], sk[7]);
    EightWords(sk);
  }
}
