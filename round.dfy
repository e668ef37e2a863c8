/**
 * The round function `f` of the cipher: add the round key modulo 2^32,
 * send each of the eight 4-bit nibbles of the sum through its own
 * substitution table, and rotate the result left by 11 bits.
 *
 * The tables hold 32-bit entries (`std::array<uint32_t, 16>`), so the
 * substitution is defined for every table, not only for tables of 4-bit
 * values: the table outputs are shifted into place and OR-ed together.
 */
module RoundFunction {

  import opened Feistel

  /** One substitution table (`block_t`): 16 entries of 32 bits. */
  type SBox = s: seq<bv32> | |s| == 16 witness seq(16, _ => 0)

  /** The eight substitution tables of the cipher (`blocks_t`). */
  type SBoxes = s: seq<SBox> | |s| == 8 witness seq(8, _ => ZeroBox)

  /** A table of zeros. */
  const ZeroBox: SBox := seq(16, _ => 0)

  /** Every entry of every table fits in a nibble, as in GOST 28147-89. */
  predicate NibbleTables(sb: SBoxes) {
    forall i, j :: 0 <= i < 8 && 0 <= j < 16 ==> sb[i][j] < 16
  }


  /** `x` shifted right by one nibble, as `a >>= 4` does. */
  function Shift4(x: bv32): bv32 {
    x >> 4
  }

  /** The low nibble of `x`, as `a & 0xf` selects a table entry. */
  function Low4(x: bv32): (r: bv32)
    ensures r < 16
  {
    x & 0xf
  }

  /** `x` shifted right by 4 bits `n` times, as the loop of `f` shifts its operand. */
  function Shifted(x: bv32, n: nat): bv32 {
    if n == 0 then x else Shift4(Shifted(x, n - 1))
  }

  /** Nibble `i` of `x`, counting from the least significant one. */
  function Nibble(x: bv32, i: nat): (r: bv32)
    ensures r < 16
  {
    Low4(Shifted(x, i))
  }

  /** `t` shifted left by one nibble. */
  function Shl4(t: bv32): bv32 {
    t << 4
  }

  /** Table output `t` moved to nibble position `i`: shifted left by `4*i` bits. */
  function AtNibble(t: bv32, i: nat): bv32 {
    if i == 0 then t else Shl4(AtNibble(t, i - 1))
  }

  /** Bitwise or, as `r |= ...` accumulates the table outputs. */
  function Or32(x: bv32, y: bv32): bv32 {
    x | y
  }

  /** Table `i` applied to nibble `i` of `x`. */
  function Entry(sb: SBoxes, x: bv32, i: nat): bv32
    requires i < 8
  {
    sb[i][Nibble(x, i)]
  }

  /**
   * The substitution of the `n` low nibbles of `x`: table `i` applied to
   * nibble `i`, moved to nibble position `i`, OR-ed into the result.
   */
  function SubstPrefix(sb: SBoxes, x: bv32, n: nat): bv32
    requires n <= 8
  {
    if n == 0 then 0 else Or32(SubstPrefix(sb, x, n - 1), AtNibble(Entry(sb, x, n - 1), n - 1))
  }

  /** The substitution layer on a whole 32-bit word. */
  function Substitute(sb: SBoxes, x: bv32): bv32 {
    SubstPrefix(sb, x, 8)
  }

  /** `f(a, key)`: substitution of `a + key` (mod 2^32), rotated left by 11 bits. */
  function Round(sb: SBoxes, a: bv32, key: bv32): bv32 {
    Substitute(sb, a + key).RotateLeft(11)
  }

  /** `f` bound to its tables, as the Feistel network uses it. */
  function RoundOf(sb: SBoxes): RoundFn {
    (a: bv32, key: bv32) => Round(sb, a, key)
  }

  // ----- Lemmas -----

  lemma SubstStep(sb: SBoxes, x: bv32, n: nat)
    requires n < 8
    ensures SubstPrefix(sb, x, n + 1) == Or32(SubstPrefix(sb, x, n), AtNibble(Entry(sb, x, n), n))
  {
  }

  lemma ShiftedStep(x: bv32, n: nat)
    ensures Shifted(x, n + 1) == Shift4(Shifted(x, n))
  {
  }

  lemma AtNibbleStep(t: bv32, n: nat)
    ensures AtNibble(t, n + 1) == Shl4(AtNibble(t, n))
  {
  }

  /** The last statement of `f`: the substituted sum rotated with two shifts is the value of `f`. */
  lemma RotatedSubstitution(sb: SBoxes, a: bv32, key: bv32, r: bv32)
    requires r == Substitute(sb, a + key)
    ensures (r << 11) | (r >> 21) == Round(sb, a, key)
  {
    RotateLeft11(r);
  }

  /** The rotation of `f`, written with two shifts. */
  lemma RotateLeft11(r: bv32)
    ensures (r << 11) | (r >> 21) == r.RotateLeft(11)
  {
  }

  /** Shifting by 4 bits after a shift by a multiple of 4 bits, for each multiple below 32. */
  lemma ShiftRightNibbles(x: bv32)
    ensures Shift4(x) == x >> 4 && Shift4(x >> 4) == x >> 8 && Shift4(x >> 8) == x >> 12
    ensures Shift4(x >> 12) == x >> 16 && Shift4(x >> 16) == x >> 20
    ensures Shift4(x >> 20) == x >> 24 && Shift4(x >> 24) == x >> 28
  {
  }

  /** Shifting left by 4 bits after a shift by a multiple of 4 bits, for each multiple below 32. */
  lemma ShiftLeftNibbles(t: bv32)
    ensures Shl4(t) == t << 4 && Shl4(t << 4) == t << 8 && Shl4(t << 8) == t << 12
    ensures Shl4(t << 12) == t << 16 && Shl4(t << 16) == t << 20
    ensures Shl4(t << 20) == t << 24 && Shl4(t << 24) == t << 28
  {
  }

  /** The nibbles of `x`: nibble `i` is bits `4*i` to `4*i + 3`. */
  lemma NibbleBits(x: bv32)
    ensures Nibble(x, 0) == x & 0xf && Nibble(x, 1) == (x >> 4) & 0xf
    ensures Nibble(x, 2) == (x >> 8) & 0xf && Nibble(x, 3) == (x >> 12) & 0xf
    ensures Nibble(x, 4) == (x >> 16) & 0xf && Nibble(x, 5) == (x >> 20) & 0xf
    ensures Nibble(x, 6) == (x >> 24) & 0xf && Nibble(x, 7) == (x >> 28) & 0xf
  {
    ShiftRightNibbles(x);
    ShiftedStep(x, 0); ShiftedStep(x, 1); ShiftedStep(x, 2); ShiftedStep(x, 3);
    ShiftedStep(x, 4); ShiftedStep(x, 5); ShiftedStep(x, 6);
  }

  /** Each nibble position written with one literal shift. */
  lemma AtNibbleBits(t: bv32)
    ensures AtNibble(t, 0) == t && AtNibble(t, 1) == t << 4 && AtNibble(t, 2) == t << 8 && AtNibble(t, 3) == t << 12
    ensures AtNibble(t, 4) == t << 16 && AtNibble(t, 5) == t << 20 && AtNibble(t, 6) == t << 24 && AtNibble(t, 7) == t << 28
  {
    ShiftLeftNibbles(t);
    AtNibbleStep(t, 0); AtNibbleStep(t, 1); AtNibbleStep(t, 2); AtNibbleStep(t, 3);
    AtNibbleStep(t, 4); AtNibbleStep(t, 5); AtNibbleStep(t, 6);
  }

  /** `Substitute` with its eight table look-ups written out. */
  lemma SubstituteTerms(sb: SBoxes, x: bv32)
    ensures Substitute(sb, x) ==
              Or32(Or32(Or32(Or32(Or32(Or32(Or32(Or32(0, AtNibble(Entry(sb, x, 0), 0)), AtNibble(Entry(sb, x, 1), 1)),
                AtNibble(Entry(sb, x, 2), 2)), AtNibble(Entry(sb, x, 3), 3)), AtNibble(Entry(sb, x, 4), 4)),
                AtNibble(Entry(sb, x, 5), 5)), AtNibble(Entry(sb, x, 6), 6)), AtNibble(Entry(sb, x, 7), 7))
  {
    SubstStep(sb, x, 0); SubstStep(sb, x, 1); SubstStep(sb, x, 2); SubstStep(sb, x, 3);
    SubstStep(sb, x, 4); SubstStep(sb, x, 5); SubstStep(sb, x, 6); SubstStep(sb, x, 7);
  }

  /** Eight table outputs, each shifted into its nibble position and OR-ed together. */
  function Nibbles(t0: bv32, t1: bv32, t2: bv32, t3: bv32, t4: bv32, t5: bv32, t6: bv32, t7: bv32): bv32 {
    t0 | (t1 << 4) | (t2 << 8) | (t3 << 12) | (t4 << 16) | (t5 << 20) | (t6 << 24) | (t7 << 28)
  }

  /** The accumulated substitution, written with literal shifts. */
  lemma AtNibbleTerms(t0: bv32, t1: bv32, t2: bv32, t3: bv32, t4: bv32, t5: bv32, t6: bv32, t7: bv32)
    ensures Or32(Or32(Or32(Or32(Or32(Or32(Or32(Or32(0, AtNibble(t0, 0)), AtNibble(t1, 1)), AtNibble(t2, 2)),
              AtNibble(t3, 3)), AtNibble(t4, 4)), AtNibble(t5, 5)), AtNibble(t6, 6)), AtNibble(t7, 7))
            == Nibbles(t0, t1, t2, t3, t4, t5, t6, t7)
  {
    AtNibbleBits(t0); AtNibbleBits(t1); AtNibbleBits(t2); AtNibbleBits(t3);
    AtNibbleBits(t4); AtNibbleBits(t5); AtNibbleBits(t6); AtNibbleBits(t7);
  }

  /** Eight outputs of nibble size placed side by side can be read back nibble by nibble. */
  lemma UnpackNibbles(w: bv32, t0: bv32, t1: bv32, t2: bv32, t3: bv32, t4: bv32, t5: bv32, t6: bv32, t7: bv32)
    requires t0 < 16 && t1 < 16 && t2 < 16 && t3 < 16 && t4 < 16 && t5 < 16 && t6 < 16 && t7 < 16
    requires w == Nibbles(t0, t1, t2, t3, t4, t5, t6, t7)
    ensures Nibble(w, 0) == t0 && Nibble(w, 1) == t1 && Nibble(w, 2) == t2 && Nibble(w, 3) == t3
    ensures Nibble(w, 4) == t4 && Nibble(w, 5) == t5 && Nibble(w, 6) == t6 && Nibble(w, 7) == t7
  {
    NibbleBits(w);
  }

  /** With tables of nibble-sized entries, every table output fits in a nibble. */
  lemma EntrySize(sb: SBoxes, x: bv32, i: nat)
    requires NibbleTables(sb) && i < 8
    ensures Entry(sb, x, i) < 16
  {
  }

  /** With tables of nibble-sized entries, each nibble of the substituted word, written out. */
  lemma SubstitutedNibbles(sb: SBoxes, x: bv32)
    requires NibbleTables(sb)
    ensures var w := Substitute(sb, x);
            && Nibble(w, 0) == Entry(sb, x, 0) && Nibble(w, 1) == Entry(sb, x, 1)
            && Nibble(w, 2) == Entry(sb, x, 2) && Nibble(w, 3) == Entry(sb, x, 3)
            && Nibble(w, 4) == Entry(sb, x, 4) && Nibble(w, 5) == Entry(sb, x, 5)
            && Nibble(w, 6) == Entry(sb, x, 6) && Nibble(w, 7) == Entry(sb, x, 7)
  {
    EntrySize(sb, x, 0); EntrySize(sb, x, 1); EntrySize(sb, x, 2); EntrySize(sb, x, 3);
    EntrySize(sb, x, 4); EntrySize(sb, x, 5); EntrySize(sb, x, 6); EntrySize(sb, x, 7);
    SubstituteTerms(sb, x);
    AtNibbleTerms(Entry(sb, x, 0), Entry(sb, x, 1), Entry(sb, x, 2), Entry(sb, x, 3),
                  Entry(sb, x, 4), Entry(sb, x, 5), Entry(sb, x, 6), Entry(sb, x, 7));
    UnpackNibbles(Substitute(sb, x), Entry(sb, x, 0), Entry(sb, x, 1), Entry(sb, x, 2), Entry(sb, x, 3),
                  Entry(sb, x, 4), Entry(sb, x, 5), Entry(sb, x, 6), Entry(sb, x, 7));
  }

  /**
   * With tables of nibble-sized entries, nibble `i` of the substituted word
   * is table `i` applied to nibble `i` of the input.
   */
  lemma SubstituteNibble(sb: SBoxes, x: bv32, i: nat)
    requires NibbleTables(sb)
    requires i < 8
    ensures Nibble(Substitute(sb, x), i) == Entry(sb, x, i)
  {
    SubstitutedNibbles(sb, x);
    if i == 0 {} else if i == 1 {} else if i == 2 {} else if i == 3 {}
    else if i == 4 {} else if i == 5 {} else if i == 6 {} else {}
  }

  /** The value of `f` rotated back right by 11 bits is the substituted sum. */
  lemma RoundUnrotated(sb: SBoxes, a: bv32, key: bv32)
    ensures Round(sb, a, key).RotateRight(11) == Substitute(sb, a + key)
  {
  }

  /**
   * With tables of nibble-sized entries, `f(a, key)` rotated back right by
   * 11 bits has, as nibble `i`, table `i` applied to nibble `i` of `a + key`.
   */
  lemma RoundNibble(sb: SBoxes, a: bv32, key: bv32, i: nat)
    requires NibbleTables(sb) && i < 8
    ensures Nibble(Round(sb, a, key).RotateRight(11), i) == sb[i][Nibble(a + key, i)]
  {
    RoundUnrotated(sb, a, key);
    SubstituteNibble(sb, a + key, i);
  }
}
