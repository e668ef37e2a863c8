/**
 * Conversion between 64-bit words and their 8 bytes, least significant
 * byte first (`to_bytes<uint64_t>` and `from_bytes<uint64_t>`).
 */
module Words {

  type byte = bv8

  /** The word shifted right by one byte, as `value >>= 8` does. */
  function Shift8(v: bv64): bv64 {
    v >> 8
  }

  /** The low byte of `v`, as `value & 0xff` stored into a byte. */
  function Low8(v: bv64): byte {
    (v & 0xff) as byte
  }

  /** `v` shifted right by 8 bits `n` times. */
  function ShiftedWord(v: bv64, n: nat): bv64 {
    if n == 0 then v else Shift8(ShiftedWord(v, n - 1))
  }

  /** The `n` low-order bytes of `v`, least significant first: byte `i` is the low byte of `v` shifted `i` times. */
  function LowBytes(v: bv64, n: nat): (r: seq<byte>)
    ensures |r| == n
  {
    if n == 0 then [] else LowBytes(v, n - 1) + [Low8(ShiftedWord(v, n - 1))]
  }

  /** The 8 bytes of `v`, least significant first. */
  function LeBytes(v: bv64): (r: seq<byte>)
    ensures |r| == 8
  {
    LowBytes(v, 8)
  }

  /** The word shifted left by one byte. */
  function Shl8(v: bv64): bv64 {
    v << 8
  }

  /** Byte `b` moved to byte position `i` of a word: shifted left by `8*i` bits. */
  function AtByte(b: byte, i: nat): bv64 {
    if i == 0 then b as bv64 else Shl8(AtByte(b, i - 1))
  }

  /** Bitwise or, as `t |= ...` accumulates the bytes. */
  function Or64(x: bv64, y: bv64): bv64 {
    x | y
  }

  /** The word made of the first `n` bytes of `s`, byte `i` at position `i`. */
  function PackPrefix(s: seq<byte>, n: nat): bv64
    requires n <= |s|
  {
    if n == 0 then 0 else Or64(PackPrefix(s, n - 1), AtByte(s[n - 1], n - 1))
  }

  /** The little-endian value of 8 bytes. */
  function LeValue(s: seq<byte>): bv64
    requires |s| == 8
  {
    PackPrefix(s, 8)
  }

  /** Eight bytes packed into a word, `b0` least significant. */
  function Pack(b0: byte, b1: byte, b2: byte, b3: byte, b4: byte, b5: byte, b6: byte, b7: byte): bv64 {
    (b0 as bv64) | ((b1 as bv64) << 8) | ((b2 as bv64) << 16) | ((b3 as bv64) << 24)
    | ((b4 as bv64) << 32) | ((b5 as bv64) << 40) | ((b6 as bv64) << 48) | ((b7 as bv64) << 56)
  }

  // ----- Lemmas -----

  lemma PackStep(s: seq<byte>, n: nat)
    requires n < |s|
    ensures PackPrefix(s, n + 1) == Or64(PackPrefix(s, n), AtByte(s[n], n))
  {
  }

  lemma AtByteStep(b: byte, i: nat)
    ensures AtByte(b, i + 1) == Shl8(AtByte(b, i))
  {
  }

  /** Each byte position written with one literal shift. */
  lemma AtByteBits(b: byte)
    ensures AtByte(b, 0) == b as bv64 && AtByte(b, 1) == (b as bv64) << 8
    ensures AtByte(b, 2) == (b as bv64) << 16 && AtByte(b, 3) == (b as bv64) << 24
    ensures AtByte(b, 4) == (b as bv64) << 32 && AtByte(b, 5) == (b as bv64) << 40
    ensures AtByte(b, 6) == (b as bv64) << 48 && AtByte(b, 7) == (b as bv64) << 56
  {
    AtByteStep(b, 0); AtByteStep(b, 1); AtByteStep(b, 2); AtByteStep(b, 3);
    AtByteStep(b, 4); AtByteStep(b, 5); AtByteStep(b, 6);
    ShiftLeftBytes(b as bv64);
  }

  /** Shifting left by 8 bits after a shift by a multiple of 8 bits, for each multiple below 64. */
  lemma ShiftLeftBytes(v: bv64)
    ensures Shl8(v) == v << 8 && Shl8(v << 8) == v << 16 && Shl8(v << 16) == v << 24
    ensures Shl8(v << 24) == v << 32 && Shl8(v << 32) == v << 40
    ensures Shl8(v << 40) == v << 48 && Shl8(v << 48) == v << 56
  {
  }

  /** Each byte position, written with a literal shift. */
  lemma AtByteTerms(b0: byte, b1: byte, b2: byte, b3: byte, b4: byte, b5: byte, b6: byte, b7: byte)
    ensures Or64(Or64(Or64(Or64(Or64(Or64(Or64(Or64(0, AtByte(b0, 0)), AtByte(b1, 1)), AtByte(b2, 2)), AtByte(b3, 3)),
              AtByte(b4, 4)), AtByte(b5, 5)), AtByte(b6, 6)), AtByte(b7, 7)) == Pack(b0, b1, b2, b3, b4, b5, b6, b7)
  {
    AtByteBits(b0); AtByteBits(b1); AtByteBits(b2); AtByteBits(b3);
    AtByteBits(b4); AtByteBits(b5); AtByteBits(b6); AtByteBits(b7);
  }

  lemma LeValueAtBytes(s: seq<byte>)
    requires |s| == 8
    ensures LeValue(s) == Or64(Or64(Or64(Or64(Or64(Or64(Or64(Or64(0, AtByte(s[0], 0)), AtByte(s[1], 1)), AtByte(s[2], 2)),
                            AtByte(s[3], 3)), AtByte(s[4], 4)), AtByte(s[5], 5)), AtByte(s[6], 6)), AtByte(s[7], 7))
  {
    PackStep(s, 0); PackStep(s, 1); PackStep(s, 2); PackStep(s, 3);
    PackStep(s, 4); PackStep(s, 5); PackStep(s, 6); PackStep(s, 7);
  }

  /** `LeValue` with its eight terms written out. */
  lemma LeValueTerms(s: seq<byte>)
    requires |s| == 8
    ensures LeValue(s) == Pack(s[0], s[1], s[2], s[3], s[4], s[5], s[6], s[7])
  {
    LeValueAtBytes(s);
    AtByteTerms(s[0], s[1], s[2], s[3], s[4], s[5], s[6], s[7]);
  }

  lemma LowBytesStep(v: bv64, n: nat)
    requires 0 < n
    ensures LowBytes(v, n) == LowBytes(v, n - 1) + [Low8(ShiftedWord(v, n - 1))]
  {
  }

  lemma ShiftedWordStep(v: bv64, n: nat)
    requires 0 < n
    ensures ShiftedWord(v, n) == Shift8(ShiftedWord(v, n - 1))
  {
  }

  /** Shifting by 8 bits after a shift by a multiple of 8 bits, for each multiple below 64. */
  lemma ShiftRightBytes(v: bv64)
    ensures Shift8(v) == v >> 8 && Shift8(v >> 8) == v >> 16 && Shift8(v >> 16) == v >> 24
    ensures Shift8(v >> 24) == v >> 32 && Shift8(v >> 32) == v >> 40
    ensures Shift8(v >> 40) == v >> 48 && Shift8(v >> 48) == v >> 56
  {
  }

  /** The word shifted `n` times by 8 bits, for each `n` below 8, written with one shift. */
  lemma ShiftedWordBits(v: bv64)
    ensures ShiftedWord(v, 0) == v
    ensures ShiftedWord(v, 1) == v >> 8
    ensures ShiftedWord(v, 2) == v >> 16
    ensures ShiftedWord(v, 3) == v >> 24
    ensures ShiftedWord(v, 4) == v >> 32
    ensures ShiftedWord(v, 5) == v >> 40
    ensures ShiftedWord(v, 6) == v >> 48
    ensures ShiftedWord(v, 7) == v >> 56
  {
    ShiftRightBytes(v);
    ShiftedWordStep(v, 1); ShiftedWordStep(v, 2); ShiftedWordStep(v, 3); ShiftedWordStep(v, 4);
    ShiftedWordStep(v, 5); ShiftedWordStep(v, 6); ShiftedWordStep(v, 7);
  }

  /** Byte `i` of the low bytes is the low byte of the word shifted `i` times. */
  lemma {:induction false} LowBytesAt(v: bv64, n: nat, i: nat)
    requires i < n
    ensures LowBytes(v, n)[i] == Low8(ShiftedWord(v, i))
    decreases n
  {
    LowBytesStep(v, n);
    if i < n - 1 {
      LowBytesAt(v, n - 1, i);
    }
  }

  lemma EightBytes(s: seq<byte>)
    requires |s| == 8
    ensures s == [s[0], s[1], s[2], s[3], s[4], s[5], s[6], s[7]]
  {
  }

  /** `LeBytes` with its eight bytes written out: byte `i` is bits `8*i` to `8*i + 7`. */
  lemma LeBytesTerms(v: bv64)
    ensures LeBytes(v) == [ Low8(v), Low8(v >> 8), Low8(v >> 16), Low8(v >> 24),
                            Low8(v >> 32), Low8(v >> 40), Low8(v >> 48), Low8(v >> 56) ]
  {
    EightBytes(LeBytes(v));
    LowBytesAt(v, 8, 0); LowBytesAt(v, 8, 1); LowBytesAt(v, 8, 2); LowBytesAt(v, 8, 3);
    LowBytesAt(v, 8, 4); LowBytesAt(v, 8, 5); LowBytesAt(v, 8, 6); LowBytesAt(v, 8, 7);
    ShiftedWordBits(v);
  }

  /** Packing the bytes of a word gives the word. */
  lemma PackBytes(v: bv64)
    ensures Pack(Low8(v), Low8(v >> 8), Low8(v >> 16), Low8(v >> 24),
                 Low8(v >> 32), Low8(v >> 40), Low8(v >> 48), Low8(v >> 56)) == v
  {
  }

  /** The bytes of a packed word are the bytes packed. */
  lemma Unpack(v: bv64, b0: byte, b1: byte, b2: byte, b3: byte, b4: byte, b5: byte, b6: byte, b7: byte)
    requires v == Pack(b0, b1, b2, b3, b4, b5, b6, b7)
    ensures Low8(v) == b0 && Low8(v >> 8) == b1 && Low8(v >> 16) == b2 && Low8(v >> 24) == b3
    ensures Low8(v >> 32) == b4 && Low8(v >> 40) == b5 && Low8(v >> 48) == b6 && Low8(v >> 56) == b7
  {
  }

  /** Reading back the bytes of a word gives the word. */
  lemma LeValueOfLeBytes(v: bv64)
    ensures LeValue(LeBytes(v)) == v
  {
    LeBytesTerms(v);
    LeValueTerms(LeBytes(v));
    PackBytes(v);
  }

  /** The bytes of the word read from 8 bytes are those bytes. */
  lemma LeBytesOfLeValue(s: seq<byte>)
    requires |s| == 8
    ensures LeBytes(LeValue(s)) == s
  {
    var v := LeValue(s);
    LeValueTerms(s);
    LeBytesTerms(v);
    Unpack(v, s[0], s[1], s[2], s[3], s[4], s[5], s[6], s[7]);
    EightBytes(s);
  }

  /**
   * `to_bytes<uint64_t>`: the bytes of `value`, least significant first.
   * `Low8(v)` is `v & 0xff` and `Shift8(v)` is `v >> 8`.
   */
  method ToBytes(value: bv64) returns (result: seq<byte>)
    ensures result == LeBytes(value)
  {
    var bytes := new byte[8];
    var v := value;
    for i := 0 to 8
      invariant bytes[..i] == LowBytes(value, i)
      invariant v == ShiftedWord(value, i)
    {
      bytes[i] := Low8(v);
      assert bytes[..i + 1] == bytes[..i] + [bytes[i]];
      v := Shift8(v);
    }
    result := bytes[..];
  }

  /**
   * `from_bytes<uint64_t>`: the little-endian word held in the 8 bytes of
   * `buf` that start at `at` (the source reads them through a pointer).
   * `Or64(t, AtByte(b, i))` is `t | (b << i * 8)`.
   */
  method FromBytes(buf: seq<byte>, at: nat) returns (t: bv64)
    requires at + 8 <= |buf|
    ensures t == LeValue(buf[at..at + 8])
  {
    ghost var s := buf[at..at + 8];
    t := 0;
    var p := at;
    for i := 0 to 8
      invariant p == at + i
      invariant t == PackPrefix(s, i)
    {
      t := Or64(t, AtByte(buf[p], i));
      p := p + 1;
    }
  }
}
