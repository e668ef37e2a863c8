# Magma (GOST 28147-89 family) block cipher and its modes, in Dafny

This project models the cipher engine of the GOST repository, a Magma-family
Feistel block cipher. The cipher has:

- a 64-bit block;
- a 256-bit key (`std::bitset<256>`, here `bv256`);
- eight substitution tables of sixteen 32-bit entries;
- 32 rounds with the GOST key order.

Around it sit four whole-message modes of operation: ECB, CBC, CFB with full
64-bit feedback, and OFB (sections 6.1 to 6.4 of NIST SP 800-38A). The model
follows the source file by file, and the source's loops stay loops:

- `words.dfy` (module `Words`): `to_bytes` and `from_bytes` on 64-bit words.
  The methods `ToBytes` and `FromBytes` are proved against the functions
  `LeBytes` and `LeValue`.
- `keys.dfy` (module `KeySchedule`): the stage keys, the eight 32-bit words of
  the key, least significant first.
- `round.dfy` (module `RoundFunction`): the round function `f`. It adds the key
  modulo 2^32, runs the eight table look-ups, and rotates left by 11.
- `feistel.dfy` (module `Feistel`): the 32-round network over an arbitrary
  round function and round-key sequence, the two key orders (`encrypt<24>` and
  `encrypt<8>`), and the Feistel involution.
- `split.dfy` (module `Splitting`): `splitMessage`. It zero-fills the message to
  a multiple of 8 and reads each 8 bytes as a little-endian word.
- `modes.dfy` (module `Modes`): ECB, CBC, CFB and OFB over an arbitrary block
  transformation. The module proves the per-block equations and the round
  trips.
- `cipher.dfy` (module `Magma`): the cipher object, `class Cipher`.
  - Its constant fields are the key and the tables. Its stage keys sit in an
    eight-word array that the constructor fills through `GenStageKeys`.
  - Its methods are `f`, the header's 32-round `encrypt<I>` (`Transform`), and
    the older revision's 31+1-round `encrypt`/`decrypt`.
  - It also has the eight mode methods. Each is a loop over the split words
    that appends eight bytes per block. Each is proved equal to a byte-level
    function, and these functions carry the round-trip and length theorems.

`GOST/cipher.cpp` is an older revision than `GOST/cipher.hpp`: it uses the
`GOST::Cipher` namespace, camelCase names and no `do_padding` flag. Its
function bodies are modelled as the definitions of the header's declarations.

Bit operations on words are written through small named functions in the loops:

- `Low8(v)` is `v & 0xff` and `Shift8(v)` is `v >> 8`;
- `Or64(t, AtByte(b, i))` is `t |= b << i * 8`;
- `Low4`, `Shift4`, `Or32` and `AtNibble` play the same roles in `f`;
- `Low32` and `Shift32` play them in `genStageKeys`.

Their meaning with literal shifts is proved in lemmas (`LeBytesTerms`,
`LeValueTerms`, `NibbleBits`, `StageKeysTerms`).

Padding: the code zero-fills a message to the next multiple of 8 bytes. It adds
nothing to an aligned or empty message, and no decryption removes anything.
A design description of this system describes a different, self-describing pad
(1 to 8 bytes, each equal to the pad length, stripped after decryption). That
pad is not in the code, and this model follows the code. So each mode's round
trip returns the zero-padded message, and it returns the message itself exactly
when the message length is a multiple of 8.

## Model

| member | source | states |
|---|---|---|
| Words.ToBytes | GOST/cipher.hpp:184-192 | `to_bytes<uint64_t>` returns exactly `LeBytes(value)`, the eight bytes of the word with the least significant byte first |
| Words.LeBytesTerms | GOST/cipher.hpp:187-190 | byte `i` of `to_bytes(v)` is `(v >> 8*i) & 0xff` for `i` in 0..7, so the result is little-endian |
| Words.FromBytes | GOST/cipher.hpp:200-208 | `from_bytes<uint64_t>` on the 8 bytes starting at `at` returns `LeValue` of those bytes; it demands 8 readable bytes, as the pointer walk does |
| Words.LeValueTerms | GOST/cipher.hpp:202-206 | the value read is `b0`, OR `b1 << 8`, ..., OR `b7 << 56` |
| Words.LeValueOfLeBytes | GOST/cipher.hpp:184-208 | `from_bytes(to_bytes(v)) == v` for every 64-bit `v` |
| Words.LeBytesOfLeValue | GOST/cipher.hpp:184-208 | `to_bytes(from_bytes(s)) == s` for every 8 bytes `s` |
| KeySchedule.KeyWordsAt | GOST/cipher.cpp:124-130 | stage key `i` is the low 32 bits of the key shifted right `i` times by 32 bits |
| KeySchedule.StageKeysTerms | GOST/cipher.cpp:124-130 | `stage_keys[i] == (key >> 32*i) & 0xffffffff` for `i` in 0..7 |
| KeySchedule.JoinStageKeys | GOST/cipher.cpp:124-130 | the stage keys lose no bit of the key: joining them gives the key back |
| KeySchedule.StageKeysOfJoin | GOST/cipher.cpp:124-130 | every eight words are the stage keys of the key they join into, so the derivation is a bijection |
| Magma.Cipher.constructor | GOST/cipher.hpp:28 | the key and tables are stored and the stage keys are derived from the key |
| Magma.Cipher.GenStageKeys | GOST/cipher.cpp:124-130 | afterwards the stage-key array holds `StageKeysOf(key)`, word by word |
| Magma.Cipher.F | GOST/cipher.cpp:114-122 | `f(a, key)` returns `Round(blocks, a, key)`: the substitution of `a + key` (mod 2^32) rotated left by 11 bits |
| RoundFunction.RotatedSubstitution | GOST/cipher.cpp:121 | `(r << 11)` OR `(r >> 21)` of the substituted sum is the value of `f` |
| RoundFunction.RoundUnrotated | GOST/cipher.cpp:114-122 | the value of `f` rotated back right by 11 bits is the substitution of `a + key` |
| RoundFunction.NibbleBits | GOST/cipher.cpp:117-118 | the nibble the loop reads in step `i` is `(x >> 4*i) & 0xf` |
| RoundFunction.SubstituteTerms | GOST/cipher.cpp:116-119 | the accumulated `r` is the OR of the eight table outputs, output `i` moved to nibble position `i` |
| RoundFunction.AtNibbleTerms | GOST/cipher.cpp:117 | the accumulated outputs equal the OR of `t_i << 4*i` written with literal shifts |
| RoundFunction.SubstituteNibble | GOST/cipher.cpp:116-119 | when every table entry is below 16, nibble `i` of the substituted word is `blocks[i][nibble i of the input]` |
| RoundFunction.RoundNibble | GOST/cipher.cpp:114-122 | when every table entry is below 16, nibble `i` of `f(a, key)` rotated right by 11 is `blocks[i][nibble i of a + key]` |
| Feistel.KeyIndex | GOST/cipher.hpp:220 | the stage-key index of round `i` (`i % 8` before `I`, else `7 - i % 8`) lies in `[0, 8)` |
| Feistel.Schedule | GOST/cipher.hpp:216-225 | the 32 round keys of `encrypt<I>`: round key `i` is stage key `KeyIndex(I, i)` |
| Feistel.EncryptionSchedule | GOST/cipher.hpp:220 | the schedule of `encrypt<24>` is K0..K7 three times, then K7..K0 |
| Feistel.DecryptionSchedule | GOST/cipher.hpp:220 | the schedule of `encrypt<8>` is K0..K7, then K7..K0 three times |
| Feistel.ScheduleReversed | GOST/cipher.hpp:216-237 | the `decrypt_` schedule is the `encrypt_` schedule reversed, and conversely |
| Feistel.HalveMerge | GOST/cipher.hpp:218-224 | splitting a result `a << 32` OR `b` into `b` high and `a` low gives the halves exchanged |
| Feistel.MergeSwapHalve | GOST/cipher.hpp:218-224 | merging the exchanged halves of a block gives the block back |
| Feistel.StepUndone | GOST/cipher.hpp:219-223 | one round applied to the exchanged output of the same round restores the exchanged input |
| Feistel.RunReversed | GOST/cipher.hpp:219-223 | running the reversed round keys from the exchanged final halves gives the exchanged initial halves, for every `f` |
| Feistel.NetworkReversed | GOST/cipher.hpp:216-225 | the network keyed by the reversed keys undoes the network, for every `f` and every key sequence |
| Feistel.EncryptDecrypt | GOST/cipher.hpp:216-237 | `decrypt_(encrypt_(m)) == m` and `encrypt_(decrypt_(m)) == m` for every `m`, every stage-key array and every `f` |
| Feistel.LastRoundUnswapped | GOST/cipher.cpp:132-141 | 31 swapping rounds, then `b ^= f(a, k31)` and `b << 32` OR `a`, equal the 32-round network |
| Magma.Cipher.Transform | GOST/cipher.hpp:216-225 | `encrypt<I>` halves `m`, runs the 32 rounds keyed by the `I` schedule, and returns `a << 32` OR `b`, which is the network on the stage keys |
| Magma.Cipher.Encrypt | GOST/cipher.cpp:132-141 | the 31+1-round `encrypt` returns the same value as `encrypt<24>` |
| Magma.Cipher.Decrypt | GOST/cipher.cpp:143-152 | the 31+1-round `decrypt` returns the same value as `encrypt<8>` |
| Magma.BlockRoundTrip | GOST/cipher.cpp:132-152 | `decrypt(encrypt(m)) == m` and `encrypt(decrypt(m)) == m` for every key, tables and block |
| Magma.TransformsInverse | GOST/cipher.hpp:231-237 | the two bound transformations are inverse functions of each other |
| Splitting.PadLength | GOST/cipher.cpp:106-107 | the number of zero bytes appended is below 8, makes the length a multiple of 8, and is 0 exactly for aligned lengths |
| Splitting.Padded | GOST/cipher.cpp:105-107 | the extended message starts with the message, is aligned, is less than 8 bytes longer, and every added byte is 0 |
| Splitting.PaddedUnchanged | GOST/cipher.cpp:105-107 | the message is left as it is exactly when its length is a multiple of 8, the empty message included |
| Splitting.SplitMessage | GOST/cipher.cpp:104-112 | `splitMessage` returns `Split(bytes)`, the little-endian words of the zero-filled message in order |
| Splitting.SplitLength | GOST/cipher.cpp:104-112 | `splitMessage` yields `ceil(n/8)` words for an `n`-byte message |
| Splitting.SplitAt | GOST/cipher.cpp:109-110 | word `k` is the little-endian value of bytes `8k..8k+7` of the zero-filled message |
| Splitting.BlocksAt | GOST/cipher.cpp:109-110 | word `k` of an aligned message is the little-endian value of its bytes `8k..8k+7` |
| Splitting.SerializeAt | GOST/cipher.cpp:8-11 | bytes `8k..8k+7` of the appended output are the `to_bytes` of output word `k` |
| Splitting.SerializeAppend | GOST/cipher.cpp:8-11 | appending the bytes of words block by block distributes over concatenation |
| Splitting.SerializeSplit | GOST/cipher.cpp:104-112 | writing out the split words gives the zero-filled message |
| Splitting.SplitSerialize | GOST/cipher.cpp:104-112 | splitting the bytes of any words gives those words back, with nothing added |
| Splitting.BlocksOfSerialize | GOST/cipher.cpp:108-111 | reading words back from their bytes gives the words |
| Splitting.SerializeOfBlocks | GOST/cipher.cpp:108-111 | writing out the words of an aligned message gives the message |
| Modes.Ecb | GOST/cipher.cpp:5-13 | ECB output word `i` is `E(m_i)`, one per input word |
| Modes.CbcEncryptAt | GOST/cipher.cpp:25-34 | CBC computes `c_i = E(m_i ^ prev)` with `prev = iv` first and `prev = c_{i-1}` afterwards |
| Modes.CbcDecryptAt | GOST/cipher.cpp:36-46 | CBC decryption computes `m_i = D(c_i) ^ prev` with the same chaining |
| Modes.CfbEncryptAt | GOST/cipher.cpp:48-57 | CFB computes `c_i = E(prev) ^ m_i` with `prev = iv` first and `prev = c_{i-1}` afterwards |
| Modes.CfbDecryptAt | GOST/cipher.cpp:59-69 | CFB decryption computes `m_i = E(prev) ^ c_i`, chaining on the ciphertext word |
| Modes.KeystreamAt | GOST/cipher.cpp:71-80 | the OFB key stream is `s_1 = E(iv)`, `s_{i+1} = E(s_i)` |
| Modes.OfbAt | GOST/cipher.cpp:71-80 | OFB output word `i` is `s_i ^ m_i` |
| Modes.EcbRoundTrip | GOST/cipher.cpp:5-23 | ECB with an inverse transformation undoes ECB |
| Modes.CbcRoundTrip | GOST/cipher.cpp:25-46 | with the same `iv`, CBC decryption undoes CBC encryption, whenever `D` inverts `E` |
| Modes.CbcRoundTripBack | GOST/cipher.cpp:25-46 | with the same `iv`, CBC encryption undoes CBC decryption, whenever `E` inverts `D` |
| Modes.CfbRoundTrip | GOST/cipher.cpp:48-69 | with the same `iv`, CFB decryption undoes CFB encryption, for every `E` |
| Modes.CfbRoundTripBack | GOST/cipher.cpp:48-69 | with the same `iv`, CFB encryption undoes CFB decryption, for every `E` |
| Modes.OfbInvolution | GOST/cipher.cpp:71-84 | OFB applied twice with the same `iv` gives the input back, for every `E` |
| Magma.OutputLength | GOST/cipher.cpp:5-80 | every mode's output length `8 * ceil(n/8)` is a multiple of 8, lies in `[n, n + 8)`, and equals `n` when `n % 8 == 0` |
| Magma.EcbEncryption | GOST/cipher.cpp:5-13 | `EncryptECB` output has length `8 * ceil(n/8)` |
| Magma.EcbDecryption | GOST/cipher.cpp:15-23 | `DecryptECB` output has length `8 * ceil(n/8)` |
| Magma.CbcEncryption | GOST/cipher.cpp:25-34 | `EncryptCBC` output has length `8 * ceil(n/8)` |
| Magma.CbcDecryption | GOST/cipher.cpp:36-46 | `DecryptCBC` output has length `8 * ceil(n/8)` |
| Magma.CfbEncryption | GOST/cipher.cpp:48-57 | `EncryptCFB` output has length `8 * ceil(n/8)` |
| Magma.CfbDecryption | GOST/cipher.cpp:59-69 | `DecryptCFB` output has length `8 * ceil(n/8)` |
| Magma.OfbEncryption | GOST/cipher.cpp:71-84 | `EncryptOFB` and `DecryptOFB` output has length `8 * ceil(n/8)` |
| Magma.EcbBlockwise | GOST/cipher.cpp:5-13 | ECB output bytes `8k..8k+7` are the bytes of the encryption of input word `k` alone |
| Magma.EcbMessageRoundTrip | GOST/cipher.cpp:5-23 | `DecryptECB(EncryptECB(m))` is `m` zero-filled to a multiple of 8, and equals `m` exactly when the length of `m` is a multiple of 8 |
| Magma.CbcMessageRoundTrip | GOST/cipher.cpp:25-46 | `DecryptCBC(EncryptCBC(m, iv), iv)` is the zero-filled `m`, and equals `m` exactly when the length of `m` is a multiple of 8 |
| Magma.CfbMessageRoundTrip | GOST/cipher.cpp:48-69 | `DecryptCFB(EncryptCFB(m, iv), iv)` is the zero-filled `m`, and equals `m` exactly when the length of `m` is a multiple of 8 |
| Magma.OfbMessageRoundTrip | GOST/cipher.cpp:71-84 | OFB applied twice with the same `iv` is the zero-filled `m`, and equals `m` exactly when the length of `m` is a multiple of 8 |
| Magma.Cipher.EncryptECB | GOST/cipher.cpp:5-13 | the loop returns `EcbEncryption(blocks, key, message)` |
| Magma.Cipher.DecryptECB | GOST/cipher.cpp:15-23 | the loop returns `EcbDecryption(blocks, key, message)` |
| Magma.Cipher.EncryptCBC | GOST/cipher.cpp:25-34 | the loop returns `CbcEncryption(blocks, key, message, iv)` |
| Magma.Cipher.DecryptCBC | GOST/cipher.cpp:36-46 | the loop returns `CbcDecryption(blocks, key, message, iv)` |
| Magma.Cipher.EncryptCFB | GOST/cipher.cpp:48-57 | the loop returns `CfbEncryption(blocks, key, message, iv)` |
| Magma.Cipher.DecryptCFB | GOST/cipher.cpp:59-69 | the loop returns `CfbDecryption(blocks, key, message, iv)` |
| Magma.Cipher.EncryptOFB | GOST/cipher.cpp:71-80 | the loop returns `OfbEncryption(blocks, key, message, iv)` |
| Magma.Cipher.DecryptOFB | GOST/cipher.cpp:82-84 | `DecryptOFB` is `EncryptOFB`, and applied to its own output with the same `iv` it gives the zero-filled message |

## Left out

- Key and table generation (`genKey`, `genBlocks`) and the constructors that seed them from `time(nullptr)` or a seed are not modelled. They rest on `srand`/`rand`, `std::shuffle` and `std::default_random_engine`, which are library pseudo-random generators. The one constructor modelled takes the key and the tables as parameters.
- The `std::_Mem_fn` bindings `encrypt_` and `decrypt_` are library machinery. They appear as the two key orders `EncryptStraight = 24` and `DecryptStraight = 8`, and as the block functions `EncryptBlock` and `DecryptBlock`.
- The pad count `8 * std::ceil(bytes.size() / 8.0) - bytes.size()` is computed in floating point by the source. The model uses the integer `(8 - n % 8) % 8`. The two agree for every size a `double` holds exactly; the model does not represent floating-point rounding for larger sizes.
- `drop_bytes` and the `do_padding` flag of the header's `split_message` are declared without a body, so their behaviour cannot be stated. The modelled `splitMessage` always pads, as the older revision does.
- Stream reading (`GOST/reader.hpp`), the demonstration programs (`GOST/main.cpp`, `GOST/example.cpp`) and the string conversions (`GOST/converter.cpp`, `GOST/converter.hpp`) are I/O and one-line wrappers. They are not part of this model.
- The byte vectors (`bytes_t`) are modelled as sequences, and `result.insert(result.end(), ...)` as appending to a sequence value. Vector capacity and iterator validity are not modelled.
- `from_bytes` reads through a raw pointer. It is modelled as a read of eight bytes of a sequence at an offset, with the requirement that those eight bytes exist.
- The template parameter `I` of `encrypt<I>` is a run-time argument `straight` of `Transform`.
- The source has no concurrency, and none is modelled.
