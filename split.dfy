/**
 * Splitting a message into 64-bit blocks (`split_message`): the message is
 * extended with zero bytes up to the next multiple of 8 and every 8 bytes
 * are read as a little-endian word. `Serialize` is the way back, the
 * concatenation of the bytes of each word, as the modes assemble their
 * output.
 */
module Splitting {

  import opened Words

  /** Number of zero bytes appended to an `n`-byte message: up to the next multiple of 8. */
  function PadLength(n: nat): (p: nat)
    ensures p < 8
    ensures (n + p) % 8 == 0
    ensures n % 8 == 0 <==> p == 0
  {
    (8 - n % 8) % 8
  }

  /** `n` zero bytes. */
  function Zeros(n: nat): (z: seq<byte>)
    ensures |z| == n
  {
    seq(n, _ => 0)
  }

  /** The message with its zero padding. */
  function Padded(m: seq<byte>): (r: seq<byte>)
    ensures |r| % 8 == 0 && |m| <= |r| < |m| + 8
    ensures r[..|m|] == m
    ensures forall i :: |m| <= i < |r| ==> r[i] == 0
  {
    m + Zeros(PadLength(|m|))
  }

  /** The little-endian words of a message whose length is a multiple of 8, in order. */
  function Blocks(s: seq<byte>): (ws: seq<bv64>)
    requires |s| % 8 == 0
    ensures |ws| == |s| / 8
    decreases |s|
  {
    if s == [] then [] else [LeValue(s[..8])] + Blocks(s[8..])
  }

  /** The words `split_message` produces. */
  function Split(m: seq<byte>): seq<bv64> {
    Blocks(Padded(m))
  }

  /** The bytes of the words, each least significant byte first, one word after the other. */
  function Serialize(ws: seq<bv64>): (r: seq<byte>)
    ensures |r| == 8 * |ws|
  {
    if ws == [] then [] else LeBytes(ws[0]) + Serialize(ws[1..])
  }

  // ----- Lemmas -----

  /** An aligned message, the empty one included, is not extended. */
  lemma PaddedAligned(m: seq<byte>)
    requires |m| % 8 == 0
    ensures Padded(m) == m
  {
  }

  lemma AppendZero(m: seq<byte>, n: nat)
    ensures m + Zeros(n) + [0] == m + Zeros(n + 1)
  {
    assert Zeros(n) + [0] == Zeros(n + 1);
  }

  /** The padded message is the message exactly when the message is aligned. */
  lemma PaddedUnchanged(m: seq<byte>)
    ensures Padded(m) == m <==> |m| % 8 == 0
  {
    if Padded(m) == m {
      assert |m| % 8 == 0;
    } else {
      assert |Padded(m)| != |m|;
    }
  }

  /** `split_message` yields one word per started block of 8 bytes. */
  lemma SplitLength(m: seq<byte>)
    ensures |Split(m)| == (|m| + 7) / 8
  {
  }

  lemma BlocksHead(s: seq<byte>)
    requires |s| % 8 == 0 && |s| > 0
    ensures Blocks(s) == [LeValue(s[..8])] + Blocks(s[8..])
  {
  }

  /** The words from byte `at` on are the word at `at` followed by the words from `at + 8` on. */
  lemma BlocksFrom(s: seq<byte>, at: nat)
    requires |s| % 8 == 0 && at % 8 == 0 && at + 8 <= |s|
    ensures Blocks(s[at..]) == [LeValue(s[at..at + 8])] + Blocks(s[at + 8..])
  {
    BlocksHead(s[at..]);
    assert s[at..][..8] == s[at..at + 8];
    assert s[at..][8..] == s[at + 8..];
  }

  /** Moving the word at `at` from the unread words to the words read so far. */
  lemma TakeBlock(done: seq<bv64>, s: seq<byte>, k: nat)
    requires |s| % 8 == 0 && 8 * k < |s|
    ensures done + Blocks(s[8 * k..]) == (done + [LeValue(s[8 * k..8 * k + 8])]) + Blocks(s[8 * k + 8..])
  {
    BlocksFrom(s, 8 * k);
  }

  /** Word `k` is the little-endian value of bytes `8k` to `8k+7`. */
  lemma {:induction false} BlocksAt(s: seq<byte>, k: nat)
    requires |s| % 8 == 0 && k < |s| / 8
    ensures Blocks(s)[k] == LeValue(s[8 * k..8 * k + 8])
    decreases k
  {
    BlocksHead(s);
    if k > 0 {
      BlocksAt(s[8..], k - 1);
      assert s[8..][8 * (k - 1)..8 * (k - 1) + 8] == s[8 * k..8 * k + 8];
    }
  }

  /** Word `k` of `split_message` is read from bytes `8k..8k+7` of the zero-padded message. */
  lemma SplitAt(m: seq<byte>, k: nat)
    requires k < (|m| + 7) / 8
    ensures Split(m)[k] == LeValue(Padded(m)[8 * k..8 * k + 8])
  {
    BlocksAt(Padded(m), k);
  }

  /** Bytes `8k..8k+7` of the serialized words are the bytes of word `k`. */
  lemma {:induction false} SerializeAt(ws: seq<bv64>, k: nat)
    requires k < |ws|
    ensures Serialize(ws)[8 * k..8 * k + 8] == LeBytes(ws[k])
    decreases k
  {
    if k > 0 {
      SerializeAt(ws[1..], k - 1);
      assert Serialize(ws)[8 * k..8 * k + 8] == Serialize(ws[1..])[8 * (k - 1)..8 * (k - 1) + 8];
    }
  }

  lemma SerializeCons(w: bv64, ws: seq<bv64>)
    ensures Serialize([w] + ws) == LeBytes(w) + Serialize(ws)
  {
    assert ([w] + ws)[1..] == ws;
  }

  /** Serializing distributes over concatenation. */
  lemma {:induction false} SerializeAppend(xs: seq<bv64>, ys: seq<bv64>)
    ensures Serialize(xs + ys) == Serialize(xs) + Serialize(ys)
    decreases |xs|
  {
    if xs != [] {
      assert (xs + ys)[1..] == xs[1..] + ys;
      SerializeAppend(xs[1..], ys);
    } else {
      assert xs + ys == ys;
    }
  }

  /** Reading words back from their bytes gives the words. */
  lemma {:induction false} BlocksOfSerialize(ws: seq<bv64>)
    ensures Blocks(Serialize(ws)) == ws
    decreases |ws|
  {
    if ws != [] {
      var s := Serialize(ws);
      assert s[..8] == LeBytes(ws[0]);
      assert s[8..] == Serialize(ws[1..]);
      LeValueOfLeBytes(ws[0]);
      BlocksOfSerialize(ws[1..]);
    }
  }

  /** Writing out the words of an aligned message gives the message. */
  lemma {:induction false} SerializeOfBlocks(s: seq<byte>)
    requires |s| % 8 == 0
    ensures Serialize(Blocks(s)) == s
    decreases |s|
  {
    if s != [] {
      BlocksHead(s);
      LeBytesOfLeValue(s[..8]);
      SerializeOfBlocks(s[8..]);
      assert s == s[..8] + s[8..];
    }
  }

  /** The bytes of the split words are the zero-padded message. */
  lemma SerializeSplit(m: seq<byte>)
    ensures Serialize(Split(m)) == Padded(m)
  {
    SerializeOfBlocks(Padded(m));
  }

  /** Splitting serialized words gives the words back. */
  lemma SplitSerialize(ws: seq<bv64>)
    ensures Split(Serialize(ws)) == ws
  {
    PaddedAligned(Serialize(ws));
    BlocksOfSerialize(ws);
  }

  /**
   * `split_message`: append zero bytes one at a time up to the next multiple
   * of 8, then read the bytes 8 at a time into words.
   */
  method SplitMessage(bytes: seq<byte>) returns (result: seq<bv64>)
    ensures result == Split(bytes)
  {
    var expbytes := bytes;
    var i := 0;
    while i < PadLength(|bytes|)
      invariant i <= PadLength(|bytes|)
      invariant expbytes == bytes + Zeros(i)
    {
      AppendZero(bytes, i);
      expbytes := expbytes + [0];
      i := i + 1;
    }
    assert expbytes == Padded(bytes);
    ghost var n := |expbytes| / 8;
    assert |expbytes| == 8 * n;
    result := [];
    var it := 0;
    ghost var k := 0;
    while it != |expbytes|
      invariant it == 8 * k && k <= n
      invariant result + Blocks(expbytes[it..]) == Blocks(expbytes)
      decreases |expbytes| - it
    {
      var w := FromBytes(expbytes, it);
      TakeBlock(result, expbytes, k);
      result := result + [w];
      it := it + 8;
      k := k + 1;
    }
    assert expbytes[it..] == [];
  }
}
