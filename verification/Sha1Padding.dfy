/**
 PaddedMessageIterator (unverified_sha1.cc): the padding of FIPS 180-4 section 5.1.1, one
 64-byte block at a time, and the loop of MakeDigestImpl over the blocks.

 `IsPadding` is the standard's definition, in bits; `PaddedIsPadding` says that what the blocks
 hold together is that padding and no other, and `PaddingIsInjective` that it can be undone.
 */
module Sha1Padding {
  import opened Basics

  const BLOCK: nat := 64

  // ----- The standard

  /** The k lowest octets of v, the most significant first. */
  function BigEndian(v: nat, k: nat): (s: seq<octet>)
    ensures |s| == k
  {
    if k == 0 then [] else BigEndian(v / 256, k - 1) + [v % 256]
  }

  function Zeros(k: nat): (s: seq<octet>)
    ensures |s| == k
  {
    seq(k, i => 0)
  }

  /** The smallest non-negative solution k of length + 1 + k = 448 mod 512, for a length in bits. */
  predicate IsZeroBits(length: nat, k: nat) {
    Solves(length, k) && forall j: nat :: j < k ==> !Solves(length, j)
  }

  predicate Solves(length: nat, k: nat) { (length + 1 + k) % 512 == 448 }

  /** The message, a one bit, the fewest zero bits, and the length in 64 bits; the one bit and the first seven zero bits
      make up the octet 0x80. */
  ghost predicate IsPadding(message: seq<octet>, padded: seq<octet>) {
    exists z: nat :: IsZeroBits(8 * |message|, 8 * z + 7) &&
      padded == message + [0x80] + Zeros(z) + BigEndian(8 * |message|, 8)
  }

  // ----- What the iterator produces

  /** Zero octets behind the marker of a message of n octets. */
  function ZeroCount(n: nat): nat { (119 - n % 64) % 64 }

  /** `bit_length` is a 64-bit number. */
  function Padded(message: seq<octet>): seq<octet> {
    message + [0x80] + Zeros(ZeroCount(|message|)) + BigEndian(8 * |message| % TWO_64, 8)
  }

  /** GetTotalMessageCount on 64-bit sizes. */
  function TotalMessageCount(size: nat): nat {
    var minimumSize := (size + 1 + 8) % TWO_64;
    (minimumSize + 64 - 1) % TWO_64 / 64
  }

  /** The count is that of the padded message exactly when the sum does not wrap around. */
  lemma CountIsExact(size: nat)
    requires size < TWO_64
    ensures 64 * TotalMessageCount(size) == size + 1 + ZeroCount(size) + 8 <==> size + 72 < TWO_64
  {
    if size + 72 < TWO_64 {
      RoundedUp(size);
    } else if size + 9 < TWO_64 {
      assert TotalMessageCount(size) == (size + 72 - TWO_64) / 64;
    } else {
      assert TotalMessageCount(size) == (size + 9 - TWO_64 + 63) / 64;
    }
  }

  lemma RoundedUp(size: nat)
    ensures 64 * ((size + 72) / 64) == size + 9 + ZeroCount(size)
  {
    var q, r := size / 64, size % 64;
    assert size + 72 == 64 * (q + 1) + (r + 8);
  }

  function PaddedSize(n: nat): nat { n + 1 + ZeroCount(n) + 8 }

  lemma SizeIsWhole(n: nat)
    ensures PaddedSize(n) % 64 == 0
  {}

  lemma PaddedLength(message: seq<octet>)
    ensures |Padded(message)| == PaddedSize(|message|) == |message| + 1 + ZeroCount(|message|) + 8
    ensures |Padded(message)| % 64 == 0
  {
    hide BigEndian, ZeroCount;
    SizeIsWhole(|message|);
  }

  /** The octet of the padded message at position i. */
  function OctetAt(message: seq<octet>, i: nat): octet
    requires i < PaddedSize(|message|)
  {
    var n, end := |message|, PaddedSize(|message|) - 8;
    if i < n then message[i] else if i == n then 0x80 else if i < end then 0
    else BigEndian(8 * n % TWO_64, 8)[i - end]
  }

  lemma PaddedAt(message: seq<octet>, i: nat)
    requires i < PaddedSize(|message|)
    ensures Padded(message)[i] == OctetAt(message, i)
  {}

  /** The position of a block with respect to the end of the message and of the padded message. */
  lemma BlockPosition(n: nat, base: nat)
    requires base % 64 == 0 && base < PaddedSize(n)
    ensures base + 64 <= PaddedSize(n)
    ensures base + 56 <= n ==> base + 128 <= PaddedSize(n)
    ensures n < base + 56 ==> base + 64 == PaddedSize(n)
  {}

  lemma ZerosSolve(n: nat)
    ensures Solves(8 * n, 8 * ZeroCount(n) + 7) && ZeroCount(n) < 64
  {
    SizeIsWhole(n);
    Octets(n + 1 + ZeroCount(n) + 8);
  }

  lemma Octets(m: nat)
    requires m % 64 == 0 && m >= 8
    ensures (8 * (m - 8)) % 512 == 448
  {
    assert 8 * (m - 8) == 512 * (m / 64 - 1) + 448;
  }

  lemma LeastZeroBits(n: nat)
    ensures IsZeroBits(8 * n, 8 * ZeroCount(n) + 7)
  {
    hide ZeroCount;
    ZerosSolve(n);
    var k := 8 * ZeroCount(n) + 7;
    forall j: nat | j < k ensures !Solves(8 * n, j) {
      if Solves(8 * n, j) {
        Residue(8 * n + 1 + j, 8 * n + 1 + k);
        assert false;
      }
    }
  }

  lemma Residue(a: nat, b: nat)
    requires a < b && a % 512 == b % 512
    ensures b - a >= 512
  {}

  /** Below 2^61 octets, that is 2^64 bits, the padded message is the standard's padding and the only one. */
  lemma PaddedIsPadding(message: seq<octet>, padded: seq<octet>)
    requires 8 * |message| < TWO_64
    ensures IsPadding(message, padded) <==> padded == Padded(message)
  {
    hide ZeroCount, BigEndian, Solves;
    var n := |message|;
    LeastZeroBits(n);
    assert 8 * n % TWO_64 == 8 * n;
    forall z: nat | IsZeroBits(8 * n, 8 * z + 7) ensures z == ZeroCount(n) {
      OneLeast(8 * n, 8 * z + 7, 8 * ZeroCount(n) + 7);
    }
  }

  lemma OneLeast(length: nat, j: nat, k: nat)
    requires IsZeroBits(length, j) && IsZeroBits(length, k)
    ensures j == k
  {
    assert Solves(length, j) && Solves(length, k);
  }

  // ----- The padding can be undone

  function FromBigEndian(s: seq<octet>): nat {
    if s == [] then 0 else 256 * FromBigEndian(s[..|s| - 1]) + s[|s| - 1]
  }

  function Power256(k: nat): nat { if k == 0 then 1 else 256 * Power256(k - 1) }

  lemma {:induction false} FromBigEndianOf(v: nat, k: nat)
    requires v < Power256(k)
    ensures FromBigEndian(BigEndian(v, k)) == v
  {
    if k > 0 {
      var s := BigEndian(v, k);
      FromBigEndianOf(v / 256, k - 1);
      assert s[..k - 1] == BigEndian(v / 256, k - 1);
    }
  }

  lemma EightOctets()
    ensures Power256(8) == TWO_64
  {
    assert Power256(4) == 0x1_0000_0000;
  }

  /** What the last eight octets and the front of a padded message say. */
  lemma PaddedParts(message: seq<octet>)
    ensures var p := Padded(message); var n := |p|;
      p[..|message|] == message && p[n - 8..] == BigEndian(8 * |message| % TWO_64, 8)
  {
    var p := Padded(message);
    var front := message + [0x80] + Zeros(ZeroCount(|message|));
    assert p == front + BigEndian(8 * |message| % TWO_64, 8);
    assert front[..|message|] == message;
  }

  lemma LengthIsStored(message: seq<octet>)
    requires 8 * |message| < TWO_64
    ensures var p := Padded(message); |p| >= 8 && FromBigEndian(p[|p| - 8..]) == 8 * |message|
  {
    hide Padded, BigEndian, Power256, FromBigEndian;
    EightOctets();
    PaddedLength(message);
    PaddedParts(message);
    FromBigEndianOf(8 * |message|, 8);
  }

  /** Different messages have different paddings. */
  lemma PaddingIsInjective(m1: seq<octet>, m2: seq<octet>)
    requires 8 * |m1| < TWO_64 && 8 * |m2| < TWO_64 && Padded(m1) == Padded(m2)
    ensures m1 == m2
  {
    hide Padded, FromBigEndian;
    LengthIsStored(m1);
    LengthIsStored(m2);
    PaddedParts(m1);
    PaddedParts(m2);
  }

  // ----- The iterator

  /** The body of FillNextMessage: the block at baseIndex. */
  method Fill(source: seq<octet>, baseIndex: nat, dest: array<octet>)
    requires dest.Length == BLOCK && baseIndex % 64 == 0 && baseIndex + 64 <= PaddedSize(|source|)
    modifies dest
    ensures forall k :: 0 <= k < BLOCK ==> dest[k] == OctetAt(source, baseIndex + k)
  {
    hide BigEndian, ZeroCount;
    var n := |source|;
    BlockPosition(n, baseIndex);
    var cursor := 0;
    if baseIndex < n {
      var rest := n - baseIndex;
      if rest >= BLOCK {
        forall k | 0 <= k < BLOCK { dest[k] := source[baseIndex + k]; }
        return;
      }
      forall k | 0 <= k < rest { dest[k] := source[baseIndex + k]; }
      cursor := rest;
    }
    if baseIndex + cursor == n {
      dest[cursor] := 0x80;
      cursor := cursor + 1;
    }
    var limit := BLOCK - 8;
    if cursor > limit {
      forall k | cursor <= k < BLOCK { dest[k] := 0; }
      return;
    }
    forall k | cursor <= k < limit { dest[k] := 0; }
    var octets := BigEndian(n * 8 % TWO_64, 8);
    forall k | 0 <= k < 8 { dest[limit + k] := octets[k]; }
  }

  class PaddedMessageIterator {
    const source: seq<octet>
    const numTotalMessage: nat
    var messageIndex: nat

    /** The sizes do not wrap around, and no block has been skipped. */
    ghost predicate Valid()
      reads this
    {
      && |source| + 72 < TWO_64 && numTotalMessage == TotalMessageCount(|source|)
      && messageIndex <= numTotalMessage
    }

    /** What the blocks still to come hold. */
    ghost function Rest(): seq<octet>
      requires Valid()
      reads this
    {
      CountIsExact(|source|);
      PaddedLength(source);
      Padded(source)[64 * messageIndex..]
    }

    constructor (source: seq<octet>)
      requires |source| < TWO_64
      ensures this.source == source && messageIndex == 0 && numTotalMessage == TotalMessageCount(|source|)
      ensures |source| + 72 < TWO_64 ==> Valid() && Rest() == Padded(source)
    {
      this.source := source;
      numTotalMessage := TotalMessageCount(|source|);
      messageIndex := 0;
    }

    method HasMessage() returns (r: bool)
      requires Valid()
      ensures r <==> Rest() != []
      ensures r <==> messageIndex < numTotalMessage
    {
      CountIsExact(|source|);
      PaddedLength(source);
      r := messageIndex < numTotalMessage;
    }

    method FillNextMessage(dest: array<octet>)
      requires Valid() && messageIndex < numTotalMessage && dest.Length == BLOCK
      modifies dest
      ensures |Rest()| >= BLOCK && dest[..] == Rest()[..BLOCK]
    {
      hide BigEndian, Padded;
      CountIsExact(|source|);
      PaddedLength(source);
      Fill(source, messageIndex * BLOCK, dest);
      forall k | 0 <= k < BLOCK ensures dest[k] == Padded(source)[messageIndex * BLOCK + k] {
        PaddedAt(source, messageIndex * BLOCK + k);
      }
    }

    method MoveNext()
      requires Valid() && messageIndex < numTotalMessage
      modifies this
      ensures Valid() && messageIndex == old(messageIndex) + 1
      ensures |old(Rest())| >= BLOCK && Rest() == old(Rest())[BLOCK..]
    {
      CountIsExact(|source|);
      PaddedLength(source);
      messageIndex := messageIndex + 1;
    }
  }

  // ----- The loop over the blocks

  /** The hash value after the blocks of s, for a compression function. */
  function Fold<H>(h: H, compress: (H, seq<octet>) -> H, s: seq<octet>): H
    decreases |s|
  {
    if |s| < BLOCK then h else Fold(compress(h, s[..BLOCK]), compress, s[BLOCK..])
  }

  lemma FoldStep<H>(h: H, compress: (H, seq<octet>) -> H, s: seq<octet>)
    requires |s| >= BLOCK
    ensures Fold(h, compress, s) == Fold(compress(h, s[..BLOCK]), compress, s[BLOCK..])
  {}

  lemma FoldNothing<H>(h: H, compress: (H, seq<octet>) -> H)
    ensures Fold(h, compress, []) == h
  {}

  /** MakeDigestImpl: section 6.1.2 of FIPS 180-4 over every block of the padded message, in order. */
  method MakeDigest<H>(source: seq<octet>, initial: H, compress: (H, seq<octet>) -> H) returns (digest: H)
    requires |source| + 72 < TWO_64
    ensures digest == Fold(initial, compress, Padded(source))
  {
    hide Padded, Fold;
    digest := initial;
    var it := new PaddedMessageIterator(source);
    var has := it.HasMessage();
    while has
      invariant it.Valid() && fresh(it) && it.source == source
      invariant Fold(digest, compress, it.Rest()) == Fold(initial, compress, Padded(source))
      invariant has <==> it.Rest() != []
      invariant has <==> it.messageIndex < it.numTotalMessage
      decreases it.numTotalMessage - it.messageIndex
    {
      var message := new octet[BLOCK];
      it.FillNextMessage(message);
      FoldStep(digest, compress, it.Rest());
      digest := compress(digest, message[..]);
      it.MoveNext();
      has := it.HasMessage();
    }
    FoldNothing(digest, compress);
  }
}
