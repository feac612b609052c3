/**
 CodepointToUtf8 and the two conversions between strings and lists of codepoints.

 U+0000 is encoded as nothing, and the limit between five and six bytes is 2^27 where the
 decoder has 2^26. `Faithful` excludes exactly the codepoints that are damaged.
 */
module Utf8Encoder {
  import opened Basics
  import opened Utf8
  import opened Utf8Strings
  import opened Utf8Table

  /** Number of bytes written for a codepoint. */
  function EncodedWidth(c: char32): (n: nat)
    ensures n <= 6
  {
    if c == 0 then 0
    else if c < 0x80 then 1 else if c < 0x800 then 2 else if c < 0x10000 then 3
    else if c < 0x200000 then 4 else if c < 0x8000000 then 5 else 6
  }

  /** A leading byte with the high bits `mark`; only the bits of `mask` are kept of the rest. */
  function Marked(mark: byte, high: char32, mask: char32): byte { mark + Low(high & mask) }

  function MaskedLead(c: char32, n: nat): byte
    requires n >= 2
  {
    Marked(Mark(n), High(c, n - 1), Wide(LeadMask(n)))
  }

  function Encoded(c: char32): (s: seq<byte>)
    ensures |s| == EncodedWidth(c)
  {
    var n := EncodedWidth(c);
    if n == 0 then [] else if n == 1 then [Low(c)] else [MaskedLead(c, n)] + Continuation(c, n - 1)
  }

  function EncodedAll(cs: seq<char32>): seq<byte> {
    if cs == [] then [] else Encoded(cs[0]) + EncodedAll(cs[1..])
  }

  /** The codepoints that the encoder and the decoder agree on. */
  predicate Faithful(c: char32) { 0 < c < 0x4000000 || 0x8000000 <= c < 0x80000000 }

  predicate AllFaithful(cs: seq<char32>) { forall c :: c in cs ==> Faithful(c) }

  // ----- The encoder against the standard encoding

  lemma FaithfulWidth(c: char32)
    ensures Faithful(c) <==> EncodedWidth(c) == Width(c) && InStandard(c)
    ensures InStandard(c) && !Faithful(c) ==> EncodedWidth(c) < Width(c)
  {}

  lemma MaskKeepsLead(h: char32, n: nat)
    requires 2 <= n <= 6 && FitsLead(h, n)
    ensures h & Wide(LeadMask(n)) == h
  {}

  lemma MarkedIsLead(h: char32, mask: char32, n: nat)
    ensures Marked(Mark(n), h, mask) == LeadByte(h & mask, n)
  {
    hide Low, Mark;
  }

  lemma EncodedIsStandard(c: char32)
    requires Faithful(c)
    ensures InStandard(c) && Encoded(c) == Standard(c)
  {
    hide Faithful, EncodedWidth, Width, InStandard, InRange, Low, Wide, LeadMask, Marked, Mark, LeadByte, High, Continuation,
      FitsLead;
    FaithfulWidth(c);
    var n := Width(c);
    if n >= 2 {
      RangeIsWidth(c, n);
      HighFits(c, n);
      MaskKeepsLead(High(c, n - 1), n);
      MarkedIsLead(High(c, n - 1), Wide(LeadMask(n)), n);
    }
  }

  /** The encoder's output is read back as the same codepoint, whatever follows it, exactly for a faithful one. */
  lemma EncodedIsReadBack(c: char32, tail: seq<byte>)
    ensures SplitFirst(Encoded(c) + tail) == Some(Split(c, |Encoded(c)|)) <==> Faithful(c)
  {
    hide Faithful, Encoded, EncodedWidth, Width, InStandard, SplitFirst, Standard;
    FaithfulWidth(c);
    var s := Encoded(c) + tail;
    if Faithful(c) {
      EncodedIsStandard(c);
      ReadsStandard(c, tail);
    } else if SplitFirst(s).Some? {
      OnlyStandardIsRead(s);
    }
  }

  // ----- Utf32ToUtf8 after Utf8ToUtf32

  lemma {:induction false} NeverLonger(cs: seq<char32>)
    requires AllInStandard(cs)
    ensures |EncodedAll(cs)| <= |Flat(cs)|
    ensures |EncodedAll(cs)| == |Flat(cs)| ==> AllFaithful(cs)
    ensures AllFaithful(cs) ==> EncodedAll(cs) == Flat(cs)
  {
    hide Faithful, EncodedWidth, Width, InStandard, Standard;
    if cs != [] {
      FaithfulWidth(cs[0]);
      ShapeOfStandard(cs[0]);
      if Faithful(cs[0]) { EncodedIsStandard(cs[0]); }
      NeverLonger(cs[1..]);
    }
  }

  /** A byte string survives decoding and encoding exactly when it is valid and all its codepoints are faithful. */
  lemma StringRoundTrip(s: seq<byte>)
    ensures EncodedAll(Forward(s)) == s <==> Valid(s) && AllFaithful(Forward(s))
  {
    hide Forward, Flat, Valid, AllFaithful, AllInStandard, EncodedAll;
    var cs := Forward(s);
    FlatOfForward(s);
    NeverLonger(cs);
  }

  // ----- Utf8ToUtf32 after Utf32ToUtf8

  lemma NoZeroByte(c: char32)
    ensures 0 !in Encoded(c)
  {
    hide Marked, Mark, High, LeadMask, Wide, TrailingByte;
    var n := EncodedWidth(c);
    if n == 1 {
      assert Low(c) != 0;
    } else if n >= 2 {
      LeadIsNotZero(High(c, n - 1), n);
      assert AllTrailing(Continuation(c, n - 1));
      assert !IsTrailing(0);
    }
  }

  lemma LeadIsNotZero(h: char32, n: nat)
    requires 2 <= n
    ensures Marked(Mark(n), h, Wide(LeadMask(n))) != 0
  {}

  lemma {:induction false} NoZeroByteAtAll(cs: seq<char32>)
    ensures 0 !in EncodedAll(cs)
  {
    hide Encoded;
    if cs != [] {
      NoZeroByte(cs[0]);
      NoZeroByteAtAll(cs[1..]);
    }
  }

  lemma ZeroIsReadFromZero(s: seq<byte>)
    requires SplitFirst(s).Some? && SplitFirst(s).value.c == 0
    ensures s[0] == 0
  {
    hide SplitFirst;
    OnlyStandardIsRead(s);
    assert Width(0) == 1 && s[0] == s[..1][0];
  }

  /** What is read first from an encoded list is its first codepoint only if that one is faithful. */
  lemma FirstReadIsFaithful(cs: seq<char32>)
    requires cs != [] && SplitFirst(EncodedAll(cs)).Some? && SplitFirst(EncodedAll(cs)).value.c == cs[0]
    ensures Faithful(cs[0])
  {
    hide Faithful, SplitFirst, EncodedWidth, Width, InStandard, Encoded, Standard;
    var s, c := EncodedAll(cs), cs[0];
    OnlyStandardIsRead(s);
    FaithfulWidth(c);
    if !Faithful(c) {
      ShapeOfStandard(c);
      if c == 0 {
        NoZeroByteAtAll(cs);
        ZeroIsReadFromZero(s);
      } else {
        ShortEncoding(c);
      }
    }
  }

  /** The one leading byte says five bytes, the other six. */
  lemma ShortEncoding(c: char32)
    requires InStandard(c) && !Faithful(c) && c != 0
    ensures Encoded(c) != [] && Standard(c) != [] && Encoded(c)[0] != Standard(c)[0]
  {
    hide High, Continuation, FitsLead, Low;
    assert EncodedWidth(c) == 5 && Width(c) == 6;
    RangeIsWidth(c, 6);
    HighFits(c, 6);
    LeadsDiffer(High(c, 4) & Wide(LeadMask(5)), High(c, 5));
  }

  lemma LeadsDiffer(five: char32, six: char32)
    requires five & 0xfffffffc == 0 && FitsLead(six, 6)
    ensures LeadByte(five, 5) != LeadByte(six, 6)
  {}

  /** A list of codepoints survives encoding and decoding exactly when all of them are faithful. */
  lemma {:induction false} CodepointRoundTrip(cs: seq<char32>)
    ensures Forward(EncodedAll(cs)) == cs <==> AllFaithful(cs)
  {
    hide Faithful, SplitFirst, EncodedWidth, Encoded;
    var s := EncodedAll(cs);
    if cs == [] {
      NothingFirst();
    } else {
      CodepointRoundTrip(cs[1..]);
      EncodedIsReadBack(cs[0], EncodedAll(cs[1..]));
      if Faithful(cs[0]) {
        assert s[|Encoded(cs[0])|..] == EncodedAll(cs[1..]);
        assert Forward(s) == [cs[0]] + Forward(EncodedAll(cs[1..]));
        assert cs == [cs[0]] + cs[1..];
        assert ([cs[0]] + Forward(EncodedAll(cs[1..])))[1..] == Forward(EncodedAll(cs[1..]));
      } else if Forward(s) == cs {
        assert SplitFirst(s).value.c == cs[0];
        FirstReadIsFaithful(cs);
        assert false;
      }
    }
  }

  // ----- Codepoints that are not faithful

  /** The bits that five or six bytes have room for. */
  function Clipped(c: char32): char32 {
    if c < 0x8000000 then c & 0x3ffffff else c & 0x7fffffff
  }

  lemma ClippedGroups(c: char32, n: nat, k: nat)
    requires n == (if c < 0x8000000 then 5 else 6) && k <= n - 2
    ensures Trail(Behind(Clipped(c), k)) == Trail(Behind(c, k))
  {
    match k
    case 0 =>
    case 1 =>
    case 2 =>
    case 3 =>
    case 4 =>
  }

  lemma ClippedLead(c: char32, n: nat)
    requires n == if c < 0x8000000 then 5 else 6
    ensures Behind(Clipped(c), n - 1) == Behind(c, n - 1) & Wide(LeadMask(n))
    ensures FitsLead(Behind(Clipped(c), n - 1), n)
  {}

  lemma ClippedTrails(c: char32, n: nat)
    requires n == if c < 0x8000000 then 5 else 6
    ensures Continuation(Clipped(c), n - 1) == Continuation(c, n - 1)
  {
    hide Clipped, Behind, Trail, Continuation;
    var clipped, whole := Continuation(Clipped(c), n - 1), Continuation(c, n - 1);
    forall j | 0 <= j < n - 1 ensures clipped[j] == whole[j] {
      TrailOfGroup(Clipped(c), n - 1, j);
      TrailOfGroup(c, n - 1, j);
      ClippedGroups(c, n, n - 2 - j);
    }
  }

  lemma EncodedIsClipped(c: char32)
    requires !Faithful(c) && c != 0
    ensures var n := EncodedWidth(c); n == (if c < 0x8000000 then 5 else 6) && Encoded(c) == Sequence(Clipped(c), n)
    ensures FitsLead(High(Clipped(c), EncodedWidth(c) - 1), EncodedWidth(c))
  {
    var n := EncodedWidth(c);
    assert n == if c < 0x8000000 then 5 else 6;
    hide Faithful, EncodedWidth, Clipped, Behind, High, Continuation, LeadByte, Marked, Mark, LeadMask, Wide, FitsLead;
    HighIsBehind(c, n - 1);
    HighIsBehind(Clipped(c), n - 1);
    ClippedLead(c, n);
    ClippedTrails(c, n);
    MarkedIsLead(High(c, n - 1), Wide(LeadMask(n)), n);
  }

  lemma SequenceIsRead(c: char32, n: nat, tail: seq<byte>)
    requires 2 <= n <= 6 && FitsLead(High(c, n - 1), n)
    ensures SplitFirst(Sequence(c, n) + tail) == if InRange(c, n) then Some(Split(c, n)) else None
  {
    hide Gather, High, Continuation, LeadByte, Lead, SequenceLength, AllTrailing, FitsLead, InRange;
    var s := Sequence(c, n) + tail;
    LeadIsRead(High(c, n - 1), n);
    GatherOfContinuation(c, n - 1);
    assert s[1..n] == Continuation(c, n - 1);
  }

  /** A codepoint with too many bits is read back without its high bits, unless what is left has a shorter form. */
  lemma OthersAreClipped(c: char32, tail: seq<byte>)
    requires !Faithful(c) && c != 0
    ensures var d, n := Clipped(c), EncodedWidth(c);
      SplitFirst(Encoded(c) + tail) == if Width(d) == n then Some(Split(d, n)) else None
  {
    hide Faithful, EncodedWidth, Clipped, SplitFirst, Encoded, Sequence, Width, InRange, InStandard, FitsLead, High;
    EncodedIsClipped(c);
    var d, n := Clipped(c), EncodedWidth(c);
    SequenceIsRead(d, n, tail);
    RangeIsWidth(d, n);
    ClippedIsStandard(c);
  }

  lemma ClippedIsStandard(c: char32)
    ensures InStandard(Clipped(c))
  {}
}
