/**
 Where SplitStringToUtf8Graphemes cuts, by the bytes of the text.

 `JoinsByBytes` says for each two neighbouring characters of any text whether they stay together,
 `CharactersAreChunks` that the characters of a Unicode text are the pieces that are looked at.
 */
module GraphemeBreaks {
  import opened Basics
  import opened Utf8
  import opened Utf8Strings
  import opened Utf8Table
  import opened Graphemes

  // ----- Classes of characters, by their bytes

  /** U+3099 and U+309A, or U+FE00 to U+FE0F. */
  predicate IsMark3(b0: byte, b1: byte, b2: byte) {
    || (b0 == 0xe3 && b1 == 0x82 && (b2 == 0x99 || b2 == 0x9a))
    || (b0 == 0xef && b1 == 0xb8 && 0x80 <= b2 <= 0x8f)
  }

  /** U+1F3FB to U+1F3FF, U+E0020 to U+E007F, or U+E0100 to U+E01EF. */
  predicate IsMark4(b0: byte, b1: byte, b2: byte, b3: byte) {
    || (b0 == 0xf0 && b1 == 0x9f && b2 == 0x8f && 0xbb <= b3 <= 0xbf)
    || (b0 == 0xf3 && b1 == 0xa0 && b2 == 0x80 && 0xa0 <= b3 <= 0xbf)
    || (b0 == 0xf3 && b1 == 0xa0 && b2 == 0x81 && 0x80 <= b3 <= 0xbf)
    || (b0 == 0xf3 && b1 == 0xa0 && 0x84 <= b2 <= 0x86 && 0x80 <= b3 <= 0xbf)
    || (b0 == 0xf3 && b1 == 0xa0 && b2 == 0x87 && 0x80 <= b3 <= 0xaf)
  }

  predicate IsMark(x: seq<byte>) {
    (|x| == 3 && IsMark3(x[0], x[1], x[2])) || (|x| == 4 && IsMark4(x[0], x[1], x[2], x[3]))
  }

  /** U+1F1E6 to U+1F1FF. */
  predicate IsIndicator4(b0: byte, b1: byte, b2: byte, b3: byte) {
    b0 == 0xf0 && b1 == 0x9f && b2 == 0x87 && 0xa6 <= b3 <= 0xbf
  }

  predicate IsIndicator(x: seq<byte>) { |x| == 4 && IsIndicator4(x[0], x[1], x[2], x[3]) }

  /** U+200D, U+20E3 and U+FE0F. */
  const ZWJ: seq<byte> := [0xe2, 0x80, 0x8d]
  const KEYCAP: seq<byte> := [0xe2, 0x83, 0xa3]
  const VS16: seq<byte> := [0xef, 0xb8, 0x8f]

  lemma Marks3(c: char32)
    requires 0x800 <= c < 0x10000
    ensures IsExtender(c) <==> IsMark3(Leading(0xe0, Behind(c, 2)), Trail(Behind(c, 1)), Trail(c))
  {}

  lemma Marks4(c: char32)
    requires 0x10000 <= c < 0x200000
    ensures IsExtender(c) <==>
      IsMark4(Leading(0xf0, Behind(c, 3)), Trail(Behind(c, 2)), Trail(Behind(c, 1)), Trail(c))
  {}

  lemma NoMarks(c: char32)
    requires !(0x800 <= c < 0x200000)
    ensures !IsExtender(c) && !IsRegionalIndicator(c)
  {}

  lemma Indicators4(c: char32)
    requires 0x10000 <= c < 0x200000
    ensures IsRegionalIndicator(c) <==>
      IsIndicator4(Leading(0xf0, Behind(c, 3)), Trail(Behind(c, 2)), Trail(Behind(c, 1)), Trail(c))
  {}

  lemma Special3(c: char32)
    requires 0x800 <= c < 0x10000
    ensures c == 0x200D <==> Row(c, 3) == ZWJ
    ensures c == 0x20E3 <==> Row(c, 3) == KEYCAP
    ensures c == 0xFE0F <==> Row(c, 3) == VS16
  {}

  /** The class of a character is that of its bytes. */
  lemma ClassOfStandard(c: char32)
    requires InStandard(c)
    ensures var x := Standard(c);
      && (IsExtender(c) <==> IsMark(x)) && (IsRegionalIndicator(c) <==> IsIndicator(x))
      && (c == 0x200D <==> x == ZWJ) && (c == 0x20E3 <==> x == KEYCAP) && (c == 0xFE0F <==> x == VS16)
  {
    hide Behind, Leading, Trail, IsMark3, IsMark4, IsIndicator4, IsExtender, IsRegionalIndicator, Standard, InStandard;
    StandardIsRow(c);
    if 0x800 <= c < 0x10000 {
      Marks3(c);
      Special3(c);
      NoIndicator(c);
    } else if 0x10000 <= c < 0x200000 {
      Marks4(c);
      Indicators4(c);
    } else {
      NoMarks(c);
    }
  }

  lemma NoIndicator(c: char32)
    requires c < 0x10000
    ensures !IsRegionalIndicator(c)
  {}

  // ----- Bytes of these classes can be read

  function Join3(b0: byte, b1: byte, b2: byte): char32 {
    (((b0 & 0x0f) as char32) << 12) | (((b1 & 0x3f) as char32) << 6) | ((b2 & 0x3f) as char32)
  }

  function Join4(b0: byte, b1: byte, b2: byte, b3: byte): char32 {
    (((b0 & 0x07) as char32) << 18) | (((b1 & 0x3f) as char32) << 12) | (((b2 & 0x3f) as char32) << 6)
    | ((b3 & 0x3f) as char32)
  }

  predicate IsSpecial3(b0: byte, b1: byte, b2: byte) {
    (b0 == 0xe2 && b1 == 0x80 && b2 == 0x8d) || (b0 == 0xe2 && b1 == 0x83 && b2 == 0xa3)
  }

  lemma Row3(b0: byte, b1: byte, b2: byte)
    requires IsMark3(b0, b1, b2) || IsSpecial3(b0, b1, b2)
    ensures var c := Join3(b0, b1, b2); 0x800 <= c < 0x10000 && Row(c, 3) == [b0, b1, b2]
  {}

  lemma Row4(b0: byte, b1: byte, b2: byte, b3: byte)
    requires IsMark4(b0, b1, b2, b3) || IsIndicator4(b0, b1, b2, b3)
    ensures var c := Join4(b0, b1, b2, b3); 0x10000 <= c < 0x200000 && Row(c, 4) == [b0, b1, b2, b3]
  {}

  lemma RowIsRead(c: char32)
    requires c < 0x200000
    ensures SplitFirst(RowOf(c)).Some?
  {
    assert InStandard(c);
    hide SplitFirst, Standard, InStandard, RowOf;
    StandardIsRow(c);
    ReadsStandard(c, []);
    assert Standard(c) + [] == Standard(c);
  }

  lemma SpecialIsSpecial3(x: seq<byte>)
    requires x == ZWJ || x == KEYCAP || x == VS16
    ensures |x| == 3 && (IsMark3(x[0], x[1], x[2]) || IsSpecial3(x[0], x[1], x[2]))
  {}

  lemma ClassIsRead(x: seq<byte>)
    requires IsMark(x) || IsIndicator(x) || x == ZWJ || x == KEYCAP || x == VS16
    ensures SplitFirst(x).Some?
  {
    hide SplitFirst, IsMark3, IsMark4, IsIndicator4, IsSpecial3, Row, Join3, Join4;
    if x == ZWJ || x == KEYCAP || x == VS16 { SpecialIsSpecial3(x); }
    if |x| == 3 {
      Row3(x[0], x[1], x[2]);
      RowIsRead(Join3(x[0], x[1], x[2]));
      assert x == [x[0], x[1], x[2]];
    } else {
      Row4(x[0], x[1], x[2], x[3]);
      RowIsRead(Join4(x[0], x[1], x[2], x[3]));
      assert x == [x[0], x[1], x[2], x[3]];
    }
  }

  // ----- Which characters join

  /** No byte string but a whole character is read. */
  predicate IsWholeOrUnreadable(x: seq<byte>) { SplitFirst(x).Some? ==> SplitFirst(x).value.len == |x| }

  /** The class of a piece of text is that of its bytes. */
  lemma ClassOfChunk(x: seq<byte>)
    requires IsWholeOrUnreadable(x)
    ensures var c := Codepoint(x);
      && (IsExtender(c) <==> IsMark(x)) && (IsRegionalIndicator(c) <==> IsIndicator(x))
      && (c == 0x200D <==> x == ZWJ) && (c == 0x20E3 <==> x == KEYCAP) && (c == 0xFE0F <==> x == VS16)
  {
    hide SplitFirst, IsMark, IsIndicator, IsExtender, IsRegionalIndicator, Standard, InStandard;
    if SplitFirst(x).Some? {
      OnlyStandardIsRead(x);
      ClassOfStandard(Codepoint(x));
      assert x[..|x|] == x;
    } else {
      NoMarks(0);
      if IsMark(x) || IsIndicator(x) || x == ZWJ || x == KEYCAP || x == VS16 { ClassIsRead(x); }
    }
  }

  /** How many regional indicators stand directly in front of character i. */
  function IndicatorsBefore(chunks: seq<seq<byte>>, i: nat): (n: nat)
    requires i <= |chunks|
    ensures n <= i
  {
    if i == 0 || !IsIndicator(chunks[i - 1]) then 0 else 1 + IndicatorsBefore(chunks, i - 1)
  }

  lemma {:induction false} RunOfIndicators(chunks: seq<seq<byte>>, i: nat)
    requires i <= |chunks|
    ensures var start := i - IndicatorsBefore(chunks, i);
      && (forall j :: start <= j < i ==> IsIndicator(chunks[j]))
      && (start > 0 ==> !IsIndicator(chunks[start - 1]))
  {
    hide IsIndicator;
    if i > 0 && IsIndicator(chunks[i - 1]) { RunOfIndicators(chunks, i - 1); }
  }

  predicate AllWhole(chunks: seq<seq<byte>>) { forall x :: x in chunks ==> IsWholeOrUnreadable(x) }

  /** An indicator joins the one in front of it when that is the first of a flag. */
  lemma IndicatorJoins(chunks: seq<seq<byte>>, i: nat)
    requires AllWhole(chunks) && 0 < i < |chunks| && IsIndicator(chunks[i])
    ensures JoinsAt(chunks, i) <==> IndicatorsBefore(chunks, i) % 2 == 1 || chunks[i - 1] == ZWJ
  {
    hide IsIndicator, IsRegionalIndicator, Codepoint, JoinsAt, IsWholeOrUnreadable, IsMark, IsExtender;
    var k := IndicatorsBefore(chunks, i);
    RunOfIndicators(chunks, i);
    forall j | 0 <= j <= i
      ensures IsRegionalIndicator(Codepoint(chunks[j])) <==> IsIndicator(chunks[j])
      ensures Codepoint(chunks[j]) == 0x200D <==> chunks[j] == ZWJ
    {
      ClassOfChunk(chunks[j]);
    }
    FlagsArePairs(chunks, i - k, k);
    JoinerIsNoIndicator(chunks[i - 1]);
  }

  lemma JoinerIsNoIndicator(x: seq<byte>)
    ensures IsIndicator(x) ==> x != ZWJ
  {}

  /** All others look at the character in front of them and at themselves. */
  lemma OtherJoins(chunks: seq<seq<byte>>, i: nat)
    requires AllWhole(chunks) && 0 < i < |chunks| && !IsIndicator(chunks[i])
    ensures var y, x := chunks[i - 1], chunks[i];
      JoinsAt(chunks, i) <==> IsMark(x) || x == ZWJ || y == ZWJ || (x == KEYCAP && y == VS16)
  {
    hide IsIndicator, IsRegionalIndicator, Codepoint, IsWholeOrUnreadable, IsMark, IsExtender;
    ClassOfChunk(chunks[i - 1]);
    ClassOfChunk(chunks[i]);
    IndicatorIsPlain(Codepoint(chunks[i - 1]));
  }

  lemma IndicatorIsPlain(c: char32)
    ensures IsRegionalIndicator(c) ==> c != 0x200D && c != 0xFE0F
  {}

  /** A mark, a joiner and what follows it, a keycap behind a selector, and the second character of a flag join the
      character in front of them, and no others do. */
  lemma JoinsByBytes(chunks: seq<seq<byte>>, i: nat)
    requires AllWhole(chunks) && 0 < i < |chunks|
    ensures var y, x := chunks[i - 1], chunks[i];
      JoinsAt(chunks, i) <==>
        || IsMark(x) || x == ZWJ || y == ZWJ || (x == KEYCAP && y == VS16)
        || (IsIndicator(x) && IndicatorsBefore(chunks, i) % 2 == 1)
  {
    hide JoinsAt, AllWhole, IsMark, IsIndicator, IndicatorsBefore;
    if IsIndicator(chunks[i]) {
      IndicatorJoins(chunks, i);
      IndicatorIsNothingElse(chunks[i]);
    } else {
      OtherJoins(chunks, i);
    }
  }

  lemma IndicatorIsNothingElse(x: seq<byte>)
    requires IsIndicator(x)
    ensures !IsMark(x) && x != ZWJ && x != KEYCAP
  {}

  // ----- The pieces of a text

  lemma {:induction false} ChunksAreWhole(s: seq<byte>)
    requires IsChunkable(s)
    ensures AllWhole(Chunks(s))
  {
    hide CharLen, SplitFirst, SequenceLength;
    if s != [] {
      var n := CharLen(s[0]);
      FirstIsWhole(s[..n], n);
      ChunksAreWhole(s[n..]);
    }
  }

  lemma FirstIsWhole(x: seq<byte>, n: nat)
    requires x != [] && n == CharLen(x[0]) == |x|
    ensures IsWholeOrUnreadable(x)
  {
    hide CharLen, SplitFirst, SequenceLength;
    TableLength(x[0]);
    if SplitFirst(x).Some? { AnnouncedLength(x); }
  }

  /** The first byte of a character has the length of the character. */
  lemma LengthOfRow(c: char32)
    requires IsShort(c)
    ensures var x := RowOf(c); x != [] && CharLen(x[0]) == |x|
  {
    hide Trail, Leading, Behind, CharLen;
    if c < 0x80 { Lead1(c); } else if c < 0x800 { Lead2(c); } else if c < 0x10000 { Lead3(c); } else { Lead4(c); }
  }

  lemma Lead1(c: char32)
    requires c < 0x80
    ensures CharLen(Leading(0x00, c)) == 1
  {}

  lemma Lead2(c: char32)
    requires 0x80 <= c < 0x800
    ensures CharLen(Leading(0xc0, Behind(c, 1))) == 2
  {}

  lemma Lead3(c: char32)
    requires 0x800 <= c < 0x10000
    ensures CharLen(Leading(0xe0, Behind(c, 2))) == 3
  {}

  lemma Lead4(c: char32)
    requires 0x10000 <= c < 0x140000
    ensures CharLen(Leading(0xf0, Behind(c, 3))) == 4
  {}

  /** Unicode ends at 0x10ffff. */
  predicate IsShort(c: char32) { c < 0x140000 }

  predicate AllShort(cs: seq<char32>) { forall c :: c in cs ==> IsShort(c) }

  /** The characters one by one, for the codepoints of Unicode and some more. */
  lemma {:induction false} CharactersAreChunks(cs: seq<char32>)
    requires AllShort(cs)
    ensures IsChunkable(Flat(cs)) && |Chunks(Flat(cs))| == |cs|
    ensures forall i :: 0 <= i < |cs| ==> Chunks(Flat(cs))[i] == Standard(cs[i])
  {
    hide CharLen, Standard, RowOf, InStandard, IsShort;
    if cs != [] {
      var s, x := Flat(cs), Standard(cs[0]);
      assert cs[0] in cs;
      ShortIsInStandard(cs[0]);
      StandardIsRow(cs[0]);
      LengthOfRow(cs[0]);
      CharactersAreChunks(cs[1..]);
      assert s[0] == x[0] && s[..|x|] == x && s[|x|..] == Flat(cs[1..]);
    }
  }

  lemma ShortIsInStandard(c: char32)
    requires IsShort(c)
    ensures InStandard(c)
  {}
}
