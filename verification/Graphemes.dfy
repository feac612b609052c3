/**
 SplitStringToUtf8Graphemes (util.cc): cutting a text into characters and merging them into graphemes.

 Merging moves boundaries and nothing else (`NothingIsLost`), and a run of regional
 indicators is cut into pairs from its start (`FlagsArePairs`).
 */
module Graphemes {
  import opened Basics
  import opened Utf8
  import opened Utf8Strings

  // ----- Cutting into characters

  /** The length by the table of the first byte. */
  function CharLen(b: byte): (n: nat)
    ensures 1 <= n <= 4
  {
    OneCharLen(b as octet)
  }

  /** No character runs over the end of the text. */
  predicate IsChunkable(s: seq<byte>) {
    s != [] ==> CharLen(s[0]) <= |s| && IsChunkable(s[CharLen(s[0])..])
  }

  function Chunks(s: seq<byte>): seq<seq<byte>>
    requires IsChunkable(s)
  {
    if s == [] then [] else var n := CharLen(s[0]); [s[..n]] + Chunks(s[n..])
  }

  lemma ChunkStep(s: seq<byte>, begin: nat, n: nat, output: seq<seq<byte>>)
    requires begin < |s| && n == CharLen(s[begin]) && IsChunkable(s[begin..])
    ensures begin + n <= |s| && IsChunkable(s[begin + n..])
    ensures output + Chunks(s[begin..]) == output + [s[begin..begin + n]] + Chunks(s[begin + n..])
  {
    hide CharLen;
    var rest := s[begin..];
    assert rest[n..] == s[begin + n..] && rest[..n] == s[begin..begin + n];
    Regroup(output, [rest[..n]], Chunks(rest[n..]));
  }

  lemma NoChunks(s: seq<byte>)
    requires s == []
    ensures IsChunkable(s) && Chunks(s) == []
  {}

  /** SplitStringToUtf8Chars, for a text of which no character runs over the end. */
  method SplitToChars(str: seq<byte>) returns (output: seq<seq<byte>>)
    requires IsChunkable(str)
    ensures output == Chunks(str)
  {
    hide CharLen, IsChunkable, Chunks;
    output := [];
    var begin := 0;
    assert str[0..] == str;
    while begin < |str|
      invariant begin <= |str| && IsChunkable(str[begin..]) && output + Chunks(str[begin..]) == Chunks(str)
    {
      var mblen := CharLen(str[begin]);
      ChunkStep(str, begin, mblen, output);
      output := output + [str[begin..begin + mblen]];
      begin := begin + mblen;
    }
    NoChunks(str[begin..]);
  }

  /** The table agrees with the announced length, or it is 1. */
  lemma TableLength(b: byte)
    ensures CharLen(b) == SequenceLength(b) || CharLen(b) == 1
    ensures IsTrailing(b) ==> CharLen(b) == 1
  {}

  lemma {:induction false} TrailingIsChunkable(trail: seq<byte>, rest: seq<byte>)
    requires AllTrailing(trail) && IsChunkable(rest)
    ensures IsChunkable(trail + rest)
  {
    hide CharLen, IsTrailing;
    if trail == [] {
      assert trail + rest == rest;
    } else {
      TableLength(trail[0]);
      assert (trail + rest)[1..] == trail[1..] + rest;
      TrailingIsChunkable(trail[1..], rest);
    }
  }

  lemma StandardIsChunkable(c: char32, rest: seq<byte>)
    requires InStandard(c) && IsChunkable(rest)
    ensures IsChunkable(Standard(c) + rest)
  {
    hide CharLen, IsTrailing, InStandard, Standard, AllTrailing, SplitFirst, SequenceLength, Width;
    var piece := Standard(c);
    var s := piece + rest;
    ShapeOfStandard(c);
    LengthOfStandard(c);
    TableLength(piece[0]);
    if CharLen(piece[0]) == 1 {
      assert s[1..] == piece[1..] + rest;
      TrailingIsChunkable(piece[1..], rest);
    } else {
      assert s[|piece|..] == rest;
    }
  }

  lemma LengthOfStandard(c: char32)
    requires InStandard(c)
    ensures Standard(c) != [] && SequenceLength(Standard(c)[0]) == Width(c)
  {
    hide InStandard, Standard, SequenceLength, Width;
    ShapeOfStandard(c);
    ReadsStandard(c, []);
    assert Standard(c) + [] == Standard(c);
    AnnouncedLength(Standard(c));
  }

  lemma AnnouncedLength(s: seq<byte>)
    requires SplitFirst(s).Some?
    ensures SplitFirst(s).value.len == SequenceLength(s[0])
  {
    hide SequenceLength, Gather, InRange, AllTrailing;
  }

  lemma ValidHead(s: seq<byte>)
    requires Valid(s) && s != []
    ensures SplitFirst(s).Some? && Valid(s[SplitFirst(s).value.len..])
  {
    hide SplitFirst;
  }

  /** Every valid text can be cut: no character of it runs over the end. */
  lemma {:induction false} ValidIsChunkable(s: seq<byte>)
    requires Valid(s)
    ensures IsChunkable(s)
  {
    hide SplitFirst, CharLen, InStandard, Standard, Valid, IsChunkable, Width;
    if s == [] {
      NoChunks(s);
    } else {
      ValidHead(s);
      OnlyStandardIsRead(s);
      var n := SplitFirst(s).value.len;
      ValidIsChunkable(s[n..]);
      StandardIsChunkable(SplitFirst(s).value.c, s[n..]);
      assert s[..n] + s[n..] == s;
    }
  }

  lemma {:induction false} ChunksAreText(s: seq<byte>)
    requires IsChunkable(s)
    ensures Concat(Chunks(s)) == s
  {
    hide CharLen;
    if s != [] {
      var n := CharLen(s[0]);
      ChunksAreText(s[n..]);
      ConcatCons(s[..n], Chunks(s[n..]));
      assert s[..n] + s[n..] == s;
    }
  }

  lemma {:induction false} ConcatCons(x: seq<byte>, parts: seq<seq<byte>>)
    ensures Concat([x] + parts) == x + Concat(parts)
  {
    if parts == [] {
      assert [x] + parts == [x] && [x][..0] == [];
    } else {
      var init, last := parts[..|parts| - 1], parts[|parts| - 1];
      assert ([x] + parts)[..|parts|] == [x] + init;
      ConcatCons(x, init);
      Regroup(x, Concat(init), last);
    }
  }

  // ----- Merging

  /** Utf8ToCodepoint on one chunk; 0 when it cannot be read. */
  function Codepoint(chunk: seq<byte>): char32 {
    var r := SplitFirst(chunk);
    if r.None? then 0 else r.value.c
  }

  /** ZERO WIDTH JOINER. */
  const JOINER: char32 := 0x200D

  predicate IsRegionalIndicator(c: char32) { 0x1F1E6 <= c <= 0x1F1FF }

  /** Characters that belong to the one before them, whatever it is. */
  predicate IsExtender(c: char32) {
    || c == 0x3099 || c == 0x309A           // dakuten
    || 0xFE00 <= c <= 0xFE0F                // standardized and emoji variation selectors
    || 0xE0100 <= c <= 0xE01EF              // ideographic variation selectors
    || 0x1F3FB <= c <= 0x1F3FF              // emoji modifiers
    || 0xE0020 <= c <= 0xE007F              // emoji tags
  }

  predicate IsFlag(prev: char32, c: char32) { IsRegionalIndicator(prev) && IsRegionalIndicator(c) }

  /** Characters that belong together, besides the two of a flag. */
  predicate IsSequence(prev: char32, c: char32) {
    IsExtender(c) || (prev == 0xFE0F && c == 0x20E3) || c == JOINER || prev == JOINER
  }

  /** What the loop keeps as `prev` before character i: 0 at the start and behind a flag. */
  function Prev(chunks: seq<seq<byte>>, i: nat): char32
    requires i <= |chunks|
  {
    if i == 0 then 0
    else if IsFlag(Prev(chunks, i - 1), Codepoint(chunks[i - 1])) then 0
    else Codepoint(chunks[i - 1])
  }

  /** Character i is appended to the grapheme before it. */
  predicate JoinsAt(chunks: seq<seq<byte>>, i: nat)
    requires i < |chunks|
  {
    var prev, c := Prev(chunks, i), Codepoint(chunks[i]);
    i > 0 && (IsFlag(prev, c) || IsSequence(prev, c))
  }

  /** The graphemes of the first n characters. */
  function Merged(chunks: seq<seq<byte>>, n: nat): (r: seq<seq<byte>>)
    requires n <= |chunks|
    ensures r == [] <==> n == 0
  {
    if n == 0 then []
    else
      var before := Merged(chunks, n - 1);
      if JoinsAt(chunks, n - 1) then before[|before| - 1 := before[|before| - 1] + chunks[n - 1]]
      else before + [chunks[n - 1]]
  }

  function Concat(parts: seq<seq<byte>>): seq<byte> {
    if parts == [] then [] else Concat(parts[..|parts| - 1]) + parts[|parts| - 1]
  }

  lemma ConcatAppend(parts: seq<seq<byte>>, x: seq<byte>)
    ensures Concat(parts + [x]) == Concat(parts) + x
  {
    assert (parts + [x])[..|parts|] == parts;
  }

  lemma ConcatExtend(parts: seq<seq<byte>>, x: seq<byte>)
    requires parts != []
    ensures Concat(parts[|parts| - 1 := parts[|parts| - 1] + x]) == Concat(parts) + x
  {
    var last := |parts| - 1;
    assert parts[last := parts[last] + x][..last] == parts[..last];
    Regroup(Concat(parts[..last]), parts[last], x);
  }

  /** The graphemes put together are the text. */
  lemma {:induction false} NothingIsLost(chunks: seq<seq<byte>>, n: nat)
    requires n <= |chunks|
    ensures Concat(Merged(chunks, n)) == Concat(chunks[..n])
  {
    hide Concat, JoinsAt;
    if n == 0 {
      assert chunks[..0] == [];
    } else {
      var before := Merged(chunks, n - 1);
      NothingIsLost(chunks, n - 1);
      assert chunks[..n] == chunks[..n - 1] + [chunks[n - 1]];
      ConcatAppend(chunks[..n - 1], chunks[n - 1]);
      ConcatAppend(before, chunks[n - 1]);
      if n > 1 { ConcatExtend(before, chunks[n - 1]); } else { FirstIsAlone(chunks); }
    }
  }

  lemma FirstIsAlone(chunks: seq<seq<byte>>)
    requires chunks != []
    ensures !JoinsAt(chunks, 0)
  {}

  /** The number of graphemes is the number of characters that are not appended to another. */
  function Breaks(chunks: seq<seq<byte>>, n: nat): nat
    requires n <= |chunks|
  {
    if n == 0 then 0 else Breaks(chunks, n - 1) + if JoinsAt(chunks, n - 1) then 0 else 1
  }

  lemma {:induction false} CountIsBreaks(chunks: seq<seq<byte>>, n: nat)
    requires n <= |chunks|
    ensures |Merged(chunks, n)| == Breaks(chunks, n)
  {
    hide JoinsAt;
    if n > 0 {
      CountIsBreaks(chunks, n - 1);
      FirstIsAlone(chunks);
    }
  }

  /** In a run of regional indicators that starts at `start`, every second one completes a flag: it is appended to the
      one before it, and the next one starts a new grapheme. Only the first may belong to something else, the characters
      before a joiner. */
  lemma {:induction false} FlagsArePairs(chunks: seq<seq<byte>>, start: nat, k: nat)
    requires start + k < |chunks|
    requires forall i :: start <= i <= start + k ==> IsRegionalIndicator(Codepoint(chunks[i]))
    requires start > 0 ==> !IsRegionalIndicator(Codepoint(chunks[start - 1]))
    ensures IsFlag(Prev(chunks, start + k), Codepoint(chunks[start + k])) <==> k % 2 == 1
    ensures JoinsAt(chunks, start + k) <==>
      k % 2 == 1 || (k == 0 && start > 0 && Codepoint(chunks[start - 1]) == JOINER)
  {
    hide IsRegionalIndicator, IsSequence, Codepoint;
    var c := Codepoint(chunks[start + k]);
    ZeroIsNothing(c);
    if k == 0 {
      if start > 0 { OnlyJoinerJoins(Codepoint(chunks[start - 1]), c); }
    } else {
      var prev := Codepoint(chunks[start + k - 1]);
      FlagsArePairs(chunks, start, k - 1);
      IndicatorIsNoJoiner(prev);
      OnlyJoinerJoins(prev, c);
    }
  }

  lemma OnlyJoinerJoins(prev: char32, c: char32)
    requires IsRegionalIndicator(c)
    ensures IsSequence(prev, c) <==> prev == JOINER
  {}

  lemma IndicatorIsNoJoiner(c: char32)
    requires IsRegionalIndicator(c)
    ensures c != JOINER
  {}

  lemma ZeroIsNothing(c: char32)
    ensures !IsRegionalIndicator(0)
    ensures IsRegionalIndicator(c) ==> !IsSequence(0, c)
  {}

  /** The merging part of the method. */
  method MergeGraphemes(chunks: seq<seq<byte>>) returns (graphemes: seq<seq<byte>>)
    ensures graphemes == Merged(chunks, |chunks|)
    ensures Concat(graphemes) == Concat(chunks)
  {
    hide IsFlag, IsSequence, Codepoint, Concat;
    graphemes := [];
    var prev: char32 := 0;
    for i := 0 to |chunks|
      invariant prev == Prev(chunks, i) && graphemes == Merged(chunks, i)
    {
      var c := Codepoint(chunks[i]);
      if IsFlag(prev, c) && graphemes != [] {
        var last := |graphemes| - 1;
        graphemes := graphemes[last := graphemes[last] + chunks[i]];
        prev := 0;
      } else {
        NoFlagAtStart(c);
        if IsSequence(prev, c) && graphemes != [] {
          var last := |graphemes| - 1;
          graphemes := graphemes[last := graphemes[last] + chunks[i]];
        } else {
          graphemes := graphemes + [chunks[i]];
        }
        prev := c;
      }
    }
    NothingIsLost(chunks, |chunks|);
    assert chunks[..|chunks|] == chunks;
  }

  lemma NoFlagAtStart(c: char32)
    ensures !IsFlag(0, c)
  {}

  method SplitStringToUtf8Graphemes(str: seq<byte>) returns (graphemes: seq<seq<byte>>)
    requires IsChunkable(str)
    ensures graphemes == Merged(Chunks(str), |Chunks(str)|)
    ensures Concat(graphemes) == str
  {
    hide Concat, JoinsAt, CharLen;
    graphemes := SplitToChars(str);
    ChunksAreText(str);
    if |graphemes| <= 1 {
      FewAreMerged(graphemes);
      return;
    }
    graphemes := MergeGraphemes(graphemes);
  }

  lemma FewAreMerged(chunks: seq<seq<byte>>)
    requires |chunks| <= 1
    ensures Merged(chunks, |chunks|) == chunks
  {
    if |chunks| == 1 {
      FirstIsAlone(chunks);
      assert Merged(chunks, 0) == [] && [] + [chunks[0]] == chunks;
    }
  }
}
