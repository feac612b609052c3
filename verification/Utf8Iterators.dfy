/**
 The methods of util.cc over UTF-8 strings: the splitters, the two iterators and the conversions.
 */
module Utf8Iterators {
  import opened Basics
  import opened Utf8
  import opened Utf8Strings
  import opened Utf8Encoder

  // ----- SplitFirstChar32

  /** The loop over the trailing bytes. */
  method GatherTrailing(s: seq<byte>, len: nat, lead: char32) returns (ok: bool, result: char32)
    requires 1 <= len <= |s|
    ensures ok <==> AllTrailing(s[1..len])
    ensures ok ==> result == Gather(lead, s[1..len])
  {
    hide Push, IsTrailing;
    result := lead;
    assert s[1..1] == [];
    for i := 1 to len
      invariant AllTrailing(s[1..i]) && result == Gather(lead, s[1..i])
    {
      assert s[1..i + 1] == s[1..i] + [s[i]];
      if !IsTrailing(s[i]) {
        assert s[i] in s[1..len];
        return false, 0;
      }
      result := Push(result, s[i]);
    }
    ok := true;
  }

  /** What SplitFirstChar32 reports. */
  ghost predicate FirstIs(s: seq<byte>, ok: bool, first: char32, rest: seq<byte>) {
    var r := SplitFirst(s);
    (ok, first, rest) == if r.Some? then (true, r.value.c, s[r.value.len..]) else (false, 0, [])
  }

  /** len, min_value, max_value and the first bits of the result, by leading byte; len 0 for none. */
  method LeadingByte(b: byte) returns (len: nat, min: char32, max: char32, result: char32)
    requires b >= 0x80
    ensures len == SequenceLength(b)
    ensures len > 0 ==> min == MinValue(len) && max == MaxValue(len) && result == Lead(b)
  {
    len, min, max, result := 0, 0, 0xffffffff, 0;
    if b & 0xe0 == 0xc0 {
      len, min, max, result := 2, 0x80, 0x7ff, Wide(b & 0x1f);
    } else if b & 0xf0 == 0xe0 {
      len, min, max, result := 3, 0x800, 0xffff, Wide(b & 0x0f);
    } else if b & 0xf8 == 0xf0 {
      len, min, max, result := 4, 0x10000, 0x1fffff, Wide(b & 0x07);
    } else if b & 0xfc == 0xf8 {
      len, min, max, result := 5, 0x200000, 0x3ffffff, Wide(b & 0x03);
    } else if b & 0xfe == 0xfc {
      len, min, max, result := 6, 0x4000000, 0x7fffffff, Wide(b & 0x01);
    }
  }

  lemma ShortLead(b: byte)
    ensures b < 0x80 <==> SequenceLength(b) == 1
    ensures IsTrailing(b) ==> SequenceLength(b) == 0
  {}

  lemma SplitFirstMultibyte(s: seq<byte>, n: nat)
    requires 2 <= n <= |s| && n == SequenceLength(s[0])
    ensures var v := Gather(Lead(s[0]), s[1..n]);
            SplitFirst(s) == if AllTrailing(s[1..n]) && InRange(v, n) then Some(Split(v, n)) else None
  {
    hide SequenceLength, Gather, Lead, AllTrailing, InRange;
  }

  /** The test for a redundant sequence. */
  predicate IsRedundant(v: char32, min: char32, max: char32) { v < min || max < v }

  lemma RedundantIsOutOfRange(v: char32, n: nat)
    ensures IsRedundant(v, MinValue(n), MaxValue(n)) <==> !InRange(v, n)
  {}

  /** The part for a leading byte that announces more than one byte. */
  method SplitMultibyte(s: seq<byte>, len: nat, min: char32, max: char32, lead: char32)
    returns (ok: bool, result: char32)
    requires 2 <= len <= |s| && len == SequenceLength(s[0])
    requires min == MinValue(len) && max == MaxValue(len) && lead == Lead(s[0])
    ensures SplitFirst(s) == if ok then Some(Split(result, len)) else None
  {
    hide SequenceLength, Gather, Lead, AllTrailing, MinValue, MaxValue, InRange, IsRedundant, SplitFirst;
    SplitFirstMultibyte(s, len);
    ok, result := GatherTrailing(s, len, lead);
    if ok {
      RedundantIsOutOfRange(result, len);
      ok := !IsRedundant(result, min, max);
    }
  }

  lemma SplitFirstSmall(s: seq<byte>)
    ensures s == [] || SequenceLength(s[0]) == 0 || |s| < SequenceLength(s[0]) ==> SplitFirst(s) == None
    ensures s != [] && SequenceLength(s[0]) == 1 ==> SplitFirst(s) == Some(Split(Wide(s[0]), 1))
  {
    hide SequenceLength, Wide;
  }

  method SplitFirstChar32(s: seq<byte>) returns (ok: bool, first: char32, rest: seq<byte>)
    ensures FirstIs(s, ok, first, rest)
  {
    hide SequenceLength, Wide, Lead, IsTrailing, MinValue, MaxValue, SplitFirst;
    SplitFirstSmall(s);
    ok, first, rest := false, 0, [];
    if s == [] { return; }
    ShortLead(s[0]);
    if s[0] < 0x80 {
      return true, Wide(s[0]), s[1..];
    }
    if IsTrailing(s[0]) { return; }
    var len, min, max, lead := LeadingByte(s[0]);
    if len == 0 || |s| < len { return; }
    var result;
    ok, result := SplitMultibyte(s, len, min, max, lead);
    if ok {
      first, rest := result, s[len..];
    }
  }

  // ----- SplitLastChar32

  /** The codepoint that is read from the last byte on that is no trailing byte, whether or not it takes all bytes from
      there; 0 when there is none. */
  function LastRead(s: seq<byte>): char32 {
    var k := TrailingCount(s);
    if k == |s| then 0 else
      var r := SplitFirst(s[|s| - k - 1..]);
      if r.Some? then r.value.c else 0
  }

  /** What SplitLastChar32 reports: the codepoint that was read is stored even when the call is refused. */
  ghost predicate LastIs(s: seq<byte>, ok: bool, rest: seq<byte>, last: char32) {
    var r := SplitLast(s);
    && ok == r.Some? && last == LastRead(s)
    && rest == if ok then s[..|s| - r.value.len] else []
  }

  /** A refused call stores 0 unless a codepoint with too many trailing bytes behind it was read. */
  lemma AcceptedIsRead(s: seq<byte>)
    ensures SplitLast(s).Some? ==> LastRead(s) == SplitLast(s).value.c
    ensures SplitLast(s) == None && LastRead(s) != 0 ==>
      var piece := s[|s| - TrailingCount(s) - 1..]; SplitFirst(piece).Some? && SplitFirst(piece).value.len < |piece|
  {
    hide SplitFirst;
  }

  method SplitLastChar32(s: seq<byte>) returns (ok: bool, rest: seq<byte>, last: char32)
    ensures LastIs(s, ok, rest, last)
  {
    hide SplitFirst, IsTrailing;
    ok, rest, last := false, [], 0;
    if s == [] { return; }
    var it := |s|;
    assert s[..it] == s;
    while it != 0 && IsTrailing(s[it - 1])
      invariant 0 <= it <= |s| && TrailingCount(s) == |s| - it + TrailingCount(s[..it])
    {
      assert s[..it][..it - 1] == s[..it - 1];
      it := it - 1;
    }
    if it == 0 { return; }
    var len := |s| - it + 1;
    var lastPiece := s[|s| - len..];
    var split, piece;
    split, last, piece := SplitFirstChar32(lastPiece);
    if !split { return; }
    if piece != [] { return; }
    return true, s[..|s| - len], last;
  }

  // ----- IsValidUtf8

  method IsValidUtf8(s0: seq<byte>) returns (valid: bool)
    ensures valid <==> Valid(s0)
  {
    hide SplitFirst;
    var s := s0;
    while s != []
      invariant Valid(s) <==> Valid(s0)
      decreases |s|
    {
      var ok, first, rest := SplitFirstChar32(s);
      if !ok { return false; }
      s := rest;
    }
    valid := true;
  }

  // ----- The iterators

  class ConstChar32Iterator {
    var utf8String: seq<byte>
    var current: char32
    var done: bool

    /** The codepoints still to come, the current one first. */
    ghost function Remaining(): seq<char32>
      reads this
    {
      if done then [] else [current] + Forward(utf8String)
    }

    constructor (s: seq<byte>)
      ensures Remaining() == Forward(s)
    {
      utf8String, current, done := s, 0, false;
      new;
      Next();
    }

    method Get() returns (c: char32)
      requires !done
      ensures c == Remaining()[0]
    {
      c := current;
    }

    method Next()
      modifies this
      ensures Remaining() == if old(done) then [] else old(Forward(utf8String))
      ensures old(!done) ==> Remaining() == old(Remaining())[1..]
    {
      hide SplitFirst;
      if !done {
        var ok;
        ok, current, utf8String := SplitFirstChar32(utf8String);
        done := !ok;
      }
    }
  }

  class ConstChar32ReverseIterator {
    var utf8String: seq<byte>
    var current: char32
    var done: bool

    /** The codepoints still to come, the current one first. */
    ghost function Remaining(): seq<char32>
      reads this
    {
      if done then [] else [current] + Backward(utf8String)
    }

    constructor (s: seq<byte>)
      ensures Remaining() == Backward(s)
    {
      utf8String, current, done := s, 0, false;
      new;
      Next();
    }

    method Get() returns (c: char32)
      requires !done
      ensures c == Remaining()[0]
    {
      c := current;
    }

    method Next()
      modifies this
      ensures Remaining() == if old(done) then [] else old(Backward(utf8String))
      ensures old(!done) ==> Remaining() == old(Remaining())[1..]
    {
      hide SplitLast, LastRead;
      if !done {
        var ok;
        AcceptedIsRead(utf8String);
        ok, utf8String, current := SplitLastChar32(utf8String);
        done := !ok;
      }
    }
  }

  lemma MoveFirst<T>(a: seq<T>, b: seq<T>)
    requires b != []
    ensures a + b == (a + [b[0]]) + b[1..]
  {}

  /** The loop `for (iter(s); !iter.Done(); iter.Next())`. */
  method CollectForward(s: seq<byte>) returns (cs: seq<char32>)
    ensures cs == Forward(s)
  {
    hide Forward;
    var iter := new ConstChar32Iterator(s);
    cs := [];
    while !iter.done
      invariant cs + iter.Remaining() == Forward(s)
      decreases |iter.Remaining()|
    {
      ghost var before := iter.Remaining();
      var c := iter.Get();
      iter.Next();
      MoveFirst(cs, before);
      cs := cs + [c];
    }
  }

  /** The same loop over the reverse iterator. */
  method CollectBackward(s: seq<byte>) returns (cs: seq<char32>)
    ensures cs == Backward(s)
  {
    hide Backward;
    var iter := new ConstChar32ReverseIterator(s);
    cs := [];
    while !iter.done
      invariant cs + iter.Remaining() == Backward(s)
      decreases |iter.Remaining()|
    {
      ghost var before := iter.Remaining();
      var c := iter.Get();
      iter.Next();
      MoveFirst(cs, before);
      cs := cs + [c];
    }
  }

  // ----- Conversions

  method Utf8ToUtf32(str0: seq<byte>) returns (codepoints: seq<char32>)
    ensures codepoints == Forward(str0)
    ensures EncodedAll(codepoints) == str0 <==> Valid(str0) && AllFaithful(codepoints)
  {
    hide SplitFirst, Valid, EncodedAll, AllFaithful;
    codepoints := [];
    var str := str0;
    var ok, codepoint, rest := SplitFirstChar32(str);
    while ok
      invariant FirstIs(str, ok, codepoint, rest)
      invariant codepoints + Forward(str) == Forward(str0)
      decreases |str|
    {
      Regroup(codepoints, [codepoint], Forward(rest));
      codepoints := codepoints + [codepoint];
      str := rest;
      ok, codepoint, rest := SplitFirstChar32(str);
    }
    StringRoundTrip(str0);
  }

  // The shifts of the encoder are the groups of six bits.

  lemma Uppers(c: char32)
    ensures c >> 6 == Upper(c) && c >> 12 == Upper(c >> 6) && c >> 18 == Upper(c >> 12)
    ensures c >> 24 == Upper(c >> 18) && c >> 30 == Upper(c >> 24)
  {
    assert Upper(c) == c >> 6;
    hide Upper;
    Upper12(c);
    Upper18(c);
    Upper24(c);
    Upper30(c);
  }

  lemma GroupStep(c: char32, k: nat)
    ensures Continuation(c, k + 1) == Continuation(Upper(c), k) + [TrailingByte(c)]
    ensures Continuation(c, 0) == []
  {}

  lemma OneGroup(c: char32)
    ensures Continuation(c, 1) == [TrailingByte(c)]
  {
    GroupStep(c, 0);
  }

  lemma TwoGroups(c: char32, c1: char32)
    requires c1 == Upper(c)
    ensures Continuation(c, 2) == [TrailingByte(c1), TrailingByte(c)]
  {
    hide Continuation, TrailingByte, Upper;
    OneGroup(c1);
    GroupStep(c, 1);
  }

  lemma ThreeGroups(c: char32, c1: char32, c2: char32)
    requires c1 == Upper(c) && c2 == Upper(c1)
    ensures Continuation(c, 3) == [TrailingByte(c2), TrailingByte(c1), TrailingByte(c)]
  {
    hide Continuation, TrailingByte, Upper;
    TwoGroups(c1, c2);
    GroupStep(c, 2);
  }

  lemma FourGroups(c: char32, c1: char32, c2: char32, c3: char32)
    requires c1 == Upper(c) && c2 == Upper(c1) && c3 == Upper(c2)
    ensures Continuation(c, 4) == [TrailingByte(c3), TrailingByte(c2), TrailingByte(c1), TrailingByte(c)]
  {
    hide Continuation, TrailingByte, Upper;
    ThreeGroups(c1, c2, c3);
    GroupStep(c, 3);
  }

  lemma FiveGroups(c: char32, c1: char32, c2: char32, c3: char32, c4: char32)
    requires c1 == Upper(c) && c2 == Upper(c1) && c3 == Upper(c2) && c4 == Upper(c3)
    ensures Continuation(c, 5) == [TrailingByte(c4), TrailingByte(c3), TrailingByte(c2), TrailingByte(c1), TrailingByte(c)]
  {
    hide Continuation, TrailingByte, Upper;
    FourGroups(c1, c2, c3, c4);
    GroupStep(c, 4);
  }

  lemma HighSteps(c: char32, c1: char32, c2: char32, c3: char32, c4: char32, c5: char32)
    requires c1 == Upper(c) && c2 == Upper(c1) && c3 == Upper(c2) && c4 == Upper(c3) && c5 == Upper(c4)
    ensures High(c, 1) == c1 && High(c, 2) == c2 && High(c, 3) == c3 && High(c, 4) == c4 && High(c, 5) == c5
  {
    hide Upper;
    assert High(c4, 1) == c5;
    assert High(c3, 2) == c5 && High(c3, 1) == c4;
    assert High(c2, 3) == c5 && High(c2, 2) == c4 && High(c2, 1) == c3;
    assert High(c1, 4) == c5 && High(c1, 3) == c4 && High(c1, 2) == c3 && High(c1, 1) == c2;
  }

  lemma LeadMasks()
    ensures Mark(2) == 0xc0 && Wide(LeadMask(2)) == 0x1f
    ensures Mark(3) == 0xe0 && Wide(LeadMask(3)) == 0x0f
    ensures Mark(4) == 0xf0 && Wide(LeadMask(4)) == 0x07
    ensures Mark(5) == 0xf8 && Wide(LeadMask(5)) == 0x03
    ensures Mark(6) == 0xfc && Wide(LeadMask(6)) == 0x01
  {}

  lemma MaskedIs(c: char32, n: nat, high: char32)
    requires n >= 2 && high == High(c, n - 1)
    ensures MaskedLead(c, n) == Marked(Mark(n), high, Wide(LeadMask(n)))
  {
    hide Marked, Mark, High, Wide, LeadMask;
  }

  lemma LongEncoded(c: char32, n: nat)
    requires n == EncodedWidth(c) >= 2
    ensures Encoded(c) == [MaskedLead(c, n)] + Continuation(c, n - 1)
  {
    hide EncodedWidth, MaskedLead, Continuation;
  }

  lemma WidthIs(c: char32)
    ensures 0x80 <= c < 0x800 ==> EncodedWidth(c) == 2
    ensures 0x800 <= c < 0x10000 ==> EncodedWidth(c) == 3
    ensures 0x10000 <= c < 0x200000 ==> EncodedWidth(c) == 4
    ensures 0x200000 <= c < 0x8000000 ==> EncodedWidth(c) == 5
    ensures c >= 0x8000000 ==> EncodedWidth(c) == 6
  {}

  lemma TwoBytes(c: char32)
    requires 0x80 <= c < 0x800
    ensures Encoded(c) ==
      [Marked(0xc0, c >> 6, 0x1f), TrailingByte(c)]
  {
    hide Encoded, EncodedWidth, MaskedLead, Marked, Continuation, High, Wide, LeadMask, Mark, TrailingByte, Upper;
    WidthIs(c);
    LongEncoded(c, 2);
    Uppers(c);
    HighSteps(c, c >> 6, c >> 12, c >> 18, c >> 24, c >> 30);
    LeadMasks();
    MaskedIs(c, 2, c >> 6);
    OneGroup(c);
  }

  lemma ThreeBytes(c: char32)
    requires 0x800 <= c < 0x10000
    ensures Encoded(c) ==
      [Marked(0xe0, c >> 12, 0x0f), TrailingByte(c >> 6), TrailingByte(c)]
  {
    hide Encoded, EncodedWidth, MaskedLead, Marked, Continuation, High, Wide, LeadMask, Mark, TrailingByte, Upper;
    WidthIs(c);
    LongEncoded(c, 3);
    Uppers(c);
    HighSteps(c, c >> 6, c >> 12, c >> 18, c >> 24, c >> 30);
    LeadMasks();
    MaskedIs(c, 3, c >> 12);
    TwoGroups(c, c >> 6);
  }

  lemma FourBytes(c: char32)
    requires 0x10000 <= c < 0x200000
    ensures Encoded(c) ==
      [Marked(0xf0, c >> 18, 0x07), TrailingByte(c >> 12), TrailingByte(c >> 6), TrailingByte(c)]
  {
    hide Encoded, EncodedWidth, MaskedLead, Marked, Continuation, High, Wide, LeadMask, Mark, TrailingByte, Upper;
    WidthIs(c);
    LongEncoded(c, 4);
    Uppers(c);
    HighSteps(c, c >> 6, c >> 12, c >> 18, c >> 24, c >> 30);
    LeadMasks();
    MaskedIs(c, 4, c >> 18);
    ThreeGroups(c, c >> 6, c >> 12);
  }

  lemma FiveBytes(c: char32)
    requires 0x200000 <= c < 0x8000000
    ensures Encoded(c) ==
      [Marked(0xf8, c >> 24, 0x03), TrailingByte(c >> 18), TrailingByte(c >> 12), TrailingByte(c >> 6), TrailingByte(c)]
  {
    hide Encoded, EncodedWidth, MaskedLead, Marked, Continuation, High, Wide, LeadMask, Mark, TrailingByte, Upper;
    WidthIs(c);
    LongEncoded(c, 5);
    Uppers(c);
    HighSteps(c, c >> 6, c >> 12, c >> 18, c >> 24, c >> 30);
    LeadMasks();
    MaskedIs(c, 5, c >> 24);
    FourGroups(c, c >> 6, c >> 12, c >> 18);
  }

  lemma SixBytes(c: char32)
    requires c >= 0x8000000
    ensures Encoded(c) ==
      [Marked(0xfc, c >> 30, 0x01), TrailingByte(c >> 24), TrailingByte(c >> 18),
       TrailingByte(c >> 12), TrailingByte(c >> 6), TrailingByte(c)]
  {
    hide Encoded, EncodedWidth, MaskedLead, Marked, Continuation, High, Wide, LeadMask, Mark, TrailingByte, Upper;
    WidthIs(c);
    LongEncoded(c, 6);
    Uppers(c);
    HighSteps(c, c >> 6, c >> 12, c >> 18, c >> 24, c >> 30);
    LeadMasks();
    MaskedIs(c, 6, c >> 30);
    FiveGroups(c, c >> 6, c >> 12, c >> 18, c >> 24);
  }

  /** The branches of CodepointToUtf8 for more than three bytes. */
  method LongCodepointToUtf8(c: char32, output: array<byte>) returns (mblen: nat)
    requires output.Length >= 7 && c >= 0x10000
    modifies output
    ensures mblen == |Encoded(c)| && output[..mblen] == Encoded(c) && output[mblen] == 0
  {
    hide Encoded, Marked, TrailingByte;
    if c < 0x200000 {
      output[0] := Marked(0xf0, c >> 18, 0x07);
      output[1] := TrailingByte(c >> 12);
      output[2] := TrailingByte(c >> 6);
      output[3] := TrailingByte(c);
      output[4] := 0;
      mblen := 4;
      FourBytes(c);
    } else if c < 0x8000000 {
      output[0] := Marked(0xf8, c >> 24, 0x03);
      output[1] := TrailingByte(c >> 18);
      output[2] := TrailingByte(c >> 12);
      output[3] := TrailingByte(c >> 6);
      output[4] := TrailingByte(c);
      output[5] := 0;
      mblen := 5;
      FiveBytes(c);
    } else {
      output[0] := Marked(0xfc, c >> 30, 0x01);
      output[1] := TrailingByte(c >> 24);
      output[2] := TrailingByte(c >> 18);
      output[3] := TrailingByte(c >> 12);
      output[4] := TrailingByte(c >> 6);
      output[5] := TrailingByte(c);
      output[6] := 0;
      mblen := 6;
      SixBytes(c);
    }
  }

  /** Writes the bytes and a terminating zero into a buffer of at least seven bytes. */
  method CodepointToUtf8(c: char32, output: array<byte>) returns (mblen: nat)
    requires output.Length >= 7
    modifies output
    ensures mblen == |Encoded(c)| && output[..mblen] == Encoded(c) && output[mblen] == 0
  {
    hide Encoded, Marked, TrailingByte;
    if c == 0 {
      output[0] := 0;
      mblen := 0;
      NothingEncoded();
    } else if c < 0x80 {
      output[0], output[1] := Low(c & 0xff), 0;
      mblen := 1;
      AsciiEncoded(c);
    } else if c < 0x800 {
      output[0] := Marked(0xc0, c >> 6, 0x1f);
      output[1] := TrailingByte(c);
      output[2] := 0;
      mblen := 2;
      TwoBytes(c);
    } else if c < 0x10000 {
      output[0] := Marked(0xe0, c >> 12, 0x0f);
      output[1] := TrailingByte(c >> 6);
      output[2] := TrailingByte(c);
      output[3] := 0;
      mblen := 3;
      ThreeBytes(c);
    } else {
      mblen := LongCodepointToUtf8(c, output);
    }
  }

  lemma NothingEncoded()
    ensures Encoded(0) == []
  {}

  lemma AsciiEncoded(c: char32)
    requires 0 < c < 0x80
    ensures Encoded(c) == [Low(c & 0xff)]
  {}

  method Utf32ToUtf8(str: seq<char32>) returns (output: seq<byte>)
    ensures output == EncodedAll(str)
    ensures Forward(output) == str <==> AllFaithful(str)
  {
    hide Encoded, AllFaithful, Forward;
    output := [];
    assert str[0..] == str;
    for i := 0 to |str|
      invariant output + EncodedAll(str[i..]) == EncodedAll(str)
    {
      var buf := new byte[7];
      var mblen := CodepointToUtf8(str[i], buf);
      Regroup(output, Encoded(str[i]), EncodedAll(str[i + 1..]));
      assert str[i..][1..] == str[i + 1..];
      output := output + buf[..mblen];
    }
    CodepointRoundTrip(str);
  }
}
