/**
 Whole UTF-8 strings: reading them from the front and from the back.

 Both directions read the same codepoints, in opposite orders, from every valid string
 (`BackwardIsReverse`), and they agree on which strings are valid (`ValidBothWays`).
 */
module Utf8Strings {
  import opened Basics
  import opened Utf8

  // ----- SplitLastChar32

  /** How many bytes at the end of s are trailing bytes. */
  function TrailingCount(s: seq<byte>): (k: nat)
    ensures k <= |s|
  {
    if s == [] || !IsTrailing(s[|s| - 1]) then 0 else 1 + TrailingCount(s[..|s| - 1])
  }

  /** The last codepoint and the number of bytes it takes. */
  function SplitLast(s: seq<byte>): (r: Option<Split>)
    ensures r.Some? ==> 1 <= r.value.len <= |s|
  {
    var k := TrailingCount(s);
    if k == |s| then None else
      var r := SplitFirst(s[|s| - k - 1..]);
      if r.Some? && r.value.len == k + 1 then r else None
  }

  lemma {:induction false} TrailingCountOf(before: seq<byte>, lead: byte, trail: seq<byte>)
    requires !IsTrailing(lead) && AllTrailing(trail)
    ensures TrailingCount(before + ([lead] + trail)) == |trail|
  {
    hide IsTrailing;
    var s := before + ([lead] + trail);
    if trail != [] {
      var init := trail[..|trail| - 1];
      assert s[..|s| - 1] == before + ([lead] + init);
      TrailingCountOf(before, lead, init);
    }
  }

  lemma ReadsStandardLast(before: seq<byte>, c: char32)
    requires InStandard(c)
    ensures SplitLast(before + Standard(c)) == Some(Split(c, Width(c)))
  {
    hide InStandard, IsTrailing, AllTrailing, TrailingCount, SplitFirst, Width;
    var piece := Standard(c);
    var s := before + piece;
    ShapeOfStandard(c);
    TrailingCountOf(before, piece[0], piece[1..]);
    assert [piece[0]] + piece[1..] == piece;
    assert s[|before|..] == piece == piece + [];
    ReadsStandard(c, []);
  }

  lemma OnlyStandardIsReadLast(s: seq<byte>)
    requires SplitLast(s).Some?
    ensures var Split(c, n) := SplitLast(s).value;
            InStandard(c) && n == Width(c) && s == s[..|s| - n] + Standard(c)
  {
    hide InStandard, SplitFirst, Width, Standard;
    var piece := s[|s| - TrailingCount(s) - 1..];
    OnlyStandardIsRead(piece);
    assert piece[..|piece|] == piece;
  }

  // ----- Whole strings

  /** IsValidUtf8. */
  predicate Valid(s: seq<byte>) {
    s != [] ==> SplitFirst(s).Some? && Valid(s[SplitFirst(s).value.len..])
  }

  /** The codepoints in front of the first byte that cannot be read. */
  function Forward(s: seq<byte>): seq<char32> {
    var r := SplitFirst(s);
    if r.None? then [] else [r.value.c] + Forward(s[r.value.len..])
  }

  /** What validity would be if strings were taken apart at their end. */
  predicate ValidBackward(s: seq<byte>) {
    s != [] ==> SplitLast(s).Some? && ValidBackward(s[..|s| - SplitLast(s).value.len])
  }

  /** The codepoints read from the end up to the first that cannot be read. */
  function Backward(s: seq<byte>): seq<char32> {
    var r := SplitLast(s);
    if r.None? then [] else [r.value.c] + Backward(s[..|s| - r.value.len])
  }

  predicate AllInStandard(cs: seq<char32>) { forall c :: c in cs ==> InStandard(c) }

  /** The standard encoding of a list of codepoints. */
  function Flat(cs: seq<char32>): seq<byte> {
    if cs == [] then [] else Standard(cs[0]) + Flat(cs[1..])
  }

  function Reverse<T>(s: seq<T>): (r: seq<T>)
    ensures |r| == |s|
  {
    if s == [] then [] else Reverse(s[1..]) + [s[0]]
  }

  // ----- Reading forward

  lemma {:induction false} ForwardOfFlat(cs: seq<char32>)
    requires AllInStandard(cs)
    ensures Valid(Flat(cs)) && Forward(Flat(cs)) == cs
  {
    hide InStandard, SplitFirst, Width;
    if cs == [] {
      NothingFirst();
    } else {
      var s := Flat(cs);
      ReadsStandard(cs[0], Flat(cs[1..]));
      ForwardOfFlat(cs[1..]);
      assert s[Width(cs[0])..] == Flat(cs[1..]);
    }
  }

  lemma NothingFirst()
    ensures SplitFirst([]) == None && SplitLast([]) == None
  {}

  /** Reading stops at the end of a run of standard sequences; there is nothing else in a valid string. */
  lemma {:induction false} FlatOfForward(s: seq<byte>)
    ensures AllInStandard(Forward(s))
    ensures |Flat(Forward(s))| <= |s| && Flat(Forward(s)) == s[..|Flat(Forward(s))|]
    ensures Valid(s) <==> Flat(Forward(s)) == s
  {
    hide InStandard, SplitFirst, Width, Standard;
    if SplitFirst(s).Some? {
      OnlyStandardIsRead(s);
      var Split(c, n) := SplitFirst(s).value;
      var rest := s[n..];
      FlatOfForward(rest);
      var more := Flat(Forward(rest));
      FlatOfOne(c, Forward(rest));
      assert Flat(Forward(s)) == s[..n] + more;
      assert s == s[..n] + rest;
      assert (s[..n] + more)[n..] == more;
    }
  }

  lemma FlatOfOne(c: char32, cs: seq<char32>)
    ensures Flat([c] + cs) == Standard(c) + Flat(cs)
  {
    assert ([c] + cs)[1..] == cs;
  }

  // ----- Reading backward

  lemma {:induction false} FlatOfAppend(cs: seq<char32>, c: char32)
    ensures Flat(cs + [c]) == Flat(cs) + Standard(c)
  {
    hide Standard;
    if cs == [] {
      assert cs + [c] == [c] + [];
      FlatOfOne(c, []);
      assert Flat(cs) + Standard(c) == Standard(c) == Standard(c) + [];
    } else {
      assert (cs + [c])[1..] == cs[1..] + [c];
      FlatOfAppend(cs[1..], c);
      Regroup(Standard(cs[0]), Flat(cs[1..]), Standard(c));
    }
  }

  lemma {:induction false} ReverseOfAppend<T>(s: seq<T>, x: T)
    ensures Reverse(s + [x]) == [x] + Reverse(s)
  {
    if s == [] {
      assert s + [x] == [x];
    } else {
      assert (s + [x])[1..] == s[1..] + [x];
      ReverseOfAppend(s[1..], x);
    }
  }

  lemma {:induction false} BackwardOfFlat(cs: seq<char32>)
    requires AllInStandard(cs)
    ensures ValidBackward(Flat(cs)) && Backward(Flat(cs)) == Reverse(cs)
    decreases |cs|
  {
    hide InStandard, SplitLast, Width, Standard;
    if cs == [] {
      NothingFirst();
    } else {
      var init, last := cs[..|cs| - 1], cs[|cs| - 1];
      assert cs == init + [last];
      FlatOfAppend(init, last);
      ReadsStandardLast(Flat(init), last);
      var s := Flat(cs);
      OnlyStandardIsReadLast(s);
      ShapeOfStandard(last);
      assert s[..|s| - Width(last)] == Flat(init);
      BackwardOfFlat(init);
      ReverseOfAppend(init, last);
    }
  }

  lemma {:induction false} FlatOfBackward(s: seq<byte>)
    requires ValidBackward(s)
    ensures exists cs :: AllInStandard(cs) && Flat(cs) == s
    decreases |s|
  {
    hide InStandard, SplitLast, Width, Standard;
    if s == [] {
      assert Flat([]) == s && AllInStandard([]);
    } else {
      OnlyStandardIsReadLast(s);
      var Split(c, n) := SplitLast(s).value;
      var before := s[..|s| - n];
      FlatOfBackward(before);
      var cs :| AllInStandard(cs) && Flat(cs) == before;
      FlatOfAppend(cs, c);
      assert AllInStandard(cs + [c]) && Flat(cs + [c]) == s;
    }
  }

  // ----- Both directions

  /** One factorisation: taking a valid string apart at its end gives its codepoints in reverse. */
  lemma BackwardIsReverse(s: seq<byte>)
    requires Valid(s)
    ensures Backward(s) == Reverse(Forward(s))
  {
    FlatOfForward(s);
    BackwardOfFlat(Forward(s));
  }

  /** A string is valid read from the front exactly when it is valid read from the end. */
  lemma ValidBothWays(s: seq<byte>)
    ensures Valid(s) <==> ValidBackward(s)
  {
    if Valid(s) {
      FlatOfForward(s);
      BackwardOfFlat(Forward(s));
    }
    if ValidBackward(s) {
      FlatOfBackward(s);
      var cs :| AllInStandard(cs) && Flat(cs) == s;
      ForwardOfFlat(cs);
    }
  }
}
