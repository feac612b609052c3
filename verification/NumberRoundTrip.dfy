/**
 What ArabicToKanji prints, NormalizeNumbers reads back: the Kanji form and the two mixed
 forms, for every digit string of at most twenty digits that is not all zeros.
 */
module NumberRoundTrip {
  import opened Basics
  import opened NumberParser
  import opened NumberNormalizer
  import opened P = NumberPrinter

  type Segment = s: string | |s| == 4 && IsDecimalInteger(s) witness "0000"

  function D(seg: Segment, i: nat): nat
    requires i < 4
  {
    DigitOf(seg[i])
  }

  function Base(i: nat): nat
    requires i < 4
  {
    if i == 0 then 1000 else if i == 1 then 100 else if i == 2 then 10 else 1
  }

  function SegmentValue(seg: Segment): nat { 1000 * D(seg, 0) + 100 * D(seg, 1) + 10 * D(seg, 2) + D(seg, 3) }

  // ----- Tokens of one segment in the Kanji form

  /** The tokens of positions i, ..., 3. */
  function KanjiTokens(seg: Segment, i: nat): seq<nat>
    requires i <= 4
    decreases 4 - i
  {
    if i == 4 then [] else KanjiDigit(D(seg, i), i) + KanjiTokens(seg, i + 1)
  }

  function KanjiDigit(d: nat, i: nat): seq<nat>
    requires i < 4
  {
    if d == 0 then [] else if i == 3 then [d] else if d == 1 then [Base(i)] else [d, Base(i)]
  }

  /** The tokens cannot be read as a multiple of `base` or of anything above it. */
  ghost predicate Below(t: seq<nat>, base: nat) {
    || AtBoundary(t)
    || 10 <= t[0] < base
    || (1 <= t[0] < 10 && AtBoundary(t[1..]))
    || (1 <= t[0] < 10 && 10 <= t[1] < base)
  }

  lemma BelowIsMissing(t: seq<nat>, base: nat)
    requires Below(t, base) && (base == 10 || base == 100 || base == 1000)
    ensures ReduceDigits(t, base) == Missing(t)
  {
    if !AtBoundary(t) && |t| > 1 { assert t[1] == t[1..][0]; }
  }

  lemma OneDigitBelow(d: nat, i: nat, rest: seq<nat>)
    requires d < 10 && 1 <= i < 4 && Below(rest, Base(i)) && (i == 3 ==> AtBoundary(rest))
    ensures Below(KanjiDigit(d, i) + rest, Base(i - 1))
  {
    var t := KanjiDigit(d, i) + rest;
    if d == 0 {
      assert t == rest;
    } else if i == 3 {
      assert t == [d] + rest && t[1..] == rest;
    } else if d == 1 {
      assert t[0] == Base(i);
    } else {
      assert t[0] == d && t[1] == Base(i);
    }
  }

  lemma {:induction false} KanjiTokensBelow(seg: Segment, i: nat, post: seq<nat>)
    requires AtBoundary(post) && 1 <= i <= 4
    ensures Below(KanjiTokens(seg, i) + post, Base(i - 1))
    ensures i == 4 ==> AtBoundary(KanjiTokens(seg, i) + post)
    decreases 4 - i
  {
    hide Below, AtBoundary, KanjiDigit;
    if i == 4 {
      assert KanjiTokens(seg, i) + post == post;
      BoundaryIsBelow(post, Base(3));
    } else {
      KanjiTokensBelow(seg, i + 1, post);
      OneDigitBelow(D(seg, i), i, KanjiTokens(seg, i + 1) + post);
      Regroup(KanjiDigit(D(seg, i), i), KanjiTokens(seg, i + 1), post);
    }
  }

  lemma BoundaryIsBelow(t: seq<nat>, base: nat)
    requires AtBoundary(t)
    ensures Below(t, base)
  {}

  lemma DigitFound(d: nat, i: nat, rest: seq<nat>)
    requires 1 <= d < 10 && i < 3
    ensures ReduceDigits(KanjiDigit(d, i) + rest, Base(i)) == Found(d * Base(i), rest)
  {
    var t := KanjiDigit(d, i) + rest;
    assert t[|KanjiDigit(d, i)|..] == rest;
    if d == 1 {
      assert t[0] == Base(i);
    } else {
      assert t[0] == d && t[1] == Base(i);
    }
  }

  /** Position i < 3 is read by the step for its base, and by nothing before it. */
  lemma KanjiStep(seg: Segment, i: nat, post: seq<nat>)
    requires AtBoundary(post) && i < 3
    ensures var rest := KanjiTokens(seg, i + 1) + post;
      ReduceDigits(KanjiTokens(seg, i) + post, Base(i)) ==
        if D(seg, i) == 0 then Missing(rest) else Found(D(seg, i) * Base(i), rest)
  {
    hide ReduceDigits, Below, AtBoundary;
    var d, rest := D(seg, i), KanjiTokens(seg, i + 1) + post;
    Regroup(KanjiDigit(d, i), KanjiTokens(seg, i + 1), post);
    if d == 0 {
      assert [] + rest == rest;
      KanjiTokensBelow(seg, i + 1, post);
      BelowIsMissing(rest, Base(i));
    } else {
      DigitFound(d, i, rest);
    }
  }

  lemma KanjiOnes(seg: Segment, post: seq<nat>)
    requires AtBoundary(post)
    ensures ReduceOnes(KanjiTokens(seg, 3) + post) == if D(seg, 3) == 0 then Missing(post) else Found(D(seg, 3), post)
  {
    var d := D(seg, 3);
    assert KanjiTokens(seg, 4) == [];
    assert KanjiTokens(seg, 3) + post == KanjiDigit(d, 3) + post;
    if d == 0 {
      assert [] + post == post;
    } else {
      assert ([d] + post)[1..] == post;
    }
  }

  lemma KanjiEmpty(seg: Segment)
    requires SegmentValue(seg) == 0
    ensures KanjiTokens(seg, 0) == []
  {
    assert KanjiTokens(seg, 4) == [];
    assert KanjiTokens(seg, 3) == [];
    assert KanjiTokens(seg, 2) == [];
    assert KanjiTokens(seg, 1) == [];
  }

  lemma KanjiGroup(seg: Segment, post: seq<nat>)
    requires AtBoundary(post)
    requires SegmentValue(seg) > 0
    ensures ReduceGroup(KanjiTokens(seg, 0) + post) == Found(SegmentValue(seg), post)
  {
    hide ReduceDigits, ReduceOnes, KanjiTokens, D;
    KanjiStep(seg, 0, post);
    KanjiStep(seg, 1, post);
    KanjiStep(seg, 2, post);
    KanjiOnes(seg, post);
  }

  // ----- Tokens of one segment in the mixed forms

  function Digits(seg: Segment): (t: seq<nat>)
    ensures |t| == 4
  {
    [D(seg, 0), D(seg, 1), D(seg, 2), D(seg, 3)]
  }

  function ArabicTokens(seg: Segment): seq<nat> { SkipZeros(Digits(seg)) }

  lemma {:induction false} SkippedZerosAreWorthNothing(t: seq<nat>)
    ensures DigitsValue(SkipZeros(t)) == DigitsValue(t)
  {
    if t != [] && t[0] == 0 {
      SkippedZerosAreWorthNothing(t[1..]);
      LeadingZeroIsWorthNothing(t[1..]);
      assert [0] + t[1..] == t;
    }
  }

  lemma {:induction false} LeadingZeroIsWorthNothing(t: seq<nat>)
    ensures DigitsValue([0] + t) == DigitsValue(t)
  {
    var s := [0] + t;
    if t == [] {
      assert s[..0] == [];
    } else {
      assert s[..|s| - 1] == [0] + t[..|t| - 1];
      LeadingZeroIsWorthNothing(t[..|t| - 1]);
    }
  }

  lemma FourDigits(seg: Segment)
    ensures DigitsValue(Digits(seg)) == SegmentValue(seg)
  {
    var d4 := Digits(seg);
    var d3 := d4[..3];
    var d2 := d3[..2];
    var d1 := d2[..1];
    assert d1[..0] == [];
    assert DigitsValue(d1) == D(seg, 0);
    assert DigitsValue(d2) == DigitsValue(d1) * 10 + D(seg, 1);
    assert DigitsValue(d3) == DigitsValue(d2) * 10 + D(seg, 2);
    assert DigitsValue(d4) == DigitsValue(d3) * 10 + D(seg, 3);
  }

  lemma ArabicValue(seg: Segment)
    ensures DigitsValue(ArabicTokens(seg)) == SegmentValue(seg)
    ensures (SegmentValue(seg) == 0) == (ArabicTokens(seg) == [])
    ensures forall i :: 0 <= i < |ArabicTokens(seg)| ==> ArabicTokens(seg)[i] < 10
  {
    var ds, t := Digits(seg), SkipZeros(Digits(seg));
    SkippedZerosAreWorthNothing(ds);
    FourDigits(seg);
    hide DigitsValue, SkipZeros;
    assert forall i :: 0 <= i < |t| ==> t[i] == ds[4 - |t| + i];
    assert t == [] ==> ds[0] == 0 && ds[1] == 0 && ds[2] == 0 && ds[3] == 0;
  }

  lemma RunOf(digits: seq<nat>, post: seq<nat>)
    requires (forall i :: 0 <= i < |digits| ==> digits[i] < 10) && AtBoundary(post)
    ensures RunLength(digits + post) == |digits|
  {
    var t := digits + post;
    assert forall i :: 0 <= i < |digits| ==> t[i] == digits[i];
    assert post != [] ==> t[|digits|] == post[0];
  }

  lemma OneDigitGroup(d: nat, post: seq<nat>)
    requires AtBoundary(post) && 1 <= d < 10
    ensures ReduceGroup([d] + post) == Found(d, post)
  {
    var t := [d] + post;
    assert t[0] == d && t[1..] == post;
    BelowIsMissing(t, 1000);
    BelowIsMissing(t, 100);
    BelowIsMissing(t, 10);
    hide ReduceDigits;
  }

  lemma DigitRunStep(digits: seq<nat>, post: seq<nat>)
    requires AtBoundary(post) && |digits| >= 2 && digits[0] != 0 && DigitsValue(digits) < 10000
    requires forall i :: 0 <= i < |digits| ==> digits[i] < 10
    ensures ReduceDigits(digits + post, 1000) == Found(DigitsValue(digits), post)
  {
    hide RunLength, DigitsValue;
    var t := digits + post;
    RunOf(digits, post);
    assert t[0] == digits[0] && t[1] == digits[1] && t[..|digits|] == digits && t[|digits|..] == post;
    assert post != [] ==> t[|digits|] == post[0];
  }

  lemma DigitRunGroup(digits: seq<nat>, post: seq<nat>)
    requires AtBoundary(post) && |digits| >= 2 && digits[0] != 0 && DigitsValue(digits) < 10000
    requires forall i :: 0 <= i < |digits| ==> digits[i] < 10
    ensures ReduceGroup(digits + post) == Found(DigitsValue(digits), post)
  {
    hide ReduceDigits, ReduceOnes, DigitsValue;
    DigitRunStep(digits, post);
    NothingAtBoundary(post, 100);
    NothingAtBoundary(post, 10);
  }

  lemma ArabicGroup(seg: Segment, post: seq<nat>)
    requires AtBoundary(post)
    requires SegmentValue(seg) > 0
    ensures ReduceGroup(ArabicTokens(seg) + post) == Found(SegmentValue(seg), post)
  {
    var digits := ArabicTokens(seg);
    ArabicValue(seg);
    if |digits| == 1 {
      assert digits == [digits[0]] && DigitsValue(digits) == digits[0] by { assert digits[..0] == []; }
      OneDigitGroup(digits[0], post);
    } else {
      DigitRunGroup(digits, post);
    }
  }

  // ----- From characters to tokens

  ghost predicate Reads(s: string, t: seq<nat>) {
    |s| == |t| && forall i :: 0 <= i < |s| ==> TokenOf(s[i]) == Some(t[i])
  }

  lemma ReadsConcat(a: string, x: seq<nat>, b: string, y: seq<nat>)
    requires Reads(a, x) && Reads(b, y)
    ensures Reads(a + b, x + y)
  {}

  lemma DigitReads(style: Style, d: nat)
    requires d < 10 && style != OldKanji && (style == Kanji ==> d > 0)
    ensures TokenOf(DigitChar(style, d)) == Some(d)
  {
    if d == 0 {} else if d == 1 {} else if d == 2 {} else if d == 3 {} else if d == 4 {}
    else if d == 5 {} else if d == 6 {} else if d == 7 {} else if d == 8 {} else {}
  }

  lemma KanjiDigitReads(seg: Segment, i: nat)
    requires i < 4
    ensures Reads(DigitText(Kanji, seg, i), KanjiDigit(D(seg, i), i))
  {
    var d := D(seg, i);
    assert Leading(seg, i) ==> seg[i] == '0';
    if d > 0 {
      DigitReads(Kanji, d);
      hide DigitChar;
      assert Reads([DigitChar(Kanji, d)], [d]);
    }
  }

  lemma KanjiSegmentReads(seg: Segment)
    ensures Reads(SegmentText(Kanji, seg, 4), KanjiTokens(seg, 0))
  {
    hide DigitText, Reads, KanjiDigit, D;
    var x0, x1 := KanjiDigit(D(seg, 0), 0), KanjiDigit(D(seg, 1), 1);
    var x2, x3 := KanjiDigit(D(seg, 2), 2), KanjiDigit(D(seg, 3), 3);
    KanjiDigitReads(seg, 0);
    KanjiDigitReads(seg, 1);
    KanjiDigitReads(seg, 2);
    KanjiDigitReads(seg, 3);
    assert SegmentText(Kanji, seg, 0) == "";
    assert SegmentText(Kanji, seg, 1) == DigitText(Kanji, seg, 0);
    ReadsConcat(SegmentText(Kanji, seg, 1), x0, DigitText(Kanji, seg, 1), x1);
    ReadsConcat(SegmentText(Kanji, seg, 2), x0 + x1, DigitText(Kanji, seg, 2), x2);
    ReadsConcat(SegmentText(Kanji, seg, 3), x0 + x1 + x2, DigitText(Kanji, seg, 3), x3);
    assert KanjiTokens(seg, 4) == [];
    assert KanjiTokens(seg, 3) == x3;
    assert KanjiTokens(seg, 2) == x2 + x3;
    assert KanjiTokens(seg, 1) == x1 + (x2 + x3);
    assert x0 + x1 + x2 + x3 == x0 + (x1 + (x2 + x3));
  }

  lemma {:induction false} SkipZerosAppend(t: seq<nat>, d: nat)
    ensures SkipZeros(t + [d]) == if SkipZeros(t) != [] || d != 0 then SkipZeros(t) + [d] else []
  {
    if t == [] {
      assert [] + [d] == [d] && [d][1..] == [];
    } else {
      assert (t + [d])[1..] == t[1..] + [d];
      SkipZerosAppend(t[1..], d);
    }
  }

  lemma ArabicDigitReads(style: Style, seg: Segment, i: nat)
    requires IsArabic(style) && i < 4
    ensures Reads(DigitText(style, seg, i), if Leading(seg, i) then [] else [D(seg, i)])
  {
    DigitReads(style, D(seg, i));
    hide DigitChar, TokenOf;
  }

  lemma SkipsAll(t: seq<nat>)
    ensures SkipZeros(t) == [] <==> forall j :: 0 <= j < |t| ==> t[j] == 0
  {
    var r := SkipZeros(t);
    assert r != [] ==> r[0] == t[|t| - |r|];
    hide SkipZeros;
  }

  lemma DigitsAt(seg: Segment, n: nat)
    requires n < 4
    ensures forall j :: 0 <= j < n ==> (Digits(seg)[..n][j] == 0 <==> seg[j] == '0')
    ensures D(seg, n) == 0 <==> seg[n] == '0'
  {
    var ds := Digits(seg);
    assert ds[0] == D(seg, 0) && ds[1] == D(seg, 1) && ds[2] == D(seg, 2);
  }

  lemma LeadingOf(s: string, t: seq<nat>, n: nat)
    requires n == |t| < |s| && forall j :: 0 <= j < n ==> (t[j] == 0 <==> s[j] == '0')
    ensures Leading(s, n) <==> s[n] == '0' && forall j :: 0 <= j < |t| ==> t[j] == 0
  {
    if Leading(s, n) {
      forall j | 0 <= j < |t| ensures t[j] == 0 { assert s[j] == '0'; }
    }
  }

  lemma LeadingIsZero(seg: Segment, n: nat)
    requires n < 4
    ensures Leading(seg, n) <==> SkipZeros(Digits(seg)[..n]) == [] && D(seg, n) == 0
  {
    hide SkipZeros, Leading, Digits, D;
    DigitsAt(seg, n);
    var t := Digits(seg)[..n];
    SkipsAll(t);
    LeadingOf(seg, t, n);
  }

  lemma DigitsTake(seg: Segment, i: nat)
    requires i < 4
    ensures Digits(seg)[..i + 1] == Digits(seg)[..i] + [D(seg, i)]
  {
    hide D;
  }

  lemma NoDigitsRead(style: Style, seg: Segment)
    ensures Reads(SegmentText(style, seg, 0), SkipZeros(Digits(seg)[..0]))
  {}

  lemma {:induction false} ArabicSegmentReads(style: Style, seg: Segment, n: nat)
    requires IsArabic(style) && n <= 4
    ensures Reads(SegmentText(style, seg, n), SkipZeros(Digits(seg)[..n]))
  {
    hide Reads, DigitText, Leading, SkipZeros, Digits, D;
    if n == 0 {
      NoDigitsRead(style, seg);
    } else {
      var i := n - 1;
      var t, d := Digits(seg)[..i], D(seg, i);
      DigitsTake(seg, i);
      ArabicSegmentReads(style, seg, i);
      SkipZerosAppend(t, d);
      LeadingIsZero(seg, i);
      ArabicDigitReads(style, seg, i);
      assert SkipZeros(t) + [] == SkipZeros(t);
      ReadsConcat(SegmentText(style, seg, i), SkipZeros(t), DigitText(style, seg, i), if Leading(seg, i) then [] else [d]);
    }
  }

  // ----- Tokens and value of a whole text

  function SegmentTokens(style: Style, seg: Segment): seq<nat> {
    if IsArabic(style) then ArabicTokens(seg) else KanjiTokens(seg, 0)
  }

  function Scale(rank: nat): nat
    requires rank < 5
  {
    if rank == 0 then 1 else 10000 * Scale(rank - 1)
  }

  function ScaleTokens(rank: nat): seq<nat>
    requires rank < 5
  {
    if rank == 0 then [] else [Scale(rank)]
  }

  function TextTokens(style: Style, segs: seq<string>, n: nat): seq<nat>
    requires WellFormed(segs) && n <= |segs|
  {
    if n == 0 then [] else
      (if SegmentValue(segs[n - 1]) == 0 then [] else SegmentTokens(style, segs[n - 1]) + ScaleTokens(n - 1)) +
      TextTokens(style, segs, n - 1)
  }

  function TextValue(segs: seq<string>, n: nat): nat
    requires WellFormed(segs) && n <= |segs|
  {
    if n == 0 then 0 else SegmentWorth(segs[n - 1], n - 1) + TextValue(segs, n - 1)
  }

  function SegmentWorth(seg: Segment, rank: nat): nat
    requires rank < 5
  {
    ProductIsNat(SegmentValue(seg), Scale(rank));
    SegmentValue(seg) * Scale(rank)
  }

  lemma ProductIsNat(a: nat, b: nat)
    ensures a * b >= 0
  {}

  lemma SegmentReads(style: Style, seg: Segment)
    requires style != OldKanji
    ensures Reads(SegmentText(style, seg, 4), SegmentTokens(style, seg))
  {
    hide Reads, SegmentText, SkipZeros, KanjiTokens, D;
    if IsArabic(style) {
      ArabicSegmentReads(style, seg, 4);
      assert Digits(seg)[..4] == Digits(seg);
    } else {
      KanjiSegmentReads(seg);
    }
  }

  lemma SegmentTokensEmpty(style: Style, seg: Segment)
    ensures SegmentValue(seg) == 0 <==> SegmentTokens(style, seg) == []
  {
    hide ArabicTokens, KanjiTokens, SegmentValue, ReduceGroup;
    ArabicValue(seg);
    if SegmentValue(seg) == 0 {
      KanjiEmpty(seg);
    } else {
      KanjiGroup(seg, []);
      NothingInNothing();
      assert KanjiTokens(seg, 0) + [] == KanjiTokens(seg, 0);
    }
  }

  lemma NothingInNothing()
    ensures ReduceGroup([]) == Missing([])
  {}

  lemma SegmentGroup(style: Style, seg: Segment, post: seq<nat>)
    requires AtBoundary(post) && SegmentValue(seg) > 0
    ensures ReduceGroup(SegmentTokens(style, seg) + post) == Found(SegmentValue(seg), post)
  {
    hide ArabicTokens, KanjiTokens, SegmentValue, ReduceGroup;
    ArabicGroup(seg, post);
    KanjiGroup(seg, post);
  }

  lemma Scales()
    ensures Scale(1) == 10000 && Scale(2) == 100000000 && Scale(3) == 1000000000000 && Scale(4) == 10000000000000000
  {}

  lemma RankReads(style: Style, rank: nat)
    requires rank < 5 && style != OldKanji
    ensures Reads(BiggerRank(style, rank), ScaleTokens(rank))
  {
    Scales();
    hide Scale;
  }

  lemma {:induction false} TextReads(style: Style, segs: seq<string>, n: nat)
    requires WellFormed(segs) && n <= |segs| && style != OldKanji
    ensures Reads(Text(style, segs, n), TextTokens(style, segs, n))
  {
    hide SegmentText, SegmentTokens, ScaleTokens, BiggerRank, SegmentValue;
    if n > 0 {
      var seg := segs[n - 1];
      TextReads(style, segs, n - 1);
      SegmentReads(style, seg);
      SegmentTokensEmpty(style, seg);
      RankReads(style, n - 1);
      ReadsConcat(SegmentText(style, seg, 4), SegmentTokens(style, seg), BiggerRank(style, n - 1), ScaleTokens(n - 1));
      var x := if SegmentValue(seg) == 0 then [] else SegmentTokens(style, seg) + ScaleTokens(n - 1);
      ReadsConcat(RankText(style, seg, n - 1), x, Text(style, segs, n - 1), TextTokens(style, segs, n - 1));
    }
  }

  lemma ScalePositive(rank: nat)
    requires rank < 5
    ensures Scale(rank) >= 1 && (rank > 0 ==> Scale(rank) >= 10000 && Scale(rank - 1) < Scale(rank))
    ensures Scale(rank) < UINT64_MAX
  {
    Scales();
  }

  lemma TextValueStep(segs: seq<string>, n: nat)
    requires WellFormed(segs) && 1 <= n <= |segs|
    ensures TextValue(segs, n) == SegmentWorth(segs[n - 1], n - 1) + TextValue(segs, n - 1)
  {}

  /** The highest segment, when it is not zero, and what follows it. */
  lemma TextTokensStep(style: Style, segs: seq<string>, n: nat)
    requires WellFormed(segs) && 1 <= n <= |segs|
    ensures var v, lower := SegmentValue(segs[n - 1]), TextTokens(style, segs, n - 1);
      && TextValue(segs, n) == SegmentWorth(segs[n - 1], n - 1) + TextValue(segs, n - 1)
      && TextTokens(style, segs, n) ==
           if v == 0 then lower else SegmentTokens(style, segs[n - 1]) + (ScaleTokens(n - 1) + lower)
  {
    hide SegmentTokens, SegmentValue, Scale, ScaleTokens;
  }

  lemma NoText(style: Style, segs: seq<string>)
    requires WellFormed(segs)
    ensures TextTokens(style, segs, 0) == [] && TextValue(segs, 0) == 0
  {}

  lemma ZeroWorth(seg: Segment, rank: nat)
    requires rank < 5
    ensures SegmentWorth(seg, rank) == 0 <==> SegmentValue(seg) == 0
  {
    hide SegmentValue, Scale;
    ScalePositive(rank);
    ProductPositive(SegmentValue(seg), Scale(rank));
  }

  /** There are tokens exactly when the value is positive, and the first is never zero. */
  lemma {:induction false} TextTokensEmpty(style: Style, segs: seq<string>, n: nat)
    requires WellFormed(segs) && n <= |segs|
    ensures TextTokens(style, segs, n) == [] <==> TextValue(segs, n) == 0
  {
    hide SegmentTokens, SegmentValue, SegmentWorth, Scale, ScaleTokens, TextTokens, TextValue;
    if n == 0 {
      NoText(style, segs);
    } else {
      TextTokensEmpty(style, segs, n - 1);
      TextTokensStep(style, segs, n);
      SegmentTokensEmpty(style, segs[n - 1]);
      ZeroWorth(segs[n - 1], n - 1);
    }
  }

  lemma ProductPositive(a: nat, b: nat)
    requires b >= 1
    ensures a * b == 0 <==> a == 0
  {}

  /** The highest segment is read as a coefficient with its scale. */
  lemma SegmentStep(style: Style, seg: Segment, rank: nat, lower: seq<nat>, limit: nat)
    requires rank < 5 && Scale(rank) < limit && SegmentValue(seg) > 0 && (rank == 0 ==> lower == [])
    ensures var v := SegmentWorth(seg, rank);
      JapaneseValue(limit, SegmentTokens(style, seg) + (ScaleTokens(rank) + lower)) ==
        if lower == [] then Some(v) else Shifted(v, JapaneseValue(Scale(rank), lower))
  {
    hide SegmentTokens, SegmentValue, Scale, JapaneseValue, ReduceGroup;
    var post := ScaleTokens(rank) + lower;
    ScalePositive(rank);
    Scale0();
    SegmentGroup(style, seg, post);
    JapaneseStep(limit, SegmentTokens(style, seg) + post);
    if rank > 0 { assert post[0] == Scale(rank) && post[1..] == lower; }
  }

  /** Read in the Japanese way, the tokens of a text are worth what the digits were. */
  lemma {:induction false} TextIsRead(style: Style, segs: seq<string>, n: nat, limit: nat)
    requires WellFormed(segs) && 1 <= n <= |segs| && Scale(n - 1) < limit
    requires TextValue(segs, n) > 0
    ensures JapaneseValue(limit, TextTokens(style, segs, n)) == Some(TextValue(segs, n))
    decreases n
  {
    hide SegmentTokens, SegmentValue, SegmentWorth, Scale, ScaleTokens, TextTokens, TextValue, JapaneseValue;
    var seg, lower := segs[n - 1], TextTokens(style, segs, n - 1);
    TextTokensStep(style, segs, n);
    TextTokensEmpty(style, segs, n - 1);
    ScalePositive(n - 1);
    ZeroWorth(seg, n - 1);
    if n == 1 { NoText(style, segs); }
    if SegmentValue(seg) == 0 {
      TextIsRead(style, segs, n - 1, limit);
    } else {
      SegmentStep(style, seg, n - 1, lower, limit);
      if lower != [] { TextIsRead(style, segs, n - 1, Scale(n - 1)); }
    }
  }

  lemma Scale0()
    ensures Scale(0) == 1
  {}

  lemma {:induction false} SmallText(style: Style, segs: seq<string>, n: nat)
    requires WellFormed(segs) && n <= |segs|
    requires forall i :: 0 <= i < |TextTokens(style, segs, n)| ==> TextTokens(style, segs, n)[i] < 10
    ensures DigitsValue(TextTokens(style, segs, n)) == TextValue(segs, n)
    decreases n
  {
    hide SegmentTokens, SegmentValue, Scale, DigitsValue;
    DigitsOfNothing();
    if n > 0 {
      var seg, lower, t := segs[n - 1], TextTokens(style, segs, n - 1), TextTokens(style, segs, n);
      if SegmentValue(seg) == 0 {
        assert t == lower;
        SmallText(style, segs, n - 1);
      } else if n == 1 {
        assert t == SegmentTokens(style, seg);
        SmallSegment(style, seg);
        Scale0();
      } else {
        TextHasScale(style, segs, n);
        assert false;
      }
    }
  }

  lemma TextHasScale(style: Style, segs: seq<string>, n: nat)
    requires WellFormed(segs) && 1 < n <= |segs| && SegmentValue(segs[n - 1]) > 0
    ensures exists i :: 0 <= i < |TextTokens(style, segs, n)| && TextTokens(style, segs, n)[i] >= 10
  {
    hide SegmentTokens, SegmentValue, Scale;
    ScalePositive(n - 1);
    assert TextTokens(style, segs, n)[|SegmentTokens(style, segs[n - 1])|] == Scale(n - 1);
  }

  lemma DigitsOfNothing()
    ensures DigitsValue([]) == 0
  {}

  lemma SmallSegment(style: Style, seg: Segment)
    requires forall i :: 0 <= i < |SegmentTokens(style, seg)| ==> SegmentTokens(style, seg)[i] < 10
    ensures DigitsValue(SegmentTokens(style, seg)) == SegmentValue(seg)
  {
    hide ArabicTokens, KanjiTokens, SegmentValue, DigitsValue;
    if IsArabic(style) {
      ArabicValue(seg);
    } else {
      assert SegmentTokens(style, seg) == KanjiTokens(seg, 0);
      SmallKanji(seg);
    }
  }

  lemma SmallKanji(seg: Segment)
    requires forall i :: 0 <= i < |KanjiTokens(seg, 0)| ==> KanjiTokens(seg, 0)[i] < 10
    ensures DigitsValue(KanjiTokens(seg, 0)) == SegmentValue(seg)
  {
    hide D, KanjiTokens, DigitsValue;
    KanjiIsSmall(seg, 0);
    KanjiIsSmall(seg, 1);
    KanjiIsSmall(seg, 2);
    LastKanjiDigit(seg);
  }

  lemma LastKanjiDigit(seg: Segment)
    ensures KanjiTokens(seg, 3) == KanjiDigit(D(seg, 3), 3)
    ensures DigitsValue(KanjiTokens(seg, 3)) == D(seg, 3)
  {
    hide D;
    var d := D(seg, 3);
    assert KanjiTokens(seg, 4) == [];
    assert KanjiDigit(d, 3) + [] == KanjiDigit(d, 3);
    assert [d][..0] == [];
  }

  /** With no rank in the text there is no digit before the last. */
  lemma KanjiIsSmall(seg: Segment, i: nat)
    requires i < 3 && forall k :: 0 <= k < |KanjiTokens(seg, i)| ==> KanjiTokens(seg, i)[k] < 10
    ensures D(seg, i) == 0 && KanjiTokens(seg, i) == KanjiTokens(seg, i + 1)
  {
    hide D;
    if D(seg, i) > 0 {
      KanjiHasBase(seg, i);
      assert false;
    }
  }

  lemma KanjiHasBase(seg: Segment, i: nat)
    requires i < 3 && D(seg, i) > 0
    ensures exists k :: 0 <= k < |KanjiTokens(seg, i)| && KanjiTokens(seg, i)[k] >= 10
  {
    hide D;
    assert KanjiTokens(seg, i)[|KanjiDigit(D(seg, i), i)| - 1] == Base(i);
  }

  lemma TextHasItsValue(style: Style, segs: seq<string>)
    requires WellFormed(segs) && TextValue(segs, |segs|) > 0
    ensures Value(TextTokens(style, segs, |segs|)) == Some(TextValue(segs, |segs|))
  {
    hide TextTokens, JapaneseValue, DigitsValue, Scale;
    var n := |segs|;
    var t := TextTokens(style, segs, n);
    assert n > 0;
    TextTokensEmpty(style, segs, n);
    ScalePositive(n - 1);
    TextIsRead(style, segs, n, UINT64_MAX);
    if forall i :: 0 <= i < |t| ==> t[i] < 10 {
      SmallText(style, segs, n);
    }
  }

  // ----- The value of the digit string itself

  /** The number that a string of decimal digits denotes. */
  function DecimalValue(s: string): nat
    requires IsDigits(s)
  {
    if s == "" then 0 else 10 * DecimalValue(s[..|s| - 1]) + DigitOf(s[|s| - 1])
  }

  lemma {:induction false} LeadingZerosAreWorthNothing(n: nat, s: string)
    requires IsDigits(s)
    ensures DecimalValue(Zeros(n) + s) == DecimalValue(s)
    decreases n + |s|
  {
    var z := Zeros(n) + s;
    if s != "" {
      assert z[..|z| - 1] == Zeros(n) + s[..|s| - 1];
      LeadingZerosAreWorthNothing(n, s[..|s| - 1]);
    } else if n > 0 {
      assert z == Zeros(n) && z[..n - 1] == Zeros(n - 1) + s;
      LeadingZerosAreWorthNothing(n - 1, s);
    }
  }

  lemma DecimalStep(init: string, c: char)
    requires '0' <= c <= '9' && IsDigits(init)
    ensures DecimalValue(init + [c]) == 10 * DecimalValue(init) + DigitOf(c)
  {
    assert (init + [c])[..|init|] == init;
  }

  lemma LastSegment(a: string, seg: Segment)
    requires IsDigits(a)
    ensures DecimalValue(a + seg) == 10000 * DecimalValue(a) + SegmentValue(seg)
  {
    hide DigitOf, DecimalValue;
    var s3 := a + [seg[0]];
    var s2 := s3 + [seg[1]];
    var s1 := s2 + [seg[2]];
    DecimalStep(a, seg[0]);
    DecimalStep(s3, seg[1]);
    DecimalStep(s2, seg[2]);
    DecimalStep(s1, seg[3]);
    assert a + seg == s1 + [seg[3]];
  }

  /** Taking the lowest segment away divides the value of the rest by ten thousand. */
  lemma {:induction false} LowestSegment(segs: seq<string>, n: nat)
    requires WellFormed(segs) && 1 <= n <= |segs|
    ensures TextValue(segs, n) == SegmentValue(segs[0]) + 10000 * TextValue(segs[1..], n - 1)
  {
    hide SegmentValue;
    if n == 1 {
      Scale0();
    } else {
      LowestSegment(segs, n - 1);
      var v := SegmentValue(segs[n - 1]);
      assert segs[1..][n - 2] == segs[n - 1] && Scale(n - 1) == 10000 * Scale(n - 2);
      assert v * (10000 * Scale(n - 2)) == 10000 * (v * Scale(n - 2));
      hide Scale;
    }
  }

  lemma SegmentsAreWellFormed(s: string)
    requires |s| % 4 == 0 && |s| <= 20 && IsDigits(s)
    ensures WellFormed(Segments(s))
  {
    hide Segments, IsDigits;
  }

  lemma {:induction false} SegmentsHaveTheValue(s: string)
    requires |s| % 4 == 0 && |s| <= 20 && IsDigits(s)
    ensures WellFormed(Segments(s))
    ensures TextValue(Segments(s), |s| / 4) == DecimalValue(s)
    decreases |s|
  {
    hide SegmentValue, WellFormed, DecimalValue, TextValue, Segments, DigitOf;
    SegmentsAreWellFormed(s);
    if s == "" {
      NothingIsZero(Segments(s));
    } else {
      var a, seg := s[..|s| - 4], s[|s| - 4..];
      SegmentsHaveTheValue(a);
      assert s == a + seg;
      SegmentsStep(s);
      assert ([seg] + Segments(a))[1..] == Segments(a);
      LastSegment(a, seg);
      LowestSegment(Segments(s), |s| / 4);
    }
  }

  lemma SegmentsStep(s: string)
    requires |s| % 4 == 0 && s != ""
    ensures Segments(s) == [s[|s| - 4..]] + Segments(s[..|s| - 4])
  {}

  lemma NothingIsZero(segs: seq<string>)
    requires WellFormed(segs)
    ensures TextValue(segs, 0) == 0 == DecimalValue("")
  {}

  // ----- The round trip

  /** The decimal digits without the zeros in front. */
  function Canonical(s: string): string {
    if s != "" && s[0] == '0' then Canonical(s[1..]) else s
  }

  /** The digits without the zeros in front, as NormalizeNumbers gives them back. */
  function WithoutZeros(digits: string): string { if AllZero(digits) then "0" else Canonical(digits) }

  lemma {:induction false} DecimalIsCanonical(s: string)
    requires s != "" && s[0] != '0' && IsDecimalInteger(s)
    ensures DecimalValue(s) > 0 && Decimal(DecimalValue(s)) == s
    decreases |s|
  {
    hide DigitOf, DecimalValue, Decimal;
    var init, c := s[..|s| - 1], s[|s| - 1];
    assert s == init + [c];
    DigitChars(c);
    DecimalStep(init, c);
    DecimalAppend(DecimalValue(init), DigitOf(c));
    if init == "" {
      NothingIsZero([]);
    } else {
      DecimalIsCanonical(init);
    }
  }

  lemma DecimalAppend(v: nat, d: nat)
    requires d < 10
    ensures Decimal(10 * v + d) == (if v == 0 then "" else Decimal(v)) + [DIGITS[d]]
  {
    assert (10 * v + d) / 10 == v && (10 * v + d) % 10 == d;
  }

  lemma DigitChars(c: char)
    requires '0' <= c <= '9'
    ensures DIGITS[DigitOf(c)] == c
    ensures c != '0' ==> DigitOf(c) > 0
  {}

  lemma {:induction false} CanonicalHasTheValue(s: string)
    requires IsDigits(s)
    ensures forall i :: 0 <= i < |Canonical(s)| ==> '0' <= Canonical(s)[i] <= '9'
    ensures DecimalValue(Canonical(s)) == DecimalValue(s)
    ensures Canonical(s) == "" <==> AllZero(s)
  {
    if s != "" && s[0] == '0' {
      CanonicalHasTheValue(s[1..]);
      assert s == Zeros(1) + s[1..];
      LeadingZerosAreWorthNothing(1, s[1..]);
      hide DecimalValue;
      assert AllZero(s) ==> AllZero(s[1..]);
      if AllZero(s[1..]) {
        forall i | 0 <= i < |s| ensures s[i] == '0' { if i > 0 { assert s[i] == s[1..][i - 1]; } }
      }
    }
  }

  lemma FilledHasTheValue(digits: string)
    requires IsDecimalInteger(digits)
    ensures DecimalValue(Filled(digits)) == DecimalValue(digits)
  {
    LeadingZerosAreWorthNothing((4 - |digits| % 4) % 4, digits);
  }

  lemma {:induction false} AllNumbers(s: string)
    requires forall i :: 0 <= i < |s| ==> TokenOf(s[i]).Some?
    ensures NumberLength(s) == |s|
  {
    hide TokenOf;
    if s != "" {
      AllNumbers(s[1..]);
    }
  }

  /** A text of number characters that starts with a nonzero one is normalized to its value. */
  lemma NormalizeReads(s: string, t: seq<nat>, v: nat, trim: bool, allowSuffix: bool, isNumber: string -> bool)
    requires Reads(s, t) && t != [] && t[0] > 0 && Value(t) == Some(v)
    ensures Normalize(s, trim, allowSuffix, isNumber) ==
      if v < TWO_64 then Some(Normalized(KanjiForm(s), Decimal(v), "")) else None
  {
    hide TokenOf, Value, KanjiForm, Decimal;
    AllNumbers(s);
    assert s[..|s|] == s && s[|s|..] == "";
    assert TokensOf(s) == t;
    assert Zeros(0) + Decimal(v) == Decimal(v);
  }

  lemma {:induction false} KanjiStartsNonzero(seg: Segment, i: nat)
    requires i <= 4
    ensures KanjiTokens(seg, i) != [] ==> KanjiTokens(seg, i)[0] > 0
    decreases 4 - i
  {
    if i < 4 {
      KanjiStartsNonzero(seg, i + 1);
    }
  }

  lemma {:induction false} TextStartsNonzero(style: Style, segs: seq<string>, n: nat)
    requires WellFormed(segs) && n <= |segs|
    ensures TextTokens(style, segs, n) != [] ==> TextTokens(style, segs, n)[0] > 0
  {
    hide ArabicTokens, KanjiTokens, SegmentValue, ScaleTokens;
    if n > 0 {
      var seg := segs[n - 1];
      TextStartsNonzero(style, segs, n - 1);
      KanjiStartsNonzero(seg, 0);
      ArabicStartsNonzero(seg);
      SegmentTokensEmpty(style, seg);
    }
  }

  lemma ArabicStartsNonzero(seg: Segment)
    ensures ArabicTokens(seg) != [] ==> ArabicTokens(seg)[0] > 0
  {
    hide SkipZeros;
  }

  /** The printed text, as NormalizeNumbers sees it. */
  function Printed(style: Style, digits: string): string
    requires IsDecimalInteger(digits) && |digits| <= 20
  {
    SegmentsAreWellFormed(Filled(digits));
    Text(style, Segments(Filled(digits)), |Filled(digits)| / 4)
  }

  /** A text of number characters that are worth a number is normalized to its digits. */
  lemma NumberIsReadBack(text: string, t: seq<nat>, digits: string, trim: bool, allowSuffix: bool, isNumber: string -> bool)
    requires IsDecimalInteger(digits) && !AllZero(digits)
    requires Reads(text, t) && t != [] && t[0] > 0 && Value(t) == Some(DecimalValue(digits))
    ensures Normalize(text, trim, allowSuffix, isNumber) ==
      if DecimalValue(digits) < TWO_64 then Some(Normalized(KanjiForm(text), Canonical(digits), "")) else None
  {
    hide Decimal, DecimalValue, Value, Reads, KanjiForm, Canonical, Normalize;
    CanonicalHasTheValue(digits);
    CanonicalStarts(digits);
    DecimalIsCanonical(Canonical(digits));
    NormalizeReads(text, t, DecimalValue(digits), trim, allowSuffix, isNumber);
  }

  /** The value of the segments is that of the digits, and positive. */
  lemma PrintedHasTheValue(digits: string)
    requires IsDecimalInteger(digits) && |digits| <= 20 && !AllZero(digits)
    ensures var segs := Segments(Filled(digits));
      WellFormed(segs) && TextValue(segs, |segs|) == DecimalValue(digits) > 0
  {
    hide Decimal, DecimalValue, Segments, TextValue, WellFormed, Canonical, Filled;
    SegmentsHaveTheValue(Filled(digits));
    FilledHasTheValue(digits);
    CanonicalHasTheValue(digits);
    CanonicalStarts(digits);
    DecimalIsCanonical(Canonical(digits));
  }

  /**
   Printed in the Kanji or a mixed form and read back, a number below 2^64 gives its own
   digits without leading zeros, and a larger number is rejected.
   */
  lemma PrintedIsReadBack(style: Style, digits: string, trim: bool, allowSuffix: bool, isNumber: string -> bool)
    requires IsDecimalInteger(digits) && |digits| <= 20 && !AllZero(digits) && style != OldKanji
    ensures var text := Printed(style, digits);
      Normalize(text, trim, allowSuffix, isNumber) ==
        if DecimalValue(digits) < TWO_64 then Some(Normalized(KanjiForm(text), Canonical(digits), "")) else None
  {
    hide DecimalValue, Segments, Text, TextTokens, TextValue, Value, WellFormed, Reads, KanjiForm, Canonical, Filled,
         Normalize;
    var segs := Segments(Filled(digits));
    PrintedHasTheValue(digits);
    var t := TextTokens(style, segs, |segs|);
    TextReads(style, segs, |segs|);
    TextHasItsValue(style, segs);
    TextTokensEmpty(style, segs, |segs|);
    TextStartsNonzero(style, segs, |segs|);
    NumberIsReadBack(Printed(style, digits), t, digits, trim, allowSuffix, isNumber);
  }

  lemma {:induction false} CanonicalStarts(s: string)
    ensures Canonical(s) != "" ==> Canonical(s)[0] != '0'
  {
    if s != "" && s[0] == '0' {
      CanonicalStarts(s[1..]);
    }
  }

  lemma NonzeroFormIsReadBack(digits: string, form: NumberString, trim: bool, allowSuffix: bool, isNumber: string -> bool)
    requires IsDecimalInteger(digits) && |digits| <= 20 && !AllZero(digits)
    requires form in Variations(Filled(digits), |VARIATIONS|) && form.style != OldKanji
    ensures Normalize(form.value, trim, allowSuffix, isNumber) ==
      if DecimalValue(digits) < TWO_64 then Some(Normalized(KanjiForm(form.value), Canonical(digits), "")) else None
  {
    hide DecimalValue, Segments, Text, KanjiForm, Canonical, Filled, Normalize, Variations, VariationOf, WellFormed, AllZero;
    var input := Filled(digits);
    VariationsOf(input);
    SegmentsAreWellFormed(input);
    FormOf(ArabicKanjiHalf, input, form);
    FormOf(ArabicKanjiFull, input, form);
    FormOf(Kanji, input, form);
    FormOf(OldKanji, input, form);
    PrintedIsReadBack(form.style, digits, trim, allowSuffix, isNumber);
  }

  /** Every form that ArabicToKanji emits, other than the old style, is read back. */
  lemma EveryFormIsReadBack(digits: string, form: NumberString, trim: bool, allowSuffix: bool, isNumber: string -> bool)
    requires IsDecimalInteger(digits) && (AllZero(digits) || |digits| <= 20)
    requires form in Forms(digits) && form.style != OldKanji
    ensures Normalize(form.value, trim, allowSuffix, isNumber) ==
      if DecimalValue(digits) < TWO_64 then Some(Normalized(KanjiForm(form.value), Canonical(digits), "")) else None
  {
    hide DecimalValue, KanjiForm, Canonical, Filled, Normalize, Variations, AllZero, Description;
    if !AllZero(digits) { NonzeroFormIsReadBack(digits, form, trim, allowSuffix, isNumber); }
  }

  lemma FormOf(style: Style, input: string, form: NumberString)
    requires |input| % 4 == 0 && 0 < |input| <= 20 && IsDecimalInteger(input) && WellFormed(Segments(input))
    ensures form in VariationOf(style, input) ==>
      form.style == style && (style != OldKanji ==> form.value == Text(style, Segments(input), |input| / 4))
  {
    hide Text, Segments, HasTwenty, WithTwenty;
  }

  lemma VariationsOf(input: string)
    requires |input| % 4 == 0 && 0 < |input| <= 20 && IsDecimalInteger(input)
    ensures Variations(input, |VARIATIONS|)
         == VariationOf(ArabicKanjiHalf, input) + VariationOf(ArabicKanjiFull, input) + VariationOf(Kanji, input)
            + VariationOf(OldKanji, input)
  {
    hide VariationOf;
    assert Variations(input, 1) == VariationOf(ArabicKanjiHalf, input);
    assert Variations(input, 2) == Variations(input, 1) + VariationOf(ArabicKanjiFull, input);
    assert Variations(input, 3) == Variations(input, 2) + VariationOf(Kanji, input);
  }
}
