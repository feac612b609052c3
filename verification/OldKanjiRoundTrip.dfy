/**
 The old style of ArabicToKanji, with its own characters and a "one" before every rank, against
 NormalizeNumbers: exactly which of its forms are read back.

 The characters for thousand and for ten thousand of this style are not in the parser's table,
 and the parser rejects a one before ten and hundred.
 */
module OldKanjiRoundTrip {
  import opened Basics
  import opened NumberParser
  import opened NumberNormalizer
  import opened P = NumberPrinter
  import opened NumberRoundTrip
  import DroppedTokens

  // ----- The condition

  /** No digit in the thousands. */
  predicate HasCharacters(seg: Segment) { D(seg, 0) == 0 }

  /** No one in the hundreds and the tens. */
  predicate HasNoOne(seg: Segment) { D(seg, 1) != 1 && D(seg, 2) != 1 }

  /** All characters are in the parser's table. */
  predicate AllCharacters(segs: seq<string>, n: nat)
    requires WellFormed(segs) && n <= |segs|
  {
    forall k :: 0 <= k < n ==> HasCharacters(segs[k]) && (k == 1 ==> SegmentValue(segs[k]) == 0)
  }

  predicate NoOnes(segs: seq<string>, n: nat)
    requires WellFormed(segs) && n <= |segs|
  {
    forall k :: 0 <= k < n ==> HasNoOne(segs[k])
  }

  /** No digit in a thousands place, nothing in the segment of ten thousand, no one in a hundreds or tens place. */
  predicate IsReadable(digits: string)
    requires IsDecimalInteger(digits) && |digits| <= 20
  {
    SegmentsAreWellFormed(Filled(digits));
    var segs := Segments(Filled(digits));
    AllCharacters(segs, |segs|) && NoOnes(segs, |segs|)
  }

  // ----- The two forms of a text

  /** The text as it is, or with the single character for twenty. */
  function Form(twenty: bool, s: string): string { if twenty then WithTwenty(s) else s }

  /** The second of the two characters that are replaced does not come first. */
  predicate StartsNoTen(s: string) { s == "" || s[0] != '拾' }

  lemma {:induction false} FormConcat(twenty: bool, a: string, b: string)
    requires StartsNoTen(b)
    ensures Form(twenty, a + b) == Form(twenty, a) + Form(twenty, b)
    decreases |a|
  {
    if a == "" {
      assert a + b == b;
      assert "" + WithTwenty(b) == WithTwenty(b);
    } else if twenty {
      var s := a + b;
      if |a| >= 2 && a[0] == '弐' && a[1] == '拾' {
        assert s[2..] == a[2..] + b;
        FormConcat(twenty, a[2..], b);
        Regroup("廿", WithTwenty(a[2..]), WithTwenty(b));
      } else {
        assert s[1..] == a[1..] + b;
        FormConcat(twenty, a[1..], b);
        OneKept(a);
        OneKept(s);
        Regroup([a[0]], WithTwenty(a[1..]), WithTwenty(b));
      }
    }
  }

  lemma OneKept(s: string)
    requires s != "" && !(|s| >= 2 && s[0] == '弐' && s[1] == '拾')
    ensures WithTwenty(s) == [s[0]] + WithTwenty(s[1..])
  {
    if |s| == 1 { assert s[1..] == "" && [s[0]] + "" == s; }
  }

  lemma NoTenConcat(a: string, b: string)
    requires StartsNoTen(a) && StartsNoTen(b)
    ensures StartsNoTen(a + b)
  {
    if a == "" { assert a + b == b; }
  }

  lemma FormOfNothing(twenty: bool)
    ensures Form(twenty, "") == "" && StartsNoTen("")
  {}

  // ----- Tokens of one segment

  function OldDigit(d: nat, i: nat, twenty: bool): seq<nat>
    requires i < 4
  {
    if d == 0 then [] else if i == 3 then [d] else if twenty && i == 2 && d == 2 then [20] else [d, Base(i)]
  }

  /** The tokens of the first i positions. */
  function OldTokens(seg: Segment, i: nat, twenty: bool): seq<nat>
    requires i <= 4
  {
    if i == 0 then [] else OldTokens(seg, i - 1, twenty) + OldDigit(D(seg, i - 1), i - 1, twenty)
  }

  /** What a digit adds to the text. */
  lemma OldDigitText(seg: Segment, i: nat)
    requires i < 4
    ensures var d := D(seg, i);
      DigitText(OldKanji, seg, i) == if d == 0 then "" else [DigitChar(OldKanji, d)] + Rank(OldKanji, i)
  {
    assert Leading(seg, i) ==> seg[i] == '0';
  }

  lemma OldCharacters(d: nat)
    requires 1 <= d < 10
    ensures TokenOf(DigitChar(OldKanji, d)) == Some(d)
    ensures DigitChar(OldKanji, d) != '拾' && (DigitChar(OldKanji, d) == '弐' <==> d == 2)
  {
    if d == 1 {} else if d == 2 {} else if d == 3 {} else if d == 4 {}
    else if d == 5 {} else if d == 6 {} else if d == 7 {} else if d == 8 {} else {}
  }

  lemma OldRanks(i: nat)
    requires i < 4
    ensures 1 <= i < 3 ==> Reads(Rank(OldKanji, i), [Base(i)])
    ensures |Rank(OldKanji, i)| == if i == 3 then 0 else 1
    ensures i < 3 ==> (Rank(OldKanji, i)[0] == '拾' <==> i == 2)
  {}

  /** One or two characters, with or without the replacement. */
  lemma FormOfTwo(c: char, rank: string, twenty: bool)
    requires |rank| <= 1
    ensures Form(twenty, [c] + rank) == if twenty && c == '弐' && rank == "拾" then "廿" else [c] + rank
  {
    var s := [c] + rank;
    if |s| == 2 {
      if c == '弐' && rank == "拾" {
        assert s[0] == '弐' && s[1] == '拾' && s[2..] == "";
        assert WithTwenty("") == "" && "廿" + "" == "廿";
      } else {
        assert rank == [rank[0]];
        assert s[1..] == rank;
        assert WithTwenty(rank) == rank;
      }
    }
  }

  lemma OldDigitReads(seg: Segment, i: nat, twenty: bool)
    requires i < 4 && (i == 0 ==> D(seg, 0) == 0)
    ensures StartsNoTen(DigitText(OldKanji, seg, i))
    ensures Reads(Form(twenty, DigitText(OldKanji, seg, i)), OldDigit(D(seg, i), i, twenty))
  {
    hide Form, DigitChar, Rank, DigitText, Base, TokenOf, D;
    var d := D(seg, i);
    OldDigitText(seg, i);
    BelowTen(seg, i);
    FormOfNothing(twenty);
    if d > 0 {
      OldCharacters(d);
      OldRanks(i);
      FormOfTwo(DigitChar(OldKanji, d), Rank(OldKanji, i), twenty);
      TwentyReads();
    }
  }

  lemma TwentyReads()
    ensures Reads("廿", [20])
  {}

  lemma {:induction false} OldSegmentReads(seg: Segment, i: nat, twenty: bool)
    requires HasCharacters(seg) && i <= 4
    ensures StartsNoTen(SegmentText(OldKanji, seg, i))
    ensures Reads(Form(twenty, SegmentText(OldKanji, seg, i)), OldTokens(seg, i, twenty))
  {
    hide Reads, DigitText, OldDigit, D, Form, StartsNoTen;
    if i == 0 {
      FormOfNothing(twenty);
      NothingReads();
    } else {
      var before, last := SegmentText(OldKanji, seg, i - 1), DigitText(OldKanji, seg, i - 1);
      OldSegmentReads(seg, i - 1, twenty);
      assert HasCharacters(seg) ==> D(seg, 0) == 0;
      OldDigitReads(seg, i - 1, twenty);
      FormConcat(twenty, before, last);
      NoTenConcat(before, last);
      ReadsConcat(Form(twenty, before), OldTokens(seg, i - 1, twenty),
                  Form(twenty, last), OldDigit(D(seg, i - 1), i - 1, twenty));
    }
  }

  lemma NothingReads()
    ensures Reads("", [])
  {}

  lemma FourOldTokens(seg: Segment, twenty: bool)
    ensures OldTokens(seg, 4, twenty) ==
      OldDigit(D(seg, 0), 0, twenty) + (OldDigit(D(seg, 1), 1, twenty) +
        (OldDigit(D(seg, 2), 2, twenty) + OldDigit(D(seg, 3), 3, twenty)))
  {
    hide D, OldDigit;
    var x0, x1 := OldDigit(D(seg, 0), 0, twenty), OldDigit(D(seg, 1), 1, twenty);
    var x2, x3 := OldDigit(D(seg, 2), 2, twenty), OldDigit(D(seg, 3), 3, twenty);
    assert OldTokens(seg, 0, twenty) == [];
    assert OldTokens(seg, 1, twenty) == x0;
    assert OldTokens(seg, 2, twenty) == x0 + x1;
    assert OldTokens(seg, 3, twenty) == x0 + x1 + x2;
    assert x0 + x1 + x2 + x3 == x0 + (x1 + (x2 + x3));
  }

  lemma FourKanjiTokens(seg: Segment)
    ensures KanjiTokens(seg, 0) ==
      KanjiDigit(D(seg, 0), 0) + (KanjiDigit(D(seg, 1), 1) + (KanjiDigit(D(seg, 2), 2) + KanjiDigit(D(seg, 3), 3)))
  {
    hide D, KanjiDigit;
    assert KanjiTokens(seg, 4) == [];
    assert KanjiTokens(seg, 3) == KanjiDigit(D(seg, 3), 3) + [] == KanjiDigit(D(seg, 3), 3);
  }

  /** Without a one before a rank the tokens are those of the other Kanji style. */
  lemma SameTokens(seg: Segment, twenty: bool)
    requires HasCharacters(seg) && HasNoOne(seg) && !(twenty && D(seg, 2) == 2)
    ensures OldTokens(seg, 4, twenty) == KanjiTokens(seg, 0)
  {
    hide D, OldTokens, KanjiTokens;
    FourOldTokens(seg, twenty);
    FourKanjiTokens(seg);
  }

  // ----- A segment without a one before a rank

  lemma HundredIsFound(d: nat, rest: seq<nat>)
    requires 2 <= d < 10
    ensures ReduceDigits([d, 100] + rest, 1000) == Missing([d, 100] + rest)
    ensures ReduceDigits([d, 100] + rest, 100) == Found(100 * d, rest)
  {
    var t := [d, 100] + rest;
    assert t[0] == d && t[1] == 100 && t[2..] == rest;
  }

  lemma TwentyIsFound(rest: seq<nat>)
    ensures ReduceDigits([20] + rest, 1000) == Missing([20] + rest)
    ensures ReduceDigits([20] + rest, 100) == Missing([20] + rest)
    ensures ReduceDigits([20] + rest, 10) == Found(20, rest)
  {
    var t := [20] + rest;
    assert t[0] == 20 && t[1..] == rest;
  }

  lemma LastDigit(d: nat, twenty: bool, post: seq<nat>)
    requires d < 10 && AtBoundary(post)
    ensures ReduceOnes(OldDigit(d, 3, twenty) + post) == if d == 0 then Missing(post) else Found(d, post)
  {
    if d == 0 {
      assert OldDigit(d, 3, twenty) + post == post;
    } else {
      assert ([d] + post)[1..] == post;
    }
  }

  lemma TwentyGroup(seg: Segment, post: seq<nat>)
    requires HasCharacters(seg) && HasNoOne(seg) && D(seg, 2) == 2 && AtBoundary(post)
    ensures ReduceGroup(OldTokens(seg, 4, true) + post) == Found(SegmentValue(seg), post)
  {
    hide D, OldTokens, ReduceDigits, ReduceOnes;
    FourOldTokens(seg, true);
    BelowTen(seg, 1);
    BelowTen(seg, 3);
    var ones := OldDigit(D(seg, 3), 3, true) + post;
    var t := OldTokens(seg, 4, true) + post;
    TwentyIsFound(ones);
    LastDigit(D(seg, 3), true, post);
    if D(seg, 1) == 0 {
      assert t == [20] + ones;
    } else {
      assert t == [D(seg, 1), 100] + ([20] + ones);
      HundredIsFound(D(seg, 1), [20] + ones);
    }
  }

  lemma OldGroup(seg: Segment, twenty: bool, post: seq<nat>)
    requires HasCharacters(seg) && HasNoOne(seg) && SegmentValue(seg) > 0 && AtBoundary(post)
    ensures ReduceGroup(OldTokens(seg, 4, twenty) + post) == Found(SegmentValue(seg), post)
  {
    hide OldTokens, KanjiTokens, ReduceGroup, SegmentValue, D;
    if twenty && D(seg, 2) == 2 {
      TwentyGroup(seg, post);
    } else {
      SameTokens(seg, twenty);
      KanjiGroup(seg, post);
    }
  }

  // ----- A one before a rank

  lemma OneIsRejected(base: nat, i: nat, rest: seq<nat>)
    requires (base == 10 || base == 100 || base == 1000) && 1 <= i <= 2
    ensures ReduceDigits([1, Base(i)] + rest, base) == Missing([1, Base(i)] + rest)
  {
    var t := [1, Base(i)] + rest;
    assert t[0] == 1 && t[1] == Base(i);
  }

  lemma OneAlone(i: nat, rest: seq<nat>)
    requires 1 <= i <= 2
    ensures ReduceOnes([1, Base(i)] + rest) == Found(1, [Base(i)] + rest)
  {
    assert ([1, Base(i)] + rest)[1..] == [Base(i)] + rest;
  }

  /** A group that starts with a one and a rank is not accepted. */
  lemma OneGroup(i: nat, rest: seq<nat>)
    requires 1 <= i <= 2
    ensures ReduceGroup([1, Base(i)] + rest).Missing?
  {
    hide ReduceDigits, ReduceOnes;
    OneIsRejected(1000, i, rest);
    OneIsRejected(100, i, rest);
    OneIsRejected(10, i, rest);
    OneAlone(i, rest);
  }

  lemma HundredsThenOne(d: nat, rest: seq<nat>)
    requires 2 <= d < 10
    ensures ReduceGroup([d, 100] + ([1, Base(2)] + rest)).Missing?
  {
    hide ReduceDigits, ReduceOnes;
    var tens := [1, Base(2)] + rest;
    HundredIsFound(d, tens);
    OneIsRejected(10, 2, rest);
    OneAlone(2, rest);
  }

  lemma BelowTen(seg: Segment, i: nat)
    requires i < 4
    ensures D(seg, i) < 10
  {}

  lemma SegmentIsRejected(seg: Segment, twenty: bool, post: seq<nat>)
    requires HasCharacters(seg) && !HasNoOne(seg)
    ensures ReduceGroup(OldTokens(seg, 4, twenty) + post).Missing?
  {
    hide D, OldTokens, ReduceGroup;
    FourOldTokens(seg, twenty);
    var x2, x3 := OldDigit(D(seg, 2), 2, twenty), OldDigit(D(seg, 3), 3, twenty);
    var t := OldTokens(seg, 4, twenty) + post;
    if D(seg, 1) == 1 {
      assert t == [1, Base(1)] + (x2 + x3 + post);
      OneGroup(1, x2 + x3 + post);
    } else {
      assert x2 == [1, Base(2)];
      if D(seg, 1) == 0 {
        assert t == [1, Base(2)] + (x3 + post);
        OneGroup(2, x3 + post);
      } else {
        assert t == [D(seg, 1), 100] + ([1, Base(2)] + (x3 + post));
        BelowTen(seg, 1);
        HundredsThenOne(D(seg, 1), x3 + post);
      }
    }
  }

  // ----- A whole text

  function OldTextTokens(segs: seq<string>, n: nat, twenty: bool): seq<nat>
    requires WellFormed(segs) && n <= |segs|
  {
    if n == 0 then [] else
      (if SegmentValue(segs[n - 1]) == 0 then [] else OldTokens(segs[n - 1], 4, twenty) + ScaleTokens(n - 1)) +
      OldTextTokens(segs, n - 1, twenty)
  }

  lemma OldTokensEmpty(seg: Segment, twenty: bool)
    ensures OldTokens(seg, 4, twenty) == [] <==> SegmentValue(seg) == 0
    ensures OldTokens(seg, 4, twenty) != [] ==> OldTokens(seg, 4, twenty)[0] > 0
  {
    hide D, OldTokens;
    FourOldTokens(seg, twenty);
  }

  lemma OldRankReads(rank: nat, twenty: bool)
    requires rank < 5 && rank != 1
    ensures StartsNoTen(BiggerRank(OldKanji, rank))
    ensures Reads(Form(twenty, BiggerRank(OldKanji, rank)), ScaleTokens(rank))
  {
    Scales();
    hide Scale;
  }

  /** The text of one segment with its rank. */
  lemma OldRankTextReads(seg: Segment, rank: nat, twenty: bool)
    requires rank < 5 && HasCharacters(seg) && (rank == 1 ==> SegmentValue(seg) == 0)
    ensures var text := RankText(OldKanji, seg, rank);
      && StartsNoTen(text)
      && Reads(Form(twenty, text), if SegmentValue(seg) == 0 then [] else OldTokens(seg, 4, twenty) + ScaleTokens(rank))
  {
    hide SegmentText, OldTokens, ScaleTokens, BiggerRank, SegmentValue, HasCharacters, Reads, Form, StartsNoTen;
    var text := SegmentText(OldKanji, seg, 4);
    FormOfNothing(twenty);
    NothingReads();
    OldSegmentReads(seg, 4, twenty);
    OldTokensEmpty(seg, twenty);
    FormReadsNothing(twenty, text, OldTokens(seg, 4, twenty));
    if SegmentValue(seg) > 0 {
      OldRankReads(rank, twenty);
      FormConcat(twenty, text, BiggerRank(OldKanji, rank));
      NoTenConcat(text, BiggerRank(OldKanji, rank));
      var tokens, bigger := OldTokens(seg, 4, twenty), BiggerRank(OldKanji, rank);
      ReadsConcat(Form(twenty, text), tokens, Form(twenty, bigger), ScaleTokens(rank));
    }
  }

  lemma FormReadsNothing(twenty: bool, s: string, t: seq<nat>)
    requires Reads(Form(twenty, s), t)
    ensures s == "" <==> t == []
  {}

  lemma {:induction false} OldTextReads(segs: seq<string>, n: nat, twenty: bool)
    requires WellFormed(segs) && n <= |segs| && AllCharacters(segs, n)
    ensures StartsNoTen(Text(OldKanji, segs, n))
    ensures Reads(Form(twenty, Text(OldKanji, segs, n)), OldTextTokens(segs, n, twenty))
  {
    hide RankText, OldTokens, ScaleTokens, SegmentValue, HasCharacters, Reads, Form, StartsNoTen;
    if n == 0 {
      FormOfNothing(twenty);
      NothingReads();
    } else {
      var seg := segs[n - 1];
      var text, later := RankText(OldKanji, seg, n - 1), Text(OldKanji, segs, n - 1);
      OldTextReads(segs, n - 1, twenty);
      OldRankTextReads(seg, n - 1, twenty);
      FormConcat(twenty, text, later);
      NoTenConcat(text, later);
      var x := if SegmentValue(seg) == 0 then [] else OldTokens(seg, 4, twenty) + ScaleTokens(n - 1);
      ReadsConcat(Form(twenty, text), x, Form(twenty, later), OldTextTokens(segs, n - 1, twenty));
    }
  }

  /** One segment of the tokens, when it is not zero, and what follows it. */
  lemma OldTokensStep(segs: seq<string>, n: nat, twenty: bool)
    requires WellFormed(segs) && 1 <= n <= |segs|
    ensures var lower := OldTextTokens(segs, n - 1, twenty);
      OldTextTokens(segs, n, twenty) ==
        if SegmentValue(segs[n - 1]) == 0 then lower
        else OldTokens(segs[n - 1], 4, twenty) + (ScaleTokens(n - 1) + lower)
  {
    hide OldTokens, SegmentValue, ScaleTokens;
    Regroup(OldTokens(segs[n - 1], 4, twenty), ScaleTokens(n - 1), OldTextTokens(segs, n - 1, twenty));
  }

  lemma OldSegmentStep(seg: Segment, rank: nat, lower: seq<nat>, limit: nat, twenty: bool)
    requires rank < 5 && HasCharacters(seg) && HasNoOne(seg) && SegmentValue(seg) > 0 && (rank == 0 ==> lower == [])
    ensures var v := SegmentWorth(seg, rank);
      JapaneseValue(limit, OldTokens(seg, 4, twenty) + (ScaleTokens(rank) + lower)) ==
        if Scale(rank) >= limit then None
        else if lower == [] then Some(v) else Shifted(v, JapaneseValue(Scale(rank), lower))
  {
    hide OldTokens, SegmentValue, HasCharacters, HasNoOne, Scale, JapaneseValue, ReduceGroup;
    var post := ScaleTokens(rank) + lower;
    ScalePositive(rank);
    Scale0();
    OldGroup(seg, twenty, post);
    JapaneseStep(limit, OldTokens(seg, 4, twenty) + post);
    if rank > 0 { assert post[0] == Scale(rank) && post[1..] == lower; }
  }

  lemma NoOldText(segs: seq<string>, twenty: bool)
    requires WellFormed(segs)
    ensures OldTextTokens(segs, 0, twenty) == [] && TextValue(segs, 0) == 0
  {}

  lemma ZeroSegment(segs: seq<string>, n: nat)
    requires WellFormed(segs) && 1 <= n <= |segs|
    ensures TextValue(segs, n) == 0 <==> SegmentValue(segs[n - 1]) == 0 && TextValue(segs, n - 1) == 0
    ensures SegmentValue(segs[n - 1]) == 0 ==> TextValue(segs, n) == TextValue(segs, n - 1)
  {
    hide SegmentValue, SegmentWorth;
    ZeroWorth(segs[n - 1], n - 1);
  }

  lemma {:induction false} OldTextTokensEmpty(segs: seq<string>, n: nat, twenty: bool)
    requires WellFormed(segs) && n <= |segs|
    ensures OldTextTokens(segs, n, twenty) == [] <==> TextValue(segs, n) == 0
  {
    hide OldTokens, SegmentValue, Scale, ScaleTokens, OldTextTokens, TextValue;
    NoOldText(segs, twenty);
    if n > 0 {
      OldTextTokensEmpty(segs, n - 1, twenty);
      OldTokensStep(segs, n, twenty);
      OldTokensEmpty(segs[n - 1], twenty);
      ZeroSegment(segs, n);
    }
  }

  lemma {:induction false} OldTextStartsNonzero(segs: seq<string>, n: nat, twenty: bool)
    requires WellFormed(segs) && n <= |segs|
    ensures OldTextTokens(segs, n, twenty) != [] ==> OldTextTokens(segs, n, twenty)[0] > 0
  {
    hide OldTokens, SegmentValue, ScaleTokens, OldTextTokens, TextValue;
    NoOldText(segs, twenty);
    if n > 0 {
      OldTextStartsNonzero(segs, n - 1, twenty);
      OldTokensStep(segs, n, twenty);
      OldTokensEmpty(segs[n - 1], twenty);
    }
  }

  /** The highest segment, when it is not zero, adds its value. */
  lemma OldHighestIsRead(segs: seq<string>, n: nat, limit: nat, twenty: bool)
    requires WellFormed(segs) && 1 <= n <= |segs| && Scale(n - 1) < limit
    requires HasCharacters(segs[n - 1]) && HasNoOne(segs[n - 1]) && SegmentValue(segs[n - 1]) > 0
    requires var lower := OldTextTokens(segs, n - 1, twenty);
      lower != [] ==> JapaneseValue(Scale(n - 1), lower) == Some(TextValue(segs, n - 1))
    ensures JapaneseValue(limit, OldTextTokens(segs, n, twenty)) == Some(TextValue(segs, n))
  {
    hide OldTokens, SegmentValue, SegmentWorth, HasCharacters, HasNoOne, Scale, ScaleTokens, OldTextTokens, TextValue,
         JapaneseValue;
    OldTokensStep(segs, n, twenty);
    TextValueStep(segs, n);
    OldTextTokensEmpty(segs, n - 1, twenty);
    NoOldText(segs, twenty);
    OldSegmentStep(segs[n - 1], n - 1, OldTextTokens(segs, n - 1, twenty), limit, twenty);
  }

  /** Without a one before a rank the tokens are worth what the digits were. */
  lemma {:induction false} OldTextIsRead(segs: seq<string>, n: nat, limit: nat, twenty: bool)
    requires WellFormed(segs) && 1 <= n <= |segs| && AllCharacters(segs, n) && NoOnes(segs, n)
    requires Scale(n - 1) < limit && TextValue(segs, n) > 0
    ensures JapaneseValue(limit, OldTextTokens(segs, n, twenty)) == Some(TextValue(segs, n))
    decreases n
  {
    hide OldTokens, SegmentValue, SegmentWorth, HasCharacters, HasNoOne, Scale, ScaleTokens, OldTextTokens, TextValue,
         JapaneseValue;
    OldTokensStep(segs, n, twenty);
    OldTextTokensEmpty(segs, n - 1, twenty);
    ScalePositive(n - 1);
    NoOldText(segs, twenty);
    ZeroSegment(segs, n);
    if SegmentValue(segs[n - 1]) == 0 {
      OldTextIsRead(segs, n - 1, limit, twenty);
    } else {
      if OldTextTokens(segs, n - 1, twenty) != [] { OldTextIsRead(segs, n - 1, Scale(n - 1), twenty); }
      OldHighestIsRead(segs, n, limit, twenty);
    }
  }

  /** A one before a rank makes the parser reject the whole text. */
  lemma {:induction false} OldTextIsRejected(segs: seq<string>, n: nat, limit: nat, twenty: bool)
    requires WellFormed(segs) && n <= |segs| && AllCharacters(segs, n) && !NoOnes(segs, n)
    ensures JapaneseValue(limit, OldTextTokens(segs, n, twenty)) == None
    ensures exists i :: 0 <= i < |OldTextTokens(segs, n, twenty)| && OldTextTokens(segs, n, twenty)[i] >= 10
    decreases n
  {
    hide OldTokens, ScaleTokens, SegmentValue, HasCharacters, HasNoOne, JapaneseValue, ReduceGroup, Scale, OldTextTokens;
    var seg, lower := segs[n - 1], OldTextTokens(segs, n - 1, twenty);
    var t, post := OldTextTokens(segs, n, twenty), ScaleTokens(n - 1) + lower;
    OldTokensStep(segs, n, twenty);
    if !HasNoOne(seg) {
      OneIsPositive(seg);
      SegmentIsRejected(seg, twenty, post);
      JapaneseStep(limit, t);
      OneHasRank(seg, twenty);
      InFront(OldTokens(seg, 4, twenty), post);
    } else {
      OldTextIsRejected(segs, n - 1, limit, twenty);
      if SegmentValue(seg) > 0 {
        OldTextIsRejected(segs, n - 1, Scale(n - 1), twenty);
        OldSegmentStep(seg, n - 1, lower, limit, twenty);
        Behind(ScaleTokens(n - 1), lower);
        Behind(OldTokens(seg, 4, twenty), post);
      }
    }
  }

  lemma OneIsPositive(seg: Segment)
    requires !HasNoOne(seg)
    ensures SegmentValue(seg) > 0
  {
    hide D;
  }

  lemma OneHasRank(seg: Segment, twenty: bool)
    requires !HasNoOne(seg)
    ensures exists i :: 0 <= i < |OldTokens(seg, 4, twenty)| && OldTokens(seg, 4, twenty)[i] >= 10
  {
    hide D, OldTokens;
    FourOldTokens(seg, twenty);
    var i := if D(seg, 1) == 1 then 1 else 2;
    var before := OldDigit(D(seg, 0), 0, twenty) + (if i == 1 then [] else OldDigit(D(seg, 1), 1, twenty));
    assert OldTokens(seg, 4, twenty)[|before| + 1] == Base(i);
  }

  lemma InFront(a: seq<nat>, b: seq<nat>)
    requires exists i :: 0 <= i < |a| && a[i] >= 10
    ensures exists i :: 0 <= i < |a + b| && (a + b)[i] >= 10
  {
    var i :| 0 <= i < |a| && a[i] >= 10;
    assert (a + b)[i] >= 10;
  }

  lemma Behind(a: seq<nat>, b: seq<nat>)
    requires exists i :: 0 <= i < |b| && b[i] >= 10
    ensures exists i :: 0 <= i < |a + b| && (a + b)[i] >= 10
  {
    var i :| 0 <= i < |b| && b[i] >= 10;
    assert (a + b)[|a| + i] >= 10;
  }

  // ----- A character that the parser does not know

  ghost predicate HasUnknown(s: string) { exists i :: 0 <= i < |s| && TokenOf(s[i]) == None }

  lemma UnknownConcat(a: string, b: string)
    requires HasUnknown(a) || HasUnknown(b)
    ensures HasUnknown(a + b)
  {
    hide TokenOf;
    if HasUnknown(a) {
      var i :| 0 <= i < |a| && TokenOf(a[i]) == None;
      assert (a + b)[i] == a[i];
    } else {
      var i :| 0 <= i < |b| && TokenOf(b[i]) == None;
      assert (a + b)[|a| + i] == b[i];
    }
  }

  lemma ThousandIsUnknown(seg: Segment)
    requires D(seg, 0) > 0
    ensures HasUnknown(SegmentText(OldKanji, seg, 4))
  {
    hide HasUnknown;
    OldThousand(seg);
    assert SegmentText(OldKanji, seg, 1) == "" + DigitText(OldKanji, seg, 0);
    UnknownConcat("", DigitText(OldKanji, seg, 0));
    UnknownConcat(SegmentText(OldKanji, seg, 1), DigitText(OldKanji, seg, 1));
    UnknownConcat(SegmentText(OldKanji, seg, 2), DigitText(OldKanji, seg, 2));
    UnknownConcat(SegmentText(OldKanji, seg, 3), DigitText(OldKanji, seg, 3));
  }

  lemma OldThousand(seg: Segment)
    requires D(seg, 0) > 0
    ensures HasUnknown(DigitText(OldKanji, seg, 0))
  {
    hide DigitChar;
    assert DigitText(OldKanji, seg, 0)[1] == '阡';
  }

  lemma TenThousandIsUnknown()
    ensures HasUnknown(BiggerRank(OldKanji, 1))
  {
    assert BiggerRank(OldKanji, 1)[0] == '萬';
  }

  /** A nonzero segment has a text. */
  lemma SegmentHasText(seg: Segment)
    requires SegmentValue(seg) > 0
    ensures SegmentText(OldKanji, seg, 4) != ""
  {
    hide DigitText, HasUnknown, Reads, OldTokens;
    if D(seg, 0) > 0 {
      ThousandIsUnknown(seg);
      UnknownIsText(SegmentText(OldKanji, seg, 4));
    } else {
      OldSegmentReads(seg, 4, false);
      OldTokensEmpty(seg, false);
      FormReadsNothing(false, SegmentText(OldKanji, seg, 4), OldTokens(seg, 4, false));
    }
  }

  lemma UnknownIsText(s: string)
    requires HasUnknown(s)
    ensures s != ""
  {}

  lemma {:induction false} TextIsUnknown(segs: seq<string>, n: nat)
    requires WellFormed(segs) && n <= |segs| && !AllCharacters(segs, n)
    ensures HasUnknown(Text(OldKanji, segs, n))
  {
    hide SegmentText, BiggerRank, SegmentValue, D, HasUnknown;
    var seg, rank := segs[n - 1], n - 1;
    if !HasCharacters(seg) || (rank == 1 && SegmentValue(seg) > 0) {
      RankIsUnknown(seg, rank);
    } else {
      TextIsUnknown(segs, n - 1);
    }
    UnknownConcat(RankText(OldKanji, seg, rank), Text(OldKanji, segs, n - 1));
  }

  lemma RankIsUnknown(seg: Segment, rank: nat)
    requires rank < 5 && (!HasCharacters(seg) || (rank == 1 && SegmentValue(seg) > 0))
    ensures HasUnknown(RankText(OldKanji, seg, rank))
  {
    hide SegmentText, BiggerRank, SegmentValue, D, HasUnknown;
    if !HasCharacters(seg) {
      ThousandIsUnknown(seg);
      UnknownIsText(SegmentText(OldKanji, seg, 4));
    } else {
      SegmentHasText(seg);
      TenThousandIsUnknown();
    }
    UnknownConcat(SegmentText(OldKanji, seg, 4), BiggerRank(OldKanji, rank));
  }

  /** The characters that are replaced are known. */
  lemma {:induction false} UnknownStays(s: string, twenty: bool)
    requires HasUnknown(s)
    ensures HasUnknown(Form(twenty, s))
    decreases |s|
  {
    if twenty {
      hide TokenOf, HasUnknown;
      if |s| >= 2 && s[0] == '弐' && s[1] == '拾' {
        BothAreKnown(s);
        UnknownStays(s[2..], twenty);
        UnknownConcat("廿", WithTwenty(s[2..]));
      } else {
        UnknownIsText(s);
        OneKept(s);
        assert [s[0]] + s[1..] == s;
        UnknownSplit([s[0]], s[1..]);
        if HasUnknown(s[1..]) { UnknownStays(s[1..], twenty); }
        UnknownConcat([s[0]], WithTwenty(s[1..]));
      }
    }
  }

  lemma UnknownSplit(a: string, b: string)
    requires HasUnknown(a + b)
    ensures HasUnknown(a) || HasUnknown(b)
  {
    hide TokenOf;
    var i :| 0 <= i < |a + b| && TokenOf((a + b)[i]) == None;
    if i < |a| { assert TokenOf(a[i]) == None; } else { assert TokenOf(b[i - |a|]) == None; }
  }

  lemma BothAreKnown(s: string)
    requires HasUnknown(s) && |s| >= 2 && s[0] == '弐' && s[1] == '拾'
    ensures HasUnknown(s[2..])
  {
    var i :| 0 <= i < |s| && TokenOf(s[i]) == None;
    assert TokenOf(s[2..][i - 2]) == None;
  }

  // ----- The theorem

  /** Not read back: rejected, or accepted only up to a suffix, when there may be one. */
  ghost predicate IsNotReadBack(s: string, trim: bool, allowSuffix: bool, isNumber: string -> bool) {
    var r := Normalize(s, trim, allowSuffix, isNumber);
    r == None || (allowSuffix && r.value.suffix != "")
  }

  lemma UnknownIsRejected(s: string, trim: bool, allowSuffix: bool, isNumber: string -> bool)
    requires HasUnknown(s)
    ensures IsNotReadBack(s, trim, allowSuffix, isNumber)
  {
    hide TokenOf, Value, Decimal, KanjiForm;
    var i :| 0 <= i < |s| && TokenOf(s[i]) == None;
    assert NumberLength(s) <= i;
  }

  lemma NoValueIsRejected(s: string, t: seq<nat>, trim: bool, allowSuffix: bool, isNumber: string -> bool)
    requires Reads(s, t) && Value(t) == None
    ensures IsNotReadBack(s, trim, allowSuffix, isNumber)
  {
    hide TokenOf, Value;
    AllNumbers(s);
    assert s[..|s|] == s && s[|s|..] == "";
    assert TokensOf(s) == t;
  }

  lemma RejectedHasNoValue(t: seq<nat>)
    requires JapaneseValue(UINT64_MAX, t) == None && exists i :: 0 <= i < |t| && t[i] >= 10
    ensures Value(t) == None
  {
    hide JapaneseValue, DigitsValue;
  }

  lemma ReadHasValue(t: seq<nat>)
    requires t != [] && JapaneseValue(UINT64_MAX, t).Some?
    ensures Value(t) == JapaneseValue(UINT64_MAX, t)
  {
    hide JapaneseValue, DigitsValue;
    if forall i :: 0 <= i < |t| ==> t[i] < 10 { DroppedTokens.DigitsNeverDrop(UINT64_MAX, t); }
  }

  lemma UnreadableIsRejected(digits: string, twenty: bool, trim: bool, allowSuffix: bool, isNumber: string -> bool)
    requires IsDecimalInteger(digits) && |digits| <= 20 && !IsReadable(digits)
    ensures IsNotReadBack(Form(twenty, Printed(OldKanji, digits)), trim, allowSuffix, isNumber)
  {
    hide Segments, Value, Text, WellFormed, Reads, Filled, AllCharacters, NoOnes, OldTextTokens, HasUnknown, Form,
         IsNotReadBack;
    SegmentsAreWellFormed(Filled(digits));
    var segs, text := Segments(Filled(digits)), Printed(OldKanji, digits);
    if !AllCharacters(segs, |segs|) {
      TextIsUnknown(segs, |segs|);
      UnknownStays(text, twenty);
      UnknownIsRejected(Form(twenty, text), trim, allowSuffix, isNumber);
    } else {
      var t := OldTextTokens(segs, |segs|, twenty);
      OldTextReads(segs, |segs|, twenty);
      OldTextIsRejected(segs, |segs|, UINT64_MAX, twenty);
      RejectedHasNoValue(t);
      NoValueIsRejected(Form(twenty, text), t, trim, allowSuffix, isNumber);
    }
  }

  lemma ReadableIsReadBack(digits: string, twenty: bool, trim: bool, allowSuffix: bool, isNumber: string -> bool)
    requires IsDecimalInteger(digits) && |digits| <= 20 && !AllZero(digits) && IsReadable(digits)
    ensures var text := Form(twenty, Printed(OldKanji, digits));
      Normalize(text, trim, allowSuffix, isNumber) ==
        if DecimalValue(digits) < TWO_64 then Some(Normalized(KanjiForm(text), Canonical(digits), "")) else None
  {
    hide DecimalValue, Segments, Text, Value, JapaneseValue, WellFormed, Reads, KanjiForm, Canonical, Filled, Normalize,
         AllCharacters, NoOnes, OldTextTokens, TextValue, Form, Scale;
    PrintedHasTheValue(digits);
    var segs := Segments(Filled(digits));
    var n := |segs|;
    var t := OldTextTokens(segs, n, twenty);
    AtMostFive(segs);
    OldTextReads(segs, n, twenty);
    OldTextTokensEmpty(segs, n, twenty);
    OldTextStartsNonzero(segs, n, twenty);
    NoOldText(segs, twenty);
    ScalePositive(n - 1);
    OldTextIsRead(segs, n, UINT64_MAX, twenty);
    ReadHasValue(t);
    NumberIsReadBack(Form(twenty, Printed(OldKanji, digits)), t, digits, trim, allowSuffix, isNumber);
  }

  lemma AtMostFive(segs: seq<string>)
    requires WellFormed(segs)
    ensures |segs| <= 5
  {}

  /** The text of the old style, with or without the character for twenty: exactly the readable numbers below 2^64 are
      read back. */
  lemma OldStyleIsReadBack(digits: string, twenty: bool, trim: bool, allowSuffix: bool, isNumber: string -> bool)
    requires IsDecimalInteger(digits) && |digits| <= 20 && !AllZero(digits)
    ensures var text := Form(twenty, Printed(OldKanji, digits));
      if IsReadable(digits) && DecimalValue(digits) < TWO_64
      then Normalize(text, trim, allowSuffix, isNumber) == Some(Normalized(KanjiForm(text), Canonical(digits), ""))
      else IsNotReadBack(text, trim, allowSuffix, isNumber)
  {
    hide DecimalValue, KanjiForm, Canonical, Normalize, IsReadable, Printed, Form;
    if IsReadable(digits) {
      ReadableIsReadBack(digits, twenty, trim, allowSuffix, isNumber);
    } else {
      UnreadableIsRejected(digits, twenty, trim, allowSuffix, isNumber);
    }
  }

  // ----- Every form of the style

  lemma TenStep(t: seq<nat>, base: nat)
    requires |t| == 1 && t[0] == 10
    ensures ReduceDigits(t, base) == if base == 10 then Found(10, []) else Missing(t)
  {
    assert t[1..] == [];
  }

  lemma TenGroup(t: seq<nat>)
    requires |t| == 1 && t[0] == 10
    ensures ReduceGroup(t) == Found(10, [])
  {
    hide ReduceDigits;
    TenStep(t, 1000);
    TenStep(t, 100);
    TenStep(t, 10);
    DroppedTokens.NothingToReduce(10);
  }

  lemma TenHasValue(t: seq<nat>)
    requires |t| == 1 && t[0] == 10
    ensures Value(t) == Some(10)
  {
    hide JapaneseValue, ReduceGroup, DigitsValue;
    TenGroup(t);
    JapaneseStep(UINT64_MAX, t);
  }

  lemma TenReads()
    ensures Reads("拾", [10])
  {}

  lemma TenInDecimal(s: string)
    requires s == "0010"
    ensures DecimalValue(s) == 10
  {
    hide DecimalValue;
    NothingIsZero([]);
    assert s[..1] == s[..0] + [s[0]] && s[..2] == s[..1] + [s[1]] && s[..3] == s[..2] + [s[2]] && s == s[..3] + [s[3]];
    DecimalStep(s[..0], s[0]);
    DecimalStep(s[..1], s[1]);
    DecimalStep(s[..2], s[2]);
    DecimalStep(s[..3], s[3]);
  }

  lemma ZerosAreWorthNothing(s: string)
    requires IsDecimalInteger(s) && AllZero(s)
    ensures DecimalValue(s) == 0
  {
    hide DecimalValue, Canonical, AllZero;
    CanonicalHasTheValue(s);
    NothingIsZero([]);
  }

  lemma FilledTen(digits: string)
    requires IsDecimalInteger(digits) && Filled(digits) == "0010"
    ensures DecimalValue(digits) == 10 && !AllZero(digits)
  {
    hide DecimalValue, Filled, AllZero;
    FilledHasTheValue(digits);
    TenInDecimal(Filled(digits));
    if AllZero(digits) { ZerosAreWorthNothing(digits); }
  }

  /** The single character for ten is read back. */
  lemma TenAloneIsReadBack(digits: string, trim: bool, allowSuffix: bool, isNumber: string -> bool)
    requires IsDecimalInteger(digits) && Filled(digits) == "0010"
    ensures DecimalValue(digits) < TWO_64
    ensures Normalize("拾", trim, allowSuffix, isNumber) == Some(Normalized(KanjiForm("拾"), Canonical(digits), ""))
  {
    hide Value, Reads, DecimalValue, Normalize, KanjiForm, Canonical, Filled, AllZero;
    TenReads();
    TenHasValue([10]);
    FilledTen(digits);
    NumberIsReadBack("拾", [10], digits, trim, allowSuffix, isNumber);
  }

  lemma ThousandAloneIsUnknown()
    ensures HasUnknown("阡")
  {
    assert TokenOf("阡"[0]) == None;
  }

  lemma SingleSegment(s: string)
    requires |s| == 4
    ensures Segments(s) == [s]
  {
    assert s[0..] == s && s[..0] == "";
    assert Segments(s[..0]) == [];
  }

  lemma ThousandOfOne(seg: Segment)
    requires seg == "1000"
    ensures !HasCharacters(seg)
  {}

  lemma OneBeforeTen(seg: Segment)
    requires seg == "0010"
    ensures !HasNoOne(seg)
  {}

  lemma FilledThousandIsUnreadable(digits: string)
    requires IsDecimalInteger(digits) && |digits| <= 20 && Filled(digits) == "1000"
    ensures !IsReadable(digits)
  {
    hide Segments, NoOnes, HasCharacters, SegmentValue, Filled, WellFormed;
    SegmentsAreWellFormed(Filled(digits));
    SingleSegment("1000");
    FirstIsBad(Segments(Filled(digits)));
  }

  lemma FirstIsBad(segs: seq<string>)
    requires WellFormed(segs) && segs == ["1000"]
    ensures !AllCharacters(segs, |segs|)
  {
    hide HasCharacters, SegmentValue;
    ThousandOfOne(segs[0]);
  }

  lemma FilledTenIsUnreadable(digits: string)
    requires IsDecimalInteger(digits) && |digits| <= 20 && Filled(digits) == "0010"
    ensures !IsReadable(digits)
  {
    hide Segments, AllCharacters, HasNoOne, Filled, WellFormed;
    SegmentsAreWellFormed(Filled(digits));
    SingleSegment("0010");
    FirstHasOne(Segments(Filled(digits)));
  }

  lemma FirstHasOne(segs: seq<string>)
    requires WellFormed(segs) && segs == ["0010"]
    ensures !NoOnes(segs, |segs|)
  {
    hide HasNoOne;
    OneBeforeTen(segs[0]);
  }

  /** The forms of the style are the text, the text with the character for twenty, and the two single characters. */
  lemma FormsOfStyle(digits: string, form: NumberString)
    requires IsDecimalInteger(digits) && |digits| <= 20
    requires form in Variations(Filled(digits), |VARIATIONS|) && form.style == OldKanji
    ensures || (form.value == "拾" && Filled(digits) == "0010") || (form.value == "阡" && Filled(digits) == "1000")
            || exists twenty :: form.value == Form(twenty, Printed(OldKanji, digits))
  {
    hide Segments, Text, Filled, Variations, VariationOf, WellFormed;
    var input := Filled(digits);
    VariationsOf(input);
    SegmentsAreWellFormed(input);
    FormOf(ArabicKanjiHalf, input, form);
    FormOf(ArabicKanjiFull, input, form);
    FormOf(Kanji, input, form);
    OldForms(input, form);
    assert Form(false, Printed(OldKanji, digits)) == Printed(OldKanji, digits);
    assert Form(true, Printed(OldKanji, digits)) == WithTwenty(Printed(OldKanji, digits));
  }

  lemma OldForms(input: string, form: NumberString)
    requires |input| % 4 == 0 && 0 < |input| <= 20 && IsDecimalInteger(input) && WellFormed(Segments(input))
    requires form in VariationOf(OldKanji, input)
    ensures var text := Text(OldKanji, Segments(input), |input| / 4);
      || (form.value == "拾" && input == "0010") || (form.value == "阡" && input == "1000")
      || form.value == text || form.value == WithTwenty(text)
  {
    hide Text, Segments, HasTwenty, WithTwenty;
  }

  lemma NonzeroOldFormIsReadBack(digits: string, form: NumberString, trim: bool, allowSuffix: bool, isNumber: string -> bool)
    requires IsDecimalInteger(digits) && |digits| <= 20 && !AllZero(digits)
    requires form in Variations(Filled(digits), |VARIATIONS|) && form.style == OldKanji
    ensures if (IsReadable(digits) || (form.value == "拾" && Filled(digits) == "0010")) && DecimalValue(digits) < TWO_64
      then Normalize(form.value, trim, allowSuffix, isNumber)
             == Some(Normalized(KanjiForm(form.value), Canonical(digits), ""))
      else IsNotReadBack(form.value, trim, allowSuffix, isNumber)
  {
    hide DecimalValue, KanjiForm, Canonical, Normalize, IsReadable, Printed, Form, Filled, Variations;
    hide IsNotReadBack, AllZero, HasUnknown;
    FormsOfStyle(digits, form);
    if form.value == "拾" && Filled(digits) == "0010" {
      TenAloneIsReadBack(digits, trim, allowSuffix, isNumber);
    } else if form.value == "阡" && Filled(digits) == "1000" {
      FilledThousandIsUnreadable(digits);
      ThousandAloneIsUnknown();
      UnknownIsRejected("阡", trim, allowSuffix, isNumber);
    } else {
      var twenty :| form.value == Form(twenty, Printed(OldKanji, digits));
      OldStyleIsReadBack(digits, twenty, trim, allowSuffix, isNumber);
    }
  }

  lemma ZeroHasValue(t: seq<nat>)
    requires |t| == 1 && t[0] == 0
    ensures Value(t) == Some(0) && LeadingZeros(t) == 1
  {
    assert t[..0] == [] && t[1..] == [];
    assert DigitsValue(t[..0]) == 0;
  }

  lemma ZeroReads(s: string)
    requires s == "零"
    ensures Reads(s, [0]) && NumberLength(s) == 1
  {
    assert s[1..] == "";
  }

  /** The character for zero is read back. */
  lemma ZeroIsReadBack(s: string, trim: bool, allowSuffix: bool, isNumber: string -> bool)
    requires s == "零"
    ensures Normalize(s, trim, allowSuffix, isNumber) == Some(Normalized(KanjiForm(s), "0", ""))
  {
    hide TokenOf, NumberLength, Value, LeadingZeros, KanjiForm, Decimal;
    ZeroReads(s);
    ZeroHasValue([0]);
    ZeroInDecimal();
    assert s[..1] == s && s[1..] == "";
    assert TokensOf(s) == [0];
  }

  lemma ZeroInDecimal()
    ensures Zeros(0) + Decimal(0) == "0"
  {}

  /** What is read back of the old style: zero, the readable numbers below 2^64, and the single character for ten. */
  predicate IsReadForm(digits: string, form: NumberString)
    requires IsDecimalInteger(digits) && (AllZero(digits) || |digits| <= 20)
  {
    || AllZero(digits)
    || ((IsReadable(digits) || (form.value == "拾" && Filled(digits) == "0010")) && DecimalValue(digits) < TWO_64)
  }

  /** Every form that ArabicToKanji appends in the old style, for every number that it prints. */
  lemma EveryOldFormIsReadBack(digits: string, form: NumberString, trim: bool, allowSuffix: bool, isNumber: string -> bool)
    requires IsDecimalInteger(digits) && (AllZero(digits) || |digits| <= 20)
    requires form in Forms(digits) && form.style == OldKanji
    ensures if IsReadForm(digits, form)
      then Normalize(form.value, trim, allowSuffix, isNumber)
             == Some(Normalized(KanjiForm(form.value), WithoutZeros(digits), ""))
      else IsNotReadBack(form.value, trim, allowSuffix, isNumber)
  {
    hide DecimalValue, KanjiForm, Canonical, Normalize, IsReadable, Filled, Variations, IsNotReadBack, AllZero;
    if AllZero(digits) {
      ZeroIsReadBack(form.value, trim, allowSuffix, isNumber);
    } else {
      NonzeroOldFormIsReadBack(digits, form, trim, allowSuffix, isNumber);
    }
  }

  /** Ten is printed with a one in front, and is not read back; as a single character it is. */
  lemma TenIsRejected(trim: bool, isNumber: string -> bool)
    ensures Normalize(Printed(OldKanji, "10"), trim, false, isNumber) == None
    ensures Normalize("拾", trim, false, isNumber) == Some(Normalized(KanjiForm("拾"), Canonical("10"), ""))
  {
    hide Normalize, Printed, Canonical, KanjiForm, IsReadable;
    assert Filled("10") == "0010";
    FilledTenIsUnreadable("10");
    UnreadableIsRejected("10", false, trim, false, isNumber);
    TenAloneIsReadBack("10", trim, false, isNumber);
  }
}
