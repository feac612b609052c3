/**
 The texts of ArabicToKanji in one style against those in another, character by character.
 */
module PrintedStyles {
  import opened NumberPrinter

  function Mapped(f: char -> char, s: string): string { seq(|s|, i requires 0 <= i < |s| => f(s[i])) }

  lemma MappedConcat(f: char -> char, a: string, b: string)
    ensures Mapped(f, a + b) == Mapped(f, a) + Mapped(f, b)
  {}

  lemma MappedEmpty(f: char -> char)
    ensures Mapped(f, "") == ""
  {}

  lemma MappedOne(f: char -> char, c: char)
    ensures Mapped(f, [c]) == [f(c)]
  {}

  // ----- Full width

  /** The full-width form of an ASCII digit: U+FF10 and up. */
  function Widen(c: char): char { if '0' <= c <= '9' then (0xff10 + (c as int - 0x30)) as char else c }

  lemma DigitIsWidened(d: nat)
    requires d < 10
    ensures DigitChar(ArabicKanjiFull, d) == Widen(DigitChar(ArabicKanjiHalf, d))
  {}

  lemma RankIsNotWidened(rank: nat)
    requires rank < 5
    ensures var r := BiggerRank(ArabicKanjiHalf, rank); r == BiggerRank(ArabicKanjiFull, rank) == Mapped(Widen, r)
  {
    if rank > 0 { MappedOne(Widen, BiggerRank(ArabicKanjiHalf, rank)[0]); } else { MappedEmpty(Widen); }
  }

  lemma DigitTextIsWidened(seg: string, i: nat)
    requires |seg| == 4 && IsDecimalInteger(seg) && i < 4
    ensures DigitText(ArabicKanjiFull, seg, i) == Mapped(Widen, DigitText(ArabicKanjiHalf, seg, i))
  {
    hide DigitChar, DigitOf;
    MappedEmpty(Widen);
    DigitIsWidened(DigitOf(seg[i]));
  }

  lemma {:induction false} SegmentIsWidened(seg: string, n: nat)
    requires |seg| == 4 && IsDecimalInteger(seg) && n <= 4
    ensures SegmentText(ArabicKanjiFull, seg, n) == Mapped(Widen, SegmentText(ArabicKanjiHalf, seg, n))
  {
    hide DigitText;
    if n == 0 {
      MappedEmpty(Widen);
    } else {
      SegmentIsWidened(seg, n - 1);
      DigitTextIsWidened(seg, n - 1);
      MappedConcat(Widen, SegmentText(ArabicKanjiHalf, seg, n - 1), DigitText(ArabicKanjiHalf, seg, n - 1));
    }
  }

  /** The full-width text is the half-width one with every digit widened. */
  lemma {:induction false} FullIsWidened(segs: seq<string>, n: nat)
    requires WellFormed(segs) && n <= |segs|
    ensures Text(ArabicKanjiFull, segs, n) == Mapped(Widen, Text(ArabicKanjiHalf, segs, n))
  {
    hide SegmentText, BiggerRank, IsDecimalInteger, Mapped;
    if n == 0 {
      MappedEmpty(Widen);
    } else {
      FullIsWidened(segs, n - 1);
      RankTextIsWidened(segs[n - 1], n - 1);
      MappedConcat(Widen, RankText(ArabicKanjiHalf, segs[n - 1], n - 1), Text(ArabicKanjiHalf, segs, n - 1));
    }
  }

  lemma RankTextIsWidened(seg: string, rank: nat)
    requires |seg| == 4 && IsDecimalInteger(seg) && rank < 5
    ensures RankText(ArabicKanjiFull, seg, rank) == Mapped(Widen, RankText(ArabicKanjiHalf, seg, rank))
  {
    hide SegmentText, BiggerRank;
    var text := SegmentText(ArabicKanjiHalf, seg, 4);
    SegmentIsWidened(seg, 4);
    RankIsNotWidened(rank);
    MappedConcat(Widen, text, BiggerRank(ArabicKanjiHalf, rank));
    MappedEmpty(Widen);
  }

  // ----- The old style

  /** The ordinary character for one of the old style. */
  function Modern(c: char): char {
    match c
    case '壱' => '一'
    case '弐' => '二'
    case '参' => '三'
    case '拾' => '十'
    case '阡' => '千'
    case '萬' => '万'
    case _ => c
  }

  /** The one that only the old style writes. */
  function ExtraOne(seg: string, i: nat): string
    requires |seg| == 4 && i < 4
  {
    if i < 3 && seg[i] == '1' then "一" else ""
  }

  lemma OldDigitIsModern(d: nat)
    requires 0 < d < 10
    ensures Modern(DigitChar(OldKanji, d)) == DigitChar(Kanji, d) && (d == 1 ==> DigitChar(Kanji, d) == '一')
  {}

  lemma OldRankIsModern(i: nat)
    requires i < 4
    ensures Mapped(Modern, Rank(OldKanji, i)) == Rank(Kanji, i)
  {
    if i < 3 { MappedOne(Modern, Rank(OldKanji, i)[0]); } else { MappedEmpty(Modern); }
  }

  lemma OldBiggerRankIsModern(rank: nat)
    requires rank < 5
    ensures Mapped(Modern, BiggerRank(OldKanji, rank)) == BiggerRank(Kanji, rank)
  {
    if rank > 0 { MappedOne(Modern, BiggerRank(OldKanji, rank)[0]); } else { MappedEmpty(Modern); }
  }

  lemma DigitIs(c: char)
    requires '0' <= c <= '9'
    ensures (DigitOf(c) == 1 <==> c == '1') && (DigitOf(c) == 0 <==> c == '0')
  {}

  lemma DigitTextIsModern(seg: string, i: nat)
    requires |seg| == 4 && IsDecimalInteger(seg) && i < 4
    ensures Mapped(Modern, DigitText(OldKanji, seg, i)) == ExtraOne(seg, i) + DigitText(Kanji, seg, i)
  {
    hide DigitOf, DigitChar, Rank, Modern, Mapped;
    MappedEmpty(Modern);
    DigitIs(seg[i]);
    if seg[i] != '0' {
      var c := DigitChar(OldKanji, DigitOf(seg[i]));
      OldDigitIsModern(DigitOf(seg[i]));
      OldRankIsModern(i);
      MappedOne(Modern, c);
      MappedConcat(Modern, [c], Rank(OldKanji, i));
    }
  }

  /** The digits of a segment without a one before a rank. */
  predicate HasNoExtraOne(seg: string)
    requires |seg| == 4
  {
    forall i :: 0 <= i < 3 ==> seg[i] != '1'
  }

  lemma {:induction false} SegmentIsModern(seg: string, n: nat)
    requires |seg| == 4 && IsDecimalInteger(seg) && n <= 4 && HasNoExtraOne(seg)
    ensures Mapped(Modern, SegmentText(OldKanji, seg, n)) == SegmentText(Kanji, seg, n)
  {
    hide DigitText, Mapped, Modern;
    if n == 0 {
      MappedEmpty(Modern);
    } else {
      SegmentIsModern(seg, n - 1);
      DigitTextIsModern(seg, n - 1);
      assert "" + DigitText(Kanji, seg, n - 1) == DigitText(Kanji, seg, n - 1);
      MappedConcat(Modern, SegmentText(OldKanji, seg, n - 1), DigitText(OldKanji, seg, n - 1));
    }
  }

  /** Where no one stands before a rank, the old style is the ordinary one in other characters. */
  lemma {:induction false} OldIsModern(segs: seq<string>, n: nat)
    requires WellFormed(segs) && n <= |segs| && forall k :: 0 <= k < n ==> HasNoExtraOne(segs[k])
    ensures Mapped(Modern, Text(OldKanji, segs, n)) == Text(Kanji, segs, n)
  {
    hide RankText, Mapped, Modern, HasNoExtraOne;
    if n == 0 {
      MappedEmpty(Modern);
    } else {
      OldIsModern(segs, n - 1);
      RankTextIsModern(segs[n - 1], n - 1);
      MappedConcat(Modern, RankText(OldKanji, segs[n - 1], n - 1), Text(OldKanji, segs, n - 1));
    }
  }

  lemma RankTextIsModern(seg: string, rank: nat)
    requires |seg| == 4 && IsDecimalInteger(seg) && rank < 5 && HasNoExtraOne(seg)
    ensures Mapped(Modern, RankText(OldKanji, seg, rank)) == RankText(Kanji, seg, rank)
  {
    hide SegmentText, BiggerRank, Modern;
    var text := SegmentText(OldKanji, seg, 4);
    SegmentIsModern(seg, 4);
    OldBiggerRankIsModern(rank);
    MappedConcat(Modern, text, BiggerRank(OldKanji, rank));
    MappedEmpty(Modern);
  }

  /** The descriptions that go with the texts. */
  lemma Descriptions()
    ensures Description(ArabicKanjiHalf) == "数字" == Description(ArabicKanjiFull)
    ensures Description(Kanji) == "漢数字" && Description(OldKanji) == "大字"
  {}

  /** The form with the character for twenty is another text exactly when there is something to replace. */
  lemma {:induction false} TwentyChanges(s: string)
    ensures HasTwenty(s) <==> WithTwenty(s) != s
  {
    if |s| >= 2 && !(s[0] == '弐' && s[1] == '拾') {
      var rest := s[1..];
      TwentyChanges(rest);
      if HasTwenty(s) {
        var i :| 0 <= i && i + 1 < |s| && s[i] == '弐' && s[i + 1] == '拾';
        assert rest[i - 1] == '弐' && rest[i] == '拾';
      }
      if HasTwenty(rest) {
        var i :| 0 <= i && i + 1 < |rest| && rest[i] == '弐' && rest[i + 1] == '拾';
        assert s[i + 1] == '弐' && s[i + 2] == '拾';
      }
      assert WithTwenty(s) == [s[0]] + WithTwenty(rest) && s == [s[0]] + rest;
      assert WithTwenty(s) == s ==> WithTwenty(s)[1..] == s[1..];
    }
  }

  // ----- The order of the forms

  /** How many forms of the old style there are besides the plain one. */
  function More(input: string, text: string): nat {
    (if HasTwenty(text) then 1 else 0) + (if input == "0010" || input == "1000" then 1 else 0)
  }

  lemma OneForm(style: Style, input: string)
    requires |input| % 4 == 0 && 0 < |input| <= 20 && IsDecimalInteger(input)
    ensures var segs := Segments(input);
      var forms := VariationOf(style, input);
      && (forall i :: 0 <= i < |forms| ==> forms[i].style == style)
      && (if |input| == 4 && IsArabic(style) then forms == []
          else forms != [] && forms[0].value == Text(style, segs, |segs|))
      && (style != OldKanji ==> |forms| <= 1)
      && (style == OldKanji ==> |forms| == 1 + More(input, Text(style, segs, |segs|)))
  {
    hide Text, HasTwenty, WithTwenty, Segments, IsDigits;
  }

  lemma FourVariations(input: string)
    requires |input| % 4 == 0 && 0 < |input| <= 20 && IsDecimalInteger(input)
    ensures Variations(input, |VARIATIONS|) ==
      VariationOf(ArabicKanjiHalf, input) + VariationOf(ArabicKanjiFull, input) + VariationOf(Kanji, input)
      + VariationOf(OldKanji, input)
  {
    hide VariationOf, IsDecimalInteger;
    assert |VARIATIONS| == 4;
    assert Variations(input, 1) == VariationOf(ArabicKanjiHalf, input);
    assert Variations(input, 2) == VariationOf(ArabicKanjiHalf, input) + VariationOf(ArabicKanjiFull, input);
  }

  /** The forms of a number in the order in which they are appended: the two mixed styles, when there is more than one
      segment, the Kanji style, and then the old style with its further forms; up to the plain old form each is the
      text of its style. */
  lemma FormsInOrder(input: string)
    requires |input| % 4 == 0 && 0 < |input| <= 20 && IsDecimalInteger(input)
    ensures var segs, forms := Segments(input), Variations(input, |VARIATIONS|);
      var k := if |input| == 4 then 0 else 2;
      && |forms| == k + 2 + More(input, Text(OldKanji, segs, |segs|))
      && (k == 2 ==> forms[0].style == ArabicKanjiHalf && forms[1].style == ArabicKanjiFull)
      && forms[k].style == Kanji
      && (forall i :: k < i < |forms| ==> forms[i].style == OldKanji)
      && (forall i :: 0 <= i < k + 2 ==> forms[i].value == Text(forms[i].style, segs, |segs|))
  {
    hide VariationOf, Variations, Text, Segments, More, IsDigits;
    FourVariations(input);
    OneForm(ArabicKanjiHalf, input);
    OneForm(ArabicKanjiFull, input);
    OneForm(Kanji, input);
    OneForm(OldKanji, input);
  }
}
