/**
 ArabicToKanji: decimal digit strings printed as positional Kanji numerals.

 Strings are sequences of characters, one per UTF-8 chunk of the source's strings.
 */
module NumberPrinter {
  import opened Basics

  datatype Style = ArabicKanjiHalf | ArabicKanjiFull | Kanji | OldKanji

  datatype NumberString = NumberString(value: string, description: string, style: Style)

  /** The description that goes with every text of a style. */
  function Description(style: Style): string {
    match style
    case Kanji => "漢数字"
    case OldKanji => "大字"
    case _ => "数字"
  }

  const VARIATIONS: seq<Style> := [ArabicKanjiHalf, ArabicKanjiFull, Kanji, OldKanji]

  predicate IsArabic(style: Style) { style == ArabicKanjiHalf || style == ArabicKanjiFull }

  predicate IsDigits(s: string) { forall i :: 0 <= i < |s| ==> '0' <= s[i] <= '9' }

  predicate IsDecimalInteger(s: string) { s != "" && IsDigits(s) }

  function DigitOf(c: char): (d: nat)
    requires '0' <= c <= '9'
    ensures d < 10
  {
    c as nat - '0' as nat
  }

  const FULL_WIDTH := "０１２３４５６７８９"
  const KANJI_DIGITS := "〇一二三四五六七八九"
  const OLD_DIGITS := " 壱弐参四五六七八九"

  /** The character for a digit. No style asks for the empty old-style zero. */
  function DigitChar(style: Style, d: nat): char
    requires d < 10
  {
    match style
    case ArabicKanjiHalf => DIGITS[d]
    case ArabicKanjiFull => FULL_WIDTH[d]
    case Kanji => KANJI_DIGITS[d]
    case OldKanji => OLD_DIGITS[d]
  }

  /** The rank after the digit at position i of a four-digit segment. */
  function Rank(style: Style, i: nat): string
    requires i < 4
  {
    if i == 3 then ""
    else if style == OldKanji then (if i == 2 then "拾" else if i == 1 then "百" else "阡")
    else (if i == 2 then "十" else if i == 1 then "百" else "千")
  }

  function BiggerRank(style: Style, rank: nat): string
    requires rank < 5
  {
    if rank == 0 then ""
    else if rank == 1 then (if style == OldKanji then "萬" else "万")
    else if rank == 2 then "億"
    else if rank == 3 then "兆"
    else "京"
  }

  // ----- The text of a number

  predicate Leading(seg: string, i: nat)
    requires i < |seg|
  {
    forall j :: 0 <= j <= i ==> seg[j] == '0'
  }

  /** What position i of a segment contributes. */
  function DigitText(style: Style, seg: string, i: nat): string
    requires |seg| == 4 && IsDecimalInteger(seg) && i < 4
  {
    var d := DigitOf(seg[i]);
    if Leading(seg, i) then ""
    else if IsArabic(style) then [DigitChar(style, d)]
    else if seg[i] == '0' then ""
    else (if style == OldKanji || i == 3 || seg[i] != '1' then [DigitChar(style, d)] else "") + Rank(style, i)
  }

  function SegmentText(style: Style, seg: string, n: nat): string
    requires |seg| == 4 && IsDecimalInteger(seg) && n <= 4
  {
    if n == 0 then "" else SegmentText(style, seg, n - 1) + DigitText(style, seg, n - 1)
  }

  function Zeros(n: nat): string { seq(n, _ => '0') }

  /** The digits with zeros in front, up to a multiple of four. */
  function Filled(s: string): (r: string)
    ensures |r| == (|s| + 3) / 4 * 4
    ensures IsDecimalInteger(s) ==> IsDecimalInteger(r)
  {
    Zeros((4 - |s| % 4) % 4) + s
  }

  /** The segments of four digits, the lowest rank first. */
  function Segments(s: string): (r: seq<string>)
    requires |s| % 4 == 0
    ensures |r| == |s| / 4
    ensures forall k :: 0 <= k < |r| ==> |r[k]| == 4
    ensures IsDigits(s) ==> forall k :: 0 <= k < |r| ==> IsDigits(r[k])
  {
    if s == "" then [] else [s[|s| - 4..]] + Segments(s[..|s| - 4])
  }

  function RankText(style: Style, seg: string, rank: nat): string
    requires |seg| == 4 && IsDecimalInteger(seg) && rank < 5
  {
    var text := SegmentText(style, seg, 4);
    if text == "" then "" else text + BiggerRank(style, rank)
  }

  predicate WellFormed(segs: seq<string>) {
    |segs| <= 5 && forall k :: 0 <= k < |segs| ==> |segs[k]| == 4 && IsDecimalInteger(segs[k])
  }

  /** The text of the n lowest segments, the highest of them first. */
  function Text(style: Style, segs: seq<string>, n: nat): string
    requires WellFormed(segs) && n <= |segs|
  {
    if n == 0 then "" else RankText(style, segs[n - 1], n - 1) + Text(style, segs, n - 1)
  }

  /** Every occurrence of the two characters for "twenty", left to right, becomes the single one. */
  function WithTwenty(s: string): string {
    if |s| < 2 then s
    else if s[0] == '弐' && s[1] == '拾' then "廿" + WithTwenty(s[2..])
    else [s[0]] + WithTwenty(s[1..])
  }

  predicate HasTwenty(s: string) { exists i :: 0 <= i && i + 1 < |s| && s[i] == '弐' && s[i + 1] == '拾' }

  function VariationOf(style: Style, input: string): seq<NumberString>
    requires |input| % 4 == 0 && 0 < |input| <= 20 && IsDecimalInteger(input)
  {
    var segs := Segments(input);
    if |segs| == 1 && IsArabic(style) then []
    else
      var text := Text(style, segs, |segs|);
      [NumberString(text, Description(style), style)] +
      (if style != OldKanji then [] else
         (if HasTwenty(text) then [NumberString(WithTwenty(text), Description(style), style)] else []) +
         (if input == "0010" then [NumberString("拾", Description(style), style)] else []) +
         (if input == "1000" then [NumberString("阡", Description(style), style)] else []))
  }

  function Variations(input: string, n: nat): seq<NumberString>
    requires |input| % 4 == 0 && 0 < |input| <= 20 && IsDecimalInteger(input) && n <= |VARIATIONS|
  {
    if n == 0 then [] else Variations(input, n - 1) + VariationOf(VARIATIONS[n - 1], input)
  }

  predicate AllZero(s: string) { forall i :: 0 <= i < |s| ==> s[i] == '0' }

  /** What is appended for a number. */
  function Forms(inputNum: string): seq<NumberString>
    requires IsDecimalInteger(inputNum) && (AllZero(inputNum) || |inputNum| <= 20)
  {
    if AllZero(inputNum) then [NumberString("零", Description(OldKanji), OldKanji)]
    else Variations(Filled(inputNum), |VARIATIONS|)
  }

  // ----- The method

  method ArabicToKanji(inputNum: string, output0: seq<NumberString>) returns (ok: bool, output: seq<NumberString>)
    ensures ok == (IsDecimalInteger(inputNum) && (AllZero(inputNum) || |inputNum| <= 20))
    ensures !ok ==> output == output0
    ensures ok ==> output == output0 + Forms(inputNum)
  {
    output := output0;
    if !IsDecimalInteger(inputNum) {
      return false, output;
    }
    var z := 0;
    while z < |inputNum| && inputNum[z] == '0'
      invariant z <= |inputNum| && AllZero(inputNum[..z])
    {
      z := z + 1;
    }
    if z == |inputNum| {
      assert inputNum[..z] == inputNum;
      return true, output + [NumberString("零", Description(OldKanji), OldKanji)];
    }
    if 5 * 4 < |inputNum| {
      return false, output;
    }
    var input := Filled(inputNum);
    var rankedNumbers := RankNumbers(input);
    output := AppendVariations(input, rankedNumbers, output);
    ok := true;
  }

  method AppendVariations(input: string, rankedNumbers: seq<string>, output0: seq<NumberString>)
    returns (output: seq<NumberString>)
    requires |input| % 4 == 0 && 0 < |input| <= 20 && IsDecimalInteger(input) && rankedNumbers == Segments(input)
    ensures output == output0 + Variations(input, |VARIATIONS|)
  {
    hide Segments, VariationOf, IsDecimalInteger;
    ghost var added := [];
    output := output0;
    for v := 0 to |VARIATIONS|
      invariant added == Variations(input, v) && output == output0 + added
    {
      output := AppendVariation(VARIATIONS[v], input, rankedNumbers, output);
      Regroup(output0, added, VariationOf(VARIATIONS[v], input));
      added := added + VariationOf(VARIATIONS[v], input);
    }
  }

  method RankNumbers(input: string) returns (rankedNumbers: seq<string>)
    requires |input| % 4 == 0
    ensures rankedNumbers == Segments(input)
  {
    rankedNumbers := [];
    var i := |input| - 4;
    assert input[..|input|] == input;
    while i >= 0
      invariant -4 <= i <= |input| - 4 && (i + 4) % 4 == 0
      invariant Segments(input) == rankedNumbers + Segments(input[..i + 4])
    {
      rankedNumbers := rankedNumbers + [input[i..i + 4]];
      assert input[..i + 4][..i] == input[..i] && input[..i + 4][i..] == input[i..i + 4];
      i := i - 4;
    }
  }

  /** One turn of the loop over the variations. */
  method AppendVariation(style: Style, input: string, rankedNumbers: seq<string>, output0: seq<NumberString>)
    returns (output: seq<NumberString>)
    requires |input| % 4 == 0 && 0 < |input| <= 20 && IsDecimalInteger(input) && rankedNumbers == Segments(input)
    ensures output == output0 + VariationOf(style, input)
  {
    hide Text, WithTwenty, HasTwenty, Segments, IsDigits;
    if |rankedNumbers| == 1 && IsArabic(style) {
      return output0;
    }
    var result := PrintText(style, rankedNumbers);
    var added := [NumberString(result, Description(style), style)];
    if style == OldKanji {
      if HasTwenty(result) {
        added := added + [NumberString(WithTwenty(result), Description(style), style)];
      }
      if input == "0010" {
        added := added + [NumberString("拾", Description(style), style)];
      }
      if input == "1000" {
        added := added + [NumberString("阡", Description(style), style)];
      }
    }
    output := output0 + added;
  }

  method PrintText(style: Style, rankedNumbers: seq<string>) returns (result: string)
    requires WellFormed(rankedNumbers)
    ensures result == Text(style, rankedNumbers, |rankedNumbers|)
  {
    hide Text, RankText;
    result := "";
    var rank := |rankedNumbers|;
    ghost var text := Text(style, rankedNumbers, rank);
    while rank > 0
      invariant 0 <= rank <= |rankedNumbers|
      invariant text == result + Text(style, rankedNumbers, rank)
    {
      rank := rank - 1;
      TextStep(style, rankedNumbers, rank);
      Regroup(result, RankText(style, rankedNumbers[rank], rank), Text(style, rankedNumbers, rank));
      result := PrintRank(style, rankedNumbers[rank], rank, result);
    }
    TextNone(style, rankedNumbers);
  }

  lemma TextNone(style: Style, segs: seq<string>)
    requires WellFormed(segs)
    ensures Text(style, segs, 0) == ""
  {}

  lemma TextStep(style: Style, segs: seq<string>, n: nat)
    requires WellFormed(segs) && n < |segs|
    ensures Text(style, segs, n + 1) == RankText(style, segs[n], n) + Text(style, segs, n)
  {
    hide RankText;
  }

  method PrintRank(style: Style, segment: string, rank: nat, result0: string) returns (result: string)
    requires |segment| == 4 && IsDecimalInteger(segment) && rank < 5
    ensures result == result0 + RankText(style, segment, rank)
  {
    hide SegmentText, BiggerRank;
    result := result0;
    var segmentResult := PrintSegment(style, segment);
    if segmentResult != "" {
      result := result + (segmentResult + BiggerRank(style, rank));
    }
  }

  method PrintSegment(style: Style, segment: string) returns (result: string)
    requires |segment| == 4 && IsDecimalInteger(segment)
    ensures result == SegmentText(style, segment, 4)
  {
    result := "";
    var leading := true;
    for i := 0 to 4
      invariant leading == forall j :: 0 <= j < i ==> segment[j] == '0'
      invariant result == SegmentText(style, segment, i)
    {
      if leading && segment[i] == '0' {
        assert Leading(segment, i);
        continue;
      }
      assert !Leading(segment, i);
      leading := false;
      if IsArabic(style) {
        result := result + [DigitChar(style, DigitOf(segment[i]))];
      } else {
        if segment[i] == '0' {
          continue;
        }
        var text := "";
        if style == OldKanji || i == 3 || segment[i] != '1' {
          text := [DigitChar(style, DigitOf(segment[i]))];
        }
        result := result + (text + Rank(style, i));
      }
    }
  }
}
