/**
 What ParseTrailingDate (date_util.cc) does not look at: it cuts a text to at most 64 bytes and
 then converts it, so a date could be lost or made at the cut.

 Before the conversion the cut changes nothing (`CutChangesNothing`). With it the cut changes
 nothing exactly when no step of the conversion runs over the end of what is cut off
 (`CutIsSafe`), as in every well-formed text (`WellFormedIsWhole`).
 */
module DateCut {
  import opened Basics
  import opened CivilDays
  import opened FullWidthAscii
  import opened TrailingDate
  import TextSanitizer
  import Utf8Decoder

  // ----- Dates are short

  /** A date starts with a digit, is at most 17 bytes long, and what it must not follow shows in the three bytes before. */
  lemma TextIsShort(style: Style, w: Written)
    requires (style == KANJI || style == SLASH) && IsNumerals(w)
    ensures 1 <= |Text(style, w)| <= 17 && IsDigit(Text(style, w)[0])
  {
    var t := Text(style, w);
    if w.year.Some? { assert t[0] == w.year.value[0]; } else { assert t[0] == w.month[0]; }
  }

  lemma StylesAreShort(style: Style)
    requires style == KANJI || style == SLASH
    ensures 1 <= |style.year| <= 3 && !IsContinuation(style.year[0]) && |style.day| <= 3
    ensures 1 <= |style.month| <= 3 && !IsContinuation(style.month[0])
    ensures style.day != [] ==> !IsContinuation(style.day[0])
    ensures forall b :: IsContinuation(b) ==> !IsDigit(b) && b !in style.forbidden
  {}

  /** No three continuation bytes in a row. */
  predicate HasShortRuns(s: seq<octet>) {
    forall i :: 0 <= i && i + 3 <= |s| ==> !(IsContinuation(s[i]) && IsContinuation(s[i + 1]) && IsContinuation(s[i + 2]))
  }

  lemma DigitsHaveShortRuns(d: seq<octet>)
    requires AllDigits(d)
    ensures HasShortRuns(d) && (d != [] ==> !IsContinuation(d[0]))
  {
    forall i | 0 <= i < |d| ensures !IsContinuation(d[i]) { assert d[i] in d; }
  }

  lemma ShortRunsBehind(a: seq<octet>, b: seq<octet>)
    requires HasShortRuns(a) && HasShortRuns(b) && (b != [] ==> !IsContinuation(b[0]))
    ensures HasShortRuns(a + b)
  {
    hide IsContinuation;
    var s := a + b;
    forall i | 0 <= i && i + 3 <= |s|
      ensures !(IsContinuation(s[i]) && IsContinuation(s[i + 1]) && IsContinuation(s[i + 2]))
    {
      if i < |a| < i + 3 { assert s[|a|] == b[0]; }
    }
  }

  lemma NumeralHasShortRuns(d: seq<octet>, separator: seq<octet>)
    requires AllDigits(d) && d != [] && |separator| <= 3 && (separator != [] ==> !IsContinuation(separator[0]))
    ensures HasShortRuns(d + separator) && !IsContinuation((d + separator)[0])
  {
    hide IsContinuation, AllDigits;
    DigitsHaveShortRuns(d);
    ShortRunsBehind(d, separator);
  }

  lemma TextHasShortRuns(style: Style, w: Written)
    requires (style == KANJI || style == SLASH) && IsNumerals(w)
    ensures HasShortRuns(Text(style, w))
  {
    hide IsContinuation, AllDigits, HasShortRuns;
    StylesAreShort(style);
    var month, day := w.month + style.month, w.day + style.day;
    NumeralHasShortRuns(w.month, style.month);
    NumeralHasShortRuns(w.day, style.day);
    ShortRunsBehind(month, day);
    if w.year.Some? {
      var year := w.year.value + style.year;
      NumeralHasShortRuns(w.year.value, style.year);
      ShortRunsBehind(year, month);
      ShortRunsBehind(year + month, day);
    } else {
      assert [] + month == month;
    }
  }

  /** All bytes of x from k on are continuation bytes. */
  predicate ContinuesFrom(x: seq<octet>, k: int) { forall i :: 0 <= i && k <= i < |x| ==> IsContinuation(x[i]) }

  /** The last k bytes are continuation bytes. */
  predicate EndsContinuing(x: seq<octet>, k: nat) { |x| >= k && ContinuesFrom(x, |x| - k) }

  /** The end of x + y does not tell them from y, up to three bytes: there is enough of y, or x ends with continuation
      bytes. */
  predicate SameEnd(x: seq<octet>, y: seq<octet>) { |y| >= 3 || EndsContinuing(x, 3) }

  lemma SameSuffix(x: seq<octet>, y: seq<octet>, suffix: seq<octet>)
    requires SameEnd(x, y) && |suffix| <= 3 && (suffix != [] ==> !IsContinuation(suffix[0]))
    ensures EndsWith(x + y, suffix) <==> EndsWith(y, suffix)
  {
    hide IsContinuation;
    var s := x + y;
    if |suffix| <= |y| {
      assert s[|s| - |suffix|..] == y[|y| - |suffix|..];
    } else {
      var k := |x| + |y| - |suffix|;
      assert k >= 0 ==> s[k..][0] == x[k];
    }
  }

  lemma SameForbidden(style: Style, x: seq<octet>, y: seq<octet>)
    requires (style == KANJI || style == SLASH) && SameEnd(x, y)
    ensures Forbidden(style, x + y) <==> Forbidden(style, y)
  {
    hide IsContinuation, IsDigit;
    StylesAreShort(style);
    var s := x + y;
    if y == [] {
      assert s[|s| - 1] == x[|x| - 1];
    } else {
      assert s[|s| - 1] == y[|y| - 1];
    }
  }

  /** What may be cut off: enough is left, or the bytes at the cut are continuation bytes. */
  predicate IsHarmlessCut(x: seq<octet>, y: seq<octet>) { |y| >= 20 || EndsContinuing(x, 3) }

  /** A date at the end of y is one at the end of x + y. */
  lemma MatchBehind(style: Style, x: seq<octet>, y: seq<octet>, prefix: seq<octet>, w: Written)
    requires (style == KANJI || style == SLASH) && IsHarmlessCut(x, y) && Matches(style, y, prefix, w)
    ensures Matches(style, x + y, x + prefix, w)
  {
    hide IsContinuation, Text, Forbidden, EndsWith, IsNumerals;
    TextIsShort(style, w);
    StylesAreShort(style);
    Regroup(x, prefix, Text(style, w));
    SameForbidden(style, x, prefix);
    SameSuffix(x, prefix, style.year);
  }

  lemma ByteOfText(x: seq<octet>, y: seq<octet>, prefix: seq<octet>, text: seq<octet>, i: nat)
    requires x + y == prefix + text && |prefix| + i < |x|
    ensures i < |text| && text[i] == x[|prefix| + i]
  {
    assert (x + y)[|prefix| + i] == x[|prefix| + i] && (prefix + text)[|prefix| + i] == text[i];
  }

  /** A date does not reach over the cut. */
  lemma TextIsNotCut(style: Style, x: seq<octet>, y: seq<octet>, prefix: seq<octet>, w: Written)
    requires (style == KANJI || style == SLASH) && IsHarmlessCut(x, y) && Matches(style, x + y, prefix, w)
    ensures |prefix| >= |x|
  {
    hide IsContinuation, IsDigit, Text, Forbidden, EndsWith, IsNumerals;
    var text := Text(style, w);
    TextIsShort(style, w);
    if |prefix| < |x| {
      ByteOfText(x, y, prefix, text, 0);
      DigitContinuesNothing(text[0]);
      TextHasShortRuns(style, w);
      var i := |x| - 3 - |prefix|;
      ByteOfText(x, y, prefix, text, i);
      ByteOfText(x, y, prefix, text, i + 1);
      ByteOfText(x, y, prefix, text, i + 2);
      assert false;
    }
  }

  lemma DigitContinuesNothing(b: octet)
    requires IsDigit(b)
    ensures !IsContinuation(b)
  {}

  /** A date at the end of x + y lies in y. */
  lemma MatchIsNotCut(style: Style, x: seq<octet>, y: seq<octet>, prefix: seq<octet>, w: Written)
    requires (style == KANJI || style == SLASH) && IsHarmlessCut(x, y) && Matches(style, x + y, prefix, w)
    ensures |prefix| >= |x| && Matches(style, y, prefix[|x|..], w)
  {
    hide IsContinuation, IsDigit, Text, Forbidden, EndsWith, IsNumerals;
    var s, text := x + y, Text(style, w);
    TextIsShort(style, w);
    StylesAreShort(style);
    TextIsNotCut(style, x, y, prefix, w);
    var rest := prefix[|x|..];
    assert prefix == s[..|prefix|] && prefix[..|x|] == x;
    assert prefix == x + rest && y == rest + text;
    SameForbidden(style, x, rest);
    SameSuffix(x, rest, style.year);
  }

  lemma SameScan(style: Style, x: seq<octet>, y: seq<octet>)
    requires (style == KANJI || style == SLASH) && IsHarmlessCut(x, y)
    ensures Scanned(style, x + y) == Scanned(style, y)
  {
    hide Scanned, Matches, IsHarmlessCut;
    StylesAreStyles();
    var whole, part := Scanned(style, x + y), Scanned(style, y);
    if whole.Some? {
      ScannedMatches(style, x + y);
      var prefix :| Matches(style, x + y, prefix, whole.value);
      MatchIsNotCut(style, x, y, prefix, whole.value);
      MatchIsScanned(style, y, prefix[|x|..], whole.value);
    } else if part.Some? {
      ScannedMatches(style, y);
      var prefix :| Matches(style, y, prefix, part.value);
      MatchBehind(style, x, y, prefix, part.value);
      MatchIsScanned(style, x + y, x + prefix, part.value);
    }
  }

  lemma HarmlessCut(x: seq<octet>, y: seq<octet>, today: CivilDay)
    requires IsHarmlessCut(x, y)
    ensures DateAtEnd(x + y, today) == DateAtEnd(y, today)
  {
    hide Scanned, DateOf, IsNumerals, EndsWith, IsContinuation;
    StylesAreShort(KANJI);
    SameSuffix(x, y, DAY_KANJI);
    SameScan(StyleOf(y), x, y);
  }

  lemma BoundaryOf(s: seq<octet>)
    ensures FromBoundary(s) == if s != [] && IsContinuation(s[0]) then FromBoundary(s[1..]) else s
  {
    hide IsContinuation;
  }

  /** The bytes that are skipped are continuation bytes. */
  lemma {:induction false} SkippedContinue(s: seq<octet>)
    ensures forall i :: 0 <= i < |s| - |FromBoundary(s)| ==> IsContinuation(s[i])
    ensures FromBoundary(s) == s[|s| - |FromBoundary(s)|..]
  {
    hide IsContinuation, FromBoundary;
    BoundaryOf(s);
    if s != [] && IsContinuation(s[0]) {
      SkippedContinue(s[1..]);
      forall i | 0 <= i < |s| - |FromBoundary(s)| ensures IsContinuation(s[i]) {
        if i > 0 { assert s[i] == s[1..][i - 1]; }
      }
    }
  }

  /** What is cut off a text. */
  function CutOff(text: seq<octet>): seq<octet> { text[..|text| - |Suffix(text)|] }

  /** The bytes of the window that are skipped end what is cut off. */
  lemma CutEndsContinuing(text: seq<octet>)
    ensures CutOff(text) + Suffix(text) == text
    ensures Suffix(text) != text ==> EndsContinuing(CutOff(text), MAX_SUFFIX_BYTES - |Suffix(text)|)
    ensures Suffix(text) != text && Suffix(text) != [] ==> !IsContinuation(Suffix(text)[0])
  {
    hide IsContinuation, FromBoundary;
    var y := Suffix(text);
    if |text| > MAX_SUFFIX_BYTES {
      var o := |text| - MAX_SUFFIX_BYTES;
      var window := text[o..];
      SkippedContinue(window);
      assert y == window[|window| - |y|..] == text[|text| - |y|..];
      var x := CutOff(text);
      forall i | o <= i < |x| ensures IsContinuation(x[i]) {
        assert x[i] == window[i - o];
      }
    }
  }

  /** Looking at 64 bytes only changes nothing, whatever the text. */
  lemma CutChangesNothing(text: seq<octet>, today: CivilDay)
    ensures DateAtEnd(Suffix(text), today) == DateAtEnd(text, today)
  {
    hide DateAtEnd, Suffix, IsContinuation;
    CutEndsContinuing(text);
    if Suffix(text) != text { HarmlessCut(CutOff(text), Suffix(text), today); }
  }

  // ----- The conversion behind the cut

  lemma SuffixContinues(a: seq<octet>, s: seq<octet>, k: nat)
    requires EndsContinuing(s, k)
    ensures EndsContinuing(a + s, k)
  {
    hide IsContinuation;
    forall i | |a + s| - k <= i < |a + s| ensures IsContinuation((a + s)[i]) {
      assert (a + s)[i] == s[i - |a|];
    }
  }

  /** At most three continuation bytes belong to a character that starts before them. */
  lemma {:induction false} ContinuationsStay(x: seq<octet>)
    requires IsWhole(x) && EndsContinuing(x, 6)
    ensures EndsContinuing(ToHalfWidth(x), 3)
  {
    hide ToHalfWidth, Piece, IsContinuation, OneCharLen;
    var n := OneCharLen(x[0]);
    var rest := x[n..];
    Step(x);
    if |rest| >= 6 {
      ContinuationsStay(rest);
    } else {
      StepBeforeContinuations(x);
      ContinuationsAreCopied(rest);
    }
    SuffixContinues(Piece(x[..n]), ToHalfWidth(rest), 3);
  }

  lemma StepBeforeContinuations(x: seq<octet>)
    requires IsWhole(x) && EndsContinuing(x, 6) && |x| - OneCharLen(x[0]) < 6
    ensures |x| - OneCharLen(x[0]) >= 3
  {}

  /** Nor does cutting before the conversion, when no step of it runs over the end of what is cut off. */
  lemma CutBeforeConversion(text: seq<octet>, today: CivilDay)
    requires IsWhole(CutOff(text))
    ensures DateAtEnd(ToHalfWidth(Suffix(text)), today) == DateAtEnd(ToHalfWidth(text), today)
  {
    hide DateAtEnd, Suffix, IsContinuation, ToHalfWidth, IsWhole, EndsContinuing;
    var x, y := CutOff(text), Suffix(text);
    CutEndsContinuing(text);
    if y != text {
      ConvertedBehind(x, y);
      NotShort(y);
      if |y| < 58 {
        EndsContinuingLess(x, MAX_SUFFIX_BYTES - |y|, 6);
        ContinuationsStay(x);
      }
      HarmlessCut(ToHalfWidth(x), ToHalfWidth(y), today);
    }
  }

  lemma EndsContinuingLess(x: seq<octet>, k: nat, j: nat)
    requires EndsContinuing(x, k) && j <= k
    ensures EndsContinuing(x, j)
  {}

  /** A date that the converted text ends with is what the method returns, however long the text is. */
  lemma DateInTextIsRead(style: Style, text: seq<octet>, prefix: seq<octet>, w: Written, today: CivilDay)
    requires (style == KANJI || style == SLASH) && Matches(style, ToHalfWidth(text), prefix, w)
    requires IsWhole(CutOff(text))
    ensures DateAtEnd(ToHalfWidth(Suffix(text)), today) == DateOf(w, today)
  {
    hide Matches, DateAtEnd, DateOf, ToHalfWidth, IsWhole, Suffix;
    CutBeforeConversion(text, today);
    DateIsRead(style, ToHalfWidth(text), prefix, w, today);
  }

  // ----- Well-formed texts

  lemma LengthOfChar(c: seq<octet>, k: nat)
    requires Utf8Decoder.IsWellFormedChar(c)
    ensures c != [] && OneCharLen(c[0]) == |c|
    ensures 0 < k < |c| ==> IsContinuation(c[k])
  {}

  lemma {:induction false} CharsAreSteps(chars: seq<seq<octet>>, x: seq<octet>, y: seq<octet>)
    requires (forall c :: c in chars ==> Utf8Decoder.IsWellFormedChar(c)) && x + y == TextSanitizer.Flat(chars)
    requires y != [] ==> !IsContinuation(y[0])
    ensures IsWhole(x)
  {
    hide Utf8Decoder.IsWellFormedChar, IsContinuation, OneCharLen;
    if x != [] {
      var c, rest := chars[0], TextSanitizer.Flat(chars[1..]);
      LengthOfChar(c, |x|);
      assert x + y == c + rest;
      if |x| < |c| {
        ByteOfText(c, rest, x, y, 0);
        assert false;
      }
      assert (x + y)[..|c|] == c && x[0] == c[0];
      assert x[|c|..] + y == rest;
      CharsAreSteps(chars[1..], x[|c|..], y);
    }
  }

  /** No step runs over the cut of a well-formed text. */
  lemma WellFormedIsWhole(text: seq<octet>)
    requires TextSanitizer.IsWellFormedText(text)
    ensures IsWhole(CutOff(text))
  {
    hide IsContinuation, Suffix, Utf8Decoder.IsWellFormedChar;
    CutEndsContinuing(text);
    if Suffix(text) != text {
      var chars: seq<seq<octet>> :|
        (forall c :: c in chars ==> Utf8Decoder.IsWellFormedChar(c)) && text == TextSanitizer.Flat(chars);
      CharsAreSteps(chars, CutOff(text), Suffix(text));
    } else {
      assert CutOff(text) == [];
    }
  }

  // ----- All other texts

  function Repeat(b: octet, n: nat): (s: seq<octet>)
    ensures |s| == n
  {
    seq(n, _ => b)
  }

  lemma RepeatAdds(b: octet, m: nat, n: nat)
    ensures Repeat(b, m + n) == Repeat(b, m) + Repeat(b, n)
  {}

  /** Characters that are made of leading bytes only are copied. */
  lemma {:induction false} LeadsAreCopied(b: octet, n: nat, k: nat, t: seq<octet>)
    requires n == OneCharLen(b) && !IsContinuation(b)
    ensures ToHalfWidth(Repeat(b, n * k) + t) == Repeat(b, n * k) + ToHalfWidth(t)
  {
    hide ToHalfWidth, OneCharLen, Piece, IsContinuation;
    if k == 0 {
      assert Repeat(b, 0) + t == t && Repeat(b, 0) + ToHalfWidth(t) == ToHalfWidth(t);
    } else {
      var s, lead, rest := Repeat(b, n * k) + t, Repeat(b, n), Repeat(b, n * (k - 1));
      RepeatAdds(b, n, n * (k - 1));
      Regroup(lead, rest, t);
      Regroup(lead, rest, ToHalfWidth(t));
      assert s == lead + (rest + t) && s[..n] == lead && s[n..] == rest + t;
      Step(s);
      NoKeyInside(lead, 1);
      LeadsAreCopied(b, n, k - 1, t);
    }
  }

  /** Behind its first byte a key has continuation bytes only. */
  lemma NoKeyInside(c: seq<octet>, i: nat)
    requires c != [] && (|c| == 3 ==> 0 < i < 3 && !IsContinuation(c[i]))
    ensures Piece(c) == c
  {
    hide RowOf;
  }

  lemma OneByte(b: octet, t: seq<octet>)
    requires OneCharLen(b) == 1
    ensures ToHalfWidth([b] + t) == [b] + ToHalfWidth(t)
  {
    hide ToHalfWidth, Piece, IsContinuation;
    var s := [b] + t;
    assert s[..1] == [b] && s[1..] == t;
    Step(s);
    NoKeyInside([b], 0);
  }

  /** A full-width digit. */
  function WideDigit(d: octet): (s: seq<octet>)
    requires IsDigit(d)
    ensures |s| == 3
  {
    [0xef, 0xbc, d + 0x60]
  }

  lemma WideDigitIsRead(d: octet, t: seq<octet>)
    requires IsDigit(d)
    ensures ToHalfWidth(WideDigit(d) + t) == [d] + ToHalfWidth(t)
  {
    hide ToHalfWidth;
    var c := WideDigit(d);
    var s := c + t;
    assert s[..3] == c && s[3..] == t;
    Step(s);
    assert Row(c) == Some(d - 0x20);
  }

  const ONE: octet := 0x31
  const FIVE: octet := 0x35

  /** Behind a full-width one. */
  const REST: seq<octet> := [SLASH_BYTE] + ([ONE] + (WideDigit(FIVE) + []))

  const HALF_REST: seq<octet> := [SLASH_BYTE, ONE, FIVE]

  lemma RestIsRead()
    ensures ToHalfWidth(REST) == HALF_REST
  {
    hide ToHalfWidth;
    NothingToConvert();
    OneByte(SLASH_BYTE, [ONE] + (WideDigit(FIVE) + []));
    OneByte(ONE, WideDigit(FIVE) + []);
    WideDigitIsRead(FIVE, []);
  }

  /** 64 bytes that end with the date 1/15, whose first digit is swallowed when the steps do not start at the first byte. */
  const BREAKER: seq<octet> := Repeat(0xf0, 56) + (WideDigit(ONE) + REST)

  lemma BreakerIsRead(today: CivilDay)
    ensures DateAtEnd(ToHalfWidth(BREAKER), today).Some?
  {
    hide ToHalfWidth, Resolve, Number, DateAtEnd, Forbidden, EndsWith, Text;
    var w, leads := Written(None, [ONE], [ONE, FIVE]), Repeat(0xf0, 56);
    LeadsAreCopied(0xf0, 4, 14, WideDigit(ONE) + REST);
    WideDigitIsRead(ONE, REST);
    RestIsRead();
    NumeralsOfBreaker(w);
    LeadsMayPrecede(leads);
    DateIsRead(SLASH, leads + ([ONE] + HALF_REST), leads, w, today);
    EveryYearResolves(today, 1, 15);
  }

  lemma NumeralsOfBreaker(w: Written)
    requires w == Written(None, [ONE], [ONE, FIVE])
    ensures IsNumerals(w) && Number(w.month) == 1 && Number(w.day) == 15 && Text(SLASH, w) == [ONE] + HALF_REST
  {
    assert w.month[..0] == [] && w.day[..1] == w.month;
  }

  lemma LeadsMayPrecede(leads: seq<octet>)
    requires forall i :: 0 <= i < |leads| ==> leads[i] >= 0xe0
    ensures !Forbidden(SLASH, leads) && !EndsWith(leads, SLASH.year)
  {}

  lemma InsideOne(d: nat)
    requires 1 <= d <= 3
    ensures var one := WideDigit(ONE); ToHalfWidth(one[d..] + REST) == one[d..] + HALF_REST
  {
    hide ToHalfWidth;
    var one := WideDigit(ONE);
    RestIsRead();
    OneByte(one[2], REST);
    OneByte(one[1], [one[2]] + REST);
    assert one[1..] == [one[1]] + [one[2]] && one[2..] == [one[2]] && one[3..] == [];
    Regroup([one[1]], [one[2]], REST);
    Regroup([one[1]], [one[2]], HALF_REST);
    assert [] + REST == REST && [] + HALF_REST == HALF_REST;
  }

  /** The full-width one is copied when the step before it starts at the d-th byte of a group of leading bytes. */
  lemma OneIsSwallowed(d: nat)
    requires 1 <= d <= 3
    ensures ToHalfWidth(Repeat(0xf0, 4 - d) + (WideDigit(ONE) + REST)) == Repeat(0xf0, 4 - d) + (WideDigit(ONE) + HALF_REST)
  {
    hide ToHalfWidth, Piece, WideDigit;
    var one, leads := WideDigit(ONE), Repeat(0xf0, 4 - d);
    var s := leads + (one + REST);
    assert one == one[..d] + one[d..];
    Regroup(leads, one[..d], one[d..] + REST);
    Regroup(one[..d], one[d..], REST);
    Regroup(leads, one[..d], one[d..] + HALF_REST);
    Regroup(one[..d], one[d..], HALF_REST);
    assert s[..4] == leads + one[..d] && s[4..] == one[d..] + REST;
    Step(s);
    NoKeyInside(s[..4], 0);
    InsideOne(d);
  }

  /** The last character of a text that the steps run over. */
  lemma {:induction false} Overrun(x: seq<octet>) returns (w: seq<octet>, c: seq<octet>)
    requires !IsWhole(x)
    ensures x == w + c && IsWhole(w) && c != [] && |c| < OneCharLen(c[0])
  {
    hide OneCharLen;
    var n := OneCharLen(x[0]);
    if n > |x| {
      w, c := [], x;
    } else {
      w, c := Overrun(x[n..]);
      assert x == (x[..n] + w) + c && (x[..n] + w)[n..] == w;
      w := x[..n] + w;
    }
  }

  lemma BreakerIsSplit(c: seq<octet>, d: nat)
    requires 1 <= d <= 3
    ensures c + BREAKER == (c + Repeat(0xf0, d)) + (Repeat(0xf0, 52) + (Repeat(0xf0, 4 - d) + (WideDigit(ONE) + REST)))
  {
    RepeatAdds(0xf0, d, 56 - d);
    RepeatAdds(0xf0, 52, 4 - d);
  }

  lemma CharacterOverrun(c: seq<octet>) returns (a: seq<octet>)
    requires c != [] && |c| < OneCharLen(c[0])
    ensures ToHalfWidth(c + BREAKER) == a + (WideDigit(ONE) + HALF_REST)
  {
    hide ToHalfWidth, Piece;
    var d := OneCharLen(c[0]) - |c|;
    var first, leads, last := c + Repeat(0xf0, d), Repeat(0xf0, 52), Repeat(0xf0, 4 - d);
    var s := c + BREAKER;
    BreakerIsSplit(c, d);
    assert s[..|first|] == first && s[|first|..] == leads + (last + (WideDigit(ONE) + REST));
    Step(s);
    NoKeyInside(first, |c|);
    LeadsAreCopied(0xf0, 4, 13, last + (WideDigit(ONE) + REST));
    OneIsSwallowed(d);
    a := first + leads + last;
    Regroup(first + leads, last, WideDigit(ONE) + HALF_REST);
    Regroup(first, leads, last + (WideDigit(ONE) + HALF_REST));
  }

  /** No date: there is no month before the slash. */
  lemma NoMonthIsNoDate(a: seq<octet>, day: seq<octet>, today: CivilDay)
    requires NoDigitAtEnd(a) && AllDigits(day) && day != []
    ensures DateAtEnd(a + [SLASH_BYTE] + day, today) == None
  {
    hide IsDigit, AllDigits, EndsWith, Without, Digits, BeforeDigits, NoDigitAtEnd, Forbidden, IsNumerals, DateOf;
    var s := a + [SLASH_BYTE] + day;
    assert s + [] == s;
    SuffixOf(s, []);
    SuffixOf(a + [SLASH_BYTE], day);
    NotKanji(s, day);
    SlashIsNoDigit(a);
    DigitsOf(a + [SLASH_BYTE], day);
    SuffixOf(a, [SLASH_BYTE]);
    NoDigits(a);
  }

  lemma SlashIsNoDigit(a: seq<octet>)
    ensures NoDigitAtEnd(a + [SLASH_BYTE])
  {
    assert (a + [SLASH_BYTE])[|a|] == SLASH_BYTE;
  }

  lemma NoDigits(a: seq<octet>)
    requires NoDigitAtEnd(a)
    ensures Digits(a) == []
  {}

  lemma NotKanji(s: seq<octet>, day: seq<octet>)
    requires AllDigits(day) && day != [] && EndsWith(s, day)
    ensures StyleOf(s) == SLASH
  {
    hide EndsWith;
    assert day[|day| - 1] in day;
    LastByte(s, day);
    LastByte(s, DAY_KANJI);
  }

  lemma SwallowedOneIsNoDate(a: seq<octet>, today: CivilDay)
    ensures DateAtEnd(a + (WideDigit(ONE) + HALF_REST), today) == None
  {
    hide DateAtEnd;
    var day := [ONE, FIVE];
    assert a + (WideDigit(ONE) + HALF_REST) == (a + WideDigit(ONE)) + [SLASH_BYTE] + day;
    NoMonthIsNoDate(a + WideDigit(ONE), day, today);
  }

  /** Where y is what is looked at of x + y, it makes no difference that x is not. */
  predicate NothingChanges(x: seq<octet>, y: seq<octet>, today: CivilDay) {
    Suffix(x + y) == y ==> DateAtEnd(ToHalfWidth(y), today) == DateAtEnd(ToHalfWidth(x + y), today)
  }

  lemma BreakerIsSuffix(x: seq<octet>)
    ensures Suffix(x + BREAKER) == BREAKER
  {
    var text := x + BREAKER;
    assert x != [] ==> text[|text| - 64..] == BREAKER;
    assert x == [] ==> text == BREAKER;
    assert !IsContinuation(BREAKER[0]);
  }

  lemma BreakerChanges(x: seq<octet>, today: CivilDay)
    requires !IsWhole(x)
    ensures !NothingChanges(x, BREAKER, today)
  {
    hide IsWhole, Suffix, ToHalfWidth, DateAtEnd, OneCharLen;
    BreakerIsSuffix(x);
    BreakerIsRead(today);
    var w, c := Overrun(x);
    var a := CharacterOverrun(c);
    ConvertedBehind(w, c + BREAKER);
    Regroup(w, c, BREAKER);
    Regroup(ToHalfWidth(w), a, WideDigit(ONE) + HALF_REST);
    SwallowedOneIsNoDate(ToHalfWidth(w) + a, today);
  }

  /** On any day, x can be cut off in front of everything exactly when no step runs over its end. */
  lemma CutIsSafe(x: seq<octet>, today: CivilDay)
    ensures IsWhole(x) <==> forall y :: NothingChanges(x, y, today)
  {
    hide IsWhole, Suffix, ToHalfWidth, DateAtEnd;
    if IsWhole(x) {
      forall y ensures NothingChanges(x, y, today) {
        if Suffix(x + y) == y {
          assert CutOff(x + y) == x;
          CutBeforeConversion(x + y, today);
        }
      }
    } else {
      BreakerChanges(x, today);
    }
  }

  /** Sixty leading bytes and a date with a full-width one: 65 bytes, of which the method does not look at the first. */
  const LOST: seq<octet> := Repeat(0xe3, 60) + (WideDigit(ONE) + [SLASH_BYTE, FIVE])

  lemma LostDay()
    ensures ToHalfWidth([SLASH_BYTE, FIVE]) == [SLASH_BYTE, FIVE]
  {
    hide ToHalfWidth;
    NothingToConvert();
    OneByte(FIVE, []);
    OneByte(SLASH_BYTE, [FIVE] + []);
    assert [SLASH_BYTE] + ([FIVE] + []) == [SLASH_BYTE, FIVE];
  }

  lemma NumeralsOfLost(w: Written)
    requires w == Written(None, [ONE], [FIVE])
    ensures IsNumerals(w) && Number(w.month) == 1 && Number(w.day) == 5 && Text(SLASH, w) == [ONE] + [SLASH_BYTE, FIVE]
  {
    assert w.month[..0] == [] && w.day[..0] == [];
  }

  lemma WholeLostIsRead(today: CivilDay)
    ensures DateAtEnd(ToHalfWidth(LOST), today).Some?
  {
    hide ToHalfWidth, Resolve, Number, DateAtEnd, Forbidden, EndsWith, Text;
    var w, leads, day := Written(None, [ONE], [FIVE]), Repeat(0xe3, 60), [SLASH_BYTE, FIVE];
    LeadsAreCopied(0xe3, 3, 20, WideDigit(ONE) + day);
    WideDigitIsRead(ONE, day);
    LostDay();
    NumeralsOfLost(w);
    LeadsMayPrecede(leads);
    DateIsRead(SLASH, leads + ([ONE] + day), leads, w, today);
    EveryYearResolves(today, 1, 5);
  }

  lemma SuffixOfLost()
    ensures Suffix(LOST) == Repeat(0xe3, 57) + (Repeat(0xe3, 2) + (WideDigit(ONE) + [SLASH_BYTE, FIVE]))
    ensures CutOff(LOST) == [0xe3] && !IsWhole(CutOff(LOST))
  {
    RepeatAdds(0xe3, 1, 59);
    RepeatAdds(0xe3, 57, 2);
    assert LOST[1..][0] == 0xe3;
    assert LOST[1..] == Repeat(0xe3, 59) + (WideDigit(ONE) + [SLASH_BYTE, FIVE]);
  }

  /** A date that the method does not find: the whole text, converted, ends with one on every day. */
  lemma LostDate(today: CivilDay)
    ensures DateAtEnd(ToHalfWidth(LOST), today).Some? && DateAtEnd(ToHalfWidth(Suffix(LOST)), today) == None
    ensures !IsWhole(CutOff(LOST))
  {
    hide ToHalfWidth, DateAtEnd, Suffix, Piece, IsWhole;
    WholeLostIsRead(today);
    SuffixOfLost();
    var one, day := WideDigit(ONE), [SLASH_BYTE, FIVE];
    var s, leads := Repeat(0xe3, 2) + (one + day), Repeat(0xe3, 57);
    LeadsAreCopied(0xe3, 3, 19, s);
    assert s[..3] == [0xe3, 0xe3, 0xef] && s[3..] == [one[1]] + ([one[2]] + day);
    Step(s);
    NoKeyInside(s[..3], 1);
    OneByte(one[1], [one[2]] + day);
    OneByte(one[2], day);
    LostDay();
    var before := leads + [0xe3, 0xe3, 0xef, one[1], one[2]];
    assert leads + ([0xe3, 0xe3, 0xef] + ([one[1]] + ([one[2]] + day))) == before + [SLASH_BYTE] + [FIVE];
    NoMonthIsNoDate(before, [FIVE], today);
  }
}
