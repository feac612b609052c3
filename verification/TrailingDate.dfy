/**
 ParseTrailingDate (date_util.cc): the date at the end of a text.

 `Matches` is the grammar of the dates, `Scanned` what the method finds from the end of the
 text; `ScannedIsMatch` says that they agree on every text.
 */
module TrailingDate {
  import opened Basics
  import opened CivilDays
  import opened FullWidthAscii

  // ----- The grammar

  const SLASH_BYTE: octet := 0x2f
  const DOT_BYTE: octet := 0x2e
  const DAY_KANJI: seq<octet> := [0xe6, 0x97, 0xa5]
  const MONTH_KANJI: seq<octet> := [0xe6, 0x9c, 0x88]
  const YEAR_KANJI: seq<octet> := [0xe5, 0xb9, 0xb4]

  predicate IsDigit(b: octet) { 0x30 <= b <= 0x39 }

  predicate AllDigits(s: seq<octet>) { forall b :: b in s ==> IsDigit(b) }

  /** What follows the day, the month and the year, and what must not come before a date besides a digit. */
  datatype Style = Style(day: seq<octet>, month: seq<octet>, year: seq<octet>, forbidden: set<octet>)

  const KANJI := Style(DAY_KANJI, MONTH_KANJI, YEAR_KANJI, {})
  const SLASH := Style([], [SLASH_BYTE], [SLASH_BYTE], {SLASH_BYTE, DOT_BYTE})

  /** The numerals of a date. */
  datatype Written = Written(year: Option<seq<octet>>, month: seq<octet>, day: seq<octet>)

  function Text(style: Style, w: Written): seq<octet> {
    (if w.year.Some? then w.year.value + style.year else []) + (w.month + style.month) + (w.day + style.day)
  }

  predicate IsNumerals(w: Written) {
    && 1 <= |w.day| <= 2 && AllDigits(w.day)
    && 1 <= |w.month| <= 2 && AllDigits(w.month)
    && (w.year.Some? ==> |w.year.value| == 4 && AllDigits(w.year.value))
  }

  predicate EndsWith(s: seq<octet>, suffix: seq<octet>) { |s| >= |suffix| && s[|s| - |suffix|..] == suffix }

  /** A date must not follow this. */
  predicate Forbidden(style: Style, s: seq<octet>) {
    s != [] && (IsDigit(s[|s| - 1]) || s[|s| - 1] in style.forbidden)
  }

  /** The text s ends with the date w behind a prefix that it may follow. */
  predicate Matches(style: Style, s: seq<octet>, prefix: seq<octet>, w: Written) {
    && IsNumerals(w) && s == prefix + Text(style, w)
    && !Forbidden(style, prefix)
    && (w.year == None ==> !EndsWith(prefix, style.year))
  }

  // ----- Scanning from the end

  function TrailingDigits(s: seq<octet>): (k: nat)
    ensures k <= |s|
  {
    if s == [] || !IsDigit(s[|s| - 1]) then 0 else TrailingDigits(s[..|s| - 1]) + 1
  }

  function Digits(s: seq<octet>): seq<octet> { s[|s| - TrailingDigits(s)..] }

  function BeforeDigits(s: seq<octet>): seq<octet> { s[..|s| - TrailingDigits(s)] }

  function Without(s: seq<octet>, suffix: seq<octet>): seq<octet>
    requires EndsWith(s, suffix)
  {
    s[..|s| - |suffix|]
  }

  function Scanned(style: Style, s: seq<octet>): Option<Written> {
    if !EndsWith(s, style.day) then None else
      var s1 := Without(s, style.day);
      var day, s2 := Digits(s1), BeforeDigits(s1);
      if day == [] || |day| > 2 || !EndsWith(s2, style.month) then None else
        var s3 := Without(s2, style.month);
        var month, s4 := Digits(s3), BeforeDigits(s3);
        if month == [] || |month| > 2 then None
        else if EndsWith(s4, style.year) then
          var s5 := Without(s4, style.year);
          var year, s6 := Digits(s5), BeforeDigits(s5);
          if |year| != 4 || Forbidden(style, s6) then None else Some(Written(Some(year), month, day))
        else if Forbidden(style, s4) then None
        else Some(Written(None, month, day))
  }

  // ----- Scanning finds exactly the dates of the grammar

  lemma LastByte(s: seq<octet>, suffix: seq<octet>)
    requires suffix != []
    ensures EndsWith(s, suffix) ==> s != [] && s[|s| - 1] == suffix[|suffix| - 1]
  {
    assert EndsWith(s, suffix) ==> s[|s| - |suffix|..][|suffix| - 1] == s[|s| - 1];
  }

  predicate NoDigitAtEnd(s: seq<octet>) { s == [] || !IsDigit(s[|s| - 1]) }

  lemma {:induction false} DigitsOf(a: seq<octet>, d: seq<octet>)
    requires AllDigits(d) && NoDigitAtEnd(a)
    ensures TrailingDigits(a + d) == |d| && Digits(a + d) == d && BeforeDigits(a + d) == a
  {
    hide IsDigit;
    var s := a + d;
    if d == [] {
      assert s == a;
    } else {
      assert s[..|s| - 1] == a + d[..|d| - 1];
      DigitsOf(a, d[..|d| - 1]);
    }
  }

  lemma SuffixOf(a: seq<octet>, suffix: seq<octet>)
    ensures EndsWith(a + suffix, suffix) && Without(a + suffix, suffix) == a
  {}

  lemma WithoutIs(s: seq<octet>, suffix: seq<octet>)
    requires EndsWith(s, suffix)
    ensures s == Without(s, suffix) + suffix
  {}

  lemma {:induction false} BeforeDigitsIs(s: seq<octet>)
    ensures s == BeforeDigits(s) + Digits(s) && AllDigits(Digits(s)) && NoDigitAtEnd(BeforeDigits(s))
  {
    hide IsDigit;
    if s != [] && IsDigit(s[|s| - 1]) {
      var init := s[..|s| - 1];
      BeforeDigitsIs(init);
      assert Digits(s) == Digits(init) + [s[|s| - 1]] && BeforeDigits(s) == BeforeDigits(init);
    }
  }

  /** The separators do not end with a digit. */
  predicate IsStyle(style: Style) {
    && style.month != [] && style.year != [] && NoDigitAtEnd(style.month) && NoDigitAtEnd(style.year)
  }

  lemma NoDigitBehind(a: seq<octet>, suffix: seq<octet>)
    requires suffix != [] && NoDigitAtEnd(suffix)
    ensures NoDigitAtEnd(a + suffix)
  {}

  lemma TextFromTheEnd(style: Style, prefix: seq<octet>, w: Written)
    ensures var s4 := prefix + (if w.year.Some? then w.year.value + style.year else []);
      prefix + Text(style, w) == (((s4 + w.month) + style.month) + w.day) + style.day
  {
    var y := if w.year.Some? then w.year.value + style.year else [];
    Regroup(prefix, y + (w.month + style.month), w.day + style.day);
    Regroup(prefix, y, w.month + style.month);
    Regroup(prefix + y, w.month, style.month);
    Regroup(((prefix + y) + w.month) + style.month, w.day, style.day);
  }

  lemma MatchIsScanned(style: Style, s: seq<octet>, prefix: seq<octet>, w: Written)
    requires IsStyle(style) && Matches(style, s, prefix, w)
    ensures Scanned(style, s) == Some(w)
  {
    hide TrailingDigits, EndsWith, Without, Digits, BeforeDigits, Text, IsDigit, AllDigits;
    var s4 := prefix + (if w.year.Some? then w.year.value + style.year else []);
    TextFromTheEnd(style, prefix, w);
    var s3 := s4 + w.month;
    var s2 := s3 + style.month;
    var s1 := s2 + w.day;
    SuffixOf(s1, style.day);
    NoDigitBehind(s3, style.month);
    DigitsOf(s2, w.day);
    SuffixOf(s3, style.month);
    if w.year.Some? {
      var s5 := prefix + w.year.value;
      Regroup(prefix, w.year.value, style.year);
      NoDigitBehind(s5, style.year);
      DigitsOf(s4, w.month);
      SuffixOf(s5, style.year);
      DigitsOf(prefix, w.year.value);
    } else {
      assert s4 == prefix;
      DigitsOf(s4, w.month);
    }
  }

  lemma ScannedMatches(style: Style, s: seq<octet>)
    requires IsStyle(style) && Scanned(style, s).Some?
    ensures exists prefix :: Matches(style, s, prefix, Scanned(style, s).value)
  {
    hide TrailingDigits, EndsWith, Without, Digits, BeforeDigits, Text, IsDigit, AllDigits, Forbidden, NoDigitAtEnd;
    var w := Scanned(style, s).value;
    var s1 := Without(s, style.day);
    WithoutIs(s, style.day);
    BeforeDigitsIs(s1);
    var s2 := BeforeDigits(s1);
    WithoutIs(s2, style.month);
    var s3 := Without(s2, style.month);
    BeforeDigitsIs(s3);
    var s4 := BeforeDigits(s3);
    if EndsWith(s4, style.year) {
      WithoutIs(s4, style.year);
      var s5 := Without(s4, style.year);
      BeforeDigitsIs(s5);
      var prefix := BeforeDigits(s5);
      Regroup(prefix, Digits(s5), style.year);
      TextFromTheEnd(style, prefix, w);
      assert Matches(style, s, prefix, w);
    } else {
      assert s4 + [] == s4;
      TextFromTheEnd(style, s4, w);
      assert Matches(style, s, s4, w);
    }
  }

  /** The date that is found is the one that the text ends with, and there is no other. */
  lemma ScannedIsMatch(style: Style, s: seq<octet>, w: Written)
    requires IsStyle(style)
    ensures Scanned(style, s) == Some(w) <==> exists prefix :: Matches(style, s, prefix, w)
  {
    hide Matches, Scanned;
    if Scanned(style, s) == Some(w) { ScannedMatches(style, s); }
    forall prefix | Matches(style, s, prefix, w) ensures Scanned(style, s) == Some(w) {
      MatchIsScanned(style, s, prefix, w);
    }
  }

  // ----- From the numerals to the day

  /** SimpleAtoi on at most four digits, which cannot fail. */
  function Number(digits: seq<octet>): nat
    requires AllDigits(digits)
  {
    if digits == [] then 0 else
      assert digits[|digits| - 1] in digits;
      10 * Number(digits[..|digits| - 1]) + DigitValue(digits[|digits| - 1])
  }

  function DigitValue(b: octet): nat
    requires IsDigit(b)
  {
    b as int - 0x30
  }

  /** An explicit year must be from 1900 to 2100; without one the day is that of the window around today. */
  function DateOf(w: Written, today: CivilDay): Option<CivilDay>
    requires IsNumerals(w)
  {
    var month, day := Number(w.month), Number(w.day);
    if month < 1 || month > 12 || day < 1 || day > 31 then None
    else if w.year == None then Resolve(today, month, day)
    else
      var year := Number(w.year.value);
      if year < 1900 || year > 2100 then None else DayOf(year, month, day)
  }

  function StyleOf(s: seq<octet>): Style { if EndsWith(s, DAY_KANJI) then KANJI else SLASH }

  lemma StylesAreStyles()
    ensures IsStyle(KANJI) && IsStyle(SLASH)
  {}

  /** The day that the text s ends with. */
  function DateAtEnd(s: seq<octet>, today: CivilDay): Option<CivilDay> {
    var w := Scanned(StyleOf(s), s);
    if w.Some? && IsNumerals(w.value) then DateOf(w.value, today) else None
  }

  lemma NumeralsAreScanned(style: Style, s: seq<octet>)
    requires IsStyle(style) && Scanned(style, s).Some?
    ensures IsNumerals(Scanned(style, s).value)
  {
    ScannedMatches(style, s);
  }

  /** A date in either style is read from behind any text that it may follow, as the day that its numerals say. */
  lemma DateIsRead(style: Style, s: seq<octet>, prefix: seq<octet>, w: Written, today: CivilDay)
    requires (style == KANJI || style == SLASH) && Matches(style, s, prefix, w)
    ensures DateAtEnd(s, today) == DateOf(w, today)
  {
    hide Scanned, DateOf, AllDigits;
    StylesAreStyles();
    MatchIsScanned(style, s, prefix, w);
    StyleIsSeen(style, s, prefix, w);
  }

  lemma StyleIsSeen(style: Style, s: seq<octet>, prefix: seq<octet>, w: Written)
    requires (style == KANJI || style == SLASH) && Matches(style, s, prefix, w)
    ensures StyleOf(s) == style
  {
    hide Forbidden;
    TextFromTheEnd(style, prefix, w);
    if style == KANJI {
      assert s[|s| - 3..] == DAY_KANJI;
    } else {
      assert s[|s| - 1] == w.day[|w.day| - 1] && IsDigit(s[|s| - 1]);
    }
  }

  /** A day of the years 1900 to 2100, written with its year, is read back. */
  lemma ExplicitDateIsReadBack(style: Style, prefix: seq<octet>, w: Written, c: CivilDay, today: CivilDay)
    requires style == KANJI || style == SLASH
    requires Matches(style, prefix + Text(style, w), prefix, w) && w.year.Some?
    requires Number(w.year.value) == c.y && Number(w.month) == c.m && Number(w.day) == c.d && 1900 <= c.y <= 2100
    ensures DateAtEnd(prefix + Text(style, w), today) == Some(c)
  {
    hide Number, Matches, Text, DateAtEnd;
    DateIsRead(style, prefix + Text(style, w), prefix, w, today);
    DayOfExists(c.y, c.m, c.d);
  }

  /** Whatever is read without a year is in the window around today. */
  lemma ReadDateIsInWindow(s: seq<octet>, today: CivilDay)
    requires DateAtEnd(s, today).Some? && Scanned(StyleOf(s), s).value.year == None
    ensures WithinWindow(DateAtEnd(s, today).value, today)
  {
    hide Scanned, Number, Resolve, WithinWindow;
    var w := Scanned(StyleOf(s), s).value;
    InWindow(today, Number(w.month), Number(w.day));
  }

  // ----- The method

  lemma DigitStep(s: seq<octet>, pos: nat)
    requires 0 < pos <= |s| && IsDigit(s[pos - 1])
    ensures TrailingDigits(s[..pos]) == 1 + TrailingDigits(s[..pos - 1])
  {
    assert s[..pos][..pos - 1] == s[..pos - 1];
  }

  lemma NoDigitStep(s: seq<octet>, pos: nat)
    requires pos <= |s| && (pos > 0 ==> !IsDigit(s[pos - 1]))
    ensures TrailingDigits(s[..pos]) == 0
  {}

  method ConsumeTrailingDigits(s: seq<octet>) returns (digits: seq<octet>, rest: seq<octet>)
    ensures digits == Digits(s) && rest == BeforeDigits(s)
  {
    hide IsDigit, TrailingDigits;
    var end := |s|;
    var pos := end;
    assert s[..pos] == s;
    while pos > 0 && IsDigit(s[pos - 1])
      invariant 0 <= pos <= end && TrailingDigits(s) == end - pos + TrailingDigits(s[..pos])
    {
      DigitStep(s, pos);
      pos := pos - 1;
    }
    NoDigitStep(s, pos);
    digits, rest := s[pos..end], s[..pos];
  }

  /** The part of ParseTrailingDate that takes the numerals off the end, in either style. */
  method Scan(style: Style, s0: seq<octet>) returns (w: Option<Written>)
    requires EndsWith(s0, style.day)
    ensures w == Scanned(style, s0)
  {
    hide EndsWith, Digits, BeforeDigits, Forbidden;
    var s := Without(s0, style.day);
    var day, month, year;
    day, s := ConsumeTrailingDigits(s);
    if day == [] || |day| > 2 || !EndsWith(s, style.month) { return None; }
    s := Without(s, style.month);
    month, s := ConsumeTrailingDigits(s);
    if month == [] || |month| > 2 { return None; }
    if EndsWith(s, style.year) {
      s := Without(s, style.year);
      year, s := ConsumeTrailingDigits(s);
      if |year| != 4 || Forbidden(style, s) { return None; }
      return Some(Written(Some(year), month, day));
    } else if Forbidden(style, s) {
      return None;
    }
    return Some(Written(None, month, day));
  }

  const MAX_SUFFIX_BYTES: nat := 64

  /** The text without the continuation bytes at its front. */
  function FromBoundary(s: seq<octet>): (r: seq<octet>)
    ensures r == [] || !IsContinuation(r[0])
    ensures |r| <= |s|
  {
    if s != [] && IsContinuation(s[0]) then FromBoundary(s[1..]) else s
  }

  /** What is looked at: at most 64 bytes, from the first byte of a character on. */
  function Suffix(text: seq<octet>): (r: seq<octet>)
    ensures |r| <= MAX_SUFFIX_BYTES
  {
    if |text| > MAX_SUFFIX_BYTES then FromBoundary(text[|text| - MAX_SUFFIX_BYTES..]) else text
  }

  // ----- The method as a whole

  lemma ContinuationStep(text: seq<octet>, start: nat)
    requires start < |text| && IsContinuation(text[start])
    ensures FromBoundary(text[start..]) == FromBoundary(text[start + 1..])
  {
    assert text[start..][1..] == text[start + 1..];
  }

  lemma BoundaryStep(text: seq<octet>, start: nat)
    requires start <= |text| && (start < |text| ==> !IsContinuation(text[start]))
    ensures FromBoundary(text[start..]) == text[start..]
  {}

  method BoundSuffix(text: seq<octet>) returns (r: seq<octet>)
    ensures r == Suffix(text)
  {
    hide IsContinuation, FromBoundary;
    r := text;
    if |text| > MAX_SUFFIX_BYTES {
      var start := |text| - MAX_SUFFIX_BYTES;
      while start < |text| && IsContinuation(text[start])
        invariant |text| - MAX_SUFFIX_BYTES <= start <= |text|
        invariant FromBoundary(text[start..]) == FromBoundary(text[|text| - MAX_SUFFIX_BYTES..])
      {
        ContinuationStep(text, start);
        start := start + 1;
      }
      BoundaryStep(text, start);
      r := text[start..];
    }
  }

  /** The day at the end of what is looked at, converted to half width. */
  method ParseTrailingDate(text: seq<octet>, today: CivilDay) returns (r: Option<CivilDay>)
    ensures r == if text == [] then None else DateAtEnd(ToHalfWidth(Suffix(text)), today)
  {
    hide Scanned, Suffix, ToHalfWidth, Number, Resolve, DayOf, EndsWith, Matches;
    if text == [] { return None; }
    var suffix := BoundSuffix(text);
    var s := FullWidthAsciiToHalfWidthAscii(suffix);
    var style := if EndsWith(s, DAY_KANJI) then KANJI else SLASH;
    StylesAreStyles();
    EverythingEndsWithNothing(s);
    var w := Scan(style, s);
    if w == None { return None; }
    NumeralsAreScanned(style, s);
    var month, day := Number(w.value.month), Number(w.value.day);
    if month < 1 || month > 12 || day < 1 || day > 31 { return None; }
    if w.value.year.Some? {
      var year := Number(w.value.year.value);
      if year < 1900 || year > 2100 { return None; }
      r := DayOf(year, month, day);
    } else {
      r := Resolve(today, month, day);
    }
  }

  lemma EverythingEndsWithNothing(s: seq<octet>)
    ensures EndsWith(s, SLASH.day)
  {}
}
