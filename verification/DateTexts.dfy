/**
 ParseTrailingDate on dates as they are written: in decimal numerals, with the separators by their
 bytes or their codepoints, and nothing of the grammar's own names.
 */
module DateTexts {
  import opened Basics
  import opened CivilDays
  import opened TrailingDate
  import opened Utf8Decoder

  // ----- The separators

  /** The separators are U+65E5, U+6708 and U+5E74, and a slash; a full stop must not come before a date either. */
  lemma Separators()
    ensures Decoded(DAY_KANJI) == Continue(0x65e5, 3) && Decoded(MONTH_KANJI) == Continue(0x6708, 3)
    ensures Decoded(YEAR_KANJI) == Continue(0x5e74, 3)
    ensures Decoded([SLASH_BYTE]) == Continue(0x2f, 1) && Decoded([DOT_BYTE]) == Continue(0x2e, 1)
  {
    OneChar(DAY_KANJI);
    OneChar(MONTH_KANJI);
    OneChar(YEAR_KANJI);
    OneChar([SLASH_BYTE]);
    OneChar([DOT_BYTE]);
  }

  lemma OneChar(c: seq<octet>)
    requires IsWellFormedChar(c)
    ensures Decoded(c) == Continue(Scalar(c), |c|)
  {
    hide IsWellFormedChar, Scalar, Decoded;
    DecodedPrefix(c, []);
    assert c + [] == c;
  }

  // ----- Numerals

  /** The decimal numeral of n, in ASCII. */
  function Numeral(n: nat): (s: seq<octet>)
    ensures s != []
  {
    (if n < 10 then [] else Numeral(n / 10)) + [0x30 + n % 10]
  }

  lemma NumeralStep(n: nat)
    ensures n < 10 ==> Numeral(n) == [0x30 + n]
    ensures n >= 10 ==> Numeral(n) == Numeral(n / 10) + [0x30 + n % 10]
  {}

  lemma NumberStep(init: seq<octet>, d: nat)
    requires AllDigits(init) && d < 10
    ensures AllDigits(init + [0x30 + d]) && Number(init + [0x30 + d]) == 10 * Number(init) + d
  {
    assert (init + [0x30 + d])[..|init|] == init;
  }

  lemma {:induction false} NumeralIsRead(n: nat)
    ensures AllDigits(Numeral(n)) && Number(Numeral(n)) == n
  {
    hide Numeral, Number, AllDigits;
    NumeralStep(n);
    NoNumeral();
    if n < 10 {
      NumberStep([], n);
      assert [] + [0x30 + n] == [0x30 + n];
    } else {
      NumeralIsRead(n / 10);
      NumberStep(Numeral(n / 10), n % 10);
    }
  }

  lemma NoNumeral()
    ensures AllDigits([]) && Number([]) == 0
  {}

  lemma Lengths(n: nat)
    ensures n < 100 ==> 1 <= |Numeral(n)| <= 2
    ensures 1000 <= n <= 9999 ==> |Numeral(n)| == 4
  {
    hide Numeral;
    NumeralStep(n);
    NumeralStep(n / 10);
    NumeralStep(n / 10 / 10);
    NumeralStep(n / 10 / 10 / 10);
  }

  // ----- Dates

  /** The dates of a year, a month and a day in numerals of at most four, two and two digits. */
  function Numerals(y: Option<nat>, m: nat, d: nat): Written {
    Written(if y.Some? then Some(Numeral(y.value)) else None, Numeral(m), Numeral(d))
  }

  lemma NumeralsAreNumerals(y: Option<nat>, m: nat, d: nat)
    requires m < 100 && d < 100 && (y.Some? ==> 1000 <= y.value <= 9999)
    ensures var w := Numerals(y, m, d);
      && IsNumerals(w) && Number(w.month) == m && Number(w.day) == d
      && (y.Some? ==> Number(w.year.value) == y.value)
  {
    hide Numeral, Number;
    NumeralIsRead(m);
    NumeralIsRead(d);
    Lengths(m);
    Lengths(d);
    if y.Some? {
      NumeralIsRead(y.value);
      Lengths(y.value);
    }
  }

  /** What a date may follow: nothing, or a byte that is no digit and, in the style with slashes, no slash and no full
      stop. */
  predicate MayPrecede(s: seq<octet>, slashes: bool) {
    s != [] ==>
      var last := s[|s| - 1];
      !(0x30 <= last <= 0x39) && (slashes ==> last != 0x2f && last != 0x2e)
  }

  function DateWith(y: Option<nat>, m: nat, d: nat, slashes: bool): seq<octet> {
    var year, month, day := if slashes then [0x2f] else [0xe5, 0xb9, 0xb4], if slashes then [0x2f] else [0xe6, 0x9c, 0x88],
                            if slashes then [] else [0xe6, 0x97, 0xa5];
    (if y.Some? then Numeral(y.value) + year else []) + (Numeral(m) + month) + (Numeral(d) + day)
  }

  lemma DateIsText(y: Option<nat>, m: nat, d: nat, slashes: bool)
    ensures DateWith(y, m, d, slashes) == Text(if slashes then SLASH else KANJI, Numerals(y, m, d))
  {
    hide Numeral;
  }

  /** A date with a year is read as the day it says when this exists and is of 1900 to 2100, and not at all otherwise. */
  lemma DateWithYearIsRead(prefix: seq<octet>, y: nat, m: nat, d: nat, slashes: bool, today: CivilDay)
    requires m < 100 && d < 100 && 1000 <= y <= 9999 && MayPrecede(prefix, slashes)
    ensures var r := DateAtEnd(prefix + DateWith(Some(y), m, d, slashes), today);
      if 1900 <= y <= 2100 && Exists(y, m, d) then r.Some? && r.value == Day(y, m, d) else r == None
  {
    hide Numeral, Number, Text, DateWith, DateAtEnd, DayOf, EndsWith;
    var style := if slashes then SLASH else KANJI;
    var w := Numerals(Some(y), m, d);
    NumeralsAreNumerals(Some(y), m, d);
    DateIsText(Some(y), m, d, slashes);
    PrefixIsAllowed(prefix, slashes);
    DateIsRead(style, prefix + DateWith(Some(y), m, d, slashes), prefix, w, today);
    if 1 <= m <= 12 && 1 <= d <= 31 { DayOfExists(y, m, d); } else { NotADay(y, m, d); }
  }

  lemma NotADay(y: int, m: int, d: int)
    requires !(1 <= m <= 12 && 1 <= d <= 31)
    ensures !Exists(y, m, d)
  {}

  lemma PrefixIsAllowed(prefix: seq<octet>, slashes: bool)
    requires MayPrecede(prefix, slashes)
    ensures !Forbidden(if slashes then SLASH else KANJI, prefix)
  {}

  /** A date without a year is read as the day near today, behind anything but a year. */
  lemma DateWithoutYearIsRead(prefix: seq<octet>, m: nat, d: nat, slashes: bool, today: CivilDay)
    requires m < 100 && d < 100 && MayPrecede(prefix, slashes)
    requires !slashes ==> !(|prefix| >= 3 && prefix[|prefix| - 3..] == [0xe5, 0xb9, 0xb4])
    ensures DateAtEnd(prefix + DateWith(None, m, d, slashes), today) ==
      if 1 <= m <= 12 && 1 <= d <= 31 then Resolve(today, m, d) else None
  {
    hide Numeral, Number, Text, DateWith, DateAtEnd, Resolve;
    var style := if slashes then SLASH else KANJI;
    var w := Numerals(None, m, d);
    NumeralsAreNumerals(None, m, d);
    DateIsText(None, m, d, slashes);
    PrefixIsAllowed(prefix, slashes);
    NoYearBefore(prefix, slashes);
    DateIsRead(style, prefix + DateWith(None, m, d, slashes), prefix, w, today);
  }

  lemma NoYearBefore(prefix: seq<octet>, slashes: bool)
    requires MayPrecede(prefix, slashes)
    requires !slashes ==> !(|prefix| >= 3 && prefix[|prefix| - 3..] == [0xe5, 0xb9, 0xb4])
    ensures !EndsWith(prefix, (if slashes then SLASH else KANJI).year)
  {
    assert EndsWith(prefix, SLASH.year) ==> prefix[|prefix| - 1..][0] == prefix[|prefix| - 1];
  }

  lemma ForbiddenIsNotScanned(style: Style, prefix: seq<octet>, w: Written)
    requires IsStyle(style) && IsNumerals(w) && NoDigitAtEnd(prefix) && Forbidden(style, prefix)
    requires w.year == None ==> !EndsWith(prefix, style.year)
    ensures Scanned(style, prefix + Text(style, w)) == None
  {
    hide TrailingDigits, EndsWith, Without, Digits, BeforeDigits, Text, IsDigit, AllDigits, Forbidden, NoDigitAtEnd;
    var s4 := prefix + (if w.year.Some? then w.year.value + style.year else []);
    TextFromTheEnd(style, prefix, w);
    var s3 := s4 + w.month;
    var s2 := s3 + style.month;
    var s1 := s2 + w.day;
    SuffixOf(s1, style.day);
    NoDigitBehind(s3, style.month);
    DigitsOf(s2, w.day);
    SuffixOf(s3, style.month);
    if w.year.Some? {
      var s5 := prefix + w.year.value;
      Regroup(prefix, w.year.value, style.year);
      NoDigitBehind(s5, style.year);
      DigitsOf(s4, w.month);
      SuffixOf(s5, style.year);
      DigitsOf(prefix, w.year.value);
    } else {
      assert s4 == prefix;
      DigitsOf(s4, w.month);
    }
  }

  /** Behind a full stop, and with a year behind a slash, there is no date with slashes. */
  lemma NoDateBehind(prefix: seq<octet>, b: octet, y: Option<nat>, m: nat, d: nat, today: CivilDay)
    requires m < 100 && d < 100 && (y.Some? ==> 1000 <= y.value <= 9999)
    requires b == 0x2e || (b == 0x2f && y.Some?)
    ensures DateAtEnd(prefix + [b] + DateWith(y, m, d, true), today) == None
  {
    hide Numeral, Number, Text, DateWith, EndsWith, Scanned, DateOf, Digits;
    var w, before := Numerals(y, m, d), prefix + [b];
    NumeralsAreNumerals(y, m, d);
    DateIsText(y, m, d, true);
    StylesAreStyles();
    SlashOrStop(prefix, b);
    ForbiddenIsNotScanned(SLASH, before, w);
    SlashStyle(before, w);
  }

  lemma SlashOrStop(prefix: seq<octet>, b: octet)
    requires b == 0x2e || b == 0x2f
    ensures var s := prefix + [b];
      NoDigitAtEnd(s) && Forbidden(SLASH, s) && (b == 0x2e ==> !EndsWith(s, SLASH.year))
  {
    var s := prefix + [b];
    assert s[|s| - 1] == b && s[|s| - 1..] == [b];
  }

  lemma SlashStyle(prefix: seq<octet>, w: Written)
    requires IsNumerals(w)
    ensures StyleOf(prefix + Text(SLASH, w)) == SLASH
  {
    TextFromTheEnd(SLASH, prefix, w);
    var s := prefix + Text(SLASH, w);
    assert s[|s| - 1] == w.day[|w.day| - 1] && IsDigit(s[|s| - 1]);
    hide EndsWith;
    LastByte(s, DAY_KANJI);
  }
}
