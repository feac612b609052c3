/**
 What NormalizeNumbers puts out: the digits it was given in decimal, the characters it was given in
 Kanji, and the suffix, each by a law that does not use the functions that compute them.
 */
module NumberOutputs {
  import opened Basics
  import opened NumberParser
  import opened NumberNormalizer
  import opened P = NumberPrinter
  import opened NumberRoundTrip
  import Old = OldKanjiRoundTrip

  // ----- The characters

  // The rows of the table of number characters: digits, ranks, scales and tens.

  lemma DigitRow(i: nat)
    requires i < 10
    ensures TokenOf("0123456789"[i]) == TokenOf("０１２３４５６７８９"[i]) == TokenOf("零一二三四五六七八九"[i]) == Some(i)
  {}

  lemma RankRow(i: nat)
    requires i < 3
    ensures TokenOf("壱弐参"[i]) == Some(i + 1) && TokenOf("十百千"[i]) == Some([10, 100, 1000][i])
  {}

  lemma TensRow(i: nat)
    requires i < 4
    ensures TokenOf("拾廿卅卌"[i]) == Some(10 * (i + 1))
  {}

  lemma ScaleRow(i: nat)
    requires i < 4
    ensures TokenOf("万億兆京"[i]) == Some([10000, 100000000, 1000000000000, 10000000000000000][i])
  {}

  predicate IsHalf(c: char) { '0' <= c <= '9' }

  predicate IsFull(c: char) { '０' <= c <= '９' }

  predicate IsZeroDigit(c: char) { c == '0' || c == '０' }

  /** The character in the Kanji output: a nonzero digit of either width as the Kanji that stands for the same number, a
      zero as the round one, and everything else as it is. */
  lemma KanjiKeepsToken(c: char)
    ensures IsHalf(c) || IsFull(c) ==>
      if IsZeroDigit(c) then KanjiOf(c) == '〇'
      else TokenOf(KanjiOf(c)) == TokenOf(c) && !IsHalf(KanjiOf(c)) && !IsFull(KanjiOf(c))
    ensures !IsHalf(c) && !IsFull(c) ==> KanjiOf(c) == c
  {
    if IsHalf(c) { HalfToKanji(c); } else if IsFull(c) { FullToKanji(c); }
    hide TokenOf;
  }

  lemma HalfToKanji(c: char)
    requires IsHalf(c)
    ensures if c == '0' then KanjiOf(c) == '〇'
      else TokenOf(KanjiOf(c)) == TokenOf(c) && !IsHalf(KanjiOf(c)) && !IsFull(KanjiOf(c))
  {}

  lemma FullToKanji(c: char)
    requires IsFull(c)
    ensures if c == '０' then KanjiOf(c) == '〇'
      else TokenOf(KanjiOf(c)) == TokenOf(c) && !IsHalf(KanjiOf(c)) && !IsFull(KanjiOf(c))
  {}

  /** Without zero digits the Kanji output stands for the same as the input. */
  lemma KanjiFormReads(input: string)
    requires forall i :: 0 <= i < |input| ==> TokenOf(input[i]).Some? && !IsZeroDigit(input[i])
    ensures var k := KanjiForm(input);
      (forall i :: 0 <= i < |k| ==> TokenOf(k[i]).Some?) && TokensOf(k) == TokensOf(input) && KanjiForm(k) == k
  {
    hide TokenOf, KanjiOf;
    forall i | 0 <= i < |input|
      ensures TokenOf(KanjiOf(input[i])) == TokenOf(input[i]) && KanjiOf(KanjiOf(input[i])) == KanjiOf(input[i])
    {
      KanjiStays(input[i]);
    }
  }

  lemma KanjiStays(c: char)
    requires !IsZeroDigit(c)
    ensures TokenOf(KanjiOf(c)) == TokenOf(c) && KanjiOf(KanjiOf(c)) == KanjiOf(c)
  {
    KanjiKeepsToken(c);
    KanjiKeepsToken(KanjiOf(c));
    hide TokenOf, KanjiOf;
  }

  /** Normalizing the Kanji output again gives the same outputs, for every accepted number without zero digits. */
  lemma KanjiOutputIsRead(input: string, trim: bool, allowSuffix: bool, isNumber: string -> bool)
    requires forall i :: 0 <= i < |input| ==> TokenOf(input[i]).Some? && !IsZeroDigit(input[i])
    ensures Normalize(KanjiForm(input), trim, allowSuffix, isNumber) == Normalize(input, trim, allowSuffix, isNumber)
  {
    hide TokenOf, KanjiForm, TokensOf, Value, Decimal, ZerosKept;
    var k := KanjiForm(input);
    KanjiFormReads(input);
    AllNumbers(input);
    AllNumbers(k);
    assert input[..|input|] == input && k[..|k|] == k && input[|input|..] == "" && k[|k|..] == "";
  }

  /** With one it is not read: the round zero is no number character. */
  lemma ZeroOutputIsNotRead(input: string, trim: bool, allowSuffix: bool, isNumber: string -> bool)
    requires exists i :: 0 <= i < |input| && IsZeroDigit(input[i])
    ensures Old.IsNotReadBack(KanjiForm(input), trim, allowSuffix, isNumber)
  {
    hide TokenOf, KanjiOf, Normalize;
    var i :| 0 <= i < |input| && IsZeroDigit(input[i]);
    KanjiKeepsToken(input[i]);
    RoundZero();
    assert TokenOf(KanjiForm(input)[i]) == None;
    Old.UnknownIsRejected(KanjiForm(input), trim, allowSuffix, isNumber);
  }

  lemma RoundZero()
    ensures TokenOf('〇') == None
  {}

  // ----- The decimal output

  function Tokens(digits: string): seq<nat>
    requires IsDigits(digits)
  {
    seq(|digits|, i requires 0 <= i < |digits| => DigitOf(digits[i]))
  }

  lemma {:induction false} TokensHaveTheValue(digits: string)
    requires IsDigits(digits)
    ensures DigitsValue(Tokens(digits)) == DecimalValue(digits)
  {
    hide DigitOf;
    if digits != "" {
      var init := digits[..|digits| - 1];
      TokensHaveTheValue(init);
      assert Tokens(digits)[..|digits| - 1] == Tokens(init);
    }
  }

  /** The zeros in front and the rest. */
  lemma {:induction false} ZerosInFront(digits: string)
    requires IsDigits(digits)
    ensures |Canonical(digits)| <= |digits| && LeadingZeros(Tokens(digits)) == |digits| - |Canonical(digits)|
    ensures digits == Zeros(|digits| - |Canonical(digits)|) + Canonical(digits)
  {
    hide Canonical, LeadingZeros, DigitOf, Zeros;
    OneZero(digits);
    if digits != "" && digits[0] == '0' {
      var rest := digits[1..];
      ZerosInFront(rest);
      MoreZeros(|rest| - |Canonical(rest)|, Canonical(rest));
      assert digits == "0" + rest;
    }
  }

  lemma OneZero(digits: string)
    requires IsDigits(digits)
    ensures if digits != "" && digits[0] == '0'
      then
        && Canonical(digits) == Canonical(digits[1..])
        && LeadingZeros(Tokens(digits)) == 1 + LeadingZeros(Tokens(digits[1..]))
      else Canonical(digits) == digits && LeadingZeros(Tokens(digits)) == 0 && digits == Zeros(0) + digits
  {
    hide LeadingZeros, DigitOf, Zeros;
    NoZeros(digits);
    if digits == "" {
      NoLeadingZeros();
    } else {
      TokensTail(digits);
      LeadingStep(DigitOf(digits[0]), Tokens(digits[1..]));
      ZeroChar(digits[0]);
    }
  }

  lemma NoZeros(s: string)
    ensures Zeros(0) + s == s
  {}

  lemma NoLeadingZeros()
    ensures LeadingZeros(Tokens("")) == 0
  {}

  lemma ZeroChar(c: char)
    requires '0' <= c <= '9'
    ensures DigitOf(c) == 0 <==> c == '0'
  {}

  lemma TokensTail(digits: string)
    requires IsDecimalInteger(digits)
    ensures Tokens(digits) == [DigitOf(digits[0])] + Tokens(digits[1..])
  {
    hide DigitOf;
  }

  lemma LeadingStep(x: nat, rest: seq<nat>)
    ensures LeadingZeros([x] + rest) == if x == 0 then 1 + LeadingZeros(rest) else 0
  {
    assert ([x] + rest)[1..] == rest;
  }

  lemma MoreZeros(n: nat, s: string)
    ensures "0" + (Zeros(n) + s) == Zeros(n + 1) + s
  {}

  /** Of a string of digits, in any mixture of half-width, full-width and Kanji ones, the decimal output is these digits:
      all of them, or without the zeros in front when these are to be trimmed. */
  lemma DigitsAreKept(s: string, digits: string, trim: bool, allowSuffix: bool, isNumber: string -> bool)
    requires IsDecimalInteger(digits) && Reads(s, Tokens(digits))
    ensures Normalize(s, trim, allowSuffix, isNumber) ==
      if DecimalValue(digits) >= TWO_64 then None
      else Some(Normalized(KanjiForm(s), if trim then WithoutZeros(digits) else digits, ""))
  {
    hide TokenOf, KanjiForm, DecimalValue, DigitsValue, Decimal, Canonical, LeadingZeros, IsDigits;
    AllNumbers(s);
    assert s[..|s|] == s && s[|s|..] == "";
    assert TokensOf(s) == Tokens(digits);
    TokensHaveTheValue(digits);
    DigitsHaveValue(digits);
    KeptDigits(digits, trim);
  }

  lemma DigitsHaveValue(digits: string)
    requires IsDecimalInteger(digits)
    ensures Value(Tokens(digits)) == Some(DigitsValue(Tokens(digits)))
  {}

  lemma KeptDigits(digits: string, trim: bool)
    requires IsDecimalInteger(digits)
    ensures Zeros(ZerosKept(Tokens(digits), trim)) + Decimal(DecimalValue(digits))
      == if trim then WithoutZeros(digits) else digits
  {
    hide DecimalValue, Decimal, Canonical, LeadingZeros;
    CanonicalHasTheValue(digits);
    ZerosInFront(digits);
    assert forall t: string :: Zeros(0) + t == t;
    if AllZero(digits) {
      ZeroValue(digits);
      assert Zeros(|digits| - 1) + "0" == Zeros(|digits|);
    } else {
      CanonicalStarts(digits);
      DecimalIsCanonical(Canonical(digits));
    }
  }

  lemma ZeroValue(digits: string)
    requires IsDecimalInteger(digits) && AllZero(digits)
    ensures Decimal(DecimalValue(digits)) == "0"
  {
    hide Canonical, DecimalValue;
    CanonicalHasTheValue(digits);
    NothingIsZero([]);
  }

  // ----- The suffix

  lemma {:induction false} NumberBeforeSuffix(a: string, b: string)
    requires (forall i :: 0 <= i < |a| ==> TokenOf(a[i]).Some?) && b != "" && TokenOf(b[0]) == None
    ensures NumberLength(a + b) == |a| && NumberLength(a) == |a|
  {
    hide TokenOf;
    if a == "" {
      assert a + b == b;
    } else {
      NumberBeforeSuffix(a[1..], b);
      assert (a + b)[1..] == a[1..] + b;
    }
  }

  /** A suffix changes nothing of the other outputs; it is refused when there may be none, or when it holds a number. */
  lemma SuffixIsApart(a: string, b: string, trim: bool, allowSuffix: bool, isNumber: string -> bool)
    requires (forall i :: 0 <= i < |a| ==> TokenOf(a[i]).Some?) && b != "" && TokenOf(b[0]) == None
    ensures Normalize(a + b, trim, allowSuffix, isNumber) ==
      if !allowSuffix || isNumber(b) then None
      else
        var r := Normalize(a, trim, allowSuffix, isNumber);
        if r == None then None else Some(r.value.(suffix := b))
  {
    hide TokenOf, KanjiForm, TokensOf, Value, Decimal, ZerosKept, NumberLength;
    NumberBeforeSuffix(a, b);
    assert (a + b)[..|a|] == a && (a + b)[|a|..] == b && a[..|a|] == a && a[|a|..] == "";
  }
}
