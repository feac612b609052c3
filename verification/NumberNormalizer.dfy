/**
 NormalizeNumbersInternal: a string of number characters, turned into tokens, interpreted,
 and printed again in Kanji digits and in decimal.
 */
module NumberNormalizer {
  import opened Basics
  import opened NumberParser
  import P = NumberPrinter

  /** The number that one character stands for (data/preedit/kanjinumber-arabicnumber.tsv). */
  function TokenOf(c: char): Option<U64> {
    match c
    case '零' => Some(0) case '一' => Some(1) case '二' => Some(2) case '三' => Some(3) case '四' => Some(4)
    case '五' => Some(5) case '六' => Some(6) case '七' => Some(7) case '八' => Some(8) case '九' => Some(9)
    case '十' => Some(10) case '百' => Some(100) case '千' => Some(1000) case '万' => Some(10000)
    case '億' => Some(100000000) case '兆' => Some(1000000000000) case '京' => Some(10000000000000000)
    case '0' => Some(0) case '1' => Some(1) case '2' => Some(2) case '3' => Some(3) case '4' => Some(4)
    case '5' => Some(5) case '6' => Some(6) case '7' => Some(7) case '8' => Some(8) case '9' => Some(9)
    case '０' => Some(0) case '１' => Some(1) case '２' => Some(2) case '３' => Some(3) case '４' => Some(4)
    case '５' => Some(5) case '６' => Some(6) case '７' => Some(7) case '８' => Some(8) case '９' => Some(9)
    case '壱' => Some(1) case '弐' => Some(2) case '参' => Some(3) case '拾' => Some(10)
    case '廿' => Some(20) case '卅' => Some(30) case '卌' => Some(40)
    case _ => None
  }

  /** The character as it goes into the Kanji output. */
  function KanjiOf(c: char): char {
    if '0' <= c <= '9' then P.KANJI_DIGITS[c as int - '0' as int]
    else if '０' <= c <= '９' then P.KANJI_DIGITS[c as int - '０' as int]
    else c
  }

  /** How many characters at the front stand for numbers. */
  function NumberLength(s: string): (n: nat)
    ensures n <= |s|
    ensures forall i :: 0 <= i < n ==> TokenOf(s[i]).Some?
    ensures n < |s| ==> TokenOf(s[n]).None?
  {
    if s == "" || TokenOf(s[0]).None? then 0 else 1 + NumberLength(s[1..])
  }

  function TokensOf(s: string): (t: seq<U64>)
    requires forall i :: 0 <= i < |s| ==> TokenOf(s[i]).Some?
    ensures |t| == |s|
  {
    seq(|s|, i requires 0 <= i < |s| => TokenOf(s[i]).value)
  }

  function KanjiForm(s: string): (k: string)
    ensures |k| == |s|
  {
    seq(|s|, i requires 0 <= i < |s| => KanjiOf(s[i]))
  }

  function LeadingZeros(t: seq<nat>): (n: nat)
    ensures n <= |t|
  {
    if t != [] && t[0] == 0 then 1 + LeadingZeros(t[1..]) else 0
  }

  /** The zeros kept in front of the decimal output. */
  function ZerosKept(t: seq<nat>, trimLeadingZeros: bool): nat
    requires t != []
  {
    if trimLeadingZeros then 0
    else if LeadingZeros(t) == |t| then |t| - 1
    else LeadingZeros(t)
  }

  datatype Normalized = Normalized(kanji: string, arabic: string, suffix: string)

  /**
   The outcome, or none. `isNumber` stands for Util::ContainsScriptType(_, NUMBER) on the suffix.
   */
  ghost function Normalize(input: string, trimLeadingZeros: bool, allowSuffix: bool, isNumber: string -> bool)
    : Option<Normalized>
  {
    var n := NumberLength(input);
    var suffix := input[n..];
    if suffix != "" && (!allowSuffix || isNumber(suffix)) then None
    else if n == 0 then None
    else
      var t := TokensOf(input[..n]);
      var v := Value(t);
      if v.None? || v.value >= TWO_64 then None
      else Some(Normalized(KanjiForm(input[..n]), P.Zeros(ZerosKept(t, trimLeadingZeros)) + Decimal(v.value), suffix))
  }

  /** `suffix0` is what the caller's suffix string holds: it is kept when the input has no suffix. */
  method NormalizeNumbersInternal(input: string, trimLeadingZeros: bool, allowSuffix: bool, isNumber: string -> bool,
                                  suffix0: string)
    returns (ok: bool, kanji: string, arabic: string, suffix: string)
    ensures var r := Normalize(input, trimLeadingZeros, allowSuffix, isNumber);
      && ok == r.Some? && (ok ==> r.value == Normalized(kanji, arabic, input[NumberLength(input)..]))
    ensures kanji == KanjiForm(input[..NumberLength(input)]) && (!ok ==> arabic == "")
    ensures suffix == if allowSuffix && NumberLength(input) < |input| then input[NumberLength(input)..] else suffix0
  {
    hide TokenOf, KanjiOf, Value, Decimal;
    var numbers: seq<U64> := [];
    kanji, arabic, suffix := "", "", suffix0;
    var pos := 0;
    ghost var n := NumberLength(input);
    while pos < |input|
      invariant pos <= n
      invariant numbers == TokensOf(input[..pos])
      invariant kanji == KanjiForm(input[..pos])
      invariant suffix == suffix0
    {
      var token := TokenOf(input[pos]);
      if token.None? {
        assert pos == n;
        if !allowSuffix {
          return false, kanji, arabic, suffix;
        }
        suffix := input[pos..];
        if isNumber(suffix) {
          return false, kanji, arabic, suffix;
        }
        break;
      }
      kanji := kanji + [KanjiOf(input[pos])];
      numbers := numbers + [token.value];
      pos := pos + 1;
    }
    assert pos == n;
    if numbers == [] {
      return false, kanji, arabic, suffix;
    }
    var helped, v := NormalizeNumbersHelper(numbers);
    if !helped {
      return false, kanji, arabic, suffix;
    }
    if !trimLeadingZeros {
      var numZeros := 0;
      while numZeros < |numbers| && numbers[numZeros] == 0
        invariant numZeros <= |numbers|
        invariant LeadingZeros(numbers) == numZeros + LeadingZeros(numbers[numZeros..])
      {
        assert numbers[numZeros..][1..] == numbers[numZeros + 1..];
        numZeros := numZeros + 1;
      }
      if numZeros == |numbers| {
        numZeros := numZeros - 1;
      }
      arabic := P.Zeros(numZeros);
    }
    arabic := arabic + Decimal(v);
    ok := true;
  }
}
