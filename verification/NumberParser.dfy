/**
 Interpretation of number tokens: the Reduce* and Interpret* functions of number_util.cc.

 A token list such as [1, 10000, 2, 1000, 3, 100, 4, 10, 5] comes from one character each.
 The source's `begin` iterator is an index here; the specification functions work on the
 remaining tokens and give back what is left of them.
 */
module NumberParser {
  import opened Basics

  const UINT64_MAX: nat := 0xFFFF_FFFF_FFFF_FFFF

  type U64 = n: nat | n <= UINT64_MAX

  // ----- Overflow-checked arithmetic

  function AddAndCheckOverflow(arg1: U64, arg2: U64): (r: (bool, U64))
    ensures r.0 <==> arg1 + arg2 < TWO_64
    ensures r.0 ==> r.1 == arg1 + arg2
  {
    var output := (arg1 + arg2) % TWO_64;
    (!(arg2 > UINT64_MAX - arg1), output)
  }

  function MultiplyAndCheckOverflow(arg1: U64, arg2: U64): (r: (bool, U64))
    ensures r.0 <==> arg1 * arg2 < TWO_64
    ensures r.0 ==> r.1 == arg1 * arg2
  {
    ProductFits(arg1, arg2);
    var output := (arg1 * arg2) % TWO_64;
    (!(arg1 != 0 && arg2 > UINT64_MAX / arg1), output)
  }

  lemma ProductFits(a: nat, b: nat)
    ensures a == 0 || b <= UINT64_MAX / a <==> a * b <= UINT64_MAX
  {
    if a > 0 {
      var q := UINT64_MAX / a;
      assert a * q <= UINT64_MAX < a * (q + 1);
      if b <= q {
        assert a * b <= a * q;
      } else {
        assert a * (q + 1) <= a * b;
      }
    }
  }

  // ----- What the digits, groups and terms of a token list are

  /** The length of the leading run of tokens below ten. */
  function RunLength(t: seq<nat>): (n: nat)
    ensures n <= |t|
    ensures forall i :: 0 <= i < n ==> t[i] < 10
    ensures n < |t| ==> t[n] >= 10
  {
    if t == [] || t[0] >= 10 then 0 else 1 + RunLength(t[1..])
  }

  lemma RunLengthAt(t: seq<nat>, k: nat)
    requires k <= RunLength(t)
    ensures k < RunLength(t) <==> k < |t| && t[k] < 10
  {
    hide RunLength;
  }

  function DigitsValue(digits: seq<nat>): nat {
    if digits == [] then 0 else DigitsValue(digits[..|digits| - 1]) * 10 + digits[|digits| - 1]
  }

  function SkipZeros(t: seq<nat>): (r: seq<nat>)
    ensures |r| <= |t| && r == t[|t| - |r|..]
    ensures r == [] || r[0] != 0
    ensures forall i :: 0 <= i < |t| - |r| ==> t[i] == 0
  {
    if t != [] && t[0] == 0 then SkipZeros(t[1..]) else t
  }

  /** A number read off the front, or none; either way some tokens may be gone. */
  datatype Reduced = Found(num: nat, rest: seq<nat>) | Missing(rest: seq<nat>)

  /** The part of a number below 10000 that stands for `base` times a digit, or the whole number in digits. */
  function ReduceDigits(tokens: seq<nat>, base: nat): Reduced { ReduceNonzero(SkipZeros(tokens), base) }

  function ReduceNonzero(t: seq<nat>, base: nat): Reduced {
    if t == [] then Missing([])
    else if t[0] < 10 then
      if |t| < 2 then Missing(t)
      else if t[1] < 10 then
        var n := RunLength(t);
        if DigitsValue(t[..n]) >= base * 10 || (n < |t| && t[n] < 10000) then Missing([])
        else Found(DigitsValue(t[..n]), t[n..])
      else if t[1] != base || (t[0] == 1 && base != 1000) then Missing(t)
      else Found(t[0] * base, t[2..])
    else if t[0] == base || (base == 10 && t[0] == 20) then Found(t[0], t[1..])
    else Missing(t)
  }

  function ReduceOnes(t: seq<nat>): Reduced {
    if t == [] || t[0] >= 10 then Missing(t) else Found(t[0], t[1..])
  }

  function NumOf(r: Reduced): nat { if r.Found? then r.num else 0 }

  /** A number below 10000 at the front, accepted only before the end or a token of at least 10000. */
  function ReduceGroup(t: seq<nat>): Reduced {
    var thousands := ReduceDigits(t, 1000);
    var hundreds := ReduceDigits(thousands.rest, 100);
    var tens := ReduceDigits(hundreds.rest, 10);
    var ones := ReduceOnes(tens.rest);
    var success := thousands.Found? || hundreds.Found? || tens.Found? || ones.Found?;
    if success && (ones.rest == [] || ones.rest[0] >= 10000) then
      Found(NumOf(thousands) + NumOf(hundreds) + NumOf(tens) + NumOf(ones), ones.rest)
    else
      Missing(ones.rest)
  }

  ghost predicate IsSuffix(r: seq<nat>, t: seq<nat>) { |r| <= |t| && r == t[|t| - |r|..] }

  lemma SuffixTrans(a: seq<nat>, b: seq<nat>, c: seq<nat>)
    requires IsSuffix(a, b) && IsSuffix(b, c)
    ensures IsSuffix(a, c)
  {}

  ghost predicate AtBoundary(t: seq<nat>) { t == [] || t[0] >= 10000 }

  lemma DropIsSuffix(t: seq<nat>, n: nat)
    requires n <= |t|
    ensures IsSuffix(t[n..], t)
  {}

  /** One step moves forward, strictly when it finds something. */
  lemma ReduceDigitsForward(tokens: seq<nat>, base: nat)
    ensures IsSuffix(ReduceDigits(tokens, base).rest, tokens)
    ensures ReduceDigits(tokens, base).Found? ==> |ReduceDigits(tokens, base).rest| < |tokens|
  {
    hide SkipZeros, ReduceNonzero, IsSuffix;
    var t := SkipZeros(tokens);
    NonzeroForward(t, base);
    SkippedIsSuffix(tokens);
    SuffixTrans(ReduceNonzero(t, base).rest, t, tokens);
  }

  lemma SkippedIsSuffix(t: seq<nat>)
    ensures IsSuffix(SkipZeros(t), t)
  {}

  /** What a reduction leaves is an end of what it was given, and shorter when it finds something. */
  ghost predicate MovesForward(r: Reduced, t: seq<nat>) { IsSuffix(r.rest, t) && (r.Found? ==> |r.rest| < |t|) }

  lemma RunForward(t: seq<nat>, base: nat)
    requires |t| >= 2 && t[0] < 10 && t[1] < 10
    ensures MovesForward(ReduceNonzero(t, base), t)
  {
    hide RunLength, DigitsValue, IsSuffix;
    RunLengthAt(t, 0);
    DropIsSuffix(t, RunLength(t));
    DropIsSuffix(t, |t|);
    assert t[|t|..] == [];
  }

  lemma RankForward(t: seq<nat>, base: nat)
    requires |t| >= 2 && t[0] < 10 <= t[1]
    ensures MovesForward(ReduceNonzero(t, base), t)
  {
    hide RunLength, DigitsValue, IsSuffix;
    DropIsSuffix(t, 0);
    DropIsSuffix(t, 2);
    assert t[0..] == t;
  }

  lemma OneForward(t: seq<nat>, base: nat)
    requires t != [] && (t[0] >= 10 || |t| == 1)
    ensures MovesForward(ReduceNonzero(t, base), t)
  {
    hide RunLength, DigitsValue, IsSuffix;
    DropIsSuffix(t, 0);
    DropIsSuffix(t, 1);
    assert t[0..] == t;
  }

  lemma NothingForward(t: seq<nat>, base: nat)
    requires t == []
    ensures MovesForward(ReduceNonzero(t, base), t)
  {}

  lemma NonzeroForward(t: seq<nat>, base: nat)
    ensures MovesForward(ReduceNonzero(t, base), t)
  {
    hide ReduceNonzero, MovesForward;
    if t == [] { NothingForward(t, base); }
    else if t[0] >= 10 || |t| == 1 { OneForward(t, base); }
    else if t[1] >= 10 { RankForward(t, base); }
    else { RunForward(t, base); }
  }

  /** What one step finds is at most nine times its base, or a whole number in digits before a boundary. */
  lemma ReduceDigitsBounds(tokens: seq<nat>, base: nat)
    requires base == 10 || base == 100 || base == 1000
    ensures var r := ReduceDigits(tokens, base);
      r.Found? ==> r.num <= 9 * base || (r.num < 10 * base && AtBoundary(r.rest))
  {
    hide DigitsValue, RunLength, SkipZeros;
  }

  lemma ReduceDigitsStep(t: seq<nat>, base: nat)
    requires base == 10 || base == 100 || base == 1000
    ensures var r := ReduceDigits(t, base);
      && IsSuffix(r.rest, t)
      && (r.Found? ==> |r.rest| < |t| && (r.num <= 9 * base || (r.num < 10 * base && AtBoundary(r.rest))))
  {
    hide ReduceDigits, IsSuffix, AtBoundary;
    ReduceDigitsForward(t, base);
    ReduceDigitsBounds(t, base);
  }

  lemma NothingAtBoundary(t: seq<nat>, base: nat)
    requires AtBoundary(t) && base <= 1000
    ensures ReduceDigits(t, base) == Missing(t) && ReduceOnes(t) == Missing(t)
  {}

  lemma ReduceOnesBounds(t: seq<nat>)
    ensures var r := ReduceOnes(t);
      IsSuffix(r.rest, t) && (r.Found? ==> |r.rest| < |t| && r.num < 10)
  {}

  /** The parts of a group one behind the other. */
  lemma GroupMovesForward(t: seq<nat>)
    ensures var hundreds := ReduceDigits(t, 1000).rest;
      var tens := ReduceDigits(hundreds, 100).rest;
      var ones := ReduceDigits(tens, 10).rest;
      && |ReduceOnes(ones).rest| <= |ones| <= |tens| <= |hundreds| <= |t|
      && IsSuffix(ReduceOnes(ones).rest, t)
  {
    hide ReduceDigits, ReduceOnes, IsSuffix, AtBoundary;
    var a := ReduceDigits(t, 1000);
    var b := ReduceDigits(a.rest, 100);
    var c := ReduceDigits(b.rest, 10);
    var d := ReduceOnes(c.rest);
    ReduceDigitsStep(t, 1000);
    ReduceDigitsStep(a.rest, 100);
    ReduceDigitsStep(b.rest, 10);
    ReduceOnesBounds(c.rest);
    SuffixTrans(b.rest, a.rest, t);
    SuffixTrans(c.rest, b.rest, t);
    SuffixTrans(d.rest, c.rest, t);
    SuffixLength(a.rest, t);
    SuffixLength(b.rest, a.rest);
    SuffixLength(c.rest, b.rest);
    SuffixLength(d.rest, c.rest);
  }

  /** ReduceNumberLessThan10000 never goes back, strictly advances on acceptance, and stays below 10000. */
  lemma ReduceGroupBounds(t: seq<nat>)
    ensures var g := ReduceGroup(t);
      && IsSuffix(g.rest, t)
      && (g.Found? ==> |g.rest| < |t| && g.num < 10000 && AtBoundary(g.rest))
  {
    hide ReduceDigits, ReduceOnes, IsSuffix, AtBoundary;
    var a := ReduceDigits(t, 1000);
    var b := ReduceDigits(a.rest, 100);
    var c := ReduceDigits(b.rest, 10);
    GroupMovesForward(t);
    ReduceDigitsStep(t, 1000);
    ReduceDigitsStep(a.rest, 100);
    ReduceDigitsStep(b.rest, 10);
    ReduceOnesBounds(c.rest);
    if AtBoundary(a.rest) {
      NothingAtBoundary(a.rest, 100);
      NothingAtBoundary(a.rest, 10);
    }
    if AtBoundary(b.rest) { NothingAtBoundary(b.rest, 10); }
    if AtBoundary(c.rest) { NothingAtBoundary(c.rest, 10); }
    BoundaryIs(ReduceOnes(c.rest).rest);
  }

  lemma BoundaryIs(t: seq<nat>)
    ensures AtBoundary(t) <==> t == [] || t[0] >= 10000
  {}

  lemma SuffixLength(r: seq<nat>, t: seq<nat>)
    requires IsSuffix(r, t)
    ensures |r| <= |t|
  {}

  // ----- The value of a whole token list, in unbounded arithmetic

  /** A coefficient and the scale token after it; the scale of a closing coefficient is 1. */
  datatype Term = Term(coef: nat, scale: nat)

  function Terms(t: seq<nat>): Option<seq<Term>>
    decreases |t|
  {
    ReduceGroupBounds(t);
    match ReduceGroup(t)
    case Missing(_) => None
    case Found(num, rest) =>
      if rest == [] then Some([Term(num, 1)])
      else if |rest| == 1 then Some([Term(num, rest[0])])
      else
        match Terms(rest[1..])
        case None => None
        case Some(terms) => Some([Term(num, rest[0])] + terms)
  }

  function Total(terms: seq<Term>): nat {
    if terms == [] then 0 else terms[0].coef * terms[0].scale + Total(terms[1..])
  }

  /** The scales strictly decrease, from below the limit on. */
  ghost predicate Decreasing(limit: nat, terms: seq<Term>) {
    && (terms != [] ==> terms[0].scale < limit)
    && forall i :: 0 < i < |terms| ==> terms[i].scale < terms[i - 1].scale
  }

  /** The sum of coefficient times scale, when every group is accepted and the scales strictly decrease. */
  ghost function JapaneseValue(limit: nat, t: seq<nat>): Option<nat> {
    var terms := Terms(t);
    if terms.Some? && Decreasing(limit, terms.value) then Some(Total(terms.value)) else None
  }

  /** The value of a list: base-10 digits when there is no scale at all, else the Japanese reading. */
  ghost function Value(t: seq<nat>): Option<nat> {
    if t == [] then None
    else if forall i :: 0 <= i < |t| ==> t[i] < 10 then Some(DigitsValue(t))
    else JapaneseValue(UINT64_MAX, t)
  }

  lemma JapaneseStep(limit: nat, t: seq<nat>)
    ensures JapaneseValue(limit, t) == match ReduceGroup(t)
      case Missing(_) => None
      case Found(num, rest) =>
        if rest == [] then (if 1 < limit then Some(num) else None)
        else if rest[0] >= limit then None
        else if |rest| == 1 then Some(num * rest[0])
        else match JapaneseValue(rest[0], rest[1..])
          case None => None
          case Some(v) => Some(num * rest[0] + v)
  {
    hide ReduceGroup;
    match ReduceGroup(t)
    case Missing(_) =>
    case Found(num, rest) =>
      if |rest| <= 1 {
        var single := [Term(num, if rest == [] then 1 else rest[0])];
        assert single[1..] == [];
        assert Terms(t) == Some(single) && Total(single) == num * single[0].scale;
        assert Decreasing(limit, single) == (single[0].scale < limit);
      } else {
        match Terms(rest[1..])
        case None =>
        case Some(later) =>
          var first := Term(num, rest[0]);
          DecreasingCons(limit, first, later);
          assert ([first] + later)[1..] == later;
          hide Decreasing;
          assert Terms(t) == Some([first] + later);
      }
  }

  lemma ThousandIsRead(t: seq<nat>)
    ensures ReduceDigits([1000] + t, 1000) == Found(1000, t)
  {
    var all := [1000] + t;
    assert all[1..] == t && SkipZeros(all) == all;
  }

  lemma LongRunIsDropped(t: seq<nat>)
    requires |t| >= 2 && 0 < t[0] < 10 && t[1] < 10
    requires var n := RunLength(t); DigitsValue(t[..n]) >= 1000 || (n < |t| && t[n] < 10000)
    ensures ReduceDigits(t, 100) == Missing([])
  {
    hide DigitsValue, RunLength;
    assert SkipZeros(t) == t;
  }

  lemma DroppedGroup(t: seq<nat>)
    requires ReduceDigits(t, 100) == Missing([])
    ensures ReduceGroup([1000] + t) == Found(1000, [])
  {
    hide ReduceDigits;
    ThousandIsRead(t);
    NothingToRead(10);
  }

  lemma NothingToRead(base: nat)
    ensures ReduceDigits([], base) == Missing([]) && ReduceOnes([]) == Missing([])
  {}

  /** A digit run behind a thousand that is too long, or stands before a rank, is dropped with everything after it: the
      list is accepted, and only the thousand counts. */
  lemma RestIsDropped(t: seq<nat>)
    requires |t| >= 2 && 0 < t[0] < 10 && t[1] < 10
    requires var n := RunLength(t); DigitsValue(t[..n]) >= 1000 || (n < |t| && t[n] < 10000)
    ensures Value([1000] + t) == Some(1000)
  {
    hide DigitsValue, RunLength, ReduceGroup, ReduceDigits, JapaneseValue;
    LongRunIsDropped(t);
    DroppedGroup(t);
    JapaneseStep(UINT64_MAX, [1000] + t);
    assert ([1000] + t)[0] == 1000;
  }

  lemma DecreasingCons(limit: nat, first: Term, later: seq<Term>)
    ensures Decreasing(limit, [first] + later) <==> first.scale < limit && Decreasing(first.scale, later)
  {
    var all := [first] + later;
    assert forall i :: 0 <= i < |later| ==> all[i + 1] == later[i];
    if Decreasing(limit, all) {
      forall i | 0 < i < |later| ensures later[i].scale < later[i - 1].scale {
        assert all[i + 1].scale < all[i].scale;
      }
    }
  }

  // ----- The methods

  method ReduceLeadingNumbersAsBase10System(numbers: seq<U64>, begin0: nat) returns (ok: bool, begin: nat, output: U64)
    requires begin0 <= |numbers|
    ensures var n := RunLength(numbers[begin0..]); var v := DigitsValue(numbers[begin0..begin0 + n]);
      && ok == (v < TWO_64)
      && (ok ==> begin == begin0 + n && output == v)
      && begin0 <= begin <= |numbers|
  {
    hide RunLength;
    ghost var t, n := numbers[begin0..], RunLength(numbers[begin0..]);
    ghost var run := numbers[begin0..begin0 + n];
    output := 0;
    begin := begin0;
    while begin < |numbers|
      invariant begin0 <= begin <= begin0 + n
      invariant output == DigitsValue(run[..begin - begin0])
    {
      ghost var k := begin - begin0;
      RunLengthAt(t, k);
      if numbers[begin] >= 10 { break; }
      assert run[..k + 1][..k] == run[..k] && run[k] == numbers[begin];
      DigitsValuePrefix(run, k + 1);
      var tens := MultiplyAndCheckOverflow(output, 10);
      if !tens.0 {
        return false, begin, tens.1;
      }
      var sum := AddAndCheckOverflow(tens.1, numbers[begin]);
      output := sum.1;
      if !sum.0 {
        return false, begin, output;
      }
      begin := begin + 1;
    }
    RunLengthAt(t, begin - begin0);
    assert run[..begin - begin0] == run;
    ok := true;
  }

  lemma {:induction false} DigitsValuePrefix(digits: seq<nat>, k: nat)
    requires k <= |digits|
    ensures DigitsValue(digits[..k]) <= DigitsValue(digits)
    decreases |digits|
  {
    if k < |digits| {
      var init := digits[..|digits| - 1];
      assert init[..k] == digits[..k];
      DigitsValuePrefix(init, k);
    } else {
      assert digits[..k] == digits;
    }
  }

  method InterpretNumbersAsBase10System(numbers: seq<U64>) returns (ok: bool, output: U64)
    ensures ok == ((forall i :: 0 <= i < |numbers| ==> numbers[i] < 10) && DigitsValue(numbers) < TWO_64)
    ensures ok ==> output == DigitsValue(numbers)
  {
    var success, begin, out := ReduceLeadingNumbersAsBase10System(numbers, 0);
    assert numbers[0..] == numbers && numbers[0..|numbers|] == numbers;
    ok, output := success && begin == |numbers|, out;
  }

  method ReduceOnesDigit(numbers: seq<U64>, begin0: nat) returns (ok: bool, begin: nat, num: U64)
    requires begin0 <= |numbers|
    ensures var r := ReduceOnes(numbers[begin0..]);
      && ok == r.Found? && begin0 <= begin <= |numbers| && numbers[begin..] == r.rest
      && (ok ==> num == r.num < 10)
  {
    if begin0 == |numbers| || numbers[begin0] >= 10 {
      return false, begin0, 0;
    }
    ok, begin, num := true, begin0 + 1, numbers[begin0];
  }

  lemma ZeroSkipped(t: seq<nat>, i: nat)
    requires i <= |t|
    ensures i < |t| && t[i] == 0 ==> SkipZeros(t[i..]) == SkipZeros(t[i + 1..])
    ensures i == |t| || t[i] != 0 ==> SkipZeros(t[i..]) == t[i..]
  {
    if i < |t| { assert t[i..][1..] == t[i + 1..]; }
  }

  /** The first loop of ReduceDigitsHelper. */
  method SkipLeadingZeros(numbers: seq<U64>, begin0: nat) returns (begin: nat)
    requires begin0 <= |numbers|
    ensures begin0 <= begin <= |numbers| && numbers[begin..] == SkipZeros(numbers[begin0..])
  {
    hide SkipZeros;
    begin := begin0;
    while begin != |numbers| && numbers[begin] == 0
      invariant begin0 <= begin <= |numbers|
      invariant SkipZeros(numbers[begin..]) == SkipZeros(numbers[begin0..])
    {
      ZeroSkipped(numbers, begin);
      begin := begin + 1;
    }
    ZeroSkipped(numbers, begin);
  }

  lemma SmallProduct(a: nat, b: nat)
    requires a < 10 && b <= 1000
    ensures a * b <= 9 * b <= 9000
  {}

  /** The branch of ReduceDigitsHelper for a number written in digits. */
  method ReduceDigitRun(numbers: seq<U64>, begin0: nat, expectedBase: U64) returns (ok: bool, begin: nat, num: U64)
    requires begin0 <= |numbers| && expectedBase <= 1000
    ensures var t := numbers[begin0..]; var n := RunLength(t);
      && ok == !(DigitsValue(t[..n]) >= expectedBase * 10 || (n < |t| && t[n] < 10000))
      && begin0 <= begin <= |numbers| && numbers[begin..] == (if ok then t[n..] else [])
      && (ok ==> num == DigitsValue(t[..n]))
  {
    hide DigitsValue, RunLength;
    ghost var t := numbers[begin0..];
    ok, begin, num := ReduceLeadingNumbersAsBase10System(numbers, begin0);
    assert numbers[begin0..begin0 + RunLength(t)] == t[..RunLength(t)];
    if !ok || num >= expectedBase * 10 || (begin != |numbers| && numbers[begin] < 10000) {
      return false, |numbers|, num;
    }
  }

  /** What a Reduce method leaves: its result, the iterator and the number. */
  ghost predicate Leaves(r: Reduced, numbers: seq<U64>, begin0: nat, ok: bool, begin: nat, num: nat)
    requires begin0 <= |numbers|
  {
    ok == r.Found? && begin0 <= begin <= |numbers| && numbers[begin..] == r.rest && (ok ==> num == r.num)
  }

  /** The branch of ReduceDigitsHelper for a leading number below ten. */
  method ReduceFromDigit(numbers: seq<U64>, begin0: nat, expectedBase: U64) returns (ok: bool, begin: nat, num: U64)
    requires begin0 < |numbers| && numbers[begin0] < 10 && expectedBase <= 1000
    ensures Leaves(ReduceNonzero(numbers[begin0..], expectedBase), numbers, begin0, ok, begin, num)
  {
    hide DigitsValue, RunLength;
    ghost var t := numbers[begin0..];
    ok, begin, num := false, begin0, 0;
    if |numbers| - begin < 2 { return; }
    var leadingNumber, nextNumber := numbers[begin], numbers[begin + 1];
    assert leadingNumber == t[0] && nextNumber == t[1];
    if nextNumber < 10 {
      ok, begin, num := ReduceDigitRun(numbers, begin, expectedBase);
      return;
    }
    if nextNumber != expectedBase || (leadingNumber == 1 && expectedBase != 1000) { return; }
    assert numbers[begin + 2..] == t[2..];
    SmallProduct(leadingNumber, expectedBase);
    return true, begin + 2, leadingNumber * expectedBase;
  }

  lemma NonzeroAt(t: seq<nat>, base: nat)
    requires t == [] || t[0] >= 10
    ensures ReduceNonzero(t, base) ==
      if t != [] && (t[0] == base || (base == 10 && t[0] == 20)) then Found(t[0], t[1..]) else Missing(t)
  {}

  method ReduceDigitsHelper(numbers: seq<U64>, begin0: nat, expectedBase: U64) returns (ok: bool, begin: nat, num: U64)
    requires begin0 <= |numbers| && expectedBase <= 1000
    ensures Leaves(ReduceDigits(numbers[begin0..], expectedBase), numbers, begin0, ok, begin, num)
  {
    hide SkipZeros, ReduceNonzero;
    num := 0;
    begin := SkipLeadingZeros(numbers, begin0);
    ghost var t := numbers[begin..];
    if begin == |numbers| {
      NonzeroAt(t, expectedBase);
      return false, begin, num;
    }
    var leadingNumber := numbers[begin];
    if leadingNumber < 10 {
      ok, begin, num := ReduceFromDigit(numbers, begin, expectedBase);
      return;
    }
    NonzeroAt(t, expectedBase);
    if leadingNumber == expectedBase || (expectedBase == 10 && leadingNumber == 20) {
      assert numbers[begin + 1..] == t[1..];
      return true, begin + 1, leadingNumber;
    }
    ok := false;
  }

  method ReduceNumberLessThan10000(numbers: seq<U64>, begin0: nat) returns (ok: bool, begin: nat, num: U64)
    requires begin0 <= |numbers|
    ensures var g := ReduceGroup(numbers[begin0..]);
      && ok == g.Found? && begin0 <= begin <= |numbers| && numbers[begin..] == g.rest
      && (ok ==> begin > begin0 && num == g.num < 10000)
  {
    hide ReduceDigits, ReduceOnes;
    ghost var t := numbers[begin0..];
    GroupAdvances(t);
    num, begin := 0, begin0;
    var success := false;
    var found, n;
    ReduceDigitsBounds(numbers[begin..], 1000);
    found, begin, n := ReduceDigitsHelper(numbers, begin, 1000);
    if found {
      num := num + n;
      success := true;
    }
    ReduceDigitsBounds(numbers[begin..], 100);
    found, begin, n := ReduceDigitsHelper(numbers, begin, 100);
    if found {
      num := num + n;
      success := true;
    }
    ReduceDigitsBounds(numbers[begin..], 10);
    found, begin, n := ReduceDigitsHelper(numbers, begin, 10);
    if found {
      num := num + n;
      success := true;
    }
    found, begin, n := ReduceOnesDigit(numbers, begin);
    if found {
      num := num + n;
      success := true;
    }
    ok := success && (begin == |numbers| || numbers[begin] >= 10000);
    assert begin < |numbers| ==> numbers[begin] == numbers[begin..][0];
  }

  lemma GroupAdvances(t: seq<nat>)
    ensures ReduceGroup(t).Found? ==> |ReduceGroup(t).rest| < |t| && ReduceGroup(t).num < 10000
  {
    hide ReduceGroup;
    ReduceGroupBounds(t);
  }

  /** Never a wrapped value: the exact sum when it is below 2^64, and a rejection otherwise. */
  method InterpretNumbersInJapaneseWay(numbers: seq<U64>) returns (ok: bool, output: U64)
    ensures var v := JapaneseValue(UINT64_MAX, numbers);
      ok == (v.Some? && v.value < TWO_64) && (ok ==> output == v.value)
  {
    hide ReduceGroup, JapaneseValue;
    ghost var whole := JapaneseValue(UINT64_MAX, numbers);
    var lastBase: U64, begin := UINT64_MAX, 0;
    output := 0;
    assert numbers[0..] == numbers;
    while true
      invariant begin <= |numbers|
      invariant whole == Shifted(output, JapaneseValue(lastBase, numbers[begin..]))
      invariant lastBase >= 10000
      decreases |numbers| - begin
    {
      ghost var t := numbers[begin..];
      JapaneseStep(lastBase, t);
      ReduceGroupBounds(t);
      var accepted, coef;
      accepted, begin, coef := ReduceNumberLessThan10000(numbers, begin);
      if !accepted {
        return false, output;
      }
      if begin == |numbers| {
        var r := AddAndCheckOverflow(output, coef);
        return r.0, r.1;
      }
      ghost var rest := numbers[begin..];
      assert numbers[begin] == rest[0] && numbers[begin + 1..] == rest[1..];
      if numbers[begin] >= lastBase {
        return false, output;
      }
      var delta := MultiplyAndCheckOverflow(coef, numbers[begin]);
      if !delta.0 {
        return false, output;
      }
      var sum := AddAndCheckOverflow(output, delta.1);
      output := sum.1;
      if !sum.0 {
        return false, output;
      }
      lastBase := numbers[begin];
      begin := begin + 1;
      if begin == |numbers| {
        break;
      }
    }
    ok := true;
  }

  ghost function Shifted(n: nat, v: Option<nat>): Option<nat> {
    match v
    case None => None
    case Some(m) => Some(n + m)
  }

  method NormalizeNumbersHelper(numbers: seq<U64>) returns (ok: bool, output: U64)
    ensures ok == (Value(numbers).Some? && Value(numbers).value < TWO_64)
    ensures ok ==> output == Value(numbers).value
  {
    hide JapaneseValue, DigitsValue;
    if numbers == [] {
      return false, 0;
    }
    var max := numbers[0];
    for i := 0 to |numbers|
      invariant max in numbers && forall j :: 0 <= j < i ==> numbers[j] <= max
    {
      if max < numbers[i] {
        max := numbers[i];
      }
    }
    if max < 10 {
      ok, output := InterpretNumbersAsBase10System(numbers);
    } else {
      ok, output := InterpretNumbersInJapaneseWay(numbers);
    }
  }
}
