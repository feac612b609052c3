/**
 What the parser leaves out: ReduceDigitsHelper jumps to the end of the tokens when a digit run
 is too long for its place or stands before a rank, and an accepted list then stands for
 less than its tokens are worth.

 `Worth` reads every token; `GroupIsExact` and `ValueIsExact` say that the parser's number is
 this worth exactly when no step jumps.
 */
module DroppedTokens {
  import opened Basics
  import opened NumberParser
  import NumberRoundTrip

  // ----- The worth of tokens, with nothing left out

  /** The tokens from the first scale on. */
  function FromScale(t: seq<nat>): (r: seq<nat>)
    ensures |r| <= |t| && AtBoundary(r)
  {
    if t == [] || t[0] >= 10000 then t else FromScale(t[1..])
  }

  /** The worth of the tokens before the first scale: digit runs, alone or times the rank after them, and ranks alone. */
  function Places(t: seq<nat>): nat
    decreases |t|
  {
    if t == [] || t[0] >= 10000 then 0
    else if t[0] == 0 then Places(t[1..])
    else if t[0] >= 10 then t[0] + Places(t[1..])
    else
      var n := RunLength(t);
      RunLengthAt(t, 0);
      if n < |t| && t[n] < 10000 then Times(DigitsValue(t[..n]), t[n]) + Places(t[n + 1..])
      else DigitsValue(t[..n])
  }

  function Times(a: nat, b: nat): nat { a * b }

  /** The worth of a whole list: the places before each scale times the scale. */
  function Worth(t: seq<nat>): nat
    decreases |t|
  {
    var s := FromScale(t);
    if s == [] then Places(t) else Times(Places(t), s[0]) + Worth(s[1..])
  }

  // ----- When a step jumps

  /** The guard of the jump: a run of at least two digits that is worth too much, or stands before a rank. */
  predicate JumpsAt(t: seq<nat>, base: nat) {
    && |t| >= 2 && t[0] < 10 && t[1] < 10
    && var n := RunLength(t);
    && (DigitsValue(t[..n]) >= base * 10 || (n < |t| && t[n] < 10000))
  }

  predicate Jumps(t: seq<nat>, base: nat) { JumpsAt(SkipZeros(t), base) }

  /** One of the three steps of ReduceNumberLessThan10000 jumps. */
  predicate GroupJumps(t: seq<nat>) {
    var hundreds := ReduceDigits(t, 1000).rest;
    Jumps(t, 1000) || Jumps(hundreds, 100) || Jumps(ReduceDigits(hundreds, 100).rest, 10)
  }

  /** One of the groups of a list jumps. */
  predicate Drops(t: seq<nat>)
    decreases |t|
  {
    ReduceGroupBounds(t);
    var g := ReduceGroup(t);
    GroupJumps(t) || (g.Found? && |g.rest| > 1 && Drops(g.rest[1..]))
  }

  // ----- One step

  lemma {:induction false} SkippedZeros(t: seq<nat>)
    ensures Places(SkipZeros(t)) == Places(t) && FromScale(SkipZeros(t)) == FromScale(t)
  {
    if t != [] && t[0] == 0 { SkippedZeros(t[1..]); }
  }

  /** A run of digits before the end or a scale. */
  lemma RunBeforeScale(t: seq<nat>)
    requires t != [] && 0 < t[0] < 10 && AtBoundary(t[RunLength(t)..])
    ensures Places(t) == DigitsValue(t[..RunLength(t)])
  {
    hide DigitsValue, RunLength;
  }

  lemma {:induction false} ScaleBehind(t: seq<nat>, k: nat)
    requires k <= |t| && forall i :: 0 <= i < k ==> t[i] < 10000
    ensures FromScale(t) == FromScale(t[k..])
  {
    if k == 0 {
      assert t[0..] == t;
    } else {
      ScaleBehind(t[1..], k - 1);
      assert t[1..][k - 1..] == t[k..];
    }
  }

  lemma RunOfOne(t: seq<nat>)
    requires t != [] && t[0] < 10 && (|t| > 1 ==> t[1] >= 10)
    ensures RunLength(t) == 1 && DigitsValue(t[..1]) == t[0]
  {
    var d := t[..1];
    assert d == [t[0]] && d[..0] == [];
    if |t| > 1 { assert RunLength(t[1..]) == 0; } else { assert t[1..] == []; }
  }

  /** A digit and a rank. */
  lemma DigitAndRank(t: seq<nat>)
    requires |t| >= 2 && 0 < t[0] < 10 <= t[1] < 10000
    ensures Places(t) == t[0] * t[1] + Places(t[2..]) && FromScale(t) == FromScale(t[2..])
  {
    hide RunLength, DigitsValue;
    RunOfOne(t);
    ScaleBehind(t, 2);
  }

  lemma RankAlone(t: seq<nat>)
    requires t != [] && 10 <= t[0] < 10000
    ensures Places(t) == t[0] + Places(t[1..]) && FromScale(t) == FromScale(t[1..])
  {}

  lemma WholeRun(t: seq<nat>)
    requires t != [] && 0 < t[0] < 10
    ensures var n := RunLength(t); AtBoundary(t[n..]) ==>
      Places(t) == DigitsValue(t[..n]) + Places(t[n..]) && FromScale(t) == FromScale(t[n..])
  {
    hide RunLength, DigitsValue, Places;
    var n := RunLength(t);
    if AtBoundary(t[n..]) {
      RunBeforeScale(t);
      ScaleBehind(t, n);
      NothingAtScale(t[n..]);
    }
  }

  lemma NothingAtScale(t: seq<nat>)
    requires AtBoundary(t)
    ensures Places(t) == 0 && FromScale(t) == t
  {}

  lemma {:induction false} PositiveRun(digits: seq<nat>)
    requires digits != [] && digits[0] > 0
    ensures DigitsValue(digits) > 0
  {
    if |digits| > 1 { PositiveRun(digits[..|digits| - 1]); }
  }

  lemma PositivePlaces(t: seq<nat>)
    requires t != [] && 0 < t[0] < 10
    ensures Places(t) > 0
  {
    hide RunLength, DigitsValue;
    var n := RunLength(t);
    RunLengthAt(t, 0);
    PositiveRun(t[..n]);
    if n < |t| { PositiveProduct(DigitsValue(t[..n]), t[n]); }
  }

  lemma PositiveProduct(a: nat, b: nat)
    requires a > 0 && b > 0
    ensures Times(a, b) >= a
  {}

  /** What a step finds and what it leaves are together worth what it was given, unless it jumps. */
  lemma NonzeroStep(t: seq<nat>, base: nat)
    requires (base == 10 || base == 100 || base == 1000) && (t != [] ==> t[0] != 0)
    ensures var r := ReduceNonzero(t, base);
      if JumpsAt(t, base) then r == Missing([]) && Places(t) > 0
      else Places(t) == NumOf(r) + Places(r.rest) && FromScale(t) == FromScale(r.rest)
  {
    hide RunLength, DigitsValue, Places, FromScale;
    if t != [] && t[0] < 10 {
      PositivePlaces(t);
      if |t| >= 2 && t[1] < 10 {
        WholeRun(t);
        var n := RunLength(t);
        assert n < |t| ==> t[n] == t[n..][0];
      } else if |t| >= 2 && t[1] == base {
        DigitAndRank(t);
      }
    } else if t != [] && t[0] < 10000 {
      RankAlone(t);
    }
  }

  lemma Step(t: seq<nat>, base: nat)
    requires base == 10 || base == 100 || base == 1000
    ensures var r := ReduceDigits(t, base);
      if Jumps(t, base) then r == Missing([]) && Places(t) > 0
      else Places(t) == NumOf(r) + Places(r.rest) && FromScale(t) == FromScale(r.rest)
  {
    hide SkipZeros, JumpsAt, ReduceNonzero, Places, FromScale;
    NonzeroStep(SkipZeros(t), base);
    SkippedZeros(t);
  }

  /** The last digit, when a scale or the end follows. */
  lemma OnesStep(t: seq<nat>)
    requires AtBoundary(ReduceOnes(t).rest)
    ensures Places(t) == NumOf(ReduceOnes(t)) && FromScale(t) == ReduceOnes(t).rest
  {
    hide RunLength, DigitsValue;
    if t != [] && t[0] < 10 {
      if t[0] > 0 { RunOfOne(t); }
      NothingAtScale(t[1..]);
    }
  }

  // ----- One group

  /** Behind a jump nothing is left to read. */
  lemma NothingToReduce(base: nat)
    ensures ReduceDigits([], base) == Missing([]) && ReduceOnes([]) == Missing([]) && !Jumps([], base)
    ensures Places([]) == 0 && FromScale([]) == []
  {}

  /** An accepted group is worth its tokens exactly when no step jumps, and less when one does; a jump takes all tokens. */
  lemma GroupIsExact(t: seq<nat>)
    requires ReduceGroup(t).Found?
    ensures var g := ReduceGroup(t);
      if GroupJumps(t) then g.num < Places(t) && g.rest == [] else g.num == Places(t) && g.rest == FromScale(t)
  {
    hide ReduceDigits, ReduceOnes, Jumps, Places, FromScale;
    var thousands := ReduceDigits(t, 1000);
    var hundreds := ReduceDigits(thousands.rest, 100);
    var tens := ReduceDigits(hundreds.rest, 10);
    Step(t, 1000);
    Step(thousands.rest, 100);
    Step(hundreds.rest, 10);
    OnesStep(tens.rest);
    NothingToReduce(100);
    NothingToReduce(10);
  }

  // ----- A whole list

  lemma WorthAtLeast(t: seq<nat>)
    ensures Worth(t) >= Places(t)
  {
    hide Places, Times;
    var s := FromScale(t);
    if s != [] { AtLeastOnce(Places(t), s[0]); }
  }

  lemma AtLeastOnce(a: nat, b: nat)
    requires b > 0
    ensures Times(a, b) >= a
  {}

  lemma WorthOfNothing()
    ensures Worth([]) == 0
  {}

  /** In the Japanese reading the sum is the worth of the list exactly when no group jumps; a jump also takes the scales
      behind it, and the sum is less. */
  lemma {:induction false} JapaneseIsExact(limit: nat, t: seq<nat>)
    requires JapaneseValue(limit, t).Some?
    ensures var v := JapaneseValue(limit, t).value;
      if Drops(t) then v < Worth(t) else v == Worth(t)
    decreases |t|
  {
    hide ReduceGroup, JapaneseValue, GroupJumps, Places, FromScale;
    JapaneseStep(limit, t);
    GroupIsExact(t);
    ReduceGroupBounds(t);
    WorthAtLeast(t);
    WorthOfNothing();
    var rest := ReduceGroup(t).rest;
    if |rest| > 1 { JapaneseIsExact(rest[0], rest[1..]); }
  }

  predicate AllDigits(t: seq<nat>) { forall i :: 0 <= i < |t| ==> t[i] < 10 }

  /** The parser leaves something out: only in the Japanese reading, when a group jumps. */
  predicate LeavesOut(t: seq<nat>) { !AllDigits(t) && Drops(t) }

  lemma RunOfAll(t: seq<nat>)
    requires AllDigits(t)
    ensures RunLength(t) == |t|
  {
    hide RunLength;
  }

  lemma {:induction false} NoScale(t: seq<nat>)
    requires AllDigits(t)
    ensures FromScale(t) == []
  {
    if t != [] { NoScale(t[1..]); }
  }

  lemma DigitsAreWorth(t: seq<nat>)
    requires AllDigits(t)
    ensures Worth(t) == DigitsValue(t)
  {
    hide DigitsValue, RunLength, SkipZeros, Places;
    var s := SkipZeros(t);
    NumberRoundTrip.SkippedZerosAreWorthNothing(t);
    NumberRoundTrip.DigitsOfNothing();
    SkippedZeros(t);
    NoScale(t);
    RunOfAll(s);
    assert s[..|s|] == s && s[|s|..] == [];
    if s == [] { NothingAtScale(s); } else { RunBeforeScale(s); }
  }

  /** The parser's number is the worth of the tokens exactly when it leaves nothing out, and less otherwise. */
  lemma ValueIsExact(t: seq<nat>)
    requires Value(t).Some?
    ensures Value(t).value == Worth(t) <==> !LeavesOut(t)
    ensures Value(t).value <= Worth(t)
  {
    hide Drops, Worth, JapaneseValue, DigitsValue;
    if AllDigits(t) {
      DigitsAreWorth(t);
    } else {
      JapaneseIsExact(UINT64_MAX, t);
    }
  }

  /** A list of digits is read alike in both ways when the Japanese reading accepts it. */
  lemma DigitsNeverDrop(limit: nat, t: seq<nat>)
    requires AllDigits(t) && JapaneseValue(limit, t).Some?
    ensures JapaneseValue(limit, t).value == DigitsValue(t)
  {
    hide DigitsValue, Worth, JapaneseValue, ReduceGroup;
    JapaneseStep(limit, t);
    DigitsInOneGroup(t);
    JapaneseIsExact(limit, t);
    DigitsAreWorth(t);
  }

  /** A step on digits takes them all, drops them all, or finds at most one. */
  lemma DigitsStep(t: seq<nat>, base: nat)
    requires AllDigits(t)
    ensures var s, r := SkipZeros(t), ReduceDigits(t, base);
      && (|s| >= 2 ==> r.rest == [] && (r.Found? <==> !Jumps(t, base)))
      && (|s| < 2 ==> r == Missing(s) && !Jumps(t, base))
  {
    hide SkipZeros, RunLength, DigitsValue;
    RunOfAll(SkipZeros(t));
  }

  /** Behind a first step that leaves nothing. */
  lemma NothingLeft(t: seq<nat>)
    requires ReduceDigits(t, 1000).rest == []
    ensures ReduceGroup(t).Found? ==> ReduceDigits(t, 1000).Found?
    ensures ReduceGroup(t).rest == [] && (GroupJumps(t) <==> Jumps(t, 1000))
  {
    hide ReduceDigits, ReduceOnes, Jumps;
    NothingToReduce(100);
    NothingToReduce(10);
  }

  /** Behind steps that find nothing. */
  lemma OnlyOnes(t: seq<nat>, s: seq<nat>)
    requires |s| < 2 && AllDigits(s) && ReduceDigits(t, 1000) == ReduceDigits(s, 100) == ReduceDigits(s, 10) == Missing(s)
    ensures ReduceGroup(t).rest == []
    ensures GroupJumps(t) <==> Jumps(t, 1000) || Jumps(s, 100) || Jumps(s, 10)
  {
    hide ReduceDigits, Jumps;
  }

  lemma DigitsInOneGroup(t: seq<nat>)
    requires AllDigits(t) && ReduceGroup(t).Found?
    ensures !GroupJumps(t) && ReduceGroup(t).rest == []
  {
    hide SkipZeros, ReduceDigits, ReduceGroup, GroupJumps, Jumps;
    var s := SkipZeros(t);
    DigitsStep(t, 1000);
    if |s| < 2 {
      AlreadySkipped(s);
      DigitsStep(s, 100);
      DigitsStep(s, 10);
      OnlyOnes(t, s);
    } else {
      NothingLeft(t);
    }
  }

  lemma AlreadySkipped(s: seq<nat>)
    requires s != [] ==> s[0] != 0
    ensures SkipZeros(s) == s
  {}

  lemma TwelveTens()
    ensures var t := [1, 2, 10]; RunLength(t) == 2 && Places(t) == 120 && FromScale(t) == []
  {
    var t := [1, 2, 10];
    assert t[1..] == [2, 10] && t[2..] == [10] && t[3..] == [];
    assert RunLength([10]) == 0 && RunLength([2, 10]) == 1;
    assert DigitsValue([]) == 0;
    assert [1][..0] == [] && [1, 2][..1] == [1];
    assert DigitsValue([1]) == 1;
    assert t[..2] == [1, 2] && DigitsValue([1, 2]) == 12;
    assert FromScale([10]) == FromScale([]) == [];
  }

  /** A list that says one thousand one hundred and twenty: its last three tokens are dropped. */
  lemma DroppedTwelveTens()
    ensures var t := [1000, 1, 2, 10]; Value(t) == Some(1000) && Worth(t) == 1120 && LeavesOut(t)
  {
    hide RunLength, DigitsValue, Value, Drops, Places, FromScale;
    var t := [1000] + [1, 2, 10];
    assert t == [1000, 1, 2, 10] && t[1..] == [1, 2, 10];
    TwelveTens();
    RestIsDropped([1, 2, 10]);
    RankAlone(t);
    ValueIsExact(t);
  }
}
