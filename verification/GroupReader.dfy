/**
 ReduceNumberLessThan10000 against a reader that goes over the tokens once.

 The parser looks for thousands, for hundreds, for tens and for a digit, one after the other. `Read` takes what
 comes next and only keeps the limit that the next place must stay below; `GroupIsRead` says that
 the two agree on every list of tokens.
 */
module GroupReader {
  import opened Basics
  import opened NumberParser

  /** The value read and the tokens that are left. */
  datatype Reading = Reading(value: nat, rest: seq<nat>)

  predicate IsRank(base: nat) { base == 10 || base == 100 || base == 1000 }

  /** In Japanese one says thousand or one thousand, but not one hundred or one ten. */
  predicate MayTimes(digit: nat, rank: nat) { digit > 1 || rank == 1000 }

  /** What is read when all places still to come are below `limit`; `found` when something has been read before. Zeros
      in front of a place are skipped. */
  function Read(t: seq<nat>, limit: nat, found: bool): Option<Reading>
    decreases |t|, 1
  {
    Take(if limit > 10 then SkipZeros(t) else t, limit, found)
  }

  /** The place at the front, and what follows it. A run of digits that does not fit ends the group and is lost with
      everything behind it. */
  function Take(s: seq<nat>, limit: nat, found: bool): Option<Reading>
    decreases |s|, 0
  {
    if AtEnd(s) then
      if found then Some(Reading(0, s)) else None
    else if s[0] < 10 && AtEnd(s[1..]) then
      Some(Reading(s[0], s[1..]))
    else if s[0] < 10 && s[1] < 10 then
      var n := RunLength(s);
      if limit <= 10 then None
      else if AtEnd(s[n..]) && DigitsValue(s[..n]) < limit then Some(Reading(DigitsValue(s[..n]), s[n..]))
      else if found then Some(Reading(0, []))
      else None
    else if s[0] < 10 then
      if IsRank(s[1]) && s[1] < limit && MayTimes(s[0], s[1]) then Add(s[0] * s[1], Read(s[2..], s[1], true)) else None
    else if s[0] == 20 && limit > 10 then
      Add(20, Read(s[1..], 10, true))
    else if IsRank(s[0]) && s[0] < limit then
      Add(s[0], Read(s[1..], s[0], true))
    else None
  }

  /** The end of the group: nothing is left, or a scale. */
  predicate AtEnd(t: seq<nat>) { t == [] || t[0] >= 10000 }

  function Add(v: nat, r: Option<Reading>): Option<Reading> {
    if r == None then None else Some(Reading(v + r.value.value, r.value.rest))
  }

  // ----- One step of the parser

  predicate Stripped(s: seq<nat>) { s != [] ==> s[0] != 0 }

  lemma ReadStripped(s: seq<nat>, limit: nat, found: bool)
    requires Stripped(s)
    ensures Read(s, limit, found) == Take(s, limit, found)
  {}

  lemma TakeEnd(s: seq<nat>, limit: nat, found: bool)
    requires AtEnd(s)
    ensures Take(s, limit, found) == if found then Some(Reading(0, s)) else None
  {}

  lemma TakeDigit(s: seq<nat>, limit: nat, found: bool)
    requires s != [] && s[0] < 10 && AtEnd(s[1..])
    ensures Take(s, limit, found) == Some(Reading(s[0], s[1..]))
  {}

  lemma TakeRun(s: seq<nat>, limit: nat, found: bool)
    requires |s| >= 2 && s[0] < 10 && s[1] < 10 && limit > 10
    ensures var n := RunLength(s);
      Take(s, limit, found) ==
      if AtEnd(s[n..]) && DigitsValue(s[..n]) < limit then Some(Reading(DigitsValue(s[..n]), s[n..]))
      else if found then Some(Reading(0, [])) else None
  {
    hide RunLength, DigitsValue;
    assert s[1..][0] == s[1];
  }

  lemma TakeTimes(s: seq<nat>, limit: nat, found: bool)
    requires |s| >= 2 && s[0] < 10 <= s[1] < 10000
    ensures Take(s, limit, found) ==
      if IsRank(s[1]) && s[1] < limit && MayTimes(s[0], s[1]) then Add(s[0] * s[1], Read(s[2..], s[1], true)) else None
  {
    assert s[1..][0] == s[1];
  }

  lemma TakeRank(s: seq<nat>, limit: nat, found: bool)
    requires s != [] && 10 <= s[0] < 10000
    ensures Take(s, limit, found) ==
      if s[0] == 20 && limit > 10 then Add(20, Read(s[1..], 10, true))
      else if IsRank(s[0]) && s[0] < limit then Add(s[0], Read(s[1..], s[0], true))
      else None
  {}

  /** A step of the parser is one place of the reader, or none. */
  predicate StepAgrees(s: seq<nat>, base: nat, found: bool) {
    var r := ReduceNonzero(s, base);
    Take(s, 10 * base, found) == Add(NumOf(r), Read(r.rest, base, found || r.Found?))
  }

  lemma EndAgrees(s: seq<nat>, base: nat, found: bool)
    requires IsRank(base) && AtEnd(s)
    ensures StepAgrees(s, base, found)
  {
    hide Take, Read;
    TakeEnd(s, 10 * base, found);
    TakeEnd(s, base, found);
    ReadStripped(s, base, found);
  }

  lemma DigitAgrees(s: seq<nat>, base: nat, found: bool)
    requires IsRank(base) && s != [] && 0 < s[0] < 10 && AtEnd(s[1..])
    ensures StepAgrees(s, base, found)
  {
    hide Take, Read, RunLength, DigitsValue;
    TakeDigit(s, 10 * base, found);
    TakeDigit(s, base, found);
    ReadStripped(s, base, found);
    if |s| > 1 { assert s[1..][0] == s[1]; }
  }

  lemma RunAgrees(s: seq<nat>, base: nat, found: bool)
    requires IsRank(base) && |s| >= 2 && 0 < s[0] < 10 && s[1] < 10
    ensures StepAgrees(s, base, found)
  {
    hide Take, Read, RunLength, DigitsValue;
    var n := RunLength(s);
    TakeRun(s, 10 * base, found);
    if AtEnd(s[n..]) {
      TakeEnd(s[n..], base, true);
      ReadStripped(s[n..], base, true);
    }
    TakeEnd([], base, found);
    ReadStripped([], base, found);
    if n < |s| { assert s[n..][0] == s[n]; }
  }

  lemma TimesAgrees(s: seq<nat>, base: nat, found: bool)
    requires IsRank(base) && |s| >= 2 && 0 < s[0] < 10 <= s[1] < 10000
    ensures StepAgrees(s, base, found)
  {
    hide Take, Read, RunLength, DigitsValue;
    TakeTimes(s, 10 * base, found);
    TakeTimes(s, base, found);
    ReadStripped(s, base, found);
  }

  lemma RankAgrees(s: seq<nat>, base: nat, found: bool)
    requires IsRank(base) && s != [] && 10 <= s[0] < 10000
    ensures StepAgrees(s, base, found)
  {
    hide Take, Read, RunLength, DigitsValue;
    TakeRank(s, 10 * base, found);
    TakeRank(s, base, found);
    ReadStripped(s, base, found);
  }

  lemma StrippedOfSkipped(t: seq<nat>)
    ensures Stripped(SkipZeros(t))
  {}

  lemma ReadIsTake(t: seq<nat>, limit: nat, found: bool)
    requires limit > 10
    ensures Read(t, limit, found) == Take(SkipZeros(t), limit, found)
  {}

  lemma StepIsRead(t: seq<nat>, base: nat, found: bool)
    requires IsRank(base)
    ensures var r := ReduceDigits(t, base);
      Read(t, 10 * base, found) == Add(NumOf(r), Read(r.rest, base, found || r.Found?))
  {
    hide Take, Read, ReduceNonzero, SkipZeros;
    var s := SkipZeros(t);
    StrippedOfSkipped(t);
    ReadIsTake(t, 10 * base, found);
    if AtEnd(s) {
      EndAgrees(s, base, found);
    } else if s[0] >= 10 {
      RankAgrees(s, base, found);
    } else if AtEnd(s[1..]) {
      DigitAgrees(s, base, found);
    } else {
      assert s[1..][0] == s[1];
      if s[1] < 10 { RunAgrees(s, base, found); } else { TimesAgrees(s, base, found); }
    }
  }

  lemma OnesAreRead(t: seq<nat>, found: bool)
    ensures var r := ReduceOnes(t);
      Read(t, 10, found) == if (found || r.Found?) && AtEnd(r.rest) then Some(Reading(NumOf(r), r.rest)) else None
  {
    hide DigitsValue, RunLength;
  }

  /** For every list of tokens the parser and the reader accept the same, with the same value, and leave the same. */
  lemma GroupIsRead(t: seq<nat>)
    ensures var g := ReduceGroup(t);
      Read(t, 10000, false) == if g.Found? then Some(Reading(g.num, g.rest)) else None
  {
    hide ReduceDigits, ReduceOnes, Read;
    var a := ReduceDigits(t, 1000);
    var b := ReduceDigits(a.rest, 100);
    var c := ReduceDigits(b.rest, 10);
    StepIsRead(t, 1000, false);
    StepIsRead(a.rest, 100, a.Found?);
    StepIsRead(b.rest, 10, a.Found? || b.Found?);
    OnesAreRead(c.rest, a.Found? || b.Found? || c.Found?);
  }
}
