/**
 Decode (strings/internal/utf8_internal.cc): one character from a range of bytes.

 `IsWellFormedChar` is Table 3-7 of the Unicode Standard and `Scalar` its Table 3-6. `Decoded`
 says what Decode returns in these terms; an ill-formed part is as long as the longest
 beginning of a character (`TruncatedIsBeginning`).
 */
module Utf8Decoder {
  import opened Basics

  // ----- The Unicode Standard, section 3.9

  /** The first two bytes of a character of at least two bytes. */
  predicate IsPair(b0: octet, b1: octet) {
    || (0xc2 <= b0 <= 0xdf && IsContinuation(b1))
    || (b0 == 0xe0 && 0xa0 <= b1 <= 0xbf)
    || (0xe1 <= b0 <= 0xec && IsContinuation(b1))
    || (b0 == 0xed && 0x80 <= b1 <= 0x9f)
    || (0xee <= b0 <= 0xef && IsContinuation(b1))
    || (b0 == 0xf0 && 0x90 <= b1 <= 0xbf)
    || (0xf1 <= b0 <= 0xf3 && IsContinuation(b1))
    || (b0 == 0xf4 && 0x80 <= b1 <= 0x8f)
  }

  predicate IsWellFormedChar(s: seq<octet>) {
    match |s|
    case 1 => s[0] <= 0x7f
    case 2 => s[0] <= 0xdf && IsPair(s[0], s[1])
    case 3 => 0xe0 <= s[0] <= 0xef && IsPair(s[0], s[1]) && IsContinuation(s[2])
    case 4 => 0xf0 <= s[0] && IsPair(s[0], s[1]) && IsContinuation(s[2]) && IsContinuation(s[3])
    case _ => false
  }

  function Scalar(s: seq<octet>): nat
    requires IsWellFormedChar(s)
  {
    var b0: int := s[0];
    match |s|
    case 1 => b0
    case 2 => (b0 - 0xc0) * 0x40 + Payload(s[1])
    case 3 => (b0 - 0xe0) * 0x1000 + Payload(s[1]) * 0x40 + Payload(s[2])
    case _ => (b0 - 0xf0) * 0x40000 + Payload(s[1]) * 0x1000 + Payload(s[2]) * 0x40 + Payload(s[3])
  }

  /** The lower six bits of a trailing byte. */
  function Payload(b: octet): nat { b % 0x40 }

  /** More bytes would make it a character. */
  predicate IsTruncated(s: seq<octet>) {
    match |s|
    case 1 => 0xc2 <= s[0] <= 0xf4
    case 2 => 0xe0 <= s[0] && IsPair(s[0], s[1])
    case 3 => 0xf0 <= s[0] && IsPair(s[0], s[1]) && IsContinuation(s[2])
    case _ => false
  }

  lemma TruncatedIsBeginning(s: seq<octet>)
    requires s != []
    ensures IsTruncated(s) <==> exists t: seq<octet> :: t != [] && IsWellFormedChar(s + t)
  {
    if IsTruncated(s) {
      var second: octet := if s[0] == 0xe0 || s[0] == 0xf0 then 0xa0 else 0x80;
      var t: seq<octet> := match |s|
        case 1 => if s[0] < 0xe0 then [0x80] else if s[0] < 0xf0 then [second, 0x80] else [second, 0x80, 0x80]
        case 2 => if s[0] < 0xf0 then [0x80] else [0x80, 0x80]
        case _ => [0x80];
      assert t != [] && IsWellFormedChar(s + t);
    }
  }

  lemma ScalarOfThree(s: seq<octet>)
    requires IsWellFormedChar(s) && |s| == 3
    ensures 0x800 <= Scalar(s) <= 0xffff && !(0xd800 <= Scalar(s) <= 0xdfff)
  {}

  lemma ScalarOfFour(s: seq<octet>)
    requires IsWellFormedChar(s) && |s| == 4
    ensures 0x10000 <= Scalar(s) <= 0x10ffff
  {}

  /** A character is a scalar value in the shortest form. */
  lemma ScalarIsShortest(s: seq<octet>)
    requires IsWellFormedChar(s)
    ensures var c := Scalar(s);
      && c <= 0x10ffff && !(0xd800 <= c <= 0xdfff)
      && |s| == if c <= 0x7f then 1 else if c <= 0x7ff then 2 else if c <= 0xffff then 3 else 4
  {
    if |s| == 3 { ScalarOfThree(s); } else if |s| == 4 { ScalarOfFour(s); }
    hide IsContinuation;
  }

  // ----- What Decode returns

  datatype DecodeResult = Continue(cp: nat, seen: nat) | Error(seen: nat) | Sentinel

  predicate StartsWith(s: seq<octet>, n: nat) { n <= |s| && IsWellFormedChar(s[..n]) }

  /** The length of the ill-formed part at the front. */
  function IllFormedLength(s: seq<octet>): (n: nat)
    requires s != []
    ensures 1 <= n <= |s| && n <= 3
  {
    if |s| >= 3 && IsTruncated(s[..3]) then 3 else if |s| >= 2 && IsTruncated(s[..2]) then 2 else 1
  }

  function Decoded(s: seq<octet>): (r: DecodeResult)
    ensures s == [] <==> r == Sentinel
    ensures s != [] ==> 1 <= r.seen <= |s|
  {
    if s == [] then Sentinel
    else if StartsWith(s, 1) then Continue(Scalar(s[..1]), 1)
    else if StartsWith(s, 2) then Continue(Scalar(s[..2]), 2)
    else if StartsWith(s, 3) then Continue(Scalar(s[..3]), 3)
    else if StartsWith(s, 4) then Continue(Scalar(s[..4]), 4)
    else Error(IllFormedLength(s))
  }

  /** A character is decoded in the same way whatever follows it. */
  lemma DecodedPrefix(s: seq<octet>, tail: seq<octet>)
    requires IsWellFormedChar(s)
    ensures Decoded(s + tail) == Continue(Scalar(s), |s|)
  {
    var t := s + tail;
    assert t[..|s|] == s;
    assert forall n :: 1 <= n < |s| ==> t[..n] == s[..n];
  }

  lemma ContinueIsChar(s: seq<octet>)
    requires Decoded(s).Continue?
    ensures var r := Decoded(s); IsWellFormedChar(s[..r.seen]) && r.cp == Scalar(s[..r.seen])
  {}

  // ----- Decode

  /** kSecondByteBoundaries. */
  function SecondByteBoundary(lead: octet): (octet, octet) {
    if lead < 0xc2 || 0xf4 < lead then (0xff, 0x00)
    else if lead == 0xe0 then (0xa0, 0xbf)
    else if lead == 0xed then (0x80, 0x9f)
    else if lead == 0xf0 then (0x90, 0xbf)
    else if lead == 0xf4 then (0x80, 0x8f)
    else (0x80, 0xbf)
  }

  predicate IsValidSecondByte(lead: octet, second: octet) {
    SecondByteBoundary(lead).0 <= second <= SecondByteBoundary(lead).1
  }

  lemma BoundaryIsPair(lead: octet, second: octet)
    ensures IsValidSecondByte(lead, second) <==> IsPair(lead, second)
  {}

  /** HandleBufferTooShort. */
  method TooShort(s: seq<octet>) returns (seen: nat)
    requires 1 <= |s| < OneCharLen(s[0])
    ensures Decoded(s) == Error(seen)
  {
    if |s| == 1 { return 1; }
    BoundaryIsPair(s[0], s[1]);
    if !IsValidSecondByte(s[0], s[1]) { return 1; }
    seen := 2;
    while seen < |s|
      invariant 2 <= seen <= |s| && forall i :: 2 <= i < seen ==> IsContinuation(s[i])
    {
      if !IsContinuation(s[seen]) { break; }
      seen := seen + 1;
    }
  }

  /** The value of a leading byte and i - 1 trailing bytes. */
  function Value(s: seq<octet>, modulus: nat, i: nat): nat
    requires 1 <= i <= |s| && modulus > 0
  {
    if i == 1 then s[0] % modulus else Value(s, modulus, i - 1) * 0x40 + Payload(s[i - 1])
  }

  /** The modulus keeps the bits of the mask. */
  predicate MaskOf(needed: nat, modulus: nat) {
    (needed, modulus) == (2, 0x20) || (needed, modulus) == (3, 0x10) || (needed, modulus) == (4, 0x08)
  }

  /** A second byte that does not fit. */
  lemma BadPair(s: seq<octet>)
    requires |s| >= 2 && s[0] >= 0x80 && !IsPair(s[0], s[1])
    ensures Decoded(s) == Error(1)
  {}

  /** A later byte that is no trailing byte. */
  lemma BadTrailing(s: seq<octet>, i: nat)
    requires |s| >= 2 && 2 <= i < OneCharLen(s[0]) <= |s| && IsPair(s[0], s[1])
    requires (forall k :: 2 <= k < i ==> IsContinuation(s[k])) && !IsContinuation(s[i])
    ensures Decoded(s) == Error(i)
  {}

  lemma IsChar(s: seq<octet>, needed: nat)
    requires |s| >= 2 && 2 <= needed == OneCharLen(s[0]) <= |s| && IsPair(s[0], s[1])
    requires forall k :: 2 <= k < needed ==> IsContinuation(s[k])
    ensures IsWellFormedChar(s[..needed])
  {}

  lemma {:induction false} ValueOfPrefix(s: seq<octet>, n: nat, modulus: nat, i: nat)
    requires 1 <= i <= n <= |s| && modulus > 0
    ensures Value(s[..n], modulus, i) == Value(s, modulus, i)
  {
    hide Payload;
    if i > 1 { ValueOfPrefix(s, n, modulus, i - 1); }
  }

  lemma ValueSteps(s: seq<octet>, modulus: nat)
    requires modulus > 0
    ensures |s| >= 2 ==> Value(s, modulus, 2) == (s[0] % modulus) * 0x40 + Payload(s[1])
    ensures |s| >= 3 ==> Value(s, modulus, 3) == Value(s, modulus, 2) * 0x40 + Payload(s[2])
    ensures |s| >= 4 ==> Value(s, modulus, 4) == Value(s, modulus, 3) * 0x40 + Payload(s[3])
  {
    hide Payload;
    if |s| >= 1 { assert Value(s, modulus, 1) == s[0] % modulus; }
  }

  /** The mask takes the mark off the leading byte. */
  lemma LeadPayload(b: octet)
    ensures 0xc0 <= b <= 0xdf ==> b % 0x20 == b - 0xc0
    ensures 0xe0 <= b <= 0xef ==> b % 0x10 == b - 0xe0
    ensures 0xf0 <= b <= 0xf7 ==> b % 0x08 == b - 0xf0
  {}

  lemma ValueIsScalar(s: seq<octet>, modulus: nat)
    requires IsWellFormedChar(s) && MaskOf(|s|, modulus)
    ensures Value(s, modulus, |s|) == Scalar(s)
  {
    hide Payload, Value;
    LeadPayload(s[0]);
    ValueSteps(s, modulus);
  }

  lemma GoodSequence(s: seq<octet>, needed: nat, modulus: nat)
    requires |s| >= 2 && 2 <= needed == OneCharLen(s[0]) <= |s| && IsPair(s[0], s[1]) && MaskOf(needed, modulus)
    requires forall k :: 2 <= k < needed ==> IsContinuation(s[k])
    ensures Decoded(s) == Continue(Value(s, modulus, needed), needed)
  {
    hide OneCharLen, IsPair, IsContinuation, Value, Scalar, Decoded, IsWellFormedChar;
    var c := s[..needed];
    IsChar(s, needed);
    ValueIsScalar(c, modulus);
    ValueOfPrefix(s, needed, modulus, needed);
    DecodedPrefix(c, s[needed..]);
    assert c + s[needed..] == s;
  }

  lemma LeadOfTwo(b: octet, second: octet)
    requires OneCharLen(b) == 2
    ensures b >= 0x80 && (IsContinuation(second) <==> IsPair(b, second))
  {}

  lemma LeadIsHigh(b: octet)
    requires OneCharLen(b) >= 2
    ensures b >= 0x80
  {}

  method DecodeSequence(s: seq<octet>, needed: nat, modulus: nat) returns (r: DecodeResult)
    requires s != [] && needed == OneCharLen(s[0]) <= |s| && MaskOf(needed, modulus)
    ensures r == Decoded(s)
  {
    hide Decoded, OneCharLen, IsPair, IsContinuation, IsValidSecondByte, Payload;
    var base := s[0] % modulus;
    LeadIsHigh(s[0]);
    BoundaryIsPair(s[0], s[1]);
    if needed == 2 { LeadOfTwo(s[0], s[1]); }
    if if needed == 2 then !IsContinuation(s[1]) else !IsValidSecondByte(s[0], s[1]) {
      BadPair(s);
      return Error(1);
    }
    base := base * 0x40 + Payload(s[1]);
    for i := 2 to needed
      invariant forall k :: 2 <= k < i ==> IsContinuation(s[k])
      invariant base == Value(s, modulus, i)
    {
      if !IsContinuation(s[i]) {
        BadTrailing(s, i);
        return Error(i);
      }
      base := base * 0x40 + Payload(s[i]);
    }
    GoodSequence(s, needed, modulus);
    r := Continue(base, needed);
  }

  method Decode(s: seq<octet>) returns (r: DecodeResult)
    ensures r == Decoded(s)
  {
    if s == [] { return Sentinel; }
    if s[0] < 0x80 { return Continue(s[0], 1); }
    var needed := OneCharLen(s[0]);
    if |s| < needed {
      var seen := TooShort(s);
      return Error(seen);
    }
    if needed == 3 {
      r := DecodeSequence(s, 3, 0x10);
    } else if needed == 2 {
      r := DecodeSequence(s, 2, 0x20);
    } else if needed == 4 {
      r := DecodeSequence(s, 4, 0x08);
    } else {
      r := Error(1);
    }
  }
}
