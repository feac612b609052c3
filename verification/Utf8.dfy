/**
 The UTF-8 codec of util.cc: SplitFirstChar32, SplitLastChar32, CodepointToUtf8 and the
 conversions built on them.

 `Standard` is the encoding of RFC 2279 section 2, which extends RFC 3629 to 31 bits. The
 decoder accepts exactly its sequences (`ReadsStandard`, `OnlyStandardIsRead`); the encoder
 differs from it on the codepoints that `Faithful` excludes.
 */
module Utf8 {
  import opened Basics

  type char32 = bv32

  function Wide(b: byte): char32 { b as char32 }

  function Low(c: char32): byte { (c & 0xff) as byte }

  predicate IsTrailing(b: byte) { b & 0xc0 == 0x80 }

  predicate AllTrailing(s: seq<byte>) { forall b :: b in s ==> IsTrailing(b) }

  // ----- The encoding of RFC 2279

  /** Number of bytes for a codepoint below 2^31. */
  function Width(c: char32): (n: nat)
    ensures 1 <= n <= 6
  {
    if c < 0x80 then 1 else if c < 0x800 then 2 else if c < 0x10000 then 3
    else if c < 0x200000 then 4 else if c < 0x4000000 then 5 else 6
  }

  /** The high bits of a leading byte. */
  function Mark(n: nat): byte {
    match n
    case 2 => 0xc0
    case 3 => 0xe0
    case 4 => 0xf0
    case 5 => 0xf8
    case _ => 0xfc
  }

  function LeadByte(high: char32, n: nat): byte { Mark(n) + Low(high) }

  function Upper(c: char32): char32 { c >> 6 }

  /** The codepoint without its lowest k groups of six bits. */
  function High(c: char32, k: nat): char32
    decreases k
  { if k == 0 then c else High(Upper(c), k - 1) }

  /** The lowest k groups of six bits, one in each trailing byte. */
  function Continuation(c: char32, k: nat): (s: seq<byte>)
    ensures |s| == k && AllTrailing(s)
    decreases k
  {
    if k == 0 then [] else Continuation(Upper(c), k - 1) + [TrailingByte(c)]
  }

  function TrailingByte(c: char32): (b: byte)
    ensures IsTrailing(b)
  {
    0x80 + Low(c & 0x3f)
  }

  /** A sequence of n bytes that carries the codepoint c. */
  function Sequence(c: char32, n: nat): (s: seq<byte>)
    requires n >= 1
    ensures |s| == n
  {
    if n == 1 then [Low(c)] else [LeadByte(High(c, n - 1), n)] + Continuation(c, n - 1)
  }

  function Standard(c: char32): seq<byte> { Sequence(c, Width(c)) }

  // ----- SplitFirstChar32

  /** Length announced by a leading byte; 0 for a byte that cannot lead. */
  function SequenceLength(b: byte): (n: nat)
    ensures n <= 6
  {
    if b < 0x80 then 1
    else if IsTrailing(b) then 0
    else if b & 0xe0 == 0xc0 then 2
    else if b & 0xf0 == 0xe0 then 3
    else if b & 0xf8 == 0xf0 then 4
    else if b & 0xfc == 0xf8 then 5
    else if b & 0xfe == 0xfc then 6
    else 0
  }

  function LeadMask(n: nat): byte {
    match n
    case 2 => 0x1f
    case 3 => 0x0f
    case 4 => 0x07
    case 5 => 0x03
    case _ => 0x01
  }

  function MinValue(n: nat): char32 {
    match n
    case 2 => 0x80
    case 3 => 0x800
    case 4 => 0x10000
    case 5 => 0x200000
    case _ => 0x4000000
  }

  function MaxValue(n: nat): char32 {
    match n
    case 2 => 0x7ff
    case 3 => 0xffff
    case 4 => 0x1fffff
    case 5 => 0x3ffffff
    case _ => 0x7fffffff
  }

  function Lead(b: byte): char32 { Wide(b & LeadMask(SequenceLength(b))) }

  /** Not a redundant sequence. */
  predicate InRange(v: char32, n: nat) { MinValue(n) <= v <= MaxValue(n) }

  /** The value gathered from trailing bytes, six bits each. */
  function Gather(v: char32, s: seq<byte>): char32 {
    if s == [] then v else Push(Gather(v, s[..|s| - 1]), s[|s| - 1])
  }

  function Push(v: char32, b: byte): char32 { (v << 6) + Wide(b & 0x3f) }

  datatype Split = Split(c: char32, len: nat)

  /** The first codepoint and the number of bytes it takes. */
  function SplitFirst(s: seq<byte>): (r: Option<Split>)
    ensures r.Some? ==> 1 <= r.value.len <= |s|
  {
    if s == [] then None else
      var n := SequenceLength(s[0]);
      if n == 0 || |s| < n then None
      else if n == 1 then Some(Split(Wide(s[0]), 1))
      else if !AllTrailing(s[1..n]) then None
      else
        var v := Gather(Lead(s[0]), s[1..n]);
        if InRange(v, n) then Some(Split(v, n)) else None
  }

  // ----- Gathering trailing bytes and splitting them off again

  lemma PushUndoes(c: char32)
    ensures Push(Upper(c), TrailingByte(c)) == c
  {}

  lemma {:induction false} GatherOfContinuation(c: char32, k: nat)
    ensures Gather(High(c, k), Continuation(c, k)) == c
    decreases k
  {
    hide Push, TrailingByte, Upper;
    if k > 0 {
      var s := Continuation(c, k);
      GatherOfContinuation(Upper(c), k - 1);
      assert s[..k - 1] == Continuation(Upper(c), k - 1);
      PushUndoes(c);
    }
  }

  /** Bound on a value that k more trailing bytes leave below 2^31. */
  function Room(k: nat): char32 { if k == 0 then 0x80000000 else Room(k - 1) >> 6 }

  lemma PushFits(v: char32, b: byte, room: char32)
    requires (room >> 6) > v
    ensures Push(v, b) < room
    ensures Upper(Push(v, b)) == v
    ensures IsTrailing(b) ==> TrailingByte(Push(v, b)) == b
  {}

  lemma RoomStep(k: nat)
    ensures Room(k + 1) == Room(k) >> 6
  {}

  lemma {:induction false} GatherFits(v: char32, s: seq<byte>, k: nat)
    requires v < Room(|s| + k)
    ensures Gather(v, s) < Room(k)
  {
    hide Push, Room;
    if s != [] {
      GatherFits(v, s[..|s| - 1], k + 1);
      RoomStep(k);
      PushFits(Gather(v, s[..|s| - 1]), s[|s| - 1], Room(k));
    }
  }

  lemma RoomShrinks(room: char32)
    ensures room >= (room >> 6)
  {}

  lemma Parts(v: char32, s: seq<byte>)
    ensures s == [] ==> Gather(v, s) == v && High(v, 0) == v && Continuation(v, 0) == []
    ensures s != [] ==> Gather(v, s) == Push(Gather(v, s[..|s| - 1]), s[|s| - 1])
  {}

  lemma PartsOfNext(c: char32, k: nat)
    ensures High(c, k + 1) == High(Upper(c), k)
    ensures Continuation(c, k + 1) == Continuation(Upper(c), k) + [TrailingByte(c)]
  {}

  lemma {:induction false} GatherSplits(v: char32, s: seq<byte>)
    requires v < Room(|s|) && AllTrailing(s)
    ensures High(Gather(v, s), |s|) == v && Continuation(Gather(v, s), |s|) == s
  {
    hide Push, TrailingByte, IsTrailing, Upper, Room, Gather, High, Continuation;
    Parts(v, s);
    if s != [] {
      var init, last := s[..|s| - 1], s[|s| - 1];
      RoomStep(|init|);
      RoomStep(0);
      RoomShrinks(Room(|init|));
      GatherFits(v, init, 1);
      PushFits(Gather(v, init), last, Room(0));
      GatherSplits(v, init);
      PartsOfNext(Gather(v, s), |init|);
      assert init + [last] == s;
    }
  }

  // ----- Leading bytes

  /** The payload of a leading byte fits into the bits its mark leaves. */
  predicate FitsLead(h: char32, n: nat) { h & !Wide(LeadMask(n)) == 0 }

  lemma LeadIsRead(h: char32, n: nat)
    requires 2 <= n <= 6 && FitsLead(h, n)
    ensures var b := LeadByte(h, n); SequenceLength(b) == n && Lead(b) == h
  {}

  lemma LeadIsWritten(b: byte)
    requires SequenceLength(b) >= 2
    ensures FitsLead(Lead(b), SequenceLength(b)) && LeadByte(Lead(b), SequenceLength(b)) == b
  {}

  lemma LeadHasRoom(h: char32, n: nat)
    requires 2 <= n <= 6 && FitsLead(h, n)
    ensures h < Room(n - 1)
  {}

  /** Removing a group of six bits from a value that fits into k groups and a leading byte. */
  predicate FitsAbove(c: char32, k: nat, n: nat) {
    match k
    case 0 => FitsLead(c, n)
    case 1 => FitsLead(c >> 6, n)
    case 2 => FitsLead(c >> 12, n)
    case 3 => FitsLead(c >> 18, n)
    case 4 => FitsLead(c >> 24, n)
    case _ => FitsLead(c >> 30, n)
  }

  lemma Upper12(c: char32)
    ensures Upper(c >> 6) == c >> 12 == Upper(c) >> 6
  {}

  lemma Upper18(c: char32)
    ensures Upper(c >> 12) == c >> 18 == Upper(c) >> 12
  {}

  lemma Upper24(c: char32)
    ensures Upper(c >> 18) == c >> 24 == Upper(c) >> 18
  {}

  lemma Upper30(c: char32)
    ensures Upper(c >> 24) == c >> 30 == Upper(c) >> 24
  {}

  lemma FitsShift(c: char32, k: nat, n: nat)
    requires 1 <= k <= 5 && FitsAbove(c, k, n)
    ensures FitsAbove(Upper(c), k - 1, n)
  {
    assert Upper(c) == c >> 6;
    hide FitsLead, Upper;
    Upper12(c);
    Upper18(c);
    Upper24(c);
    Upper30(c);
  }

  lemma {:induction false} HighFitsAbove(c: char32, k: nat, n: nat)
    requires k <= 5 && FitsAbove(c, k, n)
    ensures FitsLead(High(c, k), n)
    decreases k
  {
    hide FitsLead, Upper;
    if k > 0 {
      FitsShift(c, k, n);
      HighFitsAbove(Upper(c), k - 1, n);
    }
  }

  lemma HighFits(c: char32, n: nat)
    requires 2 <= n <= 6 && InRange(c, n)
    ensures FitsLead(High(c, n - 1), n)
  {
    hide High;
    HighFitsAbove(c, n - 1, n);
  }

  predicate InStandard(c: char32) { c < 0x80000000 }

  lemma RangeIsWidth(c: char32, n: nat)
    requires 2 <= n <= 6
    ensures InRange(c, n) <==> Width(c) == n && InStandard(c)
  {}

  // ----- The decoder accepts exactly the standard sequences

  lemma ShortIsRead(c: char32)
    requires Width(c) == 1
    ensures SequenceLength(Low(c)) == 1 && Wide(Low(c)) == c
  {}

  lemma ShortIsWritten(b: byte)
    requires SequenceLength(b) == 1
    ensures Width(Wide(b)) == 1 && InStandard(Wide(b)) && Low(Wide(b)) == b
  {}

  lemma ReadsStandard(c: char32, tail: seq<byte>)
    requires InStandard(c)
    ensures SplitFirst(Standard(c) + tail) == Some(Split(c, Width(c)))
  {
    hide Gather, High, Continuation, LeadByte, Lead, SequenceLength, Low, Wide, AllTrailing, FitsLead, InRange, InStandard,
         Width;
    var n := Width(c);
    var s := Standard(c) + tail;
    if n == 1 {
      ShortIsRead(c);
    } else {
      RangeIsWidth(c, n);
      HighFits(c, n);
      LeadIsRead(High(c, n - 1), n);
      GatherOfContinuation(c, n - 1);
      assert s[1..n] == Continuation(c, n - 1);
    }
  }

  lemma LongIsStandard(s: seq<byte>, c: char32, n: nat)
    requires SplitFirst(s) == Some(Split(c, n)) && n >= 2
    ensures InStandard(c) && n == Width(c) && s[..n] == Standard(c)
  {
    hide Gather, High, Continuation, LeadByte, Lead, SequenceLength, Low, Wide, AllTrailing, FitsLead, InRange, InStandard,
         Width, Room;
    LeadIsWritten(s[0]);
    LeadHasRoom(Lead(s[0]), n);
    GatherSplits(Lead(s[0]), s[1..n]);
    RangeIsWidth(c, n);
    assert [s[0]] + s[1..n] == s[..n];
  }

  lemma OnlyStandardIsRead(s: seq<byte>)
    requires SplitFirst(s).Some?
    ensures var Split(c, n) := SplitFirst(s).value; InStandard(c) && n == Width(c) && s[..n] == Standard(c)
  {
    hide Gather, High, Continuation, LeadByte, Lead, SequenceLength, Low, Wide, AllTrailing, FitsLead, InRange, InStandard,
         Width, Room;
    var Split(c, n) := SplitFirst(s).value;
    if n == 1 { ShortIsWritten(s[0]); } else { LongIsStandard(s, c, n); }
  }

  lemma LeadIsNoTrailing(b: byte)
    requires SequenceLength(b) > 0
    ensures !IsTrailing(b)
  {}

  /** A standard sequence is one leading byte and then trailing bytes. */
  lemma ShapeOfStandard(c: char32)
    requires InStandard(c)
    ensures var s := Standard(c); |s| == Width(c) && !IsTrailing(s[0]) && AllTrailing(s[1..])
  {
    hide SplitFirst, InStandard, Continuation, IsTrailing, AllTrailing;
    var s := Standard(c);
    ReadsStandard(c, []);
    assert s + [] == s;
    FirstLeads(s);
    LeadIsNoTrailing(s[0]);
    if Width(c) == 1 {
      NoneTrailing();
      assert s[1..] == [];
    } else {
      assert s[1..] == Continuation(c, Width(c) - 1);
    }
  }

  lemma NoneTrailing()
    ensures AllTrailing([])
  {}

  lemma FirstLeads(s: seq<byte>)
    requires SplitFirst(s).Some?
    ensures SequenceLength(s[0]) > 0
  {}
}
