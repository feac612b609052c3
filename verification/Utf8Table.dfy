/**
 The encodings by their bits, as the table of RFC 2279 section 2 has them, and the lengths of characters by their
 first bytes.
 */
module Utf8Table {
  import opened Basics
  import opened Utf8
  import Utf8Decoder

  /** The bits of c behind its lowest k groups of six. */
  function Behind(c: char32, k: nat): char32 {
    match k
    case 0 => c
    case 1 => c >> 6
    case 2 => c >> 12
    case 3 => c >> 18
    case 4 => c >> 24
    case _ => c >> 30
  }

  /** 10xxxxxx. */
  function Trail(x: char32): byte { 0x80 | ((x & 0x3f) as byte) }

  /** The bits of x behind those of `mark`. */
  function Leading(mark: byte, x: char32): byte { mark | ((x & 0xff) as byte) }

  /** The row of the table with n octets. */
  function Row(c: char32, n: nat): seq<byte>
    requires 1 <= n <= 6
  {
    match n
    case 1 => [Leading(0x00, c)]
    case 2 => [Leading(0xc0, Behind(c, 1)), Trail(c)]
    case 3 => [Leading(0xe0, Behind(c, 2)), Trail(Behind(c, 1)), Trail(c)]
    case 4 => [Leading(0xf0, Behind(c, 3)), Trail(Behind(c, 2)), Trail(Behind(c, 1)), Trail(c)]
    case 5 => [Leading(0xf8, Behind(c, 4)), Trail(Behind(c, 3)), Trail(Behind(c, 2)), Trail(Behind(c, 1)), Trail(c)]
    case _ => [Leading(0xfc, Behind(c, 5)), Trail(Behind(c, 4)), Trail(Behind(c, 3)), Trail(Behind(c, 2)),
      Trail(Behind(c, 1)), Trail(c)]
  }

  /** The first row that has room for c. */
  function RowOf(c: char32): seq<byte> {
    Row(c, if c < 0x80 then 1 else if c < 0x800 then 2 else if c < 0x10000 then 3
      else if c < 0x200000 then 4 else if c < 0x4000000 then 5 else 6)
  }

  lemma TrailIsTrailingByte(c: char32)
    ensures TrailingByte(c) == Trail(c)
  {}

  lemma BehindNone(c: char32)
    ensures Behind(c, 0) == c && Behind(c, 1) == Upper(c)
  {}

  lemma Behind12(c: char32)
    ensures Behind(Upper(c), 1) == Behind(c, 2)
  {}

  lemma Behind18(c: char32)
    ensures Behind(Upper(c), 2) == Behind(c, 3)
  {}

  lemma Behind24(c: char32)
    ensures Behind(Upper(c), 3) == Behind(c, 4)
  {}

  lemma Behind30(c: char32)
    ensures Behind(Upper(c), 4) == Behind(c, 5)
  {}

  lemma BehindUpper(c: char32, k: nat)
    requires k <= 4
    ensures Behind(Upper(c), k) == Behind(c, k + 1)
  {
    hide Behind, Upper;
    BehindNone(c);
    BehindNone(Upper(c));
    Behind12(c);
    Behind18(c);
    Behind24(c);
    Behind30(c);
  }

  lemma {:induction false} HighIsBehind(c: char32, k: nat)
    requires k <= 5
    ensures High(c, k) == Behind(c, k)
    decreases k
  {
    hide Behind, Upper;
    if k == 0 {
      BehindNone(c);
    } else {
      HighIsBehind(Upper(c), k - 1);
      BehindUpper(c, k - 1);
    }
  }

  lemma {:induction false} TrailOfGroup(c: char32, k: nat, j: nat)
    requires j < k <= 5
    ensures Continuation(c, k)[j] == Trail(Behind(c, k - 1 - j))
    decreases k
  {
    hide Behind, Upper, Trail, TrailingByte;
    if j == k - 1 {
      TrailIsTrailingByte(c);
      BehindNone(c);
    } else {
      TrailOfGroup(Upper(c), k - 1, j);
      BehindUpper(c, k - 2 - j);
    }
  }

  lemma LeadIsLeading(h: char32, n: nat, mark: byte)
    requires 2 <= n <= 6 && FitsLead(h, n)
    requires mark == match n case 2 => 0xc0 case 3 => 0xe0 case 4 => 0xf0 case 5 => 0xf8 case _ => 0xfc
    ensures LeadByte(h, n) == Leading(mark, h)
  {}

  lemma ShortIsLeading(c: char32)
    requires c < 0x80
    ensures Low(c) == Leading(0x00, c)
  {}

  lemma SizeOfRow(c: char32, n: nat)
    requires 1 <= n <= 6
    ensures |Row(c, n)| == n
  {}

  lemma TrailOfRow(c: char32, n: nat, j: nat)
    requires 1 <= j < n <= 6
    ensures Row(c, n)[j] == Trail(Behind(c, n - 1 - j))
  {
    BehindNone(c);
    hide Trail, Leading, Behind;
    match n
    case 2 =>
    case 3 =>
    case 4 =>
    case 5 =>
    case 6 =>
  }

  lemma TrailsOfRow(c: char32, n: nat)
    requires 2 <= n <= 6
    ensures Row(c, n)[1..] == Continuation(c, n - 1)
  {
    hide Trail, Leading, Behind, Continuation, Row;
    var trail := Continuation(c, n - 1);
    SizeOfRow(c, n);
    forall j | 0 <= j < n - 1 ensures Row(c, n)[1..][j] == trail[j] {
      TrailOfGroup(c, n - 1, j);
      TrailOfRow(c, n, j + 1);
    }
  }

  lemma LeadOfRow(c: char32, n: nat)
    requires 2 <= n <= 6 && FitsLead(High(c, n - 1), n)
    ensures LeadByte(High(c, n - 1), n) == Row(c, n)[0]
  {
    hide Trail, Leading, Behind, LeadByte, High, FitsLead;
    HighIsBehind(c, n - 1);
    LeadIsLeading(High(c, n - 1), n,
      match n case 2 => 0xc0 case 3 => 0xe0 case 4 => 0xf0 case 5 => 0xf8 case _ => 0xfc);
  }

  lemma RowOfWidth(c: char32)
    ensures RowOf(c) == Row(c, Width(c))
  {
    hide Row;
  }

  lemma ShortRow(c: char32)
    requires Width(c) == 1
    ensures Row(c, 1) == [Low(c)]
  {
    ShortIsLeading(c);
  }

  /** The encoding is the one of the table. */
  lemma StandardIsRow(c: char32)
    requires InStandard(c)
    ensures Standard(c) == RowOf(c)
  {
    hide Row, RowOf, Width, LeadByte, High, Continuation, Low, FitsLead, InRange, InStandard;
    var n := Width(c);
    RowOfWidth(c);
    if n == 1 {
      ShortRow(c);
    } else {
      RangeIsWidth(c, n);
      HighFits(c, n);
      TrailsOfRow(c, n);
      LeadOfRow(c, n);
      SizeOfRow(c, n);
      assert Row(c, n) == [Row(c, n)[0]] + Row(c, n)[1..];
    }
  }

  /** The table of lengths has n for the bytes that characters of n bytes begin with, and 1 for all others. */
  lemma LengthByFirst(b: octet, n: nat)
    requires n >= 2
    ensures OneCharLen(b) == n <==> exists t: seq<octet> :: |t| == n - 1 && Utf8Decoder.IsWellFormedChar([b] + t)
  {
    if OneCharLen(b) == n {
      var second: octet := if b == 0xe0 || b == 0xf0 then 0xa0 else 0x80;
      var t: seq<octet> := match n case 2 => [second] case 3 => [second, 0x80] case _ => [second, 0x80, 0x80];
      assert |t| == n - 1 && Utf8Decoder.IsWellFormedChar([b] + t);
    }
  }
}
