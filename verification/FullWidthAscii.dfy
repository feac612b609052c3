/**
 FullWidthAsciiToHalfWidthAscii (strings/japanese.cc): the shipped double array and its rules.

 The double array and the character table are those of strings/internal/japanese_rules.cc, cell by
 cell; `Encoded` says that they encode the 95 rules of data/preedit/fullwidthascii-halfwidthascii.tsv.
 */
module FullWidthAscii {
  import opened Basics
  import opened DoubleArray
  import Utf8Decoder

  // ----- The rules

  /** The row of a key of three bytes among the rules, which are in the order of the ASCII characters from the space on. */
  function RowOf(a: octet, b: octet, c: octet): (n: Option<nat>)
    ensures n.Some? ==> n.value < 95 && 0xe0 <= a < 0xf0 && 0x80 <= b < 0xc0 && 0x80 <= c < 0xc0
  {
    if a == 0xef then
      if b == 0xbc && 0x81 <= c <= 0xbf && c !in {0x82, 0x87, 0x8d, 0xbc} then Some(c - 0x80)
      else if b == 0xbd && 0x80 <= c <= 0x9d then Some(c - 0x40)
      else if b == 0xbf && c == 0xa5 then Some(60)
      else None
    else if a == 0xe3 && b == 0x80 then
      if c == 0x80 then Some(0) else if c == 0x9c then Some(94) else None
    else if a == 0xe2 && b == 0x80 then
      if c == 0x9d then Some(2) else if c == 0x99 then Some(7) else None
    else if a == 0xe2 && b == 0x88 && c == 0x92 then Some(13)
    else None
  }

  function Row(key: seq<octet>): (n: Option<nat>)
    ensures n.Some? ==> n.value < 95
  {
    if |key| == 3 then RowOf(key[0], key[1], key[2]) else None
  }

  function HalfWidth(key: seq<octet>): Option<Rule> {
    var n := Row(key);
    if n == None then None else Some(Rule([0x20 + n.value], 0))
  }

  /** The characters with a rule, by their scalar values: the full-width forms U+FF01 to U+FF5D, of which four are
      replaced by other characters, and the ideographic space, the yen sign and the wave dash. */
  function AsciiOf(scalar: nat): Option<octet> {
    if scalar == 0x3000 then Some(0x20)
    else if scalar == 0x201d then Some(0x22)
    else if scalar == 0x2019 then Some(0x27)
    else if scalar == 0x2212 then Some(0x2d)
    else if scalar == 0xffe5 then Some(0x5c)
    else if scalar == 0x301c then Some(0x7e)
    else if scalar in {0xff02, 0xff07, 0xff0d, 0xff3c} then None
    else if 0xff01 <= scalar <= 0xff5d then Some(scalar - 0xfee0)
    else None
  }

  lemma ScalarOfThree(a: octet, b: octet, c: octet)
    requires Utf8Decoder.IsWellFormedChar([a, b, c])
    ensures Utf8Decoder.Scalar([a, b, c]) == ((a - 0xe0) * 0x40 + (b - 0x80)) * 0x40 + (c - 0x80)
    ensures 0xe0 <= a < 0xf0 && IsContinuation(b) && IsContinuation(c)
  {}

  /** The characters with a rule in each block of 64 that has some. */
  function AsciiIn(block: nat, k: nat): Option<octet>
    requires k < 0x40
  {
    if block == 0x3fc then if 1 <= k && k !in {0x02, 0x07, 0x0d, 0x3c} then Some(0x20 + k) else None
    else if block == 0x3fd && k <= 0x1d then Some(0x60 + k)
    else if block == 0x3ff && k == 0x25 then Some(0x5c)
    else if block == 0xc0 && k == 0x00 then Some(0x20)
    else if block == 0xc0 && k == 0x1c then Some(0x7e)
    else if block == 0x80 && k == 0x1d then Some(0x22)
    else if block == 0x80 && k == 0x19 then Some(0x27)
    else if block == 0x88 && k == 0x12 then Some(0x2d)
    else None
  }

  lemma AsciiByBlock(block: nat, k: nat)
    requires k < 0x40
    ensures AsciiOf(block * 0x40 + k) == AsciiIn(block, k)
  {}

  lemma RowByBlock(a: octet, b: octet, c: octet)
    requires 0xe0 <= a < 0xf0 && IsContinuation(b) && IsContinuation(c)
    ensures var n, v := RowOf(a, b, c), AsciiIn((a - 0xe0) * 0x40 + (b - 0x80), c - 0x80);
      if n == None then v == None else v.Some? && v.value == 0x20 + n.value
  {}

  lemma KeysAreCharacters(a: octet, b: octet, c: octet)
    ensures RowOf(a, b, c).Some? ==> Utf8Decoder.IsWellFormedChar([a, b, c])
  {}

  lemma OtherLengths(key: seq<octet>)
    requires Utf8Decoder.IsWellFormedChar(key) && |key| != 3
    ensures AsciiOf(Utf8Decoder.Scalar(key)) == None
  {
    hide Utf8Decoder.IsWellFormedChar, Utf8Decoder.Scalar;
    Utf8Decoder.ScalarIsShortest(key);
  }

  /** The rules by the characters of Table 3-7 of the Unicode Standard: exactly those characters have one. */
  lemma RulesByCharacter(key: seq<octet>)
    ensures HalfWidth(key) ==
      if !Utf8Decoder.IsWellFormedChar(key) || AsciiOf(Utf8Decoder.Scalar(key)) == None then None
      else Some(Rule([AsciiOf(Utf8Decoder.Scalar(key)).value], 0))
  {
    hide Utf8Decoder.IsWellFormedChar, Utf8Decoder.Scalar, RowOf, AsciiOf, AsciiIn;
    if |key| == 3 {
      var a, b, c := key[0], key[1], key[2];
      assert key == [a, b, c];
      KeysAreCharacters(a, b, c);
      if Utf8Decoder.IsWellFormedChar(key) {
        ScalarOfThree(a, b, c);
        RowByBlock(a, b, c);
        var a0: int, b0: int, c0: int := a, b, c;
        AsciiByBlock((a0 - 0xe0) * 0x40 + (b0 - 0x80), c0 - 0x80);
      }
    } else if Utf8Decoder.IsWellFormedChar(key) {
      OtherLengths(key);
    }
  }

  // ----- The shipped tables

  /** fullwidthascii_to_halfwidthascii_da. */
  function CellAt(p: nat): Cell {
    if p == 0 then Cell(1, 0)
    else if p < 228 then Cell(0, 0)
    else if p == 228 then Cell(101, 1) else if p == 229 then Cell(108, 1) else if p == 230 then Cell(77, 101)
    else if p == 231 then Cell(232, 77) else if p == 232 then Cell(-22, 232)
    else if p == 233 then Cell(-7, 233) else if p == 234 then Cell(236, 87) else if p == 235 then Cell(233, 77)
    else if p == 236 then Cell(-40, 236) else if p == 237 then Cell(110, 108)
    else if p == 238 then Cell(87, 101) else if p == 239 then Cell(240, 110)
    else if p == 240 then Cell(-1, 240) else if p == 241 then Cell(54, 1) else if p == 242 then Cell(-283, 242)
    else if p == 243 then Cell(125, 54) else if p == 244 then Cell(237, 54) else if p == 245 then Cell(-4, 245)
    else if p == 246 then Cell(259, 54) else if p <= 250 then Cell(731 - 3 * p, p)
    else if p <= 254 then Cell(728 - 3 * p, p) else if p == 255 then Cell(245, 125)
    else if p == 256 then Cell(-37, 256) else if p <= 260 then Cell(p - 10, 125)
    else if p == 261 then Cell(-43, 261) else if p <= 265 then Cell(p - 11, 125)
    else if p == 266 then Cell(256, 125) else if p == 267 then Cell(242, 110)
    else if p == 268 then Cell(261, 125) else if p == 269 then Cell(314, 125)
    else if p <= 313 then Cell(p + 48, 125) else if p == 314 then Cell(-46, 314)
    else if p <= 317 then Cell(p + 47, 125) else if p <= 361 then Cell(905 - 3 * p, p)
    else if p <= 365 then Cell(902 - 3 * p, p) else if p == 366 then Cell(365, 237)
    else if p <= 395 then Cell(p + 29, 237) else if p <= 424 then Cell(992 - 3 * p, p)
    else if p == 425 then Cell(426, 259) else if p == 426 then Cell(-181, 426)
    else Cell(0, 0)
  }

  const DA: seq<Cell> := seq(684, p requires 0 <= p < 684 => CellAt(p))

  /** fullwidthascii_to_halfwidthascii_table: for each row the character, a zero and the rewind offset 0, and the zero that
      ends the literal. */
  function CharAt(i: nat): octet { if i % 3 == 0 && i < 285 then 0x20 + i / 3 else 0 }

  const CTABLE: seq<octet> := seq(286, i requires 0 <= i < 286 => CharAt(i))

  // ----- The double array holds the rules

  lemma CellIs(p: nat)
    requires p < 684
    ensures |DA| == 684 && DA[p] == CellAt(p)
  {
    hide CellAt;
  }

  lemma CellsAreStates(p: nat)
    ensures var cell := CellAt(p); if cell.base < 0 then cell.check == p else cell.base <= 426
  {}

  /** The child of a state, by the cells alone. */
  function Next(b: nat, c: octet): (r: Option<nat>)
    ensures r.Some? ==> r.value <= 426
  {
    CellsAreStates(b + c + 1);
    var cell := CellAt(b + c + 1);
    if cell.check == b then Some(cell.base) else None
  }

  lemma DaIsDoubleArray()
    ensures IsDoubleArray(DA) && DA[0].base == 1
  {
    assert CellAt(0) == Cell(1, 0);
    hide CellAt;
    CellIs(0);
    forall p | 0 <= p < |DA| ensures if DA[p].base < 0 then DA[p].check == p else DA[p].base + 256 < |DA| {
      CellIs(p);
      CellsAreStates(p);
    }
  }

  lemma ChildIsNext(b: nat, c: octet)
    requires b <= 426
    ensures IsDoubleArray(DA) && IsState(DA, b)
    ensures Child(DA, b, c) == Next(b, c)
  {
    hide CellAt;
    DaIsDoubleArray();
    CellIs(b + c + 1);
  }

  lemma NextOfRoot(c: octet)
    ensures Next(1, c) ==
      if c == 0xe2 then Some(101) else if c == 0xe3 then Some(108) else if c == 0xef then Some(54) else None
  {}

  lemma NextOf101(c: octet)
    ensures Next(101, c) == if c == 0x80 then Some(77) else if c == 0x88 then Some(87) else None
  {}

  lemma NextOf108(c: octet)
    ensures Next(108, c) == if c == 0x80 then Some(110) else None
  {}

  lemma NextOf54(c: octet)
    ensures Next(54, c) ==
      if c == 0xbc then Some(125) else if c == 0xbd then Some(237) else if c == 0xbf then Some(259) else None
  {}

  /** The state q is the end of the key in row n, or of none. */
  predicate IsEnd(q: Option<nat>, n: Option<nat>) {
    if n == None then q == None else q.Some? && CellAt(q.value) == Cell(-(3 * n.value + 1), q.value)
  }

  lemma EndsOf125(c: octet)
    ensures IsEnd(Next(125, c), RowOf(0xef, 0xbc, c))
  {}

  lemma EndsOf237(c: octet)
    ensures IsEnd(Next(237, c), RowOf(0xef, 0xbd, c))
  {}

  lemma EndsOf259(c: octet)
    ensures IsEnd(Next(259, c), RowOf(0xef, 0xbf, c))
  {}

  lemma EndsOf110(c: octet)
    ensures IsEnd(Next(110, c), RowOf(0xe3, 0x80, c))
  {}

  lemma EndsOf77(c: octet)
    ensures IsEnd(Next(77, c), RowOf(0xe2, 0x80, c))
  {}

  lemma EndsOf87(c: octet)
    ensures IsEnd(Next(87, c), RowOf(0xe2, 0x88, c))
  {}

  lemma EndIsLeaf(q: nat, c: octet)
    requires CellAt(q).base < 0
    ensures Next(q, c) == None
  {}

  /** The states that are not the end of a key. */
  const INNER: set<nat> := {1, 54, 77, 87, 101, 108, 110, 125, 237, 259}

  lemma InnerHasNoValue(b: nat)
    requires b in INNER
    ensures CellAt(b).base >= 0
  {}

  function Then(b: Option<nat>, c: octet): (r: Option<nat>)
    ensures r.Some? ==> r.value <= 426
  {
    if b == None then None else Next(b.value, c)
  }

  lemma InnerIsInner(a: octet, b: octet)
    ensures var s := Next(1, a); s.Some? ==> s.value in INNER
    ensures var s := Then(Next(1, a), b); s.Some? ==> s.value in INNER
  {
    hide Next;
    NextOfRoot(a);
    NextOf101(b);
    NextOf108(b);
    NextOf54(b);
  }

  lemma NoRow(a: octet, b: octet, c: octet)
    requires Then(Next(1, a), b) == None
    ensures RowOf(a, b, c) == None
  {
    hide Next;
    NextOfRoot(a);
    NextOf101(b);
    NextOf108(b);
    NextOf54(b);
  }

  /** Three bytes lead to the end of their row. */
  lemma ThreeBytesEnd(a: octet, b: octet, c: octet)
    ensures IsEnd(Then(Then(Next(1, a), b), c), RowOf(a, b, c))
  {
    hide Next, RowOf, IsEnd, CellAt;
    NextOfRoot(a);
    NextOf101(b);
    NextOf108(b);
    NextOf54(b);
    if Then(Next(1, a), b) == None {
      NoRow(a, b, c);
      NoEnd();
    } else {
      EndsOf125(c);
      EndsOf237(c);
      EndsOf259(c);
      EndsOf110(c);
      EndsOf77(c);
      EndsOf87(c);
    }
  }

  lemma NoEnd()
    ensures IsEnd(None, None)
  {}

  lemma OneMoreByte(key: seq<octet>, i: nat, b: Option<nat>)
    requires i < |key| && IsDoubleArray(DA) && State(DA, key[..i]) == b && (b.Some? ==> b.value <= 426)
    ensures State(DA, key[..i + 1]) == Then(b, key[i])
  {
    hide IsDoubleArray, State, Next, Child;
    StateStep(DA, key, i);
    if b.Some? { ChildIsNext(b.value, key[i]); }
  }

  lemma FirstByte(key: seq<octet>)
    requires key != []
    ensures IsDoubleArray(DA) && State(DA, key[..1]) == Next(1, key[0])
  {
    hide IsDoubleArray, Next;
    DaIsDoubleArray();
    assert key[..0] == [];
    OneMoreByte(key, 0, Some(1));
  }

  lemma InnerIsNoKey(key: seq<octet>)
    requires IsDoubleArray(DA) && (State(DA, key).Some? ==> State(DA, key).value in INNER)
    ensures Index(DA, key) == None
  {
    hide IsDoubleArray, State, CellAt;
    var b := State(DA, key);
    if b.Some? {
      CellIs(b.value);
      InnerHasNoValue(b.value);
    }
  }

  lemma EndIsKey(key: seq<octet>, n: Option<nat>)
    requires IsDoubleArray(DA) && IsEnd(State(DA, key), n) && (State(DA, key).Some? ==> State(DA, key).value <= 426)
    ensures Index(DA, key) == if n == None then None else Some(3 * n.value)
  {
    hide IsDoubleArray, State, CellAt;
    var b := State(DA, key);
    if b.Some? { CellIs(b.value); }
  }

  lemma BehindEnd(q: Option<nat>, n: Option<nat>, c: octet)
    requires IsEnd(q, n)
    ensures Then(q, c) == None
  {
    hide CellAt, Next;
    if q.Some? { EndIsLeaf(q.value, c); }
  }

  /** Exactly the keys of the rules are in the double array, with their places in the character table. */
  lemma IndexIsRow(key: seq<octet>)
    requires key != []
    ensures IsDoubleArray(DA)
    ensures Index(DA, key) == if Row(key) == None then None else Some(3 * Row(key).value)
  {
    hide IsDoubleArray, Index, State, Next, Then, RowOf, IsEnd;
    FirstByte(key);
    if |key| == 1 {
      assert key[..1] == key;
      InnerIsInner(key[0], key[0]);
      InnerIsNoKey(key);
      return;
    }
    var second := Then(Next(1, key[0]), key[1]);
    OneMoreByte(key, 1, Next(1, key[0]));
    if |key| == 2 {
      assert key[..2] == key;
      InnerIsInner(key[0], key[1]);
      InnerIsNoKey(key);
      return;
    }
    var third := Then(second, key[2]);
    OneMoreByte(key, 2, second);
    ThreeBytesEnd(key[0], key[1], key[2]);
    if |key| == 3 {
      assert key[..3] == key;
      EndIsKey(key, Row(key));
    } else {
      OneMoreByte(key, 3, third);
      BehindEnd(third, RowOf(key[0], key[1], key[2]), key[3]);
      NoLongerKey(DA, key, 4, |key|);
      assert key[..|key|] == key;
    }
  }

  lemma EntryOfRow(n: nat)
    requires n < 95
    ensures HasEntry(CTABLE, 3 * n, Rule([0x20 + n], 0))
  {
    var c: octet := 0x20 + n;
    assert CharAt(3 * n) == c && CharAt(3 * n + 1) == 0 && CharAt(3 * n + 2) == 0;
    hide CharAt;
    assert CTABLE[3 * n..3 * n + 1] == [c];
  }

  lemma HalfWidthIsRules()
    ensures IsRules(HalfWidth)
  {
    hide RowOf;
  }

  lemma KeyIsEncoded(key: seq<octet>)
    requires key != []
    ensures IsDoubleArray(DA) && IsEncoded(DA, CTABLE, key, HalfWidth(key))
  {
    hide IsDoubleArray, Index, HasEntry, Row;
    IndexIsRow(key);
    var n := Row(key);
    if n.Some? { EntryOfRow(n.value); }
  }

  /** The shipped tables encode the rules. */
  lemma Encoded()
    ensures Encodes(DA, CTABLE, HalfWidth)
  {
    hide IsDoubleArray, IsRules, IsEncoded, HalfWidth;
    DaIsDoubleArray();
    HalfWidthIsRules();
    forall key: seq<octet> | key != [] ensures IsEncoded(DA, CTABLE, key, HalfWidth(key)) { KeyIsEncoded(key); }
  }

  // ----- FullWidthAsciiToHalfWidthAscii

  function ToHalfWidth(s: seq<octet>): seq<octet> {
    HalfWidthIsRules();
    Converted(HalfWidth, s)
  }

  method FullWidthAsciiToHalfWidthAscii(input: seq<octet>) returns (output: seq<octet>)
    ensures output == ToHalfWidth(input)
  {
    hide Encodes, Converted;
    Encoded();
    output := ConvertUsingDoubleArray(DA, CTABLE, input, HalfWidth);
  }

  // ----- The steps of the conversion

  /** What one step makes of the bytes it takes. */
  function Piece(c: seq<octet>): (r: seq<octet>)
    ensures |c| <= 3 * |r|
  {
    var n := Row(c);
    if n == None then c else [0x20 + n.value]
  }

  /** The only keys have three bytes. */
  lemma LongestIsThree(s: seq<octet>)
    ensures LongestKey(HalfWidth, s, |s|) == if |s| >= 3 && Row(s[..3]).Some? then 3 else 0
  {
    hide LongestKey, RowOf;
    var k := LongestKey(HalfWidth, s, |s|);
    if |s| >= 3 && k < 3 { NoLongerRule(HalfWidth, s, |s|, 3); }
  }

  /** A key is as long as its first byte says: a step is the same with and without a rule. */
  lemma RowIsStep(s: seq<octet>)
    requires |s| >= 3 && Row(s[..3]).Some?
    ensures OneCharLen(s[0]) == 3
  {
    hide RowOf;
  }

  lemma OnlyThree(key: seq<octet>)
    requires |key| != 3
    ensures Row(key) == None
  {}

  lemma KeyStep(s: seq<octet>)
    requires |s| >= 3 && Row(s[..3]).Some?
    ensures ToHalfWidth(s) == Piece(s[..3]) + ToHalfWidth(s[3..])
  {
    hide Converted, Row, LongestKey, IsRules;
    HalfWidthIsRules();
    LongestIsThree(s);
    ConvertedKey(HalfWidth, s, 3);
  }

  lemma CopiedStep(s: seq<octet>, n: nat)
    requires s != [] && n == Least(OneCharLen(s[0]), |s|) && Row(s[..n]) == None
    requires |s| >= 3 ==> Row(s[..3]) == None
    ensures ToHalfWidth(s) == Piece(s[..n]) + ToHalfWidth(s[n..])
  {
    hide Converted, Row, LongestKey, IsRules, OneCharLen;
    HalfWidthIsRules();
    LongestIsThree(s);
    ConvertedCopy(HalfWidth, s, n);
  }

  lemma Step(s: seq<octet>)
    requires s != []
    ensures var n := Least(OneCharLen(s[0]), |s|); ToHalfWidth(s) == Piece(s[..n]) + ToHalfWidth(s[n..])
  {
    hide ToHalfWidth, Row, Piece, OneCharLen;
    var n := Least(OneCharLen(s[0]), |s|);
    if |s| >= 3 && Row(s[..3]).Some? {
      RowIsStep(s);
      KeyStep(s);
    } else {
      if n != 3 { OnlyThree(s[..n]); }
      CopiedStep(s, n);
    }
  }

  lemma NothingToConvert()
    ensures ToHalfWidth([]) == []
  {}

  /** No step runs over the end of the text. */
  predicate IsWhole(s: seq<octet>) {
    s != [] ==> OneCharLen(s[0]) <= |s| && IsWhole(s[OneCharLen(s[0])..])
  }

  /** Behind a text that the steps do not run over the conversion starts anew. */
  lemma {:induction false} ConvertedBehind(x: seq<octet>, y: seq<octet>)
    requires IsWhole(x)
    ensures ToHalfWidth(x + y) == ToHalfWidth(x) + ToHalfWidth(y)
  {
    hide ToHalfWidth, Piece, OneCharLen;
    NothingToConvert();
    if x == [] {
      assert x + y == y && [] + ToHalfWidth(y) == ToHalfWidth(y);
    } else {
      var n := OneCharLen(x[0]);
      Step(x);
      Step(x + y);
      ConvertedBehind(x[n..], y);
      assert (x + y)[..n] == x[..n] && (x + y)[n..] == x[n..] + y;
      Regroup(Piece(x[..n]), ToHalfWidth(x[n..]), ToHalfWidth(y));
    }
  }

  /** No text gets shorter than a third. */
  lemma {:induction false} NotShort(s: seq<octet>)
    ensures |s| <= 3 * |ToHalfWidth(s)|
  {
    hide ToHalfWidth, Row, OneCharLen;
    NothingToConvert();
    if s != [] {
      var n := Least(OneCharLen(s[0]), |s|);
      Step(s);
      NotShort(s[n..]);
    }
  }

  lemma {:induction false} ContinuationsAreCopied(s: seq<octet>)
    requires forall i :: 0 <= i < |s| ==> IsContinuation(s[i])
    ensures ToHalfWidth(s) == s
  {
    hide ToHalfWidth;
    NothingToConvert();
    if s != [] {
      Step(s);
      ContinuationsAreCopied(s[1..]);
      assert s == s[..1] + s[1..];
    }
  }
}
