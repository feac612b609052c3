/**
 SplitCSV against a writer of comma-separated lines: which lists of fields it recovers.
 */
module CsvRoundTrip {
  import opened Basics
  import opened SplitCsv

  /** A field as it is written: between quotes and with anything behind them, or as it stands; in front there may be
      blanks. */
  datatype Field =
    | Enclosed(blanks: seq<byte>, text: seq<byte>, behind: seq<byte>)
    | Plain(blanks: seq<byte>, text: seq<byte>)

  predicate AreBlanks(s: seq<byte>) { forall b :: b in s ==> b == 0x20 || b == 0x09 }

  /** A field may stand without quotes when it holds no comma and starts with no blank and no quote. What is behind the
      quotes holds no comma and does not start with a quote. */
  predicate Writable(f: Field) {
    && AreBlanks(f.blanks)
    && (f.Plain? ==> 0x2c !in f.text && (f.text != [] ==> f.text[0] !in {0x20, 0x09, 0x22}))
    && (f.Enclosed? ==> 0x2c !in f.behind && (f.behind != [] ==> f.behind[0] != 0x22))
  }

  /** Every quote of a text written twice. */
  function Doubled(text: seq<byte>): seq<byte> {
    if text == [] then [] else (if text[0] == 0x22 then [0x22, 0x22] else [text[0]]) + Doubled(text[1..])
  }

  function Bare(f: Field): seq<byte> {
    match f
    case Enclosed(_, text, behind) => [0x22] + (Doubled(text) + ([0x22] + behind))
    case Plain(_, text) => text
  }

  function Written(f: Field): seq<byte> { f.blanks + Bare(f) }

  /** The fields with a comma between each two. */
  function Line(fields: seq<Field>): seq<byte>
    decreases |fields|, 0
  {
    if fields == [] then [] else Written(fields[0]) + Rest(fields[1..])
  }

  function Rest(fields: seq<Field>): seq<byte>
    decreases |fields|, 1
  {
    if fields == [] then [] else [0x2c] + Line(fields)
  }

  function Texts(fields: seq<Field>): (r: seq<seq<byte>>)
    ensures |r| == |fields|
  {
    if fields == [] then [] else [fields[0].text] + Texts(fields[1..])
  }

  /** A field that is not there: nothing between the commas. */
  const NOTHING: Field := Plain([], [])

  /** The last field leaves no trace: it is nothing, and it is alone or follows a closing quote. */
  predicate Lost(fields: seq<Field>) {
    var n := |fields|;
    n > 0 && fields[n - 1] == NOTHING && (n == 1 || fields[n - 2].Enclosed?)
  }

  lemma QuotedSteps(b: byte, later: seq<byte>)
    ensures b != QUOTE ==> Quoted([b] + later) == ([b] + Quoted(later).0, Quoted(later).1)
    ensures Quoted([QUOTE, QUOTE] + later) == ([QUOTE] + Quoted(later).0, Quoted(later).1)
    ensures later == [] || later[0] != QUOTE ==> Quoted([QUOTE] + later) == ([], later)
  {
    assert ([b] + later)[1..] == later == ([QUOTE] + later)[1..];
    assert ([QUOTE, QUOTE] + later)[2..] == later;
  }

  lemma {:induction false} QuotedOfDoubled(text: seq<byte>, tail: seq<byte>)
    requires tail == [] || tail[0] != QUOTE
    ensures Quoted(Doubled(text) + ([QUOTE] + tail)) == (text, tail)
  {
    hide Quoted, Doubled;
    var end := [QUOTE] + tail;
    if text == [] {
      QuotedSteps(0, tail);
      NothingDoubled(end);
    } else {
      var later := Doubled(text[1..]) + end;
      QuotedOfDoubled(text[1..], tail);
      QuotedSteps(text[0], later);
      DoubledCons(text, end);
      assert [text[0]] + text[1..] == text;
    }
  }

  lemma NothingDoubled(end: seq<byte>)
    ensures Doubled([]) + end == end
  {}

  lemma DoubledCons(text: seq<byte>, end: seq<byte>)
    requires text != []
    ensures var later := Doubled(text[1..]) + end;
            Doubled(text) + end == if text[0] == QUOTE then [QUOTE, QUOTE] + later else [text[0]] + later
  {
    if text[0] == QUOTE {
      Regroup([QUOTE, QUOTE], Doubled(text[1..]), end);
    } else {
      Regroup([text[0]], Doubled(text[1..]), end);
    }
  }

  lemma {:induction false} FromCommaOf(text: seq<byte>, tail: seq<byte>)
    requires COMMA !in text && (tail == [] || tail[0] == COMMA)
    ensures FromComma(text + tail) == tail
  {
    if text == [] {
      assert text + tail == tail;
    } else {
      assert (text + tail)[1..] == text[1..] + tail;
      FromCommaOf(text[1..], tail);
    }
  }

  lemma EnclosedParts(f: Field, tail: seq<byte>)
    requires f.Enclosed?
    ensures var body := Doubled(f.text) + ([QUOTE] + (f.behind + tail));
            Bare(f) + tail == [QUOTE] + body && |body| >= 1 + |f.text| + |f.behind + tail|
            && body[|body| - 1 - |f.behind + tail|] == QUOTE
  {
    hide Doubled;
    var end := [QUOTE] + f.behind;
    DoubledIsLonger(f.text);
    Regroup([QUOTE], f.behind, tail);
    Regroup(Doubled(f.text), end, tail);
    Regroup([QUOTE], Doubled(f.text) + end, tail);
  }

  lemma NoBlankBeforeQuote(body: seq<byte>)
    ensures SkipBlanks([QUOTE] + body) == [QUOTE] + body && ([QUOTE] + body)[1..] == body
  {}

  lemma NoExtraField(body: seq<byte>, k: nat, tail: nat)
    requires k + tail + 1 <= |body| && body[|body| - 1 - tail] == QUOTE
    ensures ExtraField(body[k..]) == []
  {
    var extra := body[k..];
    assert extra[|extra| - 1 - tail] == QUOTE;
  }

  lemma NextField(behind: seq<byte>, tail: seq<byte>)
    requires COMMA !in behind && (tail == [] || tail[0] == COMMA)
    ensures PastComma(behind + tail) == if tail == [] then [] else tail[1..]
  {
    FromCommaOf(behind, tail);
  }

  lemma NoQuoteFollows(f: Field, tail: seq<byte>)
    requires f.Enclosed? && Writable(f) && (tail == [] || tail[0] == COMMA)
    ensures var rest := f.behind + tail; rest == [] || rest[0] != QUOTE
  {}

  /** A line that starts with a quote. */
  lemma HeadOfQuote(body: seq<byte>, text: seq<byte>, rest: seq<byte>)
    requires Quoted(body) == (text, rest)
    ensures Head([QUOTE] + body) == ([text] + ExtraField(body[|text|..]), PastComma(rest))
  {
    hide SkipBlanks, Quoted, PastComma, ExtraField;
    NoBlankBeforeQuote(body);
    assert ([QUOTE] + body)[1 + |text|..] == body[|text|..];
  }

  /** An enclosed field at the head of a line, alone or before a comma. */
  lemma HeadOfEnclosed(f: Field, tail: seq<byte>)
    requires f.Enclosed? && Writable(f) && (tail == [] || tail[0] == COMMA)
    ensures Bare(f) + tail != []
    ensures Head(Bare(f) + tail) == ([f.text], if tail == [] then [] else tail[1..])
  {
    hide Bare, Doubled, Head, Quoted, PastComma, ExtraField;
    var text, rest := f.text, f.behind + tail;
    var body := Doubled(text) + ([QUOTE] + rest);
    EnclosedParts(f, tail);
    NoQuoteFollows(f, tail);
    QuotedOfDoubled(text, rest);
    HeadOfQuote(body, text, rest);
    NextField(f.behind, tail);
    NoExtraField(body, |text|, |rest|);
    assert [text] + [] == [text];
  }

  lemma {:induction false} DoubledIsLonger(text: seq<byte>)
    ensures |Doubled(text)| >= |text|
  {
    if text != [] { DoubledIsLonger(text[1..]); }
  }

  lemma HeadOfPlain(blanks: seq<byte>, text: seq<byte>, tail: seq<byte>)
    requires Writable(Plain(blanks, text)) && (tail == [] || tail[0] == COMMA) && text + tail != []
    ensures Head(text + tail) == ([text] + (if tail == [COMMA] then [[]] else []), if tail == [] then [] else tail[1..])
  {
    hide FromComma;
    var s := text + tail;
    assert SkipBlanks(s) == s && s[0] != QUOTE;
    FromCommaOf(text, tail);
    assert s[..|s| - |tail|] == text;
  }

  /** Blanks in front are skipped. */
  lemma {:induction false} BlanksAreSkipped(blanks: seq<byte>, s: seq<byte>)
    requires AreBlanks(blanks)
    ensures SkipBlanks(blanks + s) == SkipBlanks(s)
  {
    if blanks == [] {
      assert blanks + s == s;
    } else {
      assert blanks[0] in blanks && forall b :: b in blanks[1..] ==> b in blanks;
      assert (blanks + s)[1..] == blanks[1..] + s;
      BlanksAreSkipped(blanks[1..], s);
    }
  }

  lemma HeadBehindBlanks(blanks: seq<byte>, s: seq<byte>)
    requires AreBlanks(blanks) && s != []
    ensures Head(blanks + s) == Head(s)
  {
    hide SkipBlanks, Quoted, ExtraField, PastComma, FromComma, AreBlanks;
    BlanksAreSkipped(blanks, s);
  }

  lemma HeadOfBlanks(blanks: seq<byte>)
    requires AreBlanks(blanks) && blanks != []
    ensures Head(blanks) == ([[]], [])
  {
    hide AreBlanks;
    BlanksAreSkipped(blanks, []);
    assert blanks + [] == blanks;
    var s: seq<byte> := [];
    assert s[..0] == [] && SkipBlanks(s) == FromComma(s) == s && [s] + [] == [s];
  }

  lemma HeadOfBare(f: Field, tail: seq<byte>)
    requires Writable(f) && (tail == [] || tail[0] == COMMA) && Bare(f) + tail != []
    ensures Head(Bare(f) + tail) ==
      ([f.text] + (if f.Plain? && tail == [COMMA] then [[]] else []), if tail == [] then [] else tail[1..])
  {
    hide Head;
    match f {
      case Enclosed(_, text, _) => HeadOfEnclosed(f, tail);
        assert [text] + [] == [text];
      case Plain(blanks, text) => HeadOfPlain(blanks, text, tail);
    }
  }

  lemma HeadOf(f: Field, tail: seq<byte>)
    requires Writable(f) && (tail == [] || tail[0] == COMMA) && Written(f) + tail != []
    ensures Head(Written(f) + tail) ==
      ([f.text] + (if f.Plain? && tail == [COMMA] then [[]] else []), if tail == [] then [] else tail[1..])
  {
    hide Head, Bare;
    var s := Bare(f) + tail;
    Regroup(f.blanks, Bare(f), tail);
    if s == [] {
      NothingIsBare(f);
      HeadOfBlanks(f.blanks);
      assert Written(f) + tail == f.blanks && [f.text] + [] == [[]];
    } else {
      HeadOfBare(f, tail);
      HeadBehindBlanks(f.blanks, s);
    }
  }

  lemma NothingIsBare(f: Field)
    requires Bare(f) == []
    ensures f.Plain? && f.text == []
  {}

  lemma LineIsEmpty(fields: seq<Field>)
    requires forall f :: f in fields ==> Writable(f)
    ensures Line(fields) == [] <==> fields == [] || fields == [NOTHING]
  {}

  /** What is read back of the fields. */
  function Kept(fields: seq<Field>): seq<Field> {
    if Lost(fields) then fields[..|fields| - 1] else fields
  }

  lemma NothingKept(fields: seq<Field>)
    requires fields == [] || fields == [NOTHING]
    ensures Line(fields) == [] && Fields([]) == Texts(Kept(fields)) == []
  {}

  lemma OneKept(f: Field)
    ensures Texts(Kept([f])) == if f == NOTHING then [] else [f.text]
  {}

  lemma MoreKept(f: Field, rest: seq<Field>)
    requires rest != [] && (rest == [NOTHING] ==> f.Plain?)
    ensures Texts(Kept([f] + rest)) == [f.text] + if rest == [NOTHING] then [[]] else Texts(Kept(rest))
  {
    var fields := [f] + rest;
    assert fields[1..] == rest;
    assert fields[..|fields| - 1] == [f] + rest[..|rest| - 1];
    assert ([f] + rest[..|rest| - 1])[1..] == rest[..|rest| - 1];
  }

  lemma LastLost(f: Field)
    requires f.Enclosed?
    ensures Texts(Kept([f] + [NOTHING])) == [f.text]
  {
    assert ([f] + [NOTHING])[..1] == [f];
  }

  lemma LineStep(f: Field, rest: seq<Field>)
    requires Line([f] + rest) != []
    ensures Line([f] + rest) == Written(f) + Rest(rest)
    ensures Fields(Line([f] + rest)) == Head(Written(f) + Rest(rest)).0 + Fields(Head(Written(f) + Rest(rest)).1)
  {
    hide Head, Written;
    assert ([f] + rest)[1..] == rest;
  }

  /** The fields read back, for every list of fields that can be written. */
  lemma {:induction false} SplitOfLine(fields: seq<Field>)
    requires forall f :: f in fields ==> Writable(f)
    ensures Fields(Line(fields)) == Texts(Kept(fields))
  {
    hide Head, Written, Texts, Kept, Fields, Line, Writable;
    LineIsEmpty(fields);
    if Line(fields) == [] {
      NothingKept(fields);
    } else {
      var f, rest := fields[0], fields[1..];
      assert fields == [f] + rest;
      LineStep(f, rest);
      HeadOf(f, Rest(rest));
      LineIsEmpty(rest);
      assert [f.text] + [] == [f.text] && [f.text] + [] + [] == [f.text];
      if rest == [] {
        OneKept(f);
        NothingKept(rest);
        assert fields == [f];
      } else {
        SplitOfLine(rest);
        assert Rest(rest)[1..] == Line(rest);
        if rest == [NOTHING] && f.Enclosed? {
          LastLost(f);
          NothingKept(rest);
        } else {
          MoreKept(f, rest);
          if rest == [NOTHING] {
            NothingKept(rest);
          }
        }
      }
    }
  }

  /** A blank in front of a line is skipped. */
  lemma BlankInFront(b: byte, line: seq<byte>)
    requires (b == 0x20 || b == 0x09) && line != []
    ensures Fields([b] + line) == Fields(line)
  {
    hide Head;
    HeadBehindBlanks([b], line);
  }

  /** A quoted field that is not closed is read up to the end. When its text holds one quote and ends with a comma, the
      comma that is left over in the buffer makes an empty field behind it. */
  lemma OpenQuote(text: seq<byte>)
    ensures |Doubled(text)| >= |text|
    ensures Fields([0x22] + Doubled(text)) == [text] + if Doubled(text)[|text|..] == [0x2c] then [[]] else []
  {
    hide Doubled, Head, Quoted;
    QuotedToTheEnd(text);
    HeadOfQuote(Doubled(text), text, []);
    NextField([], []);
    NoFields([QUOTE] + Doubled(text));
  }

  lemma NoFields(line: seq<byte>)
    requires line != [] && Head(line).1 == []
    ensures Fields(line) == Head(line).0
  {
    hide Head;
    assert Head(line).0 + [] == Head(line).0;
  }

  lemma {:induction false} QuotedToTheEnd(text: seq<byte>)
    ensures |Doubled(text)| >= |text| && Quoted(Doubled(text)) == (text, [])
  {
    hide Quoted, Doubled;
    QuotedNothing();
    if text != [] {
      var later := Doubled(text[1..]);
      QuotedToTheEnd(text[1..]);
      QuotedSteps(text[0], later);
      DoubledStep(text);
      assert [text[0]] + text[1..] == text;
    }
  }

  lemma DoubledStep(text: seq<byte>)
    requires text != []
    ensures Doubled(text) ==
      if text[0] == QUOTE then [QUOTE, QUOTE] + Doubled(text[1..]) else [text[0]] + Doubled(text[1..])
  {}

  lemma QuotedNothing()
    ensures Doubled([]) == [] && Quoted([]) == ([], [])
  {}

  /** Exactly the lists whose last field leaves a trace are recovered. */
  lemma Recovered(fields: seq<Field>)
    requires forall f :: f in fields ==> Writable(f)
    ensures Fields(Line(fields)) == Texts(fields) <==> !Lost(fields)
  {
    SplitOfLine(fields);
  }

  /** Any list of byte strings survives when every field is written between quotes. */
  lemma FullyQuotedIsRecovered(texts: seq<seq<byte>>)
    ensures Fields(Line(seq(|texts|, i requires 0 <= i < |texts| => Enclosed([], texts[i], [])))) == texts
  {
    var fields := seq(|texts|, i requires 0 <= i < |texts| => Enclosed([], texts[i], []));
    SplitOfLine(fields);
    TextsAt(fields);
  }

  lemma {:induction false} TextsAt(fields: seq<Field>)
    ensures forall i :: 0 <= i < |fields| ==> Texts(fields)[i] == fields[i].text
  {
    if fields != [] { TextsAt(fields[1..]); }
  }
}
