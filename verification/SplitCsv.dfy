/**
 Util::SplitCSV: a line of comma-separated fields (RFC 4180 section 2), split in place.

 The buffer is the line followed by the terminating zero byte; the write cursor `end`
 moves behind the read cursor `str` in the same buffer.
 */
module SplitCsv {
  import opened Basics

  const COMMA: byte := 0x2c
  const QUOTE: byte := 0x22
  const SPACE: byte := 0x20
  const TAB: byte := 0x09

  // ----- What the method computes, on the unchanged line

  predicate IsBlank(b: byte) { b == SPACE || b == TAB }

  /** The line without its leading blanks. */
  function SkipBlanks(s: seq<byte>): (r: seq<byte>)
    ensures |r| <= |s|
    ensures r != [] ==> !IsBlank(r[0])
  {
    if s != [] && IsBlank(s[0]) then SkipBlanks(s[1..]) else s
  }

  /** The line from its first comma on; empty when there is none. */
  function FromComma(s: seq<byte>): (r: seq<byte>)
    ensures |r| <= |s|
  {
    if s == [] || s[0] == COMMA then s else FromComma(s[1..])
  }

  /** It is the first comma: what follows begins with it and what goes before has none. */
  lemma {:induction false} FirstComma(s: seq<byte>)
    ensures FromComma(s) != [] ==> FromComma(s)[0] == COMMA
    ensures forall i :: 0 <= i < |s| - |FromComma(s)| ==> s[i] != COMMA
  {
    if s != [] && s[0] != COMMA {
      FirstComma(s[1..]);
      forall i | 0 < i < |s| - |FromComma(s)| ensures s[i] != COMMA {
        assert s[i] == s[1..][i - 1];
      }
    }
  }

  /** The contents of a quoted field and what follows its closing quote. */
  function Quoted(s: seq<byte>): (r: (seq<byte>, seq<byte>))
    ensures |r.0| + |r.1| <= |s|
  {
    if s == [] then ([], [])
    else if s[0] != QUOTE then
      var (text, rest) := Quoted(s[1..]);
      ([s[0]] + text, rest)
    else if |s| >= 2 && s[1] == QUOTE then
      var (text, rest) := Quoted(s[2..]);
      ([QUOTE] + text, rest)
    else ([], s[1..])
  }

  /** What is appended after the text of a field that was written up to `s`. */
  function ExtraField(s: seq<byte>): seq<seq<byte>> { if s == [COMMA] then [[]] else [] }

  /** The line after the comma that ends a field. */
  function PastComma(s: seq<byte>): (r: seq<byte>)
    ensures |r| <= |s|
  {
    var next := FromComma(s);
    if next == [] then [] else next[1..]
  }

  /** The field, or two fields, at the head of a nonempty line, and the line left to read. */
  function Head(line: seq<byte>): (r: (seq<seq<byte>>, seq<byte>))
    requires line != []
    ensures |r.1| < |line|
  {
    var s := SkipBlanks(line);
    if s != [] && s[0] == QUOTE then
      var (text, rest) := Quoted(s[1..]);
      ([text] + ExtraField(s[1 + |text|..]), PastComma(rest))
    else
      var next := FromComma(s);
      ([s[..|s| - |next|]] + ExtraField(next), PastComma(s))
  }

  /** The fields of a line. */
  function Fields(line: seq<byte>): seq<seq<byte>>
    decreases |line|
  {
    if line == [] then [] else Head(line).0 + Fields(Head(line).1)
  }

  // ----- The method

  lemma SkipStep(s: seq<byte>, i: nat)
    requires i < |s| && IsBlank(s[i])
    ensures SkipBlanks(s[i..]) == SkipBlanks(s[i + 1..])
  {
    assert s[i..][1..] == s[i + 1..];
  }

  lemma FindStep(s: seq<byte>, i: nat)
    requires i < |s| && s[i] != COMMA
    ensures FromComma(s[i..]) == FromComma(s[i + 1..])
  {
    assert s[i..][1..] == s[i + 1..];
  }

  lemma FindHere(s: seq<byte>, i: nat)
    requires i <= |s| && (i < |s| ==> s[i] == COMMA)
    ensures FromComma(s[i..]) == s[i..]
  {}

  /** std::find(str, eos, ','). */
  method FindComma(tmp: array<byte>, n: nat, str0: nat, ghost input: seq<byte>) returns (str: nat)
    requires |input| == n && str0 <= n < tmp.Length
    requires forall k :: str0 <= k < n ==> tmp[k] == input[k]
    ensures str0 <= str <= n && input[str..] == FromComma(input[str0..])
  {
    hide FromComma;
    str := str0;
    while str < n && tmp[str] != COMMA
      invariant str0 <= str <= n
      invariant FromComma(input[str..]) == FromComma(input[str0..])
    {
      FindStep(input, str);
      str := str + 1;
    }
    FindHere(input, str);
  }

  /** Both results of `Quoted` after a prefix has been written. */
  function After(written: seq<byte>, s: seq<byte>): (seq<byte>, seq<byte>) {
    (written + Quoted(s).0, Quoted(s).1)
  }

  lemma QuotedStep(written: seq<byte>, s: seq<byte>, i: nat)
    requires i < |s|
    ensures s[i] != QUOTE ==> After(written, s[i..]) == After(written + [s[i]], s[i + 1..])
    ensures s[i] == QUOTE && i + 1 < |s| && s[i + 1] == QUOTE ==>
              After(written, s[i..]) == After(written + [QUOTE], s[i + 2..])
    ensures s[i] == QUOTE && (i + 1 == |s| || s[i + 1] != QUOTE) ==> After(written, s[i..]) == (written, s[i + 1..])
  {
    var t := s[i..];
    assert t[1..] == s[i + 1..];
    if s[i] != QUOTE {
      Regroup(written, [s[i]], Quoted(s[i + 1..]).0);
    } else if i + 1 < |s| && s[i + 1] == QUOTE {
      assert t[2..] == s[i + 2..];
      Regroup(written, [QUOTE], Quoted(s[i + 2..]).0);
    } else {
      assert Quoted(t) == ([], s[i + 1..]);
      assert written + [] == written;
    }
  }

  lemma AfterAll(written: seq<byte>, s: seq<byte>)
    requires s == []
    ensures After(written, s) == (written, [])
  {
    assert written + [] == written;
  }

  /** The inner loop over a quoted field; `str` and `end` are the read and the write cursor. */
  method CopyQuoted(tmp: array<byte>, n: nat, start: nat, ghost input: seq<byte>) returns (str: nat, end: nat)
    requires |input| == n && tmp.Length == n + 1 && start <= n && tmp[n] == 0
    requires forall k :: start <= k < n ==> tmp[k] == input[k]
    modifies tmp
    ensures start <= end <= str <= n && tmp[n] == 0
    ensures (tmp[start..end], input[str..]) == After([], input[start..])
    ensures forall k :: end <= k < n ==> tmp[k] == input[k]
  {
    hide After, Quoted;
    str, end := start, start;
    assert tmp[start..end] == [];
    while str < n
      invariant start <= end <= str <= n && tmp[n] == 0
      invariant forall k :: end <= k < n ==> tmp[k] == input[k]
      invariant After(tmp[start..end], input[str..]) == After([], input[start..])
    {
      QuotedStep(tmp[start..end], input, str);
      if tmp[str] == QUOTE {
        str := str + 1;
        if tmp[str] != QUOTE { return; }
      }
      ghost var written := tmp[start..end];
      tmp[end] := tmp[str];
      end := end + 1;
      assert tmp[start..end] == written + [input[str]];
      str := str + 1;
    }
    assert input[str..] == [];
    AfterAll(tmp[start..end], input[str..]);
  }

  lemma SkipHere(s: seq<byte>)
    requires s == [] || !IsBlank(s[0])
    ensures SkipBlanks(s) == s
  {}

  lemma ZeroIsNoBlank()
    ensures !IsBlank(0)
  {}

  /** The loop over blanks; the terminating zero stops it. */
  method SkipBlank(tmp: array<byte>, n: nat, str0: nat, ghost input: seq<byte>) returns (str: nat)
    requires |input| == n && tmp.Length == n + 1 && str0 <= n && tmp[n] == 0
    requires forall k :: str0 <= k < n ==> tmp[k] == input[k]
    ensures str0 <= str <= n && input[str..] == SkipBlanks(input[str0..])
  {
    hide SkipBlanks, IsBlank;
    ZeroIsNoBlank();
    str := str0;
    while IsBlank(tmp[str])
      invariant str0 <= str <= n
      invariant SkipBlanks(input[str..]) == SkipBlanks(input[str0..])
      decreases n - str
    {
      SkipStep(input, str);
      str := str + 1;
    }
    SkipHere(input[str..]);
  }

  lemma QuotedHead(line: seq<byte>, input: seq<byte>, start: nat, close: nat, end: nat, text: seq<byte>)
    requires 1 <= start <= end <= close <= |input| && line != []
    requires SkipBlanks(line) == input[start - 1..] && input[start - 1] == QUOTE
    requires (text, input[close..]) == After([], input[start..]) && |text| == end - start
    ensures Head(line) == ([text] + ExtraField(input[end..]), PastComma(input[close..]))
  {
    hide SkipBlanks, Quoted, FromComma, ExtraField, PastComma;
    var s := SkipBlanks(line);
    assert s[1..] == input[start..];
    assert [] + Quoted(input[start..]).0 == Quoted(input[start..]).0;
    assert s[1 + |text|..] == input[end..];
  }

  lemma PlainHead(line: seq<byte>, input: seq<byte>, start: nat, end: nat)
    requires start <= end <= |input| && line != []
    requires SkipBlanks(line) == input[start..] && (start == |input| || input[start] != QUOTE)
    requires input[end..] == FromComma(input[start..])
    ensures Head(line) == ([input[start..end]] + ExtraField(input[end..]), PastComma(input[start..]))
  {
    hide SkipBlanks, FromComma, ExtraField, PastComma;
    assert input[start..][..end - start] == input[start..end];
  }

  lemma PastCommaHere(input: seq<byte>, from: nat, str: nat)
    requires from <= str <= |input| && input[str..] == FromComma(input[from..])
    ensures PastComma(input[from..]) == if str == |input| then [] else input[str + 1..]
    ensures str < |input| ==> input[str] == COMMA
  {
    FirstComma(input[from..]);
    assert str < |input| ==> input[str..][1..] == input[str + 1..];
  }

  /** What a field read from line `line` leaves: the cursors and what `Head` says of them. */
  ghost predicate HeadRead(line: seq<byte>, input: seq<byte>, field: seq<byte>, str: nat, end: nat)
    requires line != [] && end <= str <= |input|
  {
    && Head(line).0 == [field] + ExtraField(input[end..])
    && Head(line).1 == (if str == |input| then [] else input[str + 1..])
  }

  method ReadQuotedField(tmp: array<byte>, n: nat, start: nat, ghost line: seq<byte>, ghost input: seq<byte>)
    returns (str: nat, field: seq<byte>, end: nat)
    requires |input| == n && tmp.Length == n + 1 && 1 <= start <= n && tmp[n] == 0
    requires forall k :: start <= k < n ==> tmp[k] == input[k]
    requires line != [] && SkipBlanks(line) == input[start - 1..] && input[start - 1] == QUOTE
    modifies tmp
    ensures start <= end <= str <= n && tmp[n] == 0
    ensures forall k :: end <= k < n ==> tmp[k] == input[k]
    ensures HeadRead(line, input, field, str, end)
  {
    hide SkipBlanks, Quoted, After, FromComma, ExtraField, PastComma, Head;
    str, end := CopyQuoted(tmp, n, start, input);
    field := tmp[start..end];
    QuotedHead(line, input, start, str, end, field);
    ghost var close := str;
    str := FindComma(tmp, n, str, input);
    PastCommaHere(input, close, str);
  }

  method ReadPlainField(tmp: array<byte>, n: nat, start: nat, ghost line: seq<byte>, ghost input: seq<byte>)
    returns (str: nat, field: seq<byte>, end: nat)
    requires |input| == n && tmp.Length == n + 1 && start <= n
    requires forall k :: start <= k < n ==> tmp[k] == input[k]
    requires line != [] && SkipBlanks(line) == input[start..] && (start < n ==> input[start] != QUOTE)
    ensures start <= end == str <= n
    ensures HeadRead(line, input, field, str, end)
  {
    hide SkipBlanks, Quoted, FromComma, ExtraField, PastComma, Head;
    str := FindComma(tmp, n, start, input);
    end := str;
    field := tmp[start..end];
    assert field == input[start..end];
    PlainHead(line, input, start, end);
    PastCommaHere(input, start, str);
  }

  /** The body of the outer loop up to the end of the field. */
  method ReadField(tmp: array<byte>, n: nat, str0: nat, ghost input: seq<byte>)
    returns (str: nat, field: seq<byte>, end: nat)
    requires |input| == n && tmp.Length == n + 1 && str0 < n && tmp[n] == 0
    requires forall k :: str0 <= k < n ==> tmp[k] == input[k]
    modifies tmp
    ensures str0 <= end <= str <= n && tmp[n] == 0
    ensures forall k :: end <= k < n ==> tmp[k] == input[k]
    ensures HeadRead(input[str0..], input, field, str, end)
  {
    hide SkipBlanks, HeadRead;
    str := SkipBlank(tmp, n, str0, input);
    if tmp[str] == QUOTE {
      str, field, end := ReadQuotedField(tmp, n, str + 1, input[str0..], input);
    } else {
      str, field, end := ReadPlainField(tmp, n, str, input[str0..], input);
    }
  }

  lemma ExtraFieldHere(input: seq<byte>, end: nat)
    requires end <= |input|
    ensures ExtraField(input[end..]) == if end == |input| - 1 && input[end] == COMMA then [[]] else []
  {
    if end == |input| - 1 { assert input[end..] == [input[end]]; }
  }

  lemma NoFields()
    ensures Fields([]) == []
  {}

  lemma Accumulate(done: seq<seq<byte>>, line: seq<byte>, input: seq<byte>, field: seq<byte>, str: nat, end: nat)
    requires line != [] && end <= str <= |input| && HeadRead(line, input, field, str, end)
    ensures done + Fields(line) ==
      (done + [field] + ExtraField(input[end..])) + Fields(if str == |input| then [] else input[str + 1..])
    ensures done + [field] + [] == done + [field]
  {
    hide Head, ExtraField;
    var extra := ExtraField(input[end..]);
    Regroup(done, [field], extra);
    Regroup(done, [field] + extra, Fields(Head(line).1));
  }

  method SplitCSV(input: seq<byte>) returns (output: seq<seq<byte>>)
    ensures output == Fields(input)
  {
    hide Head, HeadRead, Fields, ExtraField;
    var n := |input|;
    var tmp := new byte[n + 1](i => if 0 <= i < |input| then input[i] else 0);
    var str, end: nat := 0, 0;
    output := [];
    assert input[0..] == input;
    NoFields();
    while str < n
      invariant end <= str <= n + 1 && tmp[n] == 0
      invariant forall k :: str <= k < n ==> tmp[k] == input[k]
      invariant output + Fields(if str < n then input[str..] else []) == Fields(input)
    {
      ghost var done, line := output, input[str..];
      var field;
      str, field, end := ReadField(tmp, n, str, input);
      var endIsEmpty := tmp[end] == COMMA && end == n - 1;
      output := output + [field];
      if endIsEmpty {
        output := output + [[]];
      }
      ExtraFieldHere(input, end);
      Accumulate(done, line, input, field, str, end);
      if str + 1 == n { assert input[str + 1..] == []; }
      str := str + 1;
    }
  }
}
