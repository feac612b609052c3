/**
 BasicCodeGenByteArrayStreamBuf (codegen_bytearray_stream.cc): a buffered stream that writes
 bytes as the source text of an array.

 The buffered stream refines an unbuffered one (`View`, `Append`): single bytes, bulk writes
 and flushes in any mix emit `Definition(name, data)`, and `ParsedBack` reads the bytes and
 their number out of that text again.
 */
module CodegenByteArrayStream {
  import opened Basics

  const BYTES_ON_ONE_LINE: nat := 20

  const HEX := "0123456789ABCDEF"

  // ----- The emitted text

  function ByteText(b: octet, position: nat): string {
    (if position % BYTES_ON_ONE_LINE == 0 then "\n0x" else " 0x") + [HEX[b / 16], HEX[b % 16], ',']
  }

  /** The bytes as they are written when `position` bytes are in the list already. */
  function ListText(bytes: seq<octet>, position: nat): string {
    if bytes == [] then "" else ByteText(bytes[0], position) + ListText(bytes[1..], position + 1)
  }

  function Header(name: string): string { "alignas(std::max_align_t) constexpr char k" + name + "_data[] = {" }

  function Footer(name: string, count: nat): string {
    (if count != 0 then "\n" else "") + ("};\nconstexpr size_t k" + name + "_size = " + Decimal(count) + ";\n")
  }

  function Definition(name: string, data: seq<octet>): string {
    Header(name) + ListText(data, 0) + Footer(name, |data|)
  }

  lemma ElementText(b: octet, position: nat)
    ensures var high: nat, low: nat := b / 16, b % 16;
      ByteText(b, position) ==
        [if position % 20 == 0 then '\n' else ' '] + "0x" + ["0123456789ABCDEF"[high], "0123456789ABCDEF"[low]] + ","
  {}

  lemma {:induction false} SixForEach(bytes: seq<octet>, position: nat)
    ensures |ListText(bytes, position)| == 6 * |bytes|
  {
    hide ByteText;
    if bytes != [] {
      ElementText(bytes[0], position);
      SixForEach(bytes[1..], position + 1);
    }
  }

  lemma {:induction false} PieceAt(bytes: seq<octet>, position: nat, i: nat)
    requires i < |bytes| && |ListText(bytes, position)| == 6 * |bytes|
    ensures ListText(bytes, position)[6 * i..6 * i + 6] == ByteText(bytes[i], position + i)
  {
    hide ByteText;
    ElementText(bytes[0], position);
    if i > 0 {
      var text, rest := ListText(bytes, position), ListText(bytes[1..], position + 1);
      SixForEach(bytes[1..], position + 1);
      PieceAt(bytes[1..], position + 1, i - 1);
      assert text[6..] == rest;
      Later(text, 6 * (i - 1));
    }
  }

  lemma Later(text: string, n: nat)
    requires n + 12 <= |text|
    ensures text[n + 6..n + 12] == text[6..][n..n + 6]
  {}

  /** Element i: six characters, on a new line for each twentieth. */
  lemma ElementAt(bytes: seq<octet>, i: nat)
    requires i < |bytes|
    ensures |ListText(bytes, 0)| == 6 * |bytes|
    ensures var high: nat, low: nat := bytes[i] / 16, bytes[i] % 16;
      ListText(bytes, 0)[6 * i..6 * i + 6] ==
        [if i % 20 == 0 then '\n' else ' '] + "0x" + ["0123456789ABCDEF"[high], "0123456789ABCDEF"[low]] + ","
  {
    hide ListText, ByteText;
    SixForEach(bytes, 0);
    PieceAt(bytes, 0, i);
    ElementText(bytes[i], i);
  }

  lemma {:induction false} ListTextOfAppend(a: seq<octet>, b: seq<octet>, position: nat)
    ensures ListText(a + b, position) == ListText(a, position) + ListText(b, position + |a|)
  {
    hide ByteText;
    if a == [] {
      assert a + b == b;
    } else {
      assert (a + b)[1..] == a[1..] + b;
      ListTextOfAppend(a[1..], b, position + 1);
      Regroup(ByteText(a[0], position), ListText(a[1..], position + 1), ListText(b, position + |a|));
    }
  }

  // ----- The stream without a buffer

  /** The text written so far and the number of bytes since the last OpenVarDef. */
  datatype Unbuffered = Unbuffered(text: string, count: nat)

  function Append(u: Unbuffered, bytes: seq<octet>): Unbuffered {
    Unbuffered(u.text + ListText(bytes, u.count), u.count + |bytes|)
  }

  lemma AppendTwice(u: Unbuffered, a: seq<octet>, b: seq<octet>)
    ensures Append(Append(u, a), b) == Append(u, a + b)
  {
    ListTextOfAppend(a, b, u.count);
    Regroup(u.text, ListText(a, u.count), ListText(b, u.count + |a|));
  }

  lemma AppendNothing(u: Unbuffered)
    ensures Append(u, []) == u
  {
    assert u.text + "" == u.text;
  }

  lemma AppendOne(u: Unbuffered, b: octet)
    ensures Append(u, [b]) == Unbuffered(u.text + ByteText(b, u.count), u.count + 1)
  {
    hide ByteText;
    assert ListText([b], u.count) == ByteText(b, u.count) + "";
  }

  lemma FooterText(text: string, name: string, count: nat)
    ensures (if count != 0 then text + "\n" else text) +
      ("};\nconstexpr size_t k" + name + "_size = " + Decimal(count) + ";\n") == text + Footer(name, count)
  {
    hide Decimal;
    Regroup(text, "\n", "};\nconstexpr size_t k" + name + "_size = " + Decimal(count) + ";\n");
    var last := "};\nconstexpr size_t k" + name + "_size = " + Decimal(count) + ";\n";
    assert "" + last == last;
  }

  // ----- The stream

  class StreamBuf {
    const buffer: array<octet>
    var pptr: nat
    var out: string
    var isOpen: bool
    var varNameBase: string
    var outputCount: nat

    ghost predicate Valid()
      reads this
    {
      pptr <= buffer.Length
    }

    /** What is buffered and not yet written. */
    ghost function Pending(): seq<octet>
      requires Valid()
      reads this, buffer
    {
      buffer[..pptr]
    }

    /** The sink. */
    ghost function Sink(): Unbuffered
      reads this
    {
      Unbuffered(out, outputCount)
    }

    /** The stream as if it had no buffer. */
    ghost function View(): Unbuffered
      requires Valid()
      reads this, buffer
    {
      Append(Sink(), Pending())
    }

    constructor (size: nat)
      ensures Valid() && fresh(buffer) && buffer.Length == size && Pending() == []
      ensures !isOpen && Sink() == Unbuffered("", 0)
    {
      buffer := new octet[size](_ => 0);
      pptr, out, isOpen, varNameBase, outputCount := 0, "", false, "", 0;
    }

    /** WriteBytes: whatever is in the buffer stays there. */
    method WriteBytes(bytes: seq<octet>)
      modifies this`out, this`outputCount
      ensures Sink() == Append(old(Sink()), bytes)
    {
      hide Append;
      AppendNothing(Sink());
      for i := 0 to |bytes|
        modifies this`out, this`outputCount
        invariant Sink() == Append(old(Sink()), bytes[..i])
      {
        ghost var before := Sink();
        var prefix := if outputCount % BYTES_ON_ONE_LINE == 0 then "\n0x" else " 0x";
        var text := prefix + [HEX[bytes[i] / 16], HEX[bytes[i] % 16], ','];
        out := out + text;
        outputCount := outputCount + 1;
        AppendOne(before, bytes[i]);
        assert bytes[..i + 1] == bytes[..i] + [bytes[i]];
        AppendTwice(old(Sink()), bytes[..i], [bytes[i]]);
      }
      assert bytes[..|bytes|] == bytes;
    }

    /** overflow: writes the buffer and then the given byte; false stands for eof. */
    method Overflow(c: Option<octet>) returns (ok: bool)
      requires Valid()
      modifies this`out, this`outputCount, this`pptr
      ensures Valid() && ok == isOpen
      ensures isOpen ==> Pending() == [] && Sink() == Append(old(View()), if c.Some? then [c.value] else [])
      ensures !isOpen ==> Pending() == old(Pending()) && Sink() == old(Sink())
    {
      hide Append;
      if !isOpen { return false; }
      AppendNothing(Sink());
      if 0 < pptr {
        WriteBytes(buffer[..pptr]);
      }
      AppendNothing(Sink());
      if c.Some? {
        WriteBytes([c.value]);
      }
      pptr := 0;
      ok := true;
    }

    /** sputc of the base class. */
    method Sputc(c: octet) returns (ok: bool)
      requires Valid()
      modifies this`out, this`outputCount, this`pptr, buffer
      ensures Valid() && ok == (isOpen || old(pptr) < buffer.Length)
      ensures isOpen ==> View() == Append(old(View()), [c])
      ensures !isOpen ==> Sink() == old(Sink())
      ensures !isOpen ==> Pending() == if ok then old(Pending()) + [c] else old(Pending())
    {
      hide Append;
      if pptr < buffer.Length {
        AppendTwice(Sink(), Pending(), [c]);
        buffer[pptr] := c;
        pptr := pptr + 1;
        assert Pending() == old(Pending()) + [c];
        ok := true;
      } else {
        ok := Overflow(Some(c));
        AppendNothing(Sink());
      }
    }

    /** Before OpenVarDef a bulk write that does not fit goes past the buffer straight to the sink. */
    method Xsputn(s: seq<octet>) returns (n: nat)
      requires Valid()
      modifies this`out, this`outputCount, this`pptr, buffer
      ensures Valid() && n == |s|
      ensures isOpen ==> View() == Append(old(View()), s)
      ensures !isOpen ==>
        if old(pptr) + |s| <= buffer.Length then Sink() == old(Sink()) && Pending() == old(Pending()) + s
        else Sink() == Append(old(Sink()), s) && Pending() == old(Pending())
    {
      hide Append;
      if |s| <= buffer.Length - pptr {
        AppendTwice(Sink(), Pending(), s);
        forall i | 0 <= i < |s| { buffer[pptr + i] := s[i]; }
        pptr := pptr + |s|;
        assert Pending() == old(Pending()) + s;
      } else {
        var _ := Overflow(None);
        AppendNothing(old(View()));
        WriteBytes(s);
        AppendNothing(Sink());
      }
      n := |s|;
    }

    method Sync() returns (ok: bool)
      requires Valid()
      modifies this`out, this`outputCount, this`pptr
      ensures Valid() && ok == isOpen && View() == old(View())
      ensures isOpen ==> Pending() == []
      ensures !isOpen ==> Pending() == old(Pending())
    {
      hide Append;
      ok := Overflow(None);
      AppendNothing(old(View()));
      AppendNothing(Sink());
    }

    method OpenVarDef(name: string) returns (ok: bool)
      requires Valid()
      modifies this`out, this`outputCount, this`varNameBase, this`isOpen
      ensures Valid() && ok == (!old(isOpen) && name != "") && Pending() == old(Pending())
      ensures ok ==> isOpen && varNameBase == name && Sink() == Unbuffered(old(out) + Header(name), 0)
      ensures !ok ==> isOpen == old(isOpen) && varNameBase == old(varNameBase) && Sink() == old(Sink())
    {
      if isOpen || name == "" { return false; }
      varNameBase := name;
      out := out + ("alignas(std::max_align_t) constexpr char k" + varNameBase + "_data[] = {");
      outputCount := 0;
      isOpen := true;
      ok := true;
    }

    method CloseVarDef() returns (ok: bool)
      requires Valid()
      modifies this`out, this`outputCount, this`pptr, this`isOpen
      ensures Valid() && ok == old(isOpen) && !isOpen
      ensures ok ==> Pending() == [] && out == old(View().text) + Footer(varNameBase, old(View().count))
      ensures !ok ==> Pending() == old(Pending()) && Sink() == old(Sink())
    {
      hide Append, Footer;
      if !isOpen { return false; }
      var _ := Overflow(None);
      AppendNothing(old(View()));
      ghost var text := out;
      if outputCount != 0 { out := out + "\n"; }
      out := out + ("};\nconstexpr size_t k" + varNameBase + "_size = " + Decimal(outputCount) + ";\n");
      FooterText(text, varNameBase, outputCount);
      isOpen := false;
      ok := true;
    }
  }

  // ----- One variable definition

  datatype Op = Put(b: octet) | Bulk(s: seq<octet>) | Flush

  function BytesOf(op: Op): seq<octet> {
    match op
    case Put(b) => [b]
    case Bulk(s) => s
    case Flush => []
  }

  function AllBytes(ops: seq<Op>): seq<octet> {
    if ops == [] then [] else AllBytes(ops[..|ops| - 1]) + BytesOf(ops[|ops| - 1])
  }

  method Perform(stream: StreamBuf, op: Op)
    requires stream.Valid() && stream.isOpen
    modifies stream`out, stream`outputCount, stream`pptr, stream.buffer
    ensures stream.Valid() && stream.View() == Append(old(stream.View()), BytesOf(op))
  {
    hide Append;
    AppendNothing(stream.View());
    match op {
      case Put(b) => var _ := stream.Sputc(b);
      case Bulk(s) => var _ := stream.Xsputn(s);
      case Flush => var _ := stream.Sync();
    }
  }

  /** OpenVarDef, any writes and flushes, CloseVarDef: for any size of the buffer. What was put before OpenVarDef and is
      still buffered comes first; afterwards the buffer is empty. */
  method Define(stream: StreamBuf, name: string, ops: seq<Op>)
    requires stream.Valid() && !stream.isOpen && name != ""
    modifies stream, stream.buffer
    ensures stream.Valid() && !stream.isOpen && stream.Pending() == []
    ensures stream.out == old(stream.out) + Definition(name, old(stream.Pending()) + AllBytes(ops))
  {
    hide Append;
    ghost var pending := stream.Pending();
    var _ := stream.OpenVarDef(name);
    ghost var start := stream.Sink();
    assert pending + [] == pending;
    for i := 0 to |ops|
      invariant stream.Valid() && stream.isOpen && stream.varNameBase == name
      invariant stream.View() == Append(start, pending + AllBytes(ops[..i]))
    {
      Perform(stream, ops[i]);
      assert ops[..i + 1][..i] == ops[..i];
      Regroup(pending, AllBytes(ops[..i]), BytesOf(ops[i]));
      AppendTwice(start, pending + AllBytes(ops[..i]), BytesOf(ops[i]));
    }
    assert ops[..|ops|] == ops;
    var _ := stream.CloseVarDef();
    DefinitionIs(old(stream.out), name, pending + AllBytes(ops));
  }

  lemma DefinitionIs(text: string, name: string, data: seq<octet>)
    ensures var u := Append(Unbuffered(text + Header(name), 0), data);
      u.text + Footer(name, u.count) == text + Definition(name, data)
  {
    hide Header, Footer, ListText;
    Regroup(text, Header(name), ListText(data, 0));
    Regroup(text, Header(name) + ListText(data, 0), Footer(name, |data|));
  }

  // ----- Reading the definition back

  function HexValue(c: char): Option<nat> {
    if '0' <= c <= '9' then Some((c - '0') as nat) else if 'A' <= c <= 'F' then Some((c - 'A') as nat + 10) else None
  }

  /** One element of the list: white space, 0x, two hexadecimal digits, a comma. */
  function ParseByte(s: string): (r: Option<(octet, string)>)
    ensures r.Some? ==> |r.value.1| < |s|
  {
    if |s| >= 6 && (s[0] == ' ' || s[0] == '\n') && s[1..3] == "0x" && s[5] == ',' then
      var high, low := HexValue(s[3]), HexValue(s[4]);
      if high.Some? && low.Some? && high.value < 16 && low.value < 16
      then Some((16 * high.value + low.value, s[6..])) else None
    else None
  }

  function ParseList(s: string): (r: (seq<octet>, string))
    decreases |s|
  {
    var r := ParseByte(s);
    if r.None? then ([], s) else
      var (bytes, rest) := ParseList(r.value.1);
      ([r.value.0] + bytes, rest)
  }

  function ParseNumber(s: string, n: nat): (nat, string) {
    if s != "" && '0' <= s[0] <= '9' then ParseNumber(s[1..], 10 * n + (s[0] - '0') as nat) else (n, s)
  }

  function Expect(s: string, prefix: string): Option<string> {
    if prefix <= s then Some(s[|prefix|..]) else None
  }

  /** The data and the size constant of a definition. */
  function ParseDefinition(name: string, s: string): Option<(seq<octet>, nat)> {
    var body := Expect(s, Header(name));
    if body.None? then None else
      var (data, tail) := ParseList(body.value);
      var newline := Expect(tail, "\n");
      var size := Expect(if newline.Some? then newline.value else tail, "};\nconstexpr size_t k" + name + "_size = ");
      if size.None? then None else
        var (count, end) := ParseNumber(size.value, 0);
        if end == ";\n" then Some((data, count)) else None
  }

  lemma HexIsReadBack(d: nat)
    requires d < 16
    ensures HexValue(HEX[d]) == Some(d)
  {}

  lemma ByteIsReadBack(b: octet, position: nat, tail: string)
    ensures ParseByte(ByteText(b, position) + tail) == Some((b, tail))
  {
    hide HexValue;
    HexIsReadBack(b / 16);
    HexIsReadBack(b % 16);
    var s := ByteText(b, position) + tail;
    assert s[1..3] == "0x" && s[6..] == tail;
  }

  lemma {:induction false} ListIsReadBack(bytes: seq<octet>, position: nat, tail: string)
    requires ParseByte(tail) == None
    ensures ParseList(ListText(bytes, position) + tail) == (bytes, tail)
  {
    hide ParseByte, ByteText;
    if bytes == [] {
      assert "" + tail == tail;
    } else {
      var later := ListText(bytes[1..], position + 1) + tail;
      ListIsReadBack(bytes[1..], position + 1, tail);
      ByteIsReadBack(bytes[0], position, later);
      Regroup(ByteText(bytes[0], position), ListText(bytes[1..], position + 1), tail);
      assert ListText(bytes, position) + tail == ByteText(bytes[0], position) + later;
      assert [bytes[0]] + bytes[1..] == bytes;
    }
  }

  lemma DigitIsRead(d: nat, n: nat, tail: string)
    requires d < 10
    ensures ParseNumber([DIGITS[d]] + tail, n) == ParseNumber(tail, 10 * n + d)
  {
    assert ([DIGITS[d]] + tail)[1..] == tail;
  }

  lemma {:induction false} NumberIsReadBack(n: nat, tail: string)
    ensures ParseNumber(Decimal(n) + tail, 0) == ParseNumber(tail, n)
  {
    hide ParseNumber;
    var d := [DIGITS[n % 10]];
    if n < 10 {
      assert Decimal(n) + tail == d + tail;
      DigitIsRead(n, 0, tail);
    } else {
      Regroup(Decimal(n / 10), d, tail);
      NumberIsReadBack(n / 10, d + tail);
      DigitIsRead(n % 10, n / 10, tail);
    }
  }

  lemma Expected(prefix: string, tail: string)
    ensures Expect(prefix + tail, prefix) == Some(tail)
  {}

  /** The footer is read back behind whatever list comes before it. */
  lemma FooterIsReadBack(name: string, count: nat)
    ensures ParseByte(Footer(name, count)) == None
    ensures var footer := Footer(name, count);
      var newline := Expect(footer, "\n");
      var size := Expect(if newline.Some? then newline.value else footer, "};\nconstexpr size_t k" + name + "_size = ");
      size.Some? && ParseNumber(size.value, 0) == (count, ";\n")
  {
    hide Decimal;
    var intro := "};\nconstexpr size_t k" + name + "_size = ";
    var number := Decimal(count) + ";\n";
    var footer := Footer(name, count);
    Regroup(intro, Decimal(count), ";\n");
    Expected(intro, number);
    if count != 0 {
      Expected("\n", intro + number);
      assert footer == "\n" + (intro + number);
      assert footer[1] == '}';
    } else {
      assert footer == intro + number;
      assert footer[0] == '}';
    }
    NumberIsReadBack(count, ";\n");
  }

  /** The emitted text says which bytes were written, in order and once each, and how many. */
  lemma ParsedBack(name: string, data: seq<octet>)
    ensures ParseDefinition(name, Definition(name, data)) == Some((data, |data|))
  {
    hide Header, Footer, ListText, ParseList, ParseByte, ParseNumber, Expect;
    var body := ListText(data, 0) + Footer(name, |data|);
    Regroup(Header(name), ListText(data, 0), Footer(name, |data|));
    Expected(Header(name), body);
    FooterIsReadBack(name, |data|);
    ListIsReadBack(data, 0, Footer(name, |data|));
  }
}
