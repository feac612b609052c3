/**
 ConvertUsingDoubleArray (strings/internal/double_array.cc): replacing the keys of a rule table in a text.

 A double array is a trie in two columns: the cell of the child of state b by the byte c is at
 b + c + 1, and it is a child exactly when its check column says b. `Lookup` finds the longest
 key that the text starts with, for any double array; the conversion is proved against the
 rules that the array and its character table encode.
 */
module DoubleArray {
  import opened Basics

  datatype Cell = Cell(base: int, check: nat)

  // ----- The trie

  /** Every state has room for its children, and the cell with the value of a state is at the state itself. */
  predicate IsDoubleArray(da: seq<Cell>) {
    && |da| > 0 && IsState(da, da[0].base)
    && forall p :: 0 <= p < |da| ==> if da[p].base < 0 then da[p].check == p else IsState(da, da[p].base)
  }

  predicate IsState(da: seq<Cell>, b: int) { 0 <= b && b + 256 < |da| }

  function Child(da: seq<Cell>, b: nat, c: octet): (r: Option<nat>)
    requires IsDoubleArray(da) && IsState(da, b)
    ensures r.Some? ==> IsState(da, r.value)
  {
    var p := b + c + 1;
    if da[p].check == b then Some(da[p].base) else None
  }

  /** The value of the key that leads to a state. */
  function ValueAt(da: seq<Cell>, b: nat): Option<nat>
    requires IsState(da, b)
  {
    if da[b].check == b && da[b].base < 0 then Some(-da[b].base - 1) else None
  }

  /** The state that a text leads to. */
  function State(da: seq<Cell>, s: seq<octet>): (r: Option<nat>)
    requires IsDoubleArray(da)
    ensures r.Some? ==> IsState(da, r.value)
  {
    if s == [] then Some(da[0].base) else
      var b := State(da, s[..|s| - 1]);
      if b == None then None else Child(da, b.value, s[|s| - 1])
  }

  /** The value of a key, None for a text that is no key. */
  function Index(da: seq<Cell>, key: seq<octet>): Option<nat>
    requires IsDoubleArray(da)
  {
    var b := State(da, key);
    if b == None then None else ValueAt(da, b.value)
  }

  lemma StateStep(da: seq<Cell>, s: seq<octet>, i: nat)
    requires IsDoubleArray(da) && i < |s|
    ensures var b := State(da, s[..i]);
      State(da, s[..i + 1]) == if b == None then None else Child(da, b.value, s[i])
  {
    hide IsDoubleArray, Child;
    assert s[..i + 1][..i] == s[..i];
  }

  /** Where the trie ends no longer text is a key. */
  lemma {:induction false} NoLongerKey(da: seq<Cell>, s: seq<octet>, i: nat, k: nat)
    requires IsDoubleArray(da) && i <= k <= |s| && State(da, s[..i]) == None
    ensures Index(da, s[..k]) == None
    decreases k
  {
    hide IsDoubleArray, Child;
    if i < k {
      NoLongerState(da, s, i, k);
    }
  }

  lemma {:induction false} NoLongerState(da: seq<Cell>, s: seq<octet>, i: nat, k: nat)
    requires IsDoubleArray(da) && i <= k <= |s| && State(da, s[..i]) == None
    ensures State(da, s[..k]) == None
    decreases k
  {
    hide IsDoubleArray, Child;
    if i < k {
      NoLongerState(da, s, i, k - 1);
      StateStep(da, s, k - 1);
    }
  }

  // ----- LookupDoubleArray

  /** Of the prefixes with fewer than n bytes the longest nonempty key has `seekto` bytes; 0 when none is a key. */
  ghost predicate IsLongest(da: seq<Cell>, s: seq<octet>, n: nat, seekto: nat, index: nat)
    requires IsDoubleArray(da) && n <= |s| + 1
  {
    && (seekto > 0 ==> seekto < n && Index(da, s[..seekto]) == Some(index))
    && forall k :: seekto < k < n ==> Index(da, s[..k]) == None
  }

  lemma LongestStep(da: seq<Cell>, s: seq<octet>, n: nat, seekto: nat, index: nat)
    requires IsDoubleArray(da) && n <= |s| && IsLongest(da, s, n, seekto, index)
    ensures var i := Index(da, s[..n]);
      if i.Some? then IsLongest(da, s, n + 1, n, i.value) else IsLongest(da, s, n + 1, seekto, index)
  {
    hide IsDoubleArray, Index;
  }

  lemma LongestAtEnd(da: seq<Cell>, s: seq<octet>, n: nat, seekto: nat, index: nat)
    requires IsDoubleArray(da) && n <= |s| && IsLongest(da, s, n, seekto, index) && State(da, s[..n]) == None
    ensures IsLongest(da, s, |s| + 1, seekto, index)
  {
    hide IsDoubleArray, Index, State;
    forall k | n <= k <= |s| ensures Index(da, s[..k]) == None { NoLongerKey(da, s, n, k); }
  }

  lemma RootIsState(da: seq<Cell>)
    requires IsDoubleArray(da)
    ensures |da| > 0 && IsState(da, da[0].base) && State(da, []) == Some(da[0].base)
  {}

  lemma IndexOf(da: seq<Cell>, s: seq<octet>, b: nat)
    requires IsDoubleArray(da) && State(da, s) == Some(b)
    ensures IsState(da, b) && Index(da, s) == if da[b].check == b && da[b].base < 0 then Some(-da[b].base - 1) else None
  {
    hide IsDoubleArray, State;
  }

  lemma ChildOf(da: seq<Cell>, b: nat, c: octet)
    requires IsDoubleArray(da) && IsState(da, b)
    ensures Child(da, b, c) == (if da[b + c + 1].check == b then Some(da[b + c + 1].base) else None)
    ensures da[b + c + 1].check == b ==> IsState(da, da[b + c + 1].base)
  {}

  method LookupDoubleArray(da: seq<Cell>, key: seq<octet>) returns (seekto: nat, index: nat)
    requires IsDoubleArray(da)
    ensures IsLongest(da, key, |key| + 1, seekto, index)
  {
    hide IsDoubleArray, Index, State, Child, IsLongest;
    seekto, index := 0, 0;
    RootIsState(da);
    NothingSeen(da, key);
    var b: nat := da[0].base;
    assert key[..0] == [];
    for i := 0 to |key|
      invariant State(da, key[..i]) == Some(b) && IsLongest(da, key, i, seekto, index)
    {
      IndexOf(da, key[..i], b);
      LongestStep(da, key, i, seekto, index);
      if da[b].check == b && da[b].base < 0 {
        seekto, index := i, -da[b].base - 1;
      }
      var p := b + key[i] + 1;
      StateStep(da, key, i);
      ChildOf(da, b, key[i]);
      if da[p].check != b {
        LongestAtEnd(da, key, i + 1, seekto, index);
        return;
      }
      b := da[p].base;
    }
    assert key[..|key|] == key;
    IndexOf(da, key, b);
    LongestStep(da, key, |key|, seekto, index);
    if da[b].check == b && da[b].base < 0 {
      seekto, index := |key|, -da[b].base - 1;
    }
  }

  lemma NothingSeen(da: seq<Cell>, s: seq<octet>)
    requires IsDoubleArray(da)
    ensures IsLongest(da, s, 0, 0, 0)
  {}

  // ----- The rules

  /** What a key is replaced with, and how many bytes at its end are read again. */
  datatype Rule = Rule(output: seq<octet>, rewind: nat)

  type Rules = seq<octet> -> Option<Rule>

  /** Keys are not empty, and every replacement gets ahead. */
  ghost predicate IsRules(rules: Rules) {
    forall key :: rules(key).Some? ==> key != [] && rules(key).value.rewind < |key|
  }

  /** An entry of the character table: the output, a zero, and the rewind offset as a char that is not negative. */
  predicate HasEntry(ctable: seq<octet>, i: nat, rule: Rule) {
    var end := i + |rule.output|;
    && end + 1 < |ctable| && ctable[i..end] == rule.output && 0 !in rule.output
    && ctable[end] == 0 && ctable[end + 1] == rule.rewind < 128
  }

  predicate IsEncoded(da: seq<Cell>, ctable: seq<octet>, key: seq<octet>, rule: Option<Rule>)
    requires IsDoubleArray(da)
  {
    var i := Index(da, key);
    if rule == None then i == None else i.Some? && HasEntry(ctable, i.value, rule.value)
  }

  ghost predicate Encodes(da: seq<Cell>, ctable: seq<octet>, rules: Rules) {
    && IsDoubleArray(da) && IsRules(rules)
    && forall key :: key != [] ==> IsEncoded(da, ctable, key, rules(key))
  }

  /** The longest key with at most n bytes that s starts with; 0 for none. */
  function LongestKey(rules: Rules, s: seq<octet>, n: nat): (k: nat)
    requires n <= |s|
    ensures k <= n && (k > 0 ==> rules(s[..k]).Some?)
  {
    if n == 0 || rules(s[..n]).Some? then n else LongestKey(rules, s, n - 1)
  }

  lemma {:induction false} NoLongerRule(rules: Rules, s: seq<octet>, n: nat, j: nat)
    requires n <= |s| && LongestKey(rules, s, n) < j <= n
    ensures rules(s[..j]) == None
  {
    if j < n { NoLongerRule(rules, s, n - 1, j); }
  }

  function Least(a: nat, b: nat): nat { if a < b then a else b }

  /** The text with the longest keys replaced from its front on; between them it is copied in steps of OneCharLen bytes,
      the last of which may be cut off. */
  function Converted(rules: Rules, s: seq<octet>): seq<octet>
    requires IsRules(rules)
    decreases |s|
  {
    if s == [] then [] else
      var k := LongestKey(rules, s, |s|);
      if k > 0 then
        var rule := rules(s[..k]).value;
        rule.output + Converted(rules, s[k - rule.rewind..])
      else
        var n := Least(OneCharLen(s[0]), |s|);
        s[..n] + Converted(rules, s[n..])
  }

  // ----- ConvertUsingDoubleArray

  /** string_view s(ctable + index): the bytes up to the zero. */
  method ReadEntry(ctable: seq<octet>, index: nat, ghost rule: Rule) returns (s: seq<octet>)
    requires HasEntry(ctable, index, rule)
    ensures s == rule.output
  {
    ghost var end := index + |rule.output|;
    var i := index;
    while ctable[i] != 0
      invariant index <= i <= end
      decreases end - i
    {
      EntryByte(ctable, index, rule, i);
      i := i + 1;
    }
    EntryByte(ctable, index, rule, i);
    s := ctable[index..i];
  }

  lemma EntryByte(ctable: seq<octet>, index: nat, rule: Rule, i: nat)
    requires HasEntry(ctable, index, rule) && index <= i <= index + |rule.output|
    ensures ctable[i] == 0 <==> i == index + |rule.output|
  {
    if i < index + |rule.output| {
      assert ctable[i] == ctable[index..index + |rule.output|][i - index] == rule.output[i - index];
    }
  }

  /** What was looked up is the longest key of the rules. */
  lemma LookedUp(da: seq<Cell>, ctable: seq<octet>, rules: Rules, s: seq<octet>, seekto: nat, index: nat)
    requires Encodes(da, ctable, rules) && IsLongest(da, s, |s| + 1, seekto, index)
    ensures LongestKey(rules, s, |s|) == seekto
    ensures seekto > 0 ==>
      var rule := rules(s[..seekto]);
      rule.Some? && HasEntry(ctable, index, rule.value) && rule.value.rewind < seekto
  {
    hide IsDoubleArray, Index, HasEntry, LongestKey;
    var k := LongestKey(rules, s, |s|);
    if seekto > 0 { assert IsEncoded(da, ctable, s[..seekto], rules(s[..seekto])); }
    if k > 0 { assert IsEncoded(da, ctable, s[..k], rules(s[..k])); }
    if k < seekto { NoLongerRule(rules, s, |s|, seekto); }
  }

  lemma GetsAhead(rules: Rules, key: seq<octet>)
    requires IsRules(rules) && rules(key).Some?
    ensures key != [] && rules(key).value.rewind < |key|
  {}

  lemma ConvertedKey(rules: Rules, t: seq<octet>, k: nat)
    requires IsRules(rules) && 0 < k == LongestKey(rules, t, |t|)
    ensures rules(t[..k]).value.rewind < k
    ensures var rule := rules(t[..k]).value; Converted(rules, t) == rule.output + Converted(rules, t[k - rule.rewind..])
  {
    hide IsRules, LongestKey, OneCharLen;
    GetsAhead(rules, t[..k]);
  }

  lemma ConvertedCopy(rules: Rules, t: seq<octet>, n: nat)
    requires IsRules(rules) && t != [] && LongestKey(rules, t, |t|) == 0 && n == Least(OneCharLen(t[0]), |t|)
    ensures Converted(rules, t) == t[..n] + Converted(rules, t[n..])
  {
    hide IsRules, LongestKey, OneCharLen;
  }

  lemma KeyStep(rules: Rules, s: seq<octet>, i: nat, k: nat, output: seq<octet>)
    requires IsRules(rules) && i < |s| && 0 < k == LongestKey(rules, s[i..], |s| - i)
    ensures var rule := rules(s[i..][..k]).value;
      && rule.rewind < k && i + (k - rule.rewind) <= |s|
      && output + Converted(rules, s[i..]) == output + rule.output + Converted(rules, s[i + (k - rule.rewind)..])
  {
    hide IsRules, Converted, LongestKey, OneCharLen;
    var t := s[i..];
    ConvertedKey(rules, t, k);
    var rule := rules(t[..k]).value;
    assert t[k - rule.rewind..] == s[i + (k - rule.rewind)..];
    Regroup(output, rule.output, Converted(rules, t[k - rule.rewind..]));
  }

  lemma CopyStep(rules: Rules, s: seq<octet>, i: nat, end: nat, output: seq<octet>)
    requires IsRules(rules) && i < |s| && LongestKey(rules, s[i..], |s| - i) == 0
    requires end == Least(i + OneCharLen(s[i]), |s|)
    ensures i < end && output + Converted(rules, s[i..]) == output + s[i..end] + Converted(rules, s[end..])
  {
    hide IsRules, Converted, LongestKey, OneCharLen;
    var t := s[i..];
    ConvertedCopy(rules, t, end - i);
    assert t[..end - i] == s[i..end] && t[end - i..] == s[end..];
    Regroup(output, s[i..end], Converted(rules, s[end..]));
  }

  lemma RewindOf(ctable: seq<octet>, index: nat, rule: Rule)
    requires HasEntry(ctable, index, rule)
    ensures var end := index + |rule.output|; end + 1 < |ctable| && ctable[end + 1] == rule.rewind
  {}

  lemma EncodesRules(da: seq<Cell>, ctable: seq<octet>, rules: Rules)
    requires Encodes(da, ctable, rules)
    ensures IsDoubleArray(da) && IsRules(rules)
  {}

  lemma NothingConverted(rules: Rules, s: seq<octet>)
    requires IsRules(rules) && s == []
    ensures Converted(rules, s) == []
  {}

  method ConvertUsingDoubleArray(da: seq<Cell>, ctable: seq<octet>, input: seq<octet>, ghost rules: Rules)
    returns (output: seq<octet>)
    requires Encodes(da, ctable, rules)
    ensures output == Converted(rules, input)
  {
    hide Encodes, IsRules, IsDoubleArray, IsLongest, Converted, LongestKey, OneCharLen, HasEntry;
    EncodesRules(da, ctable, rules);
    output := [];
    var i := 0;
    assert input[0..] == input;
    while i < |input|
      invariant output + Converted(rules, input[Least(i, |input|)..]) == Converted(rules, input)
      decreases |input| - i
    {
      var seekto, index := LookupDoubleArray(da, input[i..]);
      LookedUp(da, ctable, rules, input[i..], seekto, index);
      if seekto > 0 {
        ghost var rule := rules(input[i..][..seekto]).value;
        KeyStep(rules, input, i, seekto, output);
        var s := ReadEntry(ctable, index, rule);
        output := output + s;
        RewindOf(ctable, index, rule);
        i := i + (seekto - ctable[index + |s| + 1]);
      } else {
        var mblen := OneCharLen(input[i]);
        CopyStep(rules, input, i, Least(i + mblen, |input|), output);
        output := output + input[i..Least(i + mblen, |input|)];
        i := i + mblen;
      }
    }
    NothingConverted(rules, input[|input|..]);
    assert output + [] == output;
  }
}
