/**
 TextNormalizer::SanitizeText (text_normalizer.cc): keep the well-formed characters that are
 not control characters, from at most max_bytes bytes of a string.
 */
module TextSanitizer {
  import opened Basics
  import opened Utf8Decoder

  predicate IsControl(cp: nat) { cp < 32 || cp == 127 }

  /** A character that is kept. */
  predicate IsKept(r: DecodeResult) { r.Continue? && !IsControl(r.cp) }

  /** The characters of s that are kept. */
  function Kept(s: seq<octet>): seq<octet> {
    if s == [] then [] else
      var r := Decoded(s);
      (if IsKept(r) then s[..r.seen] else []) + Kept(s[r.seen..])
  }

  /** Every character is kept. */
  predicate IsClean(s: seq<octet>) {
    s != [] ==> IsKept(Decoded(s)) && IsClean(s[Decoded(s).seen..])
  }

  function Clipped(s: seq<octet>, maxBytes: nat): (r: seq<octet>)
    ensures |r| <= maxBytes && |r| <= |s|
  {
    if |s| > maxBytes then s[..maxBytes] else s
  }

  function Sanitized(s: seq<octet>, maxBytes: nat): seq<octet> { Kept(Clipped(s, maxBytes)) }

  /** None when the text is left as it is. */
  function Sanitize(s: seq<octet>, maxBytes: nat): Option<seq<octet>> {
    if |s| <= maxBytes && IsClean(s) then None else Some(Sanitized(s, maxBytes))
  }

  // ----- What the result is, without the decoder

  /** A text is a sequence of characters of Table 3-7 of the Unicode Standard. */
  function Flat(chars: seq<seq<octet>>): seq<octet> {
    if chars == [] then [] else chars[0] + Flat(chars[1..])
  }

  ghost predicate IsWellFormedText(s: seq<octet>) {
    exists chars: seq<seq<octet>> :: (forall c :: c in chars ==> IsWellFormedChar(c)) && s == Flat(chars)
  }

  /** No byte of a control character. */
  predicate HasNoControl(s: seq<octet>) { forall b :: b in s ==> b >= 32 && b != 127 }

  /** The characters and the ill-formed parts of a text, as it is iterated over. */
  function Pieces(s: seq<octet>): seq<seq<octet>> {
    if s == [] then [] else [s[..Decoded(s).seen]] + Pieces(s[Decoded(s).seen..])
  }

  /** s arises from t by leaving elements out. */
  predicate IsSubsequence<T(==)>(s: seq<T>, t: seq<T>) {
    if s == [] then true
    else if t == [] then false
    else (s[0] == t[0] && IsSubsequence(s[1..], t[1..])) || IsSubsequence(s, t[1..])
  }

  lemma ControlIsByte(c: seq<octet>)
    requires IsWellFormedChar(c)
    ensures IsControl(Scalar(c)) <==> !HasNoControl(c)
    ensures c != []
  {
    ScalarIsShortest(c);
    assert c[0] in c;
    assert |c| > 1 ==> forall b :: b in c ==> b >= 0x80;
  }

  /** One kept character in front. */
  lemma CleanCons(c: seq<octet>, tail: seq<octet>)
    requires IsWellFormedChar(c) && HasNoControl(c)
    ensures IsClean(c + tail) <==> IsClean(tail)
    ensures Kept(c + tail) == c + Kept(tail)
    ensures Pieces(c + tail) == [c] + Pieces(tail)
  {
    hide IsWellFormedChar, Scalar, Decoded, IsControl, HasNoControl;
    ControlIsByte(c);
    DecodedPrefix(c, tail);
    assert (c + tail)[..|c|] == c && (c + tail)[|c|..] == tail;
  }

  lemma KeptPiece(s: seq<octet>)
    requires s != [] && IsKept(Decoded(s))
    ensures var c := s[..Decoded(s).seen]; IsWellFormedChar(c) && HasNoControl(c)
  {
    hide IsWellFormedChar, Scalar, Decoded, IsControl, HasNoControl;
    ContinueIsChar(s);
    ControlIsByte(s[..Decoded(s).seen]);
  }

  lemma {:induction false} KeptIsClean(s: seq<octet>)
    ensures IsClean(Kept(s))
  {
    hide IsWellFormedChar, Decoded, IsKept, HasNoControl;
    if s != [] {
      var r := Decoded(s);
      KeptIsClean(s[r.seen..]);
      if IsKept(r) {
        KeptPiece(s);
        CleanCons(s[..r.seen], Kept(s[r.seen..]));
      } else {
        assert [] + Kept(s[r.seen..]) == Kept(s[r.seen..]);
      }
    }
  }

  lemma {:induction false} CleanIsKept(s: seq<octet>)
    requires IsClean(s)
    ensures Kept(s) == s
  {
    hide Decoded, IsKept;
    if s != [] {
      var n := Decoded(s).seen;
      CleanIsKept(s[n..]);
      assert s[..n] + s[n..] == s;
    }
  }

  lemma {:induction false} CleanIsFlat(s: seq<octet>)
    requires IsClean(s)
    ensures IsWellFormedText(s) && HasNoControl(s)
  {
    hide IsWellFormedChar, Decoded, IsKept;
    if s == [] {
      assert s == Flat([]);
    } else {
      var n := Decoded(s).seen;
      KeptPiece(s);
      CleanIsFlat(s[n..]);
      var chars: seq<seq<octet>> :| (forall c :: c in chars ==> IsWellFormedChar(c)) && s[n..] == Flat(chars);
      assert s == s[..n] + s[n..];
      assert ([s[..n]] + chars)[1..] == chars;
      assert s == Flat([s[..n]] + chars);
    }
  }

  lemma {:induction false} FlatIsClean(chars: seq<seq<octet>>)
    requires forall c :: c in chars ==> IsWellFormedChar(c)
    requires HasNoControl(Flat(chars))
    ensures IsClean(Flat(chars))
  {
    hide IsWellFormedChar, Decoded, IsKept;
    if chars != [] {
      assert forall b :: b in chars[0] ==> b in Flat(chars);
      assert forall b :: b in Flat(chars[1..]) ==> b in Flat(chars);
      FlatIsClean(chars[1..]);
      CleanCons(chars[0], Flat(chars[1..]));
    }
  }

  /** The texts that pass the test of SanitizeText. */
  lemma CleanTexts(s: seq<octet>)
    ensures IsClean(s) <==> IsWellFormedText(s) && HasNoControl(s)
  {
    hide IsClean, HasNoControl;
    if IsClean(s) { CleanIsFlat(s); }
    if IsWellFormedText(s) && HasNoControl(s) {
      var chars: seq<seq<octet>> :| (forall c :: c in chars ==> IsWellFormedChar(c)) && s == Flat(chars);
      FlatIsClean(chars);
    }
  }

  /** Cutting a text off changes no piece but the last, which then is ill-formed. */
  lemma DecodedBeforeCut(s: seq<octet>, m: nat)
    requires 0 < m <= |s| && (Decoded(s[..m]).Continue? || Decoded(s[..m]).seen < m)
    ensures Decoded(s) == Decoded(s[..m])
  {
    var t := s[..m];
    assert forall n :: 0 <= n <= m ==> t[..n] == s[..n];
    if !Decoded(t).Continue? {
      forall n | m < n <= 4 && n <= |s| ensures !IsWellFormedChar(s[..n]) {
        if IsWellFormedChar(s[..n]) { BeginningIsTruncated(s, m, n); }
      }
    }
  }

  lemma BeginningIsTruncated(s: seq<octet>, m: nat, n: nat)
    requires 0 < m < n <= |s| && IsWellFormedChar(s[..n])
    ensures IsTruncated(s[..m])
  {
    var t := s[m..n];
    assert s[..m] + t == s[..n];
    assert t != [] && IsWellFormedChar(s[..m] + t);
    TruncatedIsBeginning(s[..m]);
  }

  /** The characters kept of a text that is cut off are characters of the whole text. */
  lemma {:induction false} KeptIsSubsequence(s: seq<octet>, m: nat)
    requires m <= |s|
    ensures IsSubsequence(Pieces(Kept(s[..m])), Pieces(s)) && |Kept(s[..m])| <= m
    decreases m
  {
    hide Decoded, IsKept, IsSubsequence, IsClean, HasNoControl, IsWellFormedChar;
    NothingIsSubsequence(Pieces(s));
    if m > 0 {
      var t := s[..m];
      var r := Decoded(t);
      var n := r.seen;
      assert t[n..] == s[n..][..m - n];
      if IsKept(r) || n < m {
        if !IsKept(r) { assert [] + Kept(t[n..]) == Kept(t[n..]); }
        KeptMeansContinue(r);
        DecodedBeforeCut(s, m);
        KeptIsSubsequence(s[n..], m - n);
        assert t[..n] == s[..n];
        SubsequenceSteps(s[..n], Pieces(Kept(t[n..])), Pieces(s[n..]));
        if IsKept(r) {
          KeptPiece(t);
          CleanCons(t[..n], Kept(t[n..]));
        }
      } else {
        assert t[n..] == [];
      }
    }
  }

  lemma KeptMeansContinue(r: DecodeResult)
    ensures IsKept(r) ==> r.Continue?
  {}

  lemma SubsequenceSteps<T>(x: T, s: seq<T>, t: seq<T>)
    requires IsSubsequence(s, t)
    ensures IsSubsequence([x] + s, [x] + t) && IsSubsequence(s, [x] + t)
  {
    assert ([x] + s)[1..] == s && ([x] + t)[1..] == t;
  }

  lemma NothingIsSubsequence<T>(t: seq<T>)
    ensures IsSubsequence([], t)
  {}

  // ----- The theorems

  /** The sanitized text is well-formed, has no control characters and is short enough; its characters are characters
      of the input, in their order. */
  lemma SanitizedIsSound(s: seq<octet>, maxBytes: nat)
    ensures var t := Sanitized(s, maxBytes);
      IsWellFormedText(t) && HasNoControl(t) && |t| <= maxBytes && IsSubsequence(Pieces(t), Pieces(s))
  {
    hide Kept, IsSubsequence, IsWellFormedText, HasNoControl, Pieces;
    var clipped := Clipped(s, maxBytes);
    KeptIsClean(clipped);
    CleanTexts(Kept(clipped));
    assert clipped == s[..|clipped|];
    KeptIsSubsequence(s, |clipped|);
  }

  /** The pieces that are kept: well-formed characters other than control characters. */
  function KeptPieces(pieces: seq<seq<octet>>): seq<seq<octet>> {
    if pieces == [] then []
    else (if IsWellFormedChar(pieces[0]) && HasNoControl(pieces[0]) then [pieces[0]] else []) + KeptPieces(pieces[1..])
  }

  /** A piece is kept exactly for what it is. */
  lemma KeptIffClean(s: seq<octet>)
    requires s != []
    ensures var c := s[..Decoded(s).seen]; IsKept(Decoded(s)) <==> IsWellFormedChar(c) && HasNoControl(c)
  {
    hide IsWellFormedChar, Scalar, Decoded, IsControl, HasNoControl;
    var r := Decoded(s);
    var c := s[..r.seen];
    if r.Continue? {
      ContinueIsChar(s);
      ControlIsByte(c);
    } else if IsWellFormedChar(c) {
      assert s == c + s[r.seen..];
      DecodedPrefix(c, s[r.seen..]);
    }
  }

  /** Nothing else is left out: the characters of the sanitized text are exactly the well-formed characters of the
      input that are no control characters, in their order. */
  lemma {:induction false} KeptIsComplete(s: seq<octet>)
    ensures Pieces(Kept(s)) == KeptPieces(Pieces(s))
  {
    hide Decoded, IsKept, IsWellFormedChar, HasNoControl, IsClean;
    if s != [] {
      var n := Decoded(s).seen;
      var c, rest := s[..n], s[n..];
      KeptIsComplete(rest);
      KeptIffClean(s);
      assert ([c] + Pieces(rest))[1..] == Pieces(rest);
      if IsKept(Decoded(s)) {
        CleanCons(c, Kept(rest));
      } else {
        assert [] + Kept(rest) == Kept(rest) && [] + KeptPieces(Pieces(rest)) == KeptPieces(Pieces(rest));
      }
    }
  }

  lemma SanitizedIsComplete(s: seq<octet>, maxBytes: nat)
    ensures Pieces(Sanitized(s, maxBytes)) == KeptPieces(Pieces(Clipped(s, maxBytes)))
  {
    KeptIsComplete(Clipped(s, maxBytes));
  }

  /** A beginning of a character that is not the whole character is no character. */
  lemma BeginningIsDropped(c: seq<octet>, m: nat)
    requires IsWellFormedChar(c) && 0 < m < |c|
    ensures Decoded(c[..m]) == Error(m)
  {
    assert c[..|c|] == c;
    BeginningIsTruncated(c, m, |c|);
    assert forall n :: 0 <= n <= m ==> c[..m][..n] == c[..n];
  }

  /** The longest clean prefix of at most m bytes. */
  ghost predicate IsLongestCleanPrefix(t: seq<octet>, s: seq<octet>, m: nat)
    requires m <= |s|
  {
    && |t| <= m && t == s[..|t|] && IsClean(t)
    && forall j :: |t| < j <= m ==> !IsClean(s[..j])
  }

  /** A text with nothing to leave out is cut off at the last boundary of characters that fits. */
  lemma {:induction false} CleanIsCutAtBoundary(s: seq<octet>, m: nat)
    requires IsClean(s) && m <= |s|
    ensures IsLongestCleanPrefix(Kept(s[..m]), s, m)
    decreases m
  {
    hide Decoded, IsKept, HasNoControl, IsWellFormedChar;
    if m > 0 {
      KeptPiece(s);
      var n := Decoded(s).seen;
      var c, rest := s[..n], s[n..];
      assert s == c + rest;
      if n <= m {
        assert s[..m] == c + rest[..m - n];
        CleanIsCutAtBoundary(rest, m - n);
        CleanCons(c, rest[..m - n]);
        PrefixBehind(c, Kept(rest[..m - n]), rest, m - n);
      } else {
        forall j | 0 < j <= m ensures Decoded(s[..j]) == Error(j) {
          BeginningIsDropped(c, j);
          assert c[..j] == s[..j];
        }
        ErrorIsNotKept();
        assert s[..m][m..] == [];
        assert [] + Kept([]) == [];
      }
    }
  }

  lemma PrefixBehind(c: seq<octet>, t: seq<octet>, rest: seq<octet>, m: nat)
    requires IsWellFormedChar(c) && HasNoControl(c) && m <= |rest| && IsLongestCleanPrefix(t, rest, m)
    ensures IsLongestCleanPrefix(c + t, c + rest, |c| + m)
  {
    hide IsWellFormedChar, HasNoControl, IsClean;
    var s, n := c + rest, |c|;
    CleanCons(c, t);
    assert s[..n + |t|] == c + rest[..|t|];
    forall j | n + |t| < j <= n + m ensures !IsClean(s[..j]) {
      assert s[..j] == c + rest[..j - n];
      CleanCons(c, rest[..j - n]);
    }
  }

  lemma ErrorIsNotKept()
    ensures forall n :: !IsKept(Error(n))
  {}

  lemma CleanIsCut(s: seq<octet>, maxBytes: nat)
    requires IsClean(s) && |s| > maxBytes
    ensures IsLongestCleanPrefix(Sanitized(s, maxBytes), s, maxBytes)
  {
    CleanIsCutAtBoundary(s, maxBytes);
  }

  /** Sanitizing a second time changes nothing. */
  lemma SanitizedTwice(s: seq<octet>, maxBytes: nat)
    ensures Sanitize(Sanitized(s, maxBytes), maxBytes) == None
  {
    hide Kept, IsSubsequence, IsWellFormedText, HasNoControl, IsClean;
    KeptIsClean(Clipped(s, maxBytes));
    SanitizedIsSound(s, maxBytes);
  }

  /** The text is left as it is exactly when it is its own sanitized form. */
  lemma NoneMeansUnchanged(s: seq<octet>, maxBytes: nat)
    ensures Sanitize(s, maxBytes) == None <==> Sanitized(s, maxBytes) == s
  {
    hide Kept, IsClean, IsSubsequence;
    if |s| <= maxBytes {
      if IsClean(s) { CleanIsKept(s); }
      KeptIsClean(s);
    } else {
      KeptIsSubsequence(s, maxBytes);
    }
  }

  // ----- The method

  /** The iteration over Utf8AsUnicodeChar(str) of the lambda is_valid_text. */
  method IsValidText(str: seq<octet>, maxBytes: nat) returns (valid: bool)
    ensures valid <==> |str| <= maxBytes && IsClean(str)
  {
    hide Decoded;
    if |str| > maxBytes { return false; }
    var pos := 0;
    assert str[0..] == str;
    while pos < |str|
      invariant pos <= |str| && (IsClean(str[pos..]) <==> IsClean(str))
    {
      var c := Decode(str[pos..]);
      if !c.Continue? || c.cp < 32 || c.cp == 127 { return false; }
      assert str[pos..][c.seen..] == str[pos + c.seen..];
      pos := pos + c.seen;
    }
    valid := true;
  }

  method SanitizeText(input0: seq<octet>, maxBytes: nat) returns (result: Option<seq<octet>>)
    ensures result == Sanitize(input0, maxBytes)
    ensures result == None <==> Sanitized(input0, maxBytes) == input0
    ensures result.Some? ==> IsWellFormedText(result.value) && HasNoControl(result.value) && |result.value| <= maxBytes
    ensures result.Some? ==> IsSubsequence(Pieces(result.value), Pieces(input0)) && Sanitize(result.value, maxBytes) == None
  {
    hide Kept, IsClean, IsWellFormedText, HasNoControl, IsSubsequence;
    NoneMeansUnchanged(input0, maxBytes);
    SanitizedIsSound(input0, maxBytes);
    SanitizedTwice(input0, maxBytes);
    var valid := IsValidText(input0, maxBytes);
    if valid { return None; }
    var input := input0;
    if |input| > maxBytes {
      input := input[..maxBytes];
    }
    var sanitized := KeepCharacters(input);
    result := Some(sanitized);
  }

  /** The loop that copies. */
  method KeepCharacters(input: seq<octet>) returns (sanitized: seq<octet>)
    ensures sanitized == Kept(input)
  {
    hide Decoded;
    sanitized := [];
    var pos := 0;
    assert input[0..] == input;
    while pos < |input|
      invariant pos <= |input| && sanitized + Kept(input[pos..]) == Kept(input)
    {
      var c := Decode(input[pos..]);
      ghost var rest := input[pos..];
      assert rest[c.seen..] == input[pos + c.seen..];
      if c.Continue? && !(c.cp < 32 || c.cp == 127) {
        Regroup(sanitized, rest[..c.seen], Kept(rest[c.seen..]));
        sanitized := sanitized + input[pos..pos + c.seen];
        assert rest[..c.seen] == input[pos..pos + c.seen];
      } else {
        assert [] + Kept(rest[c.seen..]) == Kept(rest[c.seen..]);
      }
      pos := pos + c.seen;
    }
  }
}
