/**
 The block cipher against the equations of FIPS 197 on the words of the state: `IsRun` says which
 states follow each other, without the transformations of `Fips197`, and `CipherIsStandard` says
 that the cipher is the end of such a run and of no other.
 */
module CipherEquations {
  import opened Basics
  import opened Gf256
  import opened SBox
  import opened Fips197

  // ----- The equations

  /** Byte r of word c of a state (FIPS 197 section 3.4). */
  function At(s: Block, r: nat, c: nat): byte
    requires r < 4
  {
    s[r + 4 * (c % 4)]
  }

  /** Word c after the substitution and the shift of the rows: byte r comes from word c + r (section 5.1.2). */
  function Substituted(s: Block, c: nat): Column {
    Column(Sub(At(s, 0, c)), Sub(At(s, 1, c + 1)), Sub(At(s, 2, c + 2)), Sub(At(s, 3, c + 3)))
  }

  function Triple(x: byte): byte { Plus(XTime(x), x) }

  /** Equation 5.6. */
  function Mixed(u: Column): Column {
    Column(Plus(Plus(XTime(u.b0), Triple(u.b1)), Plus(u.b2, u.b3)),
           Plus(Plus(u.b0, XTime(u.b1)), Plus(Triple(u.b2), u.b3)),
           Plus(Plus(u.b0, u.b1), Plus(XTime(u.b2), Triple(u.b3))),
           Plus(Plus(Triple(u.b0), u.b1), Plus(u.b2, XTime(u.b3))))
  }

  /** Word c of the state after round n, from the state before it; round 0 is the first key addition. */
  function NextWord(k: Key, s: Block, n: nat, c: nat): Column {
    var word := if n == 0 then Column(At(s, 0, c), At(s, 1, c), At(s, 2, c), At(s, 3, c))
                else if n < 14 then Mixed(Substituted(s, c))
                else Substituted(s, c);
    ColumnPlus(word, ScheduleWord(k, 4 * n + c))
  }

  predicate Follows(k: Key, s: Block, n: nat, t: Block) {
    forall c | c in {0, 1, 2, 3} :: Column(At(t, 0, c), At(t, 1, c), At(t, 2, c), At(t, 3, c)) == NextWord(k, s, n, c)
  }

  /** The states after the first key addition and after each of fourteen rounds. */
  predicate IsRun(k: Key, s: Block, states: seq<Block>) {
    && |states| == 15
    && Follows(k, s, 0, states[0])
    && forall n :: 1 <= n <= 14 ==> Follows(k, states[n - 1], n, states[n])
  }

  // ----- The transformations meet them

  lemma MixedIsMixColumn(u: Column)
    ensures MixColumn(u) == Mixed(u)
  {
    hide GMul, XTime, Plus;
    SmallMultiples(u.b0);
    SmallMultiples(u.b1);
    SmallMultiples(u.b2);
    SmallMultiples(u.b3);
  }

  lemma WordOfKey(k: Key, n: nat, c: nat)
    requires n <= 14 && c < 4
    ensures ColumnAt(RoundKey(KeyExpansion(k), n), 4 * c) == ScheduleWord(k, 4 * n + c)
  {
    hide ScheduleWord, ScheduleByte;
    ByteOf(k, 4 * n + c, 0);
    ByteOf(k, 4 * n + c, 1);
    ByteOf(k, 4 * n + c, 2);
    ByteOf(k, 4 * n + c, 3);
  }

  lemma WordOfSum(s: Block, key: Block, c: nat)
    requires c < 4
    ensures ColumnAt(AddRoundKey(s, key), 4 * c) == ColumnPlus(ColumnAt(s, 4 * c), ColumnAt(key, 4 * c))
  {
    hide Plus;
  }

  lemma WordIsShifted(t: Block, c: nat)
    requires c < 4
    ensures ColumnAt(ShiftRows(t), 4 * c) == Column(At(t, 0, c), At(t, 1, c + 1), At(t, 2, c + 2), At(t, 3, c + 3))
  {
    hide FromColumns;
    var a, b, d, e := ColumnAt(t, 0), ColumnAt(t, 4), ColumnAt(t, 8), ColumnAt(t, 12);
    ColumnsOf(Diagonal(a, b, d, e), Diagonal(b, d, e, a), Diagonal(d, e, a, b), Diagonal(e, a, b, d));
  }

  lemma ByteIsSubstituted(s: Block, r: nat, c: nat)
    requires r < 4
    ensures At(SubBytes(s), r, c) == Sub(At(s, r, c))
  {
    hide Sub;
  }

  lemma WordIsSubstituted(s: Block, c: nat)
    requires c < 4
    ensures ColumnAt(ShiftRows(SubBytes(s)), 4 * c) == Substituted(s, c)
  {
    hide Sub, SubBytes, ShiftRows;
    WordIsShifted(SubBytes(s), c);
    ByteIsSubstituted(s, 0, c);
    ByteIsSubstituted(s, 1, c + 1);
    ByteIsSubstituted(s, 2, c + 2);
    ByteIsSubstituted(s, 3, c + 3);
  }

  lemma WordIsMixed(s: Block, c: nat)
    requires c < 4
    ensures ColumnAt(MixColumns(s), 4 * c) == Mixed(ColumnAt(s, 4 * c))
  {
    hide Mixed, MixColumn;
    MixedIsMixColumn(ColumnAt(s, 4 * c));
    ColumnsOf(MixColumn(ColumnAt(s, 0)), MixColumn(ColumnAt(s, 4)),
              MixColumn(ColumnAt(s, 8)), MixColumn(ColumnAt(s, 12)));
  }

  lemma WordAt(t: Block, c: nat)
    requires c < 4
    ensures ColumnAt(t, 4 * c) == Column(At(t, 0, c), At(t, 1, c), At(t, 2, c), At(t, 3, c))
  {}

  lemma FollowsByWords(k: Key, s: Block, n: nat, t: Block)
    requires forall c: nat :: c < 4 ==> ColumnAt(t, 4 * c) == NextWord(k, s, n, c)
    ensures Follows(k, s, n, t)
  {
    hide ColumnAt, NextWord, At;
    WordAt(t, 0);
    WordAt(t, 1);
    WordAt(t, 2);
    WordAt(t, 3);
  }

  /** The first key addition. */
  lemma FirstFollows(k: Key, s: Block)
    ensures Follows(k, s, 0, AddRoundKey(s, RoundKey(KeyExpansion(k), 0)))
  {
    hide AddRoundKey, RoundKey, KeyExpansion, ScheduleWord, ColumnAt, ColumnPlus, Follows, At;
    var key := RoundKey(KeyExpansion(k), 0);
    forall c: nat | c < 4 ensures ColumnAt(AddRoundKey(s, key), 4 * c) == NextWord(k, s, 0, c) {
      WordOfKey(k, 0, c);
      WordOfSum(s, key, c);
      WordAt(s, c);
    }
    FollowsByWords(k, s, 0, AddRoundKey(s, key));
  }

  /** A full round. */
  lemma RoundFollows(k: Key, s: Block, n: nat)
    requires 1 <= n < 14
    ensures Follows(k, s, n, Round(KeyExpansion(k), s, n))
  {
    hide AddRoundKey, SubBytes, ShiftRows, MixColumns, RoundKey, KeyExpansion, ScheduleWord;
    hide ColumnAt, ColumnPlus, Follows, Substituted, Mixed;
    var key, t := RoundKey(KeyExpansion(k), n), ShiftRows(SubBytes(s));
    forall c: nat | c < 4 ensures ColumnAt(Round(KeyExpansion(k), s, n), 4 * c) == NextWord(k, s, n, c) {
      WordOfKey(k, n, c);
      WordOfSum(MixColumns(t), key, c);
      WordIsMixed(t, c);
      WordIsSubstituted(s, c);
    }
    FollowsByWords(k, s, n, Round(KeyExpansion(k), s, n));
  }

  /** The last round, without the mixing. */
  lemma LastFollows(k: Key, s: Block)
    ensures Follows(k, s, 14, AddRoundKey(ShiftRows(SubBytes(s)), RoundKey(KeyExpansion(k), 14)))
  {
    hide AddRoundKey, SubBytes, ShiftRows, RoundKey, KeyExpansion, ScheduleWord, ColumnAt, ColumnPlus, Follows, Substituted;
    var key, t := RoundKey(KeyExpansion(k), 14), ShiftRows(SubBytes(s));
    forall c: nat | c < 4 ensures ColumnAt(AddRoundKey(t, key), 4 * c) == NextWord(k, s, 14, c) {
      WordOfKey(k, 14, c);
      WordOfSum(t, key, c);
      WordIsSubstituted(s, c);
    }
    FollowsByWords(k, s, 14, AddRoundKey(t, key));
  }

  // ----- The cipher

  /** The state after n rounds, by the transformations. */
  function StateAfter(k: Key, s: Block, n: nat): Block
    requires n <= 14
  {
    if n == 14 then Cipher(KeyExpansion(k), s) else Rounds(KeyExpansion(k), s, n)
  }

  lemma StateFollows(k: Key, s: Block, n: nat)
    requires 1 <= n <= 14
    ensures Follows(k, StateAfter(k, s, n - 1), n, StateAfter(k, s, n))
  {
    hide AddRoundKey, SubBytes, ShiftRows, RoundKey, KeyExpansion, Cipher, Round, Follows;
    var w := KeyExpansion(k);
    if n < 14 {
      RoundFollows(k, Rounds(w, s, n - 1), n);
      assert StateAfter(k, s, n) == Rounds(w, s, n) == Round(w, Rounds(w, s, n - 1), n);
    } else {
      LastFollows(k, Rounds(w, s, n - 1));
      LastState(w, s, n);
    }
  }

  lemma LastState(w: Schedule, s: Block, n: nat)
    requires n == 14
    ensures Cipher(w, s) == AddRoundKey(ShiftRows(SubBytes(Rounds(w, s, n - 1))), RoundKey(w, n))
  {
    hide AddRoundKey, SubBytes, ShiftRows, RoundKey, Rounds;
  }

  lemma FollowsIsUnique(k: Key, s: Block, n: nat, t: Block, u: Block)
    requires Follows(k, s, n, t) && Follows(k, s, n, u)
    ensures t == u
  {
    hide NextWord, At, ColumnAt, FromColumns;
    WordAt(t, 0); WordAt(t, 1); WordAt(t, 2); WordAt(t, 3);
    WordAt(u, 0); WordAt(u, 1); WordAt(u, 2); WordAt(u, 3);
    FromItsColumns(t);
    FromItsColumns(u);
  }

  lemma {:induction false} RunIsCipher(k: Key, s: Block, states: seq<Block>, n: nat)
    requires IsRun(k, s, states) && n <= 14
    ensures states[n] == StateAfter(k, s, n)
  {
    hide Follows, AddRoundKey, RoundKey, KeyExpansion, Cipher;
    if n == 0 {
      FirstFollows(k, s);
      FollowsIsUnique(k, s, 0, states[0], StateAfter(k, s, 0));
    } else {
      RunIsCipher(k, s, states, n - 1);
      StateFollows(k, s, n);
      FollowsIsUnique(k, states[n - 1], n, states[n], StateAfter(k, s, n));
    }
  }

  lemma StatesAreRun(k: Key, s: Block) returns (states: seq<Block>)
    ensures IsRun(k, s, states) && states[14] == StateAfter(k, s, 14)
  {
    hide Follows, AddRoundKey, RoundKey, KeyExpansion, Cipher, Round;
    states := seq(15, n requires 0 <= n < 15 => StateAfter(k, s, n));
    FirstFollows(k, s);
    forall n | 1 <= n <= 14 ensures Follows(k, states[n - 1], n, states[n]) { StateFollows(k, s, n); }
  }

  /** The cipher under the expanded key is the end of the run of the equations, and there is no other. */
  lemma CipherIsStandard(k: Key, s: Block, t: Block)
    ensures t == Cipher(KeyExpansion(k), s) <==> exists states :: IsRun(k, s, states) && states[14] == t
  {
    hide IsRun, Cipher, KeyExpansion, Rounds;
    LengthOfRun(k, s);
    var run := StatesAreRun(k, s);
    forall states | IsRun(k, s, states) ensures states[14] == StateAfter(k, s, 14) { RunIsCipher(k, s, states, 14); }
  }

  lemma LengthOfRun(k: Key, s: Block)
    ensures forall states :: IsRun(k, s, states) ==> |states| == 15
  {}
}
