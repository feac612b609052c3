/**
 The block cipher of FIPS 197 with 14 rounds, on values: its transformations, its key
 expansion, and the proof that the inverse cipher inverts it for every key schedule.
 */
module Fips197 {
  import opened Basics
  import opened Gf256
  import opened SBox

  const NR: nat := 14

  type Block = s: seq<byte> | |s| == 16 witness [0, 0, 0, 0, 0, 0, 0, 0, 0, 0, 0, 0, 0, 0, 0, 0]

  // ----- The transformations of one block, which holds the four columns of the state one after another

  function AddRoundKey(s: Block, k: Block): Block {
    seq(16, j requires 0 <= j < 16 => Plus(s[j], k[j]))
  }

  function SubBytes(s: Block): Block {
    seq(16, j requires 0 <= j < 16 => Sub(s[j]))
  }

  function InvSubBytes(s: Block): Block {
    seq(16, j requires 0 <= j < 16 => InvSub(s[j]))
  }

  function ColumnAt(s: seq<byte>, i: nat): Column
    requires i + 4 <= |s|
  {
    Column(s[i], s[i + 1], s[i + 2], s[i + 3])
  }

  function FromColumns(a: Column, b: Column, c: Column, d: Column): Block {
    [a.b0, a.b1, a.b2, a.b3, b.b0, b.b1, b.b2, b.b3, c.b0, c.b1, c.b2, c.b3, d.b0, d.b1, d.b2, d.b3]
  }

  /** Entry r is taken from the r-th of four consecutive columns. */
  function Diagonal(a: Column, b: Column, c: Column, d: Column): Column { Column(a.b0, b.b1, c.b2, d.b3) }

  /** Row r moves r columns to the left, cyclically (FIPS 197 section 5.1.2). */
  function ShiftRows(s: Block): Block {
    var a, b, c, d := ColumnAt(s, 0), ColumnAt(s, 4), ColumnAt(s, 8), ColumnAt(s, 12);
    FromColumns(Diagonal(a, b, c, d), Diagonal(b, c, d, a), Diagonal(c, d, a, b), Diagonal(d, a, b, c))
  }

  /** Row r moves r columns to the right, cyclically (FIPS 197 section 5.3.1). */
  function InvShiftRows(s: Block): Block {
    var a, b, c, d := ColumnAt(s, 0), ColumnAt(s, 4), ColumnAt(s, 8), ColumnAt(s, 12);
    FromColumns(Diagonal(a, d, c, b), Diagonal(b, a, d, c), Diagonal(c, b, a, d), Diagonal(d, c, b, a))
  }

  function MixColumns(s: Block): Block {
    FromColumns(MixColumn(ColumnAt(s, 0)), MixColumn(ColumnAt(s, 4)),
                MixColumn(ColumnAt(s, 8)), MixColumn(ColumnAt(s, 12)))
  }

  function InvMixColumns(s: Block): Block {
    FromColumns(InvMixColumn(ColumnAt(s, 0)), InvMixColumn(ColumnAt(s, 4)),
                InvMixColumn(ColumnAt(s, 8)), InvMixColumn(ColumnAt(s, 12)))
  }

  lemma AddRoundKeyInverse(s: Block, k: Block)
    ensures AddRoundKey(AddRoundKey(s, k), k) == s
  {
    hide Plus;
    forall j | 0 <= j < 16 ensures AddRoundKey(AddRoundKey(s, k), k)[j] == s[j] {
      PlusUndo(s[j], k[j]);
    }
  }

  lemma SubBytesInverse(s: Block)
    ensures InvSubBytes(SubBytes(s)) == s == SubBytes(InvSubBytes(s))
  {
    hide Sub, InvSub;
    forall j | 0 <= j < 16 ensures InvSubBytes(SubBytes(s))[j] == s[j] == SubBytes(InvSubBytes(s))[j] {
      SubInverse(s[j]);
      InvSubInverse(s[j]);
    }
  }

  lemma ColumnsOf(a: Column, b: Column, c: Column, d: Column)
    ensures var m := FromColumns(a, b, c, d);
      ColumnAt(m, 0) == a && ColumnAt(m, 4) == b && ColumnAt(m, 8) == c && ColumnAt(m, 12) == d
  {}

  lemma FromItsColumns(s: Block)
    ensures FromColumns(ColumnAt(s, 0), ColumnAt(s, 4), ColumnAt(s, 8), ColumnAt(s, 12)) == s
  {}

  lemma ShiftRowsInverse(s: Block)
    ensures InvShiftRows(ShiftRows(s)) == s == ShiftRows(InvShiftRows(s))
  {
    hide FromColumns, ColumnAt;
    var a, b, c, d := ColumnAt(s, 0), ColumnAt(s, 4), ColumnAt(s, 8), ColumnAt(s, 12);
    ColumnsOf(Diagonal(a, b, c, d), Diagonal(b, c, d, a), Diagonal(c, d, a, b), Diagonal(d, a, b, c));
    ColumnsOf(Diagonal(a, d, c, b), Diagonal(b, a, d, c), Diagonal(c, b, a, d), Diagonal(d, c, b, a));
    FromItsColumns(s);
  }

  lemma MixColumnsInverse(s: Block)
    ensures InvMixColumns(MixColumns(s)) == s == MixColumns(InvMixColumns(s))
  {
    hide MixColumn, InvMixColumn, FromColumns, ColumnAt;
    var a, b, c, d := ColumnAt(s, 0), ColumnAt(s, 4), ColumnAt(s, 8), ColumnAt(s, 12);
    ColumnsOf(MixColumn(a), MixColumn(b), MixColumn(c), MixColumn(d));
    ColumnsOf(InvMixColumn(a), InvMixColumn(b), InvMixColumn(c), InvMixColumn(d));
    FromItsColumns(s);
    MixColumnInverse(a);
    MixColumnInverse(b);
    MixColumnInverse(c);
    MixColumnInverse(d);
  }

  // ----- The cipher (FIPS 197 sections 5.1 and 5.3), for any key schedule

  type Schedule = w: seq<byte> | |w| == 240 witness seq(240, _ => 0)

  /** The number of rounds that a schedule has keys for. */
  function Nr(w: Schedule): (n: nat)
    ensures n == NR
  {
    |w| / BLOCK_BYTES - 1
  }

  function RoundKey(w: Schedule, n: nat): Block
    requires n <= NR
  {
    w[16 * n..16 * n + 16]
  }

  function Round(w: Schedule, s: Block, n: nat): Block
    requires n <= NR
  {
    AddRoundKey(MixColumns(ShiftRows(SubBytes(s))), RoundKey(w, n))
  }

  function InvRound(w: Schedule, s: Block, n: nat): Block
    requires n <= NR
  {
    InvSubBytes(InvShiftRows(InvMixColumns(AddRoundKey(s, RoundKey(w, n)))))
  }

  /** The state after the initial key addition and n full rounds. */
  function Rounds(w: Schedule, s: Block, n: nat): Block
    requires n < NR
    decreases n
  {
    if n == 0 then AddRoundKey(s, RoundKey(w, 0)) else Round(w, Rounds(w, s, n - 1), n)
  }

  /** The state after undoing full rounds n, n - 1, ..., 1 and the initial key addition. */
  function InvRounds(w: Schedule, s: Block, n: nat): Block
    requires n < NR
    decreases n
  {
    if n == 0 then AddRoundKey(s, RoundKey(w, 0)) else InvRounds(w, InvRound(w, s, n), n - 1)
  }

  function Cipher(w: Schedule, s: Block): Block {
    AddRoundKey(ShiftRows(SubBytes(Rounds(w, s, Nr(w) - 1))), RoundKey(w, Nr(w)))
  }

  function InvCipher(w: Schedule, s: Block): Block {
    InvRounds(w, InvSubBytes(InvShiftRows(AddRoundKey(s, RoundKey(w, Nr(w))))), Nr(w) - 1)
  }

  lemma RoundInverse(w: Schedule, s: Block, n: nat)
    requires n <= Nr(w)
    ensures InvRound(w, Round(w, s, n), n) == s == Round(w, InvRound(w, s, n), n)
  {
    hide AddRoundKey, SubBytes, InvSubBytes, ShiftRows, InvShiftRows, MixColumns, InvMixColumns, RoundKey;
    var k := RoundKey(w, n);
    AddRoundKeyInverse(MixColumns(ShiftRows(SubBytes(s))), k);
    MixColumnsInverse(ShiftRows(SubBytes(s)));
    ShiftRowsInverse(SubBytes(s));
    SubBytesInverse(s);
    var t := AddRoundKey(s, k);
    SubBytesInverse(InvShiftRows(InvMixColumns(t)));
    ShiftRowsInverse(InvMixColumns(t));
    MixColumnsInverse(t);
    AddRoundKeyInverse(s, k);
  }

  lemma {:induction false} RoundsInverse(w: Schedule, s: Block, n: nat)
    requires n < Nr(w)
    ensures InvRounds(w, Rounds(w, s, n), n) == s == Rounds(w, InvRounds(w, s, n), n)
    decreases n
  {
    hide AddRoundKey, Round, InvRound, RoundKey;
    if n == 0 {
      AddRoundKeyInverse(s, RoundKey(w, 0));
    } else {
      RoundInverse(w, Rounds(w, s, n - 1), n);
      RoundInverse(w, s, n);
      RoundsInverse(w, s, n - 1);
      RoundsInverse(w, InvRound(w, s, n), n - 1);
    }
  }

  /** The block cipher and its inverse undo each other, for every key schedule. */
  lemma CipherInverse(w: Schedule, s: Block)
    ensures InvCipher(w, Cipher(w, s)) == s
    ensures Cipher(w, InvCipher(w, s)) == s
  {
    hide AddRoundKey, SubBytes, InvSubBytes, ShiftRows, InvShiftRows, RoundKey, Rounds, InvRounds;
    var k, last := RoundKey(w, Nr(w)), Rounds(w, s, Nr(w) - 1);
    AddRoundKeyInverse(ShiftRows(SubBytes(last)), k);
    ShiftRowsInverse(SubBytes(last));
    SubBytesInverse(last);
    RoundsInverse(w, s, Nr(w) - 1);
    var t := AddRoundKey(s, k);
    var u := InvSubBytes(InvShiftRows(t));
    RoundsInverse(w, u, Nr(w) - 1);
    SubBytesInverse(InvShiftRows(t));
    ShiftRowsInverse(t);
    AddRoundKeyInverse(s, k);
  }

  // ----- Key expansion (FIPS 197 section 5.2, Nk = 8, Nr = 14)

  type Key = k: seq<byte> | |k| == 32 witness seq(32, _ => 0)

  function RotWord(u: Column): Column { Column(u.b1, u.b2, u.b3, u.b0) }

  function SubWord(u: Column): Column { Column(Sub(u.b0), Sub(u.b1), Sub(u.b2), Sub(u.b3)) }

  function PowerOfX(n: nat): byte { if n == 0 then 1 else XTime(PowerOfX(n - 1)) }

  function Rcon(i: nat): Column
    requires i > 0
  {
    Column(PowerOfX(i - 1), 0, 0, 0)
  }

  function ScheduleWord(k: Key, i: nat): Column {
    if i < 8 then ColumnAt(k, 4 * i)
    else
      var temp := ScheduleWord(k, i - 1);
      ColumnPlus(ScheduleWord(k, i - 8),
                 if i % 8 == 0 then ColumnPlus(SubWord(RotWord(temp)), Rcon(i / 8))
                 else if i % 8 == 4 then SubWord(temp)
                 else temp)
  }

  function Entry(u: Column, r: nat): byte
    requires r < 4
  {
    if r == 0 then u.b0 else if r == 1 then u.b1 else if r == 2 then u.b2 else u.b3
  }

  function ScheduleByte(k: Key, j: nat): byte { Entry(ScheduleWord(k, j / 4), j % 4) }

  function KeyExpansion(k: Key): Schedule {
    seq(240, j requires 0 <= j < 240 => ScheduleByte(k, j))
  }

  // ----- The expansion byte by byte, 32 bytes at a time

  lemma ByteOf(k: Key, n: nat, r: nat)
    requires r < 4
    ensures ScheduleByte(k, 4 * n + r) == Entry(ScheduleWord(k, n), r)
  {
    hide ScheduleWord, Entry;
    assert (4 * n + r) / 4 == n && (4 * n + r) % 4 == r;
  }

  lemma KeyByte(k: Key, j: nat)
    requires j < 32
    ensures ScheduleByte(k, j) == k[j]
  {
    ByteOf(k, j / 4, j % 4);
  }

  lemma RconIsShift(base: nat)
    requires 1 <= base <= 7
    ensures 1 << (base - 1) == PowerOfX(base - 1)
  {
    assert PowerOfX(0) == 0x01;
    assert PowerOfX(1) == XTime(PowerOfX(0)) == 0x02;
    assert PowerOfX(2) == XTime(PowerOfX(1)) == 0x04;
    assert PowerOfX(3) == XTime(PowerOfX(2)) == 0x08;
    assert PowerOfX(4) == XTime(PowerOfX(3)) == 0x10;
    assert PowerOfX(5) == XTime(PowerOfX(4)) == 0x20;
    assert PowerOfX(6) == XTime(PowerOfX(5)) == 0x40;
  }

  lemma ScheduleStep(k: Key, n: nat, i: nat)
    requires n >= 8 && i == n % 8
    ensures ScheduleWord(k, n) == ColumnPlus(ScheduleWord(k, n - 8),
      if i == 0 then ColumnPlus(SubWord(RotWord(ScheduleWord(k, n - 1))), Rcon(n / 8))
      else if i == 4 then SubWord(ScheduleWord(k, n - 1))
      else ScheduleWord(k, n - 1))
  {
    hide Sub, Plus, PowerOfX;
  }

  /** The first word of a group of eight: rotated, substituted, and given the round constant. */
  lemma FirstWord(k: Key, base: nat)
    requires base >= 1
    ensures var p, o := 32 * base - 32, 32 * base;
      && ScheduleByte(k, o) == Plus(Plus(ScheduleByte(k, p), Sub(ScheduleByte(k, p + 29))), PowerOfX(base - 1))
      && ScheduleByte(k, o + 1) == Plus(ScheduleByte(k, p + 1), Sub(ScheduleByte(k, p + 30)))
      && ScheduleByte(k, o + 2) == Plus(ScheduleByte(k, p + 2), Sub(ScheduleByte(k, p + 31)))
      && ScheduleByte(k, o + 3) == Plus(ScheduleByte(k, p + 3), Sub(ScheduleByte(k, p + 28)))
  {
    hide ScheduleByte, ScheduleWord, Sub, Plus, PowerOfX;
    var n := 8 * base;
    var prev, temp := ScheduleWord(k, n - 8), ScheduleWord(k, n - 1);
    ScheduleStep(k, n, 0);
    ByteOf(k, n, 0); ByteOf(k, n, 1); ByteOf(k, n, 2); ByteOf(k, n, 3);
    ByteOf(k, n - 8, 0); ByteOf(k, n - 8, 1); ByteOf(k, n - 8, 2); ByteOf(k, n - 8, 3);
    ByteOf(k, n - 1, 0); ByteOf(k, n - 1, 1); ByteOf(k, n - 1, 2); ByteOf(k, n - 1, 3);
    PlusAssoc(prev.b0, Sub(temp.b1), PowerOfX(base - 1));
    PlusZero(Sub(temp.b2)); PlusZero(Sub(temp.b3)); PlusZero(Sub(temp.b0));
  }

  lemma PlainByte(k: Key, base: nat, i: nat)
    requires 1 <= base && (4 <= i < 16 || 20 <= i < 32)
    ensures ScheduleByte(k, 32 * base + i) == Plus(ScheduleByte(k, 32 * base - 32 + i), ScheduleByte(k, 32 * base + i - 4))
  {
    hide ScheduleByte, ScheduleWord, Sub, Plus;
    var n, r := 8 * base + i / 4, i % 4;
    ScheduleStep(k, n, i / 4);
    ByteOf(k, n, r);
    ByteOf(k, n - 8, r);
    ByteOf(k, n - 1, r);
  }

  lemma SubstitutedByte(k: Key, base: nat, i: nat)
    requires 1 <= base && 16 <= i < 20
    ensures ScheduleByte(k, 32 * base + i) ==
      Plus(ScheduleByte(k, 32 * base - 32 + i), Sub(ScheduleByte(k, 32 * base + i - 4)))
  {
    hide ScheduleByte, ScheduleWord, Sub, Plus;
    var n, r := 8 * base + 4, i - 16;
    ScheduleStep(k, n, 4);
    ByteOf(k, n, r);
    ByteOf(k, n - 8, r);
    ByteOf(k, n - 1, r);
  }
}
