/**
 The methods of UnverifiedAES256, in place on the caller's bytes, each proved to compute
 the function of the same name in `Fips197` or `CipherBlockChaining`.

 XOR of two bytes is written `Plus`. `block` with an offset stands for the source's pointer to 16 bytes.
 */
module UnverifiedAes256 {
  import opened Basics
  import opened Gf256
  import opened SBox
  import Spec = Fips197
  import Cbc = CipherBlockChaining

  /** Only the n bytes from o on may differ from the old state. */
  twostate predicate Only(a: array<byte>, o: nat, n: nat)
    requires o + n <= a.Length
    reads a
  {
    forall j :: 0 <= j < a.Length && !(o <= j < o + n) ==> a[j] == old(a[j])
  }

  /** Column c of the block at o. */
  function ColumnOf(a: array<byte>, o: nat, c: nat): Column
    requires o + 4 * c + 4 <= a.Length
    reads a
  {
    Column(a[o + 4 * c], a[o + 4 * c + 1], a[o + 4 * c + 2], a[o + 4 * c + 3])
  }

  method AddRoundKey(block: array<byte>, o: nat, w: array<byte>, k: nat)
    requires o + 16 <= block.Length && k + 16 <= w.Length && w != block
    modifies block
    ensures block[o..o + 16] == Spec.AddRoundKey(old(block[o..o + 16]), w[k..k + 16])
    ensures Only(block, o, 16)
  {
    hide Plus;
    for i := 0 to 16
      invariant forall j :: 0 <= j < block.Length ==>
        block[j] == if o <= j < o + i then Plus(old(block[j]), w[k + (j - o)]) else old(block[j])
    {
      block[o + i] := Plus(block[o + i], w[k + i]);
    }
  }

  method SubBytes(block: array<byte>, o: nat)
    requires o + 16 <= block.Length
    modifies block
    ensures block[o..o + 16] == Spec.SubBytes(old(block[o..o + 16]))
    ensures Only(block, o, 16)
  {
    hide Sub;
    for i := 0 to 16
      invariant forall j :: 0 <= j < block.Length ==>
        block[j] == if o <= j < o + i then Sub(old(block[j])) else old(block[j])
    {
      block[o + i] := Sub(block[o + i]);
    }
  }

  method InvSubBytes(block: array<byte>, o: nat)
    requires o + 16 <= block.Length
    modifies block
    ensures block[o..o + 16] == Spec.InvSubBytes(old(block[o..o + 16]))
    ensures Only(block, o, 16)
  {
    hide InvSub;
    for i := 0 to 16
      invariant forall j :: 0 <= j < block.Length ==>
        block[j] == if o <= j < o + i then InvSub(old(block[j])) else old(block[j])
    {
      block[o + i] := InvSub(block[o + i]);
    }
  }

  /** Four terms, added from left to right as the column methods add them. */
  function Sum(a: byte, b: byte, c: byte, d: byte): (s: byte)
    ensures s == Plus(Plus(a, b), Plus(c, d))
  {
    PlusAssoc(Plus(a, b), c, d);
    Plus(Plus(Plus(a, b), c), d)
  }

  /** The first products of the bytes of a column by a constant. */
  predicate AreProducts(k: Poly, a: seq<byte>, c: seq<byte>) {
    |a| <= |c| && forall j :: 0 <= j < |a| ==> a[j] == GMul(k, c[j])
  }

  lemma EmptyProducts(c: seq<byte>)
    ensures forall k :: AreProducts(k, [], c)
  {}

  lemma OneMoreProduct(k: Poly, a: seq<byte>, c: seq<byte>, x: byte)
    requires AreProducts(k, a, c) && |a| < |c| && x == GMul(k, c[|a|])
    ensures AreProducts(k, a + [x], c)
  {
    hide GMul;
  }

  lemma FourProducts(k: Poly, a: seq<byte>, c: seq<byte>)
    requires AreProducts(k, a, c) && |a| == 4
    ensures a == [GMul(k, c[0]), GMul(k, c[1]), GMul(k, c[2]), GMul(k, c[3])]
  {
    hide GMul;
  }

  method MixColumnsImpl(column: array<byte>, o: nat)
    requires o + 4 <= column.Length
    modifies column
    ensures ColumnOf(column, o, 0) == MixColumn(old(ColumnOf(column, o, 0)))
    ensures Only(column, o, 4)
  {
    hide GMul, XTime, Plus, Sum, AreProducts;
    ghost var c := column[o..o + 4];
    EmptyProducts(c);
    var a1, a2, a3 := [], [], [];
    for i := 0 to 4
      invariant |a1| == |a2| == |a3| == i
      invariant unchanged(column)
      invariant AreProducts(P1, a1, c) && AreProducts(P2, a2, c) && AreProducts(P3, a3, c)
    {
      SmallMultiples(column[o + i]);
      OneMoreProduct(P1, a1, c, column[o + i]);
      a1 := a1 + [column[o + i]];
      OneMoreProduct(P2, a2, c, XTime(a1[i]));
      a2 := a2 + [XTime(a1[i])];
      OneMoreProduct(P3, a3, c, Plus(a2[i], a1[i]));
      a3 := a3 + [Plus(a2[i], a1[i])];
    }
    FourProducts(P1, a1, c);
    FourProducts(P2, a2, c);
    FourProducts(P3, a3, c);
    column[o] := Sum(a2[0], a3[1], a1[2], a1[3]);
    column[o + 1] := Sum(a1[0], a2[1], a3[2], a1[3]);
    column[o + 2] := Sum(a1[0], a1[1], a2[2], a3[3]);
    column[o + 3] := Sum(a3[0], a1[1], a1[2], a2[3]);
  }

  method InvMixColumnsImpl(column: array<byte>, o: nat)
    requires o + 4 <= column.Length
    modifies column
    ensures ColumnOf(column, o, 0) == InvMixColumn(old(ColumnOf(column, o, 0)))
    ensures Only(column, o, 4)
  {
    hide GMul, XTime, Plus, Sum, AreProducts;
    ghost var c := column[o..o + 4];
    EmptyProducts(c);
    var a9, a11, a13, a14 := [], [], [], [];
    for i := 0 to 4
      invariant |a9| == |a11| == |a13| == |a14| == i
      invariant unchanged(column)
      invariant AreProducts(P9, a9, c) && AreProducts(P11, a11, c) && AreProducts(P13, a13, c) && AreProducts(P14, a14, c)
    {
      var a1 := column[o + i];
      var a2 := XTime(a1);
      var a2_2 := XTime(a2);
      SmallMultiples(a1);
      OneMoreProduct(P9, a9, c, Plus(XTime(a2_2), a1));
      a9 := a9 + [Plus(XTime(a2_2), a1)];
      OneMoreProduct(P11, a11, c, Plus(XTime(Plus(a2_2, a1)), a1));
      a11 := a11 + [Plus(XTime(Plus(a2_2, a1)), a1)];
      var a2a1_2 := XTime(Plus(a2, a1));
      OneMoreProduct(P13, a13, c, Plus(XTime(a2a1_2), a1));
      a13 := a13 + [Plus(XTime(a2a1_2), a1)];
      OneMoreProduct(P14, a14, c, XTime(Plus(a2a1_2, a1)));
      a14 := a14 + [XTime(Plus(a2a1_2, a1))];
    }
    FourProducts(P9, a9, c);
    FourProducts(P11, a11, c);
    FourProducts(P13, a13, c);
    FourProducts(P14, a14, c);
    column[o] := Sum(a14[0], a11[1], a13[2], a9[3]);
    column[o + 1] := Sum(a9[0], a14[1], a11[2], a13[3]);
    column[o + 2] := Sum(a13[0], a9[1], a14[2], a11[3]);
    column[o + 3] := Sum(a11[0], a13[1], a9[2], a14[3]);
  }

  /** The block at o is made of its four columns. */
  lemma ItsColumns(a: array<byte>, o: nat)
    requires o + 16 <= a.Length
    ensures var s := a[o..o + 16];
      && Spec.ColumnAt(s, 0) == ColumnOf(a, o, 0) && Spec.ColumnAt(s, 4) == ColumnOf(a, o, 1)
      && Spec.ColumnAt(s, 8) == ColumnOf(a, o, 2) && Spec.ColumnAt(s, 12) == ColumnOf(a, o, 3)
      && s == Spec.FromColumns(ColumnOf(a, o, 0), ColumnOf(a, o, 1), ColumnOf(a, o, 2), ColumnOf(a, o, 3))
  {
    Spec.FromItsColumns(a[o..o + 16]);
    hide Spec.FromColumns;
  }

  /** One turn of the loop: the other columns stay as they are. */
  method MixColumnAt(block: array<byte>, o: nat, c: nat)
    requires o + 16 <= block.Length && c < 4
    modifies block
    ensures ColumnOf(block, o, c) == MixColumn(old(ColumnOf(block, o, c)))
    ensures forall k :: 0 <= k < 4 && k != c ==> ColumnOf(block, o, k) == old(ColumnOf(block, o, k))
    ensures Only(block, o, 16)
  {
    hide MixColumn;
    MixColumnsImpl(block, o + 4 * c);
    assert ColumnOf(block, o, c) == ColumnOf(block, o + 4 * c, 0);
  }

  method MixColumns(block: array<byte>, o: nat)
    requires o + 16 <= block.Length
    modifies block
    ensures block[o..o + 16] == Spec.MixColumns(old(block[o..o + 16]))
    ensures Only(block, o, 16)
  {
    hide MixColumn, Spec.FromColumns, Spec.ColumnAt, ColumnOf;
    ItsColumns(block, o);
    for c := 0 to 4
      invariant forall k :: 0 <= k < c ==> ColumnOf(block, o, k) == MixColumn(old(ColumnOf(block, o, k)))
      invariant forall k :: c <= k < 4 ==> ColumnOf(block, o, k) == old(ColumnOf(block, o, k))
      invariant Only(block, o, 16)
    {
      MixColumnAt(block, o, c);
    }
    ItsColumns(block, o);
  }

  /** One turn of the loop: the other columns stay as they are. */
  method InvMixColumnAt(block: array<byte>, o: nat, c: nat)
    requires o + 16 <= block.Length && c < 4
    modifies block
    ensures ColumnOf(block, o, c) == InvMixColumn(old(ColumnOf(block, o, c)))
    ensures forall k :: 0 <= k < 4 && k != c ==> ColumnOf(block, o, k) == old(ColumnOf(block, o, k))
    ensures Only(block, o, 16)
  {
    hide InvMixColumn;
    InvMixColumnsImpl(block, o + 4 * c);
    assert ColumnOf(block, o, c) == ColumnOf(block, o + 4 * c, 0);
  }

  method InvMixColumns(block: array<byte>, o: nat)
    requires o + 16 <= block.Length
    modifies block
    ensures block[o..o + 16] == Spec.InvMixColumns(old(block[o..o + 16]))
    ensures Only(block, o, 16)
  {
    hide InvMixColumn, Spec.FromColumns, Spec.ColumnAt, ColumnOf;
    ItsColumns(block, o);
    for c := 0 to 4
      invariant forall k :: 0 <= k < c ==> ColumnOf(block, o, k) == InvMixColumn(old(ColumnOf(block, o, k)))
      invariant forall k :: c <= k < 4 ==> ColumnOf(block, o, k) == old(ColumnOf(block, o, k))
      invariant Only(block, o, 16)
    {
      InvMixColumnAt(block, o, c);
    }
    ItsColumns(block, o);
  }

  /** Each of the first three places takes the next one's byte, the last takes the first one's. */
  method Cycle(a: array<byte>, i: nat, j: nat, k: nat, l: nat)
    requires i < a.Length && j < a.Length && k < a.Length && l < a.Length
    requires i != j && i != k && i != l && j != k && j != l && k != l
    modifies a
    ensures a[i] == old(a[j]) && a[j] == old(a[k]) && a[k] == old(a[l]) && a[l] == old(a[i])
    ensures forall n :: 0 <= n < a.Length && n != i && n != j && n != k && n != l ==> a[n] == old(a[n])
  {
    var x := a[i];
    a[i] := a[j];
    a[j] := a[k];
    a[k] := a[l];
    a[l] := x;
  }

  method Swap(a: array<byte>, i: nat, j: nat)
    requires i < a.Length && j < a.Length
    modifies a
    ensures a[i] == old(a[j]) && a[j] == old(a[i])
    ensures forall n :: 0 <= n < a.Length && n != i && n != j ==> a[n] == old(a[n])
  {
    var x := a[i];
    a[i] := a[j];
    a[j] := x;
  }

  method ShiftRows(block: array<byte>, o: nat)
    requires o + 16 <= block.Length
    modifies block
    ensures block[o..o + 16] == Spec.ShiftRows(old(block[o..o + 16]))
    ensures Only(block, o, 16)
  {
    hide Spec.FromColumns, Spec.ColumnAt;
    ItsColumns(block, o);
    // Row 1
    Cycle(block, o + 1, o + 5, o + 9, o + 13);
    // Row 2
    Swap(block, o + 2, o + 10);
    Swap(block, o + 6, o + 14);
    // Row 3
    Cycle(block, o + 3, o + 15, o + 11, o + 7);
    ItsColumns(block, o);
  }

  method InvShiftRows(block: array<byte>, o: nat)
    requires o + 16 <= block.Length
    modifies block
    ensures block[o..o + 16] == Spec.InvShiftRows(old(block[o..o + 16]))
    ensures Only(block, o, 16)
  {
    hide Spec.FromColumns, Spec.ColumnAt;
    ItsColumns(block, o);
    // Row 1
    Cycle(block, o + 1, o + 13, o + 9, o + 5);
    // Row 2
    Swap(block, o + 2, o + 10);
    Swap(block, o + 6, o + 14);
    // Row 3
    Cycle(block, o + 3, o + 7, o + 11, o + 15);
    ItsColumns(block, o);
  }

  method TransformECB(w: array<byte>, block: array<byte>, o: nat)
    requires w.Length == 240 && o + 16 <= block.Length && w != block
    modifies block
    ensures block[o..o + 16] == Spec.Cipher(w[..], old(block[o..o + 16]))
    ensures Only(block, o, 16)
  {
    hide Spec.AddRoundKey, Spec.SubBytes, Spec.ShiftRows, Spec.MixColumns;
    ghost var s, sch := block[o..o + 16], w[..];
    AddRoundKey(block, o, w, 0);
    for round := 1 to 14
      invariant block[o..o + 16] == Spec.Rounds(sch, s, round - 1)
      invariant Only(block, o, 16)
    {
      SubBytes(block, o);
      ShiftRows(block, o);
      MixColumns(block, o);
      AddRoundKey(block, o, w, 16 * round);
    }
    SubBytes(block, o);
    ShiftRows(block, o);
    AddRoundKey(block, o, w, 16 * 14);
  }

  method InverseTransformECB(w: array<byte>, block: array<byte>, o: nat)
    requires w.Length == 240 && o + 16 <= block.Length && w != block
    modifies block
    ensures block[o..o + 16] == Spec.InvCipher(w[..], old(block[o..o + 16]))
    ensures Only(block, o, 16)
  {
    hide Spec.AddRoundKey, Spec.InvSubBytes, Spec.InvShiftRows, Spec.InvMixColumns;
    ghost var s, sch := block[o..o + 16], w[..];
    AddRoundKey(block, o, w, 16 * 14);
    InvShiftRows(block, o);
    InvSubBytes(block, o);
    var round := 13;
    while round > 0
      invariant 0 <= round <= 13
      invariant Spec.InvRounds(sch, block[o..o + 16], round) == Spec.InvCipher(sch, s)
      invariant Only(block, o, 16)
    {
      AddRoundKey(block, o, w, 16 * round);
      InvMixColumns(block, o);
      InvShiftRows(block, o);
      InvSubBytes(block, o);
      round := round - 1;
    }
    AddRoundKey(block, o, w, 0);
  }

  // ----- Key schedule

  /** The first n bytes of the schedule are filled. */
  ghost predicate Filled(w: array<byte>, k: Spec.Key, n: nat)
    requires n <= w.Length
    reads w
  {
    forall j :: 0 <= j < n ==> w[j] == Spec.ScheduleByte(k, j)
  }

  method MakeKeySchedule(key: array<byte>, w: array<byte>)
    requires key.Length == 32 && w.Length == 240 && key != w
    modifies w
    ensures w[..] == Spec.KeyExpansion(key[..])
  {
    hide Sub, XTime, Plus, Spec.ScheduleByte;
    ghost var k := key[..];
    CopyBytes(key, 0, 32, w);
    forall j | 0 <= j < 32 ensures w[j] == Spec.ScheduleByte(k, j) {
      Spec.KeyByte(k, j);
      assert w[j] == w[..32][j];
    }
    var base := 1;
    while true
      invariant 1 <= base <= 7
      invariant Filled(w, k, 32 * base)
      decreases 7 - base
    {
      FillFirstWord(w, k, base);
      FillPlainWords(w, k, base, 4, 16);
      if base == 7 {
        break;
      }
      FillSubstitutedWord(w, k, base);
      FillPlainWords(w, k, base, 20, 32);
      base := base + 1;
    }
  }

  function Rcon(base: nat): byte
    requires 1 <= base <= 7
  {
    1 << (base - 1)
  }

  lemma RconIsPower(base: nat)
    requires 1 <= base <= 7
    ensures Rcon(base) == Spec.PowerOfX(base - 1)
  {
    hide Spec.PowerOfX;
    Spec.RconIsShift(base);
  }

  method FillFirstWord(w: array<byte>, ghost k: Spec.Key, base: nat)
    requires 1 <= base <= 7 && 32 * base + 16 <= w.Length && Filled(w, k, 32 * base)
    modifies w
    ensures Filled(w, k, 32 * base + 4)
  {
    hide Sub, Plus, Rcon, Spec.PowerOfX, Spec.ScheduleByte;
    var p, o := 32 * base - 32, 32 * base;
    var rcon := Rcon(base);
    RconIsPower(base);
    Spec.FirstWord(k, base);
    w[o] := Plus(Plus(w[p], Sub(w[p + 29])), rcon);
    w[o + 1] := Plus(w[p + 1], Sub(w[p + 30]));
    w[o + 2] := Plus(w[p + 2], Sub(w[p + 31]));
    w[o + 3] := Plus(w[p + 3], Sub(w[p + 28]));
  }

  /** The loops over words that are not substituted. */
  method FillPlainWords(w: array<byte>, ghost k: Spec.Key, base: nat, lo: nat, hi: nat)
    requires 1 <= base && 4 <= lo <= hi <= 32 && 32 * base + hi <= w.Length && Filled(w, k, 32 * base + lo)
    requires hi <= 16 || 20 <= lo
    modifies w
    ensures Filled(w, k, 32 * base + hi)
  {
    hide Sub, XTime, Plus, Spec.ScheduleByte;
    var p, o := 32 * base - 32, 32 * base;
    for i := lo to hi
      invariant Filled(w, k, o + i)
    {
      Spec.PlainByte(k, base, i);
      w[o + i] := Plus(w[p + i], w[o + i - 4]);
    }
  }

  method FillSubstitutedWord(w: array<byte>, ghost k: Spec.Key, base: nat)
    requires 1 <= base && 32 * base + 20 <= w.Length && Filled(w, k, 32 * base + 16)
    modifies w
    ensures Filled(w, k, 32 * base + 20)
  {
    hide Sub, XTime, Plus, Spec.ScheduleByte;
    var p, o := 32 * base - 32, 32 * base;
    for i := 16 to 20
      invariant Filled(w, k, o + i)
    {
      Spec.SubstitutedByte(k, base, i);
      w[o + i] := Plus(w[p + i], Sub(w[o + i - 4]));
    }
  }

  method CopyBytes(src: array<byte>, o: nat, n: nat, dst: array<byte>)
    requires o + n <= src.Length && n <= dst.Length && src != dst
    modifies dst
    ensures dst[..n] == src[o..o + n]
  {
    for i := 0 to n
      invariant forall j :: 0 <= j < i ==> dst[j] == src[o + j]
    {
      dst[i] := src[o + i];
    }
  }

  // ----- Cipher block chaining

  ghost function CipherOf(key: Spec.Key): Spec.Block -> Spec.Block {
    (s: Spec.Block) => Spec.Cipher(Spec.KeyExpansion(key), s)
  }

  ghost function InvCipherOf(key: Spec.Key): Spec.Block -> Spec.Block {
    (s: Spec.Block) => Spec.InvCipher(Spec.KeyExpansion(key), s)
  }

  lemma CipherOfKey(key: Spec.Key, s: Spec.Block)
    ensures CipherOf(key)(s) == Spec.Cipher(Spec.KeyExpansion(key), s)
  {
    hide Spec.Cipher, Spec.KeyExpansion;
  }

  method TransformCBC(key: array<byte>, iv: array<byte>, block: array<byte>, blockCount: nat)
    requires key.Length == 32 && iv.Length == 16 && 16 * blockCount <= block.Length
    requires block != key && block != iv
    modifies block
    ensures block[..16 * blockCount]
         == Cbc.Encrypt(CipherOf(key[..]), iv[..], blockCount, old(block[..16 * blockCount]))
    ensures block[16 * blockCount..] == old(block[16 * blockCount..])
  {
    hide *;
    var w, vec := new byte[240], new byte[16];
    MakeKeySchedule(key, w);
    CopyBytes(iv, 0, 16, vec);
    ghost var k, v: Spec.Block, f, p := key[..], iv[..], CipherOf(key[..]), block[..];
    assert vec[..] == v by {
      assert vec[..16] == vec[..] && iv[0..16] == v;
    }
    Cbc.EncryptingStart(f, v, blockCount, p);
    for i := 0 to blockCount
      invariant Cbc.Encrypting(f, v, blockCount, p, i, block[..], vec[..])
      invariant w[..] == Spec.KeyExpansion(k)
    {
      ghost var b, before, x: Spec.Block := block[..], vec[..], block[16 * i..16 * i + 16];
      EncryptBlock(w, vec, block, 16 * i);
      CipherOfKey(k, Spec.AddRoundKey(x, before));
      assert b[16 * i..16 * i + 16] == x;
      Cbc.EncryptingTurn(f, v, blockCount, p, i, b, before, vec[..]);
    }
    Cbc.EncryptingEnd(f, v, blockCount, p, block[..], vec[..]);
    assert p[..16 * blockCount] == old(block[..16 * blockCount]) && block[..][16 * blockCount..] == block[16 * blockCount..];
  }

  /** One turn of the loop of TransformCBC. */
  method EncryptBlock(w: array<byte>, vec: array<byte>, block: array<byte>, o: nat)
    requires w.Length == 240 && vec.Length == 16 && o + 16 <= block.Length
    requires w != block && vec != block && w != vec
    modifies vec, block
    ensures vec[..] == Spec.Cipher(w[..], Spec.AddRoundKey(old(block[o..o + 16]), old(vec[..])))
    ensures block[..] == Cbc.Splice(old(block[..]), o, vec[..])
  {
    hide Spec.Cipher, Spec.AddRoundKey;
    assert vec[0..16] == vec[..];
    AddRoundKey(block, o, vec, 0);
    TransformECB(w, block, o);
    CopyBytes(block, o, 16, vec);
    assert vec[..16] == vec[..];
  }

  method InverseTransformCBC(key: array<byte>, iv: array<byte>, block: array<byte>, blockCount: nat)
    requires key.Length == 32 && iv.Length == 16 && 16 * blockCount <= block.Length
    requires block != key && block != iv
    modifies block
    ensures block[..16 * blockCount]
         == Cbc.Decrypt(InvCipherOf(key[..]), iv[..], blockCount, old(block[..16 * blockCount]))
    ensures block[16 * blockCount..] == old(block[16 * blockCount..])
  {
    hide *;
    var w, prevBlock := new byte[240], new byte[16];
    MakeKeySchedule(key, w);
    CopyBytes(iv, 0, 16, prevBlock);
    ghost var k, v: Spec.Block, g, p := key[..], iv[..], InvCipherOf(key[..]), block[..];
    assert prevBlock[..] == v by {
      assert prevBlock[..16] == prevBlock[..] && iv[0..16] == v;
    }
    Cbc.DecryptingStart(g, v, blockCount, p);
    for i := 0 to blockCount
      invariant Cbc.Decrypting(g, v, blockCount, p, i, block[..], prevBlock[..])
      invariant w[..] == Spec.KeyExpansion(k)
    {
      ghost var b, before, x: Spec.Block := block[..], prevBlock[..], block[16 * i..16 * i + 16];
      DecryptBlock(w, prevBlock, block, 16 * i);
      UnmaskedOfKey(k, x, before);
      assert b[16 * i..16 * i + 16] == x;
      Cbc.DecryptingTurn(g, v, blockCount, p, i, b, before, prevBlock[..]);
    }
    Cbc.DecryptingEnd(g, v, blockCount, p, block[..], prevBlock[..]);
    assert p[..16 * blockCount] == old(block[..16 * blockCount]) && block[..][16 * blockCount..] == block[16 * blockCount..];
  }

  ghost function Unmasked(w: Spec.Schedule, s: Spec.Block, prev: Spec.Block): Spec.Block {
    Spec.AddRoundKey(Spec.InvCipher(w, s), prev)
  }

  lemma UnmaskedOfKey(key: Spec.Key, s: Spec.Block, prev: Spec.Block)
    ensures Unmasked(Spec.KeyExpansion(key), s, prev) == Spec.AddRoundKey(InvCipherOf(key)(s), prev)
  {
    hide Spec.InvCipher, Spec.KeyExpansion;
  }

  /** One turn of the loop of InverseTransformCBC. */
  method DecryptBlock(w: array<byte>, prevBlock: array<byte>, block: array<byte>, o: nat)
    requires w.Length == 240 && prevBlock.Length == 16 && o + 16 <= block.Length
    requires w != block && prevBlock != block && w != prevBlock
    modifies prevBlock, block
    ensures prevBlock[..] == old(block[o..o + 16])
    ensures block[..] == Cbc.Splice(old(block[..]), o, Unmasked(w[..], old(block[o..o + 16]), old(prevBlock[..])))
  {
    hide Spec.InvCipher, Spec.AddRoundKey;
    var originalCurrentBlock := new byte[16];
    CopyBytes(block, o, 16, originalCurrentBlock);
    InverseTransformECB(w, block, o);
    assert prevBlock[0..16] == prevBlock[..];
    AddRoundKey(block, o, prevBlock, 0);
    CopyBytes(originalCurrentBlock, 0, 16, prevBlock);
    assert prevBlock[..] == prevBlock[..16] == originalCurrentBlock[0..16] == originalCurrentBlock[..16];
  }

  // ----- What the two CBC methods compute is mutually inverse

  lemma CiphersInverse(key: Spec.Key)
    ensures Cbc.Inverses(CipherOf(key), InvCipherOf(key))
  {
    hide Spec.Cipher, Spec.InvCipher, Spec.KeyExpansion;
    forall s: Spec.Block
      ensures InvCipherOf(key)(CipherOf(key)(s)) == s && CipherOf(key)(InvCipherOf(key)(s)) == s
    {
      Spec.CipherInverse(Spec.KeyExpansion(key), s);
    }
  }

  /** For every key, IV and number of blocks, inverse CBC undoes CBC, and CBC undoes inverse CBC. */
  lemma CbcRoundTrip(key: Spec.Key, iv: Spec.Block, n: nat, s: seq<byte>)
    requires |s| == 16 * n
    ensures Cbc.Decrypt(InvCipherOf(key), iv, n, Cbc.Encrypt(CipherOf(key), iv, n, s)) == s
    ensures Cbc.Encrypt(CipherOf(key), iv, n, Cbc.Decrypt(InvCipherOf(key), iv, n, s)) == s
  {
    hide CipherOf, InvCipherOf, Cbc.Inverses;
    CiphersInverse(key);
    Cbc.RoundTrip(CipherOf(key), InvCipherOf(key), iv, n, s);
  }
}
