/**
 Bytes as elements of the field GF(2^8) of FIPS 197 section 4, and the two column
 transformations of sections 5.1.3 and 5.3.3 as matrices over that field.

 `Plus` and `XTime` are hidden in most proofs: the algebra is carried by the small
 lemmas about them and not by a search over bits.
 */
module Gf256 {
  import opened Basics

  /** Addition in the field (FIPS 197 section 4.1). */
  function Plus(a: byte, b: byte): byte { a ^ b }

  /** Multiplication by the polynomial x (FIPS 197 section 4.2.1). */
  function XTime(b: byte): byte { Plus(b << 1, Carry(b)) }

  function Carry(b: byte): byte { if b & 0x80 == 0 then 0 else 0x1b }

  /** A polynomial over GF(2), constant coefficient first, with a nonzero leading coefficient. */
  datatype Poly = Zero | Next(bit: bool, rest: Poly)

  const P1 := Next(true, Zero)
  const P2 := Next(false, P1)
  const P3 := Next(true, P1)
  const P9 := Next(true, Next(false, P2))
  const P11 := Next(true, Next(true, P2))
  const P13 := Next(true, Next(false, P3))
  const P14 := Next(false, Next(true, P3))

  /** The product of x with the field element that the polynomial k stands for (FIPS 197 section 4.2). */
  function GMul(k: Poly, x: byte): byte {
    match k
    case Zero => 0
    case Next(b, rest) => Plus(If(b, x), GMul(rest, XTime(x)))
  }

  function If(b: bool, x: byte): byte { if b then x else 0 }

  // ----- Addition

  lemma PlusZero(a: byte)
    ensures Plus(a, 0) == a && Plus(0, a) == a
  {}

  lemma PlusUndo(a: byte, b: byte)
    ensures Plus(Plus(a, b), b) == a
  {}

  lemma PlusComm(a: byte, b: byte)
    ensures Plus(a, b) == Plus(b, a)
  {}

  lemma PlusAssoc(a: byte, b: byte, c: byte)
    ensures Plus(Plus(a, b), c) == Plus(a, Plus(b, c))
  {}

  lemma PlusSwap(a: byte, b: byte, c: byte, d: byte)
    ensures Plus(Plus(a, b), Plus(c, d)) == Plus(Plus(a, c), Plus(b, d))
  {
    hide Plus;
    PlusAssoc(a, b, Plus(c, d));
    PlusAssoc(b, c, d);
    PlusComm(b, c);
    PlusAssoc(c, b, d);
    PlusAssoc(a, c, Plus(b, d));
  }

  // ----- Multiplication by a fixed element is linear

  lemma ShiftPlus(x: byte, y: byte)
    ensures Plus(x, y) << 1 == Plus(x << 1, y << 1)
  {}

  lemma CarryPlus(x: byte, y: byte)
    ensures Carry(Plus(x, y)) == Plus(Carry(x), Carry(y))
  {}

  lemma XTimePlus(x: byte, y: byte)
    ensures XTime(Plus(x, y)) == Plus(XTime(x), XTime(y))
  {
    ShiftPlus(x, y);
    CarryPlus(x, y);
    PlusSwap(x << 1, Carry(x), y << 1, Carry(y));
    hide Carry, Plus;
  }

  lemma XTimeZero()
    ensures XTime(0) == 0
  {}

  lemma {:induction false} GMulPlus(k: Poly, x: byte, y: byte)
    ensures GMul(k, Plus(x, y)) == Plus(GMul(k, x), GMul(k, y))
  {
    hide XTime, Plus;
    PlusZero(0);
    if k.Next? {
      XTimePlus(x, y);
      GMulPlus(k.rest, XTime(x), XTime(y));
      PlusSwap(If(k.bit, x), If(k.bit, y), GMul(k.rest, XTime(x)), GMul(k.rest, XTime(y)));
    }
  }

  lemma {:induction false} GMulXTime(k: Poly, x: byte)
    ensures GMul(k, XTime(x)) == XTime(GMul(k, x))
  {
    hide XTime, Plus;
    XTimeZero();
    if k.Next? {
      GMulXTime(k.rest, XTime(x));
      XTimePlus(If(k.bit, x), GMul(k.rest, XTime(x)));
    }
  }

  // ----- Sums and products of multipliers

  function Cons(b: bool, rest: Poly): Poly { if !b && rest.Zero? then Zero else Next(b, rest) }

  function AddPoly(a: Poly, b: Poly): Poly {
    if a.Zero? then b
    else if b.Zero? then a
    else Cons(a.bit != b.bit, AddPoly(a.rest, b.rest))
  }

  function MulPoly(a: Poly, b: Poly): Poly
    decreases a
  {
    match a
    case Zero => Zero
    case Next(bit, rest) => AddPoly(if bit then b else Zero, Cons(false, MulPoly(rest, b)))
  }

  lemma GMulCons(b: bool, rest: Poly, x: byte)
    ensures GMul(Cons(b, rest), x) == Plus(If(b, x), GMul(rest, XTime(x)))
  {
    hide XTime;
    PlusZero(0);
  }

  lemma IfPlus(a: bool, b: bool, x: byte)
    ensures Plus(If(a, x), If(b, x)) == If(a != b, x)
  {}

  lemma {:induction false} GMulAdds(a: Poly, b: Poly, x: byte)
    ensures Plus(GMul(a, x), GMul(b, x)) == GMul(AddPoly(a, b), x)
    decreases a, b
  {
    hide XTime, Plus, If, Cons;
    PlusZero(GMul(a, x));
    PlusZero(GMul(b, x));
    if a.Next? && b.Next? {
      GMulAdds(a.rest, b.rest, XTime(x));
      GMulCons(a.bit != b.bit, AddPoly(a.rest, b.rest), x);
      IfPlus(a.bit, b.bit, x);
      PlusSwap(If(a.bit, x), GMul(a.rest, XTime(x)), If(b.bit, x), GMul(b.rest, XTime(x)));
    }
  }

  lemma {:induction false} GMulMultiplies(a: Poly, b: Poly, x: byte)
    ensures GMul(a, GMul(b, x)) == GMul(MulPoly(a, b), x)
    decreases a
  {
    hide XTime, Plus, Cons, AddPoly;
    if a.Next? {
      var high := MulPoly(a.rest, b);
      GMulXTime(b, x);
      GMulMultiplies(a.rest, b, XTime(x));
      GMulCons(false, high, x);
      PlusZero(GMul(high, XTime(x)));
      GMulAdds(if a.bit then b else Zero, Cons(false, high), x);
    }
  }

  // ----- The small multiples used by the column transformations

  /** Horner's rule. */
  lemma Horner(k: Poly, x: byte)
    requires k.Next?
    ensures GMul(k, x) == Plus(XTime(GMul(k.rest, x)), If(k.bit, x))
  {
    hide XTime, Plus;
    GMulXTime(k.rest, x);
    PlusComm(If(k.bit, x), XTime(GMul(k.rest, x)));
  }

  /** The multiples in the form in which MixColumnsImpl and InvMixColumnsImpl compute them. */
  lemma SmallMultiples(x: byte)
    ensures GMul(P1, x) == x
    ensures GMul(P2, x) == XTime(x)
    ensures GMul(P3, x) == Plus(XTime(x), x)
    ensures GMul(P9, x) == Plus(XTime(XTime(XTime(x))), x)
    ensures GMul(P11, x) == Plus(XTime(Plus(XTime(XTime(x)), x)), x)
    ensures GMul(P13, x) == Plus(XTime(XTime(Plus(XTime(x), x))), x)
    ensures GMul(P14, x) == XTime(Plus(XTime(Plus(XTime(x), x)), x))
  {
    hide XTime, Plus;
    PlusZero(x);
    Horner(P2, x);
    Horner(P3, x);
    Horner(P9, x); Horner(P9.rest, x);
    Horner(P11, x); Horner(P11.rest, x);
    Horner(P13, x); Horner(P13.rest, x);
    Horner(P14, x); Horner(P14.rest, x);
    PlusZero(XTime(x));
    PlusZero(XTime(XTime(x)));
    PlusZero(XTime(Plus(XTime(x), x)));
    PlusZero(GMul(P14, x));
    PlusZero(XTime(GMul(P14.rest, x)));
    hide GMul;
  }

  // ----- Columns

  datatype Column = Column(b0: byte, b1: byte, b2: byte, b3: byte)

  function ColumnPlus(u: Column, v: Column): Column {
    Column(Plus(u.b0, v.b0), Plus(u.b1, v.b1), Plus(u.b2, v.b2), Plus(u.b3, v.b3))
  }

  function Dot(k0: Poly, k1: Poly, k2: Poly, k3: Poly, u: Column): byte {
    Plus(Plus(GMul(k0, u.b0), GMul(k1, u.b1)), Plus(GMul(k2, u.b2), GMul(k3, u.b3)))
  }

  /** The matrix of FIPS 197 section 5.1.3. */
  function MixColumn(u: Column): Column {
    Column(Dot(P2, P3, P1, P1, u), Dot(P1, P2, P3, P1, u), Dot(P1, P1, P2, P3, u), Dot(P3, P1, P1, P2, u))
  }

  /** The matrix of FIPS 197 section 5.3.3. */
  function InvMixColumn(u: Column): Column {
    Column(Dot(P14, P11, P13, P9, u), Dot(P9, P14, P11, P13, u), Dot(P13, P9, P14, P11, u), Dot(P11, P13, P9, P14, u))
  }

  lemma DotPlus(k0: Poly, k1: Poly, k2: Poly, k3: Poly, u: Column, v: Column)
    ensures Dot(k0, k1, k2, k3, ColumnPlus(u, v)) == Plus(Dot(k0, k1, k2, k3, u), Dot(k0, k1, k2, k3, v))
  {
    hide Plus, GMul;
    GMulPlus(k0, u.b0, v.b0);
    GMulPlus(k1, u.b1, v.b1);
    GMulPlus(k2, u.b2, v.b2);
    GMulPlus(k3, u.b3, v.b3);
    PlusSwap(GMul(k0, u.b0), GMul(k0, v.b0), GMul(k1, u.b1), GMul(k1, v.b1));
    PlusSwap(GMul(k2, u.b2), GMul(k2, v.b2), GMul(k3, u.b3), GMul(k3, v.b3));
    PlusSwap(Plus(GMul(k0, u.b0), GMul(k1, u.b1)), Plus(GMul(k0, v.b0), GMul(k1, v.b1)),
             Plus(GMul(k2, u.b2), GMul(k3, u.b3)), Plus(GMul(k2, v.b2), GMul(k3, v.b3)));
  }

  // ----- Columns of multiples of one byte

  datatype Coefs = Coefs(c0: Poly, c1: Poly, c2: Poly, c3: Poly)

  function Scale(a: Coefs, x: byte): Column {
    Column(GMul(a.c0, x), GMul(a.c1, x), GMul(a.c2, x), GMul(a.c3, x))
  }

  function DotPoly(k0: Poly, k1: Poly, k2: Poly, k3: Poly, a: Coefs): Poly {
    AddPoly(AddPoly(MulPoly(k0, a.c0), MulPoly(k1, a.c1)), AddPoly(MulPoly(k2, a.c2), MulPoly(k3, a.c3)))
  }

  function MixCoefs(a: Coefs): Coefs {
    Coefs(DotPoly(P2, P3, P1, P1, a), DotPoly(P1, P2, P3, P1, a), DotPoly(P1, P1, P2, P3, a), DotPoly(P3, P1, P1, P2, a))
  }

  function InvMixCoefs(a: Coefs): Coefs {
    Coefs(DotPoly(P14, P11, P13, P9, a), DotPoly(P9, P14, P11, P13, a),
          DotPoly(P13, P9, P14, P11, a), DotPoly(P11, P13, P9, P14, a))
  }

  lemma DotScale(k0: Poly, k1: Poly, k2: Poly, k3: Poly, a: Coefs, x: byte)
    ensures Dot(k0, k1, k2, k3, Scale(a, x)) == GMul(DotPoly(k0, k1, k2, k3, a), x)
  {
    hide Plus, GMul, MulPoly, AddPoly;
    GMulMultiplies(k0, a.c0, x);
    GMulMultiplies(k1, a.c1, x);
    GMulMultiplies(k2, a.c2, x);
    GMulMultiplies(k3, a.c3, x);
    GMulAdds(MulPoly(k0, a.c0), MulPoly(k1, a.c1), x);
    GMulAdds(MulPoly(k2, a.c2), MulPoly(k3, a.c3), x);
    GMulAdds(AddPoly(MulPoly(k0, a.c0), MulPoly(k1, a.c1)), AddPoly(MulPoly(k2, a.c2), MulPoly(k3, a.c3)), x);
  }

  lemma MixScale(a: Coefs, x: byte)
    ensures MixColumn(Scale(a, x)) == Scale(MixCoefs(a), x)
    ensures InvMixColumn(Scale(a, x)) == Scale(InvMixCoefs(a), x)
  {
    hide Dot, GMul, DotPoly;
    DotScale(P2, P3, P1, P1, a, x);
    DotScale(P1, P2, P3, P1, a, x);
    DotScale(P1, P1, P2, P3, a, x);
    DotScale(P3, P1, P1, P2, a, x);
    DotScale(P14, P11, P13, P9, a, x);
    DotScale(P9, P14, P11, P13, a, x);
    DotScale(P13, P9, P14, P11, a, x);
    DotScale(P11, P13, P9, P14, a, x);
  }

  ghost predicate Undone(a: Coefs) {
    InvMixCoefs(MixCoefs(a)) == a && MixCoefs(InvMixCoefs(a)) == a
  }

  // The two matrices are inverse on each unit column: the polynomial products, computed.

  lemma Unit0()
    ensures Undone(Coefs(P1, Zero, Zero, Zero))
  {
    assert MixCoefs(Coefs(P1, Zero, Zero, Zero)) == Coefs(P2, P1, P1, P3);
    assert InvMixCoefs(Coefs(P1, Zero, Zero, Zero)) == Coefs(P14, P9, P13, P11);
  }

  lemma Unit1()
    ensures Undone(Coefs(Zero, P1, Zero, Zero))
  {
    assert MixCoefs(Coefs(Zero, P1, Zero, Zero)) == Coefs(P3, P2, P1, P1);
    assert InvMixCoefs(Coefs(Zero, P1, Zero, Zero)) == Coefs(P11, P14, P9, P13);
  }

  lemma Unit2()
    ensures Undone(Coefs(Zero, Zero, P1, Zero))
  {
    assert MixCoefs(Coefs(Zero, Zero, P1, Zero)) == Coefs(P1, P3, P2, P1);
    assert InvMixCoefs(Coefs(Zero, Zero, P1, Zero)) == Coefs(P13, P11, P14, P9);
  }

  lemma Unit3()
    ensures Undone(Coefs(Zero, Zero, Zero, P1))
  {
    assert MixCoefs(Coefs(Zero, Zero, Zero, P1)) == Coefs(P1, P1, P3, P2);
    assert InvMixCoefs(Coefs(Zero, Zero, Zero, P1)) == Coefs(P9, P13, P11, P14);
  }

  lemma MixPlus(u: Column, v: Column)
    ensures MixColumn(ColumnPlus(u, v)) == ColumnPlus(MixColumn(u), MixColumn(v))
    ensures InvMixColumn(ColumnPlus(u, v)) == ColumnPlus(InvMixColumn(u), InvMixColumn(v))
  {
    hide Plus, Dot;
    DotPlus(P2, P3, P1, P1, u, v);
    DotPlus(P1, P2, P3, P1, u, v);
    DotPlus(P1, P1, P2, P3, u, v);
    DotPlus(P3, P1, P1, P2, u, v);
    DotPlus(P14, P11, P13, P9, u, v);
    DotPlus(P9, P14, P11, P13, u, v);
    DotPlus(P13, P9, P14, P11, u, v);
    DotPlus(P11, P13, P9, P14, u, v);
  }

  /** Every column is the sum of its four entries. */
  lemma Split(u: Column)
    ensures u == ColumnPlus(ColumnPlus(Scale(Coefs(P1, Zero, Zero, Zero), u.b0), Scale(Coefs(Zero, P1, Zero, Zero), u.b1)),
                            ColumnPlus(Scale(Coefs(Zero, Zero, P1, Zero), u.b2), Scale(Coefs(Zero, Zero, Zero, P1), u.b3)))
  {
    SmallMultiples(u.b0); SmallMultiples(u.b1); SmallMultiples(u.b2); SmallMultiples(u.b3);
    PlusZero(0); PlusZero(u.b0); PlusZero(u.b1); PlusZero(u.b2); PlusZero(u.b3);
    hide Plus, XTime;
  }

  lemma UndoneScale(a: Coefs, x: byte)
    requires Undone(a)
    ensures InvMixColumn(MixColumn(Scale(a, x))) == Scale(a, x) == MixColumn(InvMixColumn(Scale(a, x)))
  {
    hide MixColumn, InvMixColumn, Scale, MixCoefs, InvMixCoefs;
    MixScale(a, x);
    MixScale(MixCoefs(a), x);
    MixScale(InvMixCoefs(a), x);
  }

  lemma UndonePlus(u: Column, v: Column)
    requires InvMixColumn(MixColumn(u)) == u == MixColumn(InvMixColumn(u))
    requires InvMixColumn(MixColumn(v)) == v == MixColumn(InvMixColumn(v))
    ensures InvMixColumn(MixColumn(ColumnPlus(u, v))) == ColumnPlus(u, v) == MixColumn(InvMixColumn(ColumnPlus(u, v)))
  {
    hide MixColumn, InvMixColumn, ColumnPlus;
    MixPlus(u, v);
    MixPlus(MixColumn(u), MixColumn(v));
    MixPlus(InvMixColumn(u), InvMixColumn(v));
  }

  /** MixColumn and InvMixColumn are mutual inverses. */
  lemma MixColumnInverse(u: Column)
    ensures InvMixColumn(MixColumn(u)) == u
    ensures MixColumn(InvMixColumn(u)) == u
  {
    hide MixColumn, InvMixColumn, Scale, ColumnPlus, Undone;
    var e0, e1 := Scale(Coefs(P1, Zero, Zero, Zero), u.b0), Scale(Coefs(Zero, P1, Zero, Zero), u.b1);
    var e2, e3 := Scale(Coefs(Zero, Zero, P1, Zero), u.b2), Scale(Coefs(Zero, Zero, Zero, P1), u.b3);
    Split(u);
    Unit0(); UndoneScale(Coefs(P1, Zero, Zero, Zero), u.b0);
    Unit1(); UndoneScale(Coefs(Zero, P1, Zero, Zero), u.b1);
    Unit2(); UndoneScale(Coefs(Zero, Zero, P1, Zero), u.b2);
    Unit3(); UndoneScale(Coefs(Zero, Zero, Zero, P1), u.b3);
    UndonePlus(e0, e1);
    UndonePlus(e2, e3);
    UndonePlus(ColumnPlus(e0, e1), ColumnPlus(e2, e3));
  }
}