/**
 Where the substitution table comes from (FIPS 197 section 5.1.1): each byte is replaced with its
 inverse in GF(2^8), and that by an affine map of its bits. The tables of UnverifiedAES256 are
 constants; `SubIsAffineOfInverse` says that they are this, for every byte.
 */
module SBoxDerivation {
  import opened Basics
  import opened Gf256
  import opened SBox

  /** A byte as a polynomial over GF(2); it may end with zeros. */
  function PolyOf(a: byte): Poly {
    Next(a & 0x01 != 0, Next(a & 0x02 != 0, Next(a & 0x04 != 0, Next(a & 0x08 != 0,
    Next(a & 0x10 != 0, Next(a & 0x20 != 0, Next(a & 0x40 != 0, Next(a & 0x80 != 0, Zero))))))))
  }

  /** Multiplication in GF(2^8) (FIPS 197 section 4.2). */
  function Product(a: byte, b: byte): byte { GMul(PolyOf(a), b) }

  /** The affine map: each bit is added to the four bits that come 4 to 7 places later, and to the bit of 0x63. */
  function Affine(b: byte): byte {
    b ^ ((b << 1) | (b >> 7)) ^ ((b << 2) | (b >> 6)) ^ ((b << 3) | (b >> 5)) ^ ((b << 4) | (b >> 4)) ^ 0x63
  }

  function AffineUndone(b: byte): byte { ((b << 1) | (b >> 7)) ^ ((b << 3) | (b >> 5)) ^ ((b << 6) | (b >> 2)) ^ 0x05 }

  /** What the table says the inverse is. */
  function Inverse(x: byte): byte { AffineUndone(Sub(x)) }

  // ----- The product without recursion

  function BitProduct(a: byte, b: byte): byte {
    var b1 := XTime(b);
    var b2 := XTime(b1);
    var b3 := XTime(b2);
    var b4 := XTime(b3);
    var b5 := XTime(b4);
    var b6 := XTime(b5);
    var b7 := XTime(b6);
    Plus(If(a & 0x01 != 0, b), Plus(If(a & 0x02 != 0, b1), Plus(If(a & 0x04 != 0, b2), Plus(If(a & 0x08 != 0, b3),
    Plus(If(a & 0x10 != 0, b4), Plus(If(a & 0x20 != 0, b5), Plus(If(a & 0x40 != 0, b6), If(a & 0x80 != 0, b7))))))))
  }

  lemma OneTerm(bit: bool, rest: Poly, x: byte)
    ensures GMul(Next(bit, rest), x) == Plus(If(bit, x), GMul(rest, XTime(x)))
    ensures GMul(Next(bit, Zero), x) == If(bit, x)
  {
    hide Plus, If, XTime;
    PlusZero(If(bit, x));
  }

  lemma ProductIsBitProduct(a: byte, b: byte)
    ensures Product(a, b) == BitProduct(a, b)
  {
    hide GMul, Plus, If, XTime;
    var k0 := PolyOf(a);
    var k1, x1 := k0.rest, XTime(b);
    var k2, x2 := k1.rest, XTime(x1);
    var k3, x3 := k2.rest, XTime(x2);
    var k4, x4 := k3.rest, XTime(x3);
    var k5, x5 := k4.rest, XTime(x4);
    var k6, x6 := k5.rest, XTime(x5);
    var k7, x7 := k6.rest, XTime(x6);
    OneTerm(k0.bit, k1, b);
    OneTerm(k1.bit, k2, x1);
    OneTerm(k2.bit, k3, x2);
    OneTerm(k3.bit, k4, x3);
    OneTerm(k4.bit, k5, x4);
    OneTerm(k5.bit, k6, x5);
    OneTerm(k6.bit, k7, x6);
    OneTerm(k7.bit, Zero, x7);
  }

  // ----- The product of bytes is that of a field

  /** Two multiplications may be exchanged: each is a sum of doublings. */
  lemma {:induction false} GMulCommutes(k: Poly, l: Poly, x: byte)
    ensures GMul(k, GMul(l, x)) == GMul(l, GMul(k, x))
    decreases k
  {
    hide XTime, Plus;
    if k == Zero {
      GMulZero(l);
    } else {
      GMulXTime(l, x);
      GMulCommutes(k.rest, l, XTime(x));
      GMulPlus(l, If(k.bit, x), GMul(k.rest, XTime(x)));
      GMulZero(l);
    }
  }

  lemma {:induction false} GMulZero(k: Poly)
    ensures GMul(k, 0) == 0
  {
    hide Plus;
    PlusZero(0);
    if k.Next? { GMulZero(k.rest); }
  }

  lemma PowersOfX()
    ensures XTime(0x01) == 0x02 && XTime(0x02) == 0x04 && XTime(0x04) == 0x08 && XTime(0x08) == 0x10
    ensures XTime(0x10) == 0x20 && XTime(0x20) == 0x40 && XTime(0x40) == 0x80
  {}

  lemma BitsOf(a: byte)
    ensures a == Plus(If(a & 0x01 != 0, 0x01), Plus(If(a & 0x02 != 0, 0x02), Plus(If(a & 0x04 != 0, 0x04),
      Plus(If(a & 0x08 != 0, 0x08), Plus(If(a & 0x10 != 0, 0x10), Plus(If(a & 0x20 != 0, 0x20),
      Plus(If(a & 0x40 != 0, 0x40), If(a & 0x80 != 0, 0x80))))))))
  {}

  lemma ProductOne(a: byte)
    ensures Product(a, 1) == a
  {
    hide Product, Plus, If, XTime;
    ProductIsBitProduct(a, 1);
    PowersOfX();
    BitsOf(a);
  }

  lemma ProductCommutes(a: byte, b: byte)
    ensures Product(a, b) == Product(b, a)
  {
    hide GMul, PolyOf;
    ProductOne(a);
    ProductOne(b);
    GMulCommutes(PolyOf(a), PolyOf(b), 1);
  }

  lemma ProductAssociates(a: byte, b: byte, c: byte)
    ensures Product(a, Product(b, c)) == Product(Product(a, b), c)
  {
    hide GMul, PolyOf;
    ProductCommutes(b, c);
    GMulCommutes(PolyOf(a), PolyOf(c), b);
    ProductCommutes(Product(a, b), c);
  }

  /** There is at most one inverse. */
  lemma InverseIsUnique(x: byte, y: byte, z: byte)
    requires Product(x, y) == Product(x, z) == 1
    ensures y == z
  {
    hide Product;
    ProductAssociates(z, x, y);
    ProductCommutes(z, x);
    ProductCommutes(1, y);
    ProductOne(y);
    ProductOne(z);
  }

  // ----- Multiplication by 3, which leads from 1 to every byte but 0

  function Three(x: byte): byte { Plus(XTime(x), x) }

  /** Division by 3: without the reduction, and with it when a bit was lost. */
  function Third(x: byte): byte {
    var a := x ^ (x << 1);
    var b := a ^ (a << 2);
    var t := b ^ (b << 4);
    if t & 0x80 == 0 then t else t ^ 0x09
  }

  /** How often 1 must be multiplied by 3 to get a byte other than 0, as a decision tree on the byte. */
  function Log(x: byte): byte {
    if x < 0x80 then
      if x < 0x40 then
        if x < 0x20 then
          if x < 0x10 then
            if x < 0x08 then
              if x < 0x04 then if x < 0x02 then (if x < 0x01 then 0x00 else 0x00) else (if x < 0x03 then 0x19 else 0x01)
              else if x < 0x06 then (if x < 0x05 then 0x32 else 0x02) else (if x < 0x07 then 0x1a else 0xc6)
            else
              if x < 0x0c then if x < 0x0a then (if x < 0x09 then 0x4b else 0xc7) else (if x < 0x0b then 0x1b else 0x68)
              else if x < 0x0e then (if x < 0x0d then 0x33 else 0xee) else (if x < 0x0f then 0xdf else 0x03)
          else
            if x < 0x18 then
              if x < 0x14 then if x < 0x12 then (if x < 0x11 then 0x64 else 0x04) else (if x < 0x13 then 0xe0 else 0x0e)
              else if x < 0x16 then (if x < 0x15 then 0x34 else 0x8d) else (if x < 0x17 then 0x81 else 0xef)
            else
              if x < 0x1c then if x < 0x1a then (if x < 0x19 then 0x4c else 0x71) else (if x < 0x1b then 0x08 else 0xc8)
              else if x < 0x1e then (if x < 0x1d then 0xf8 else 0x69) else (if x < 0x1f then 0x1c else 0xc1)
        else
          if x < 0x30 then
            if x < 0x28 then
              if x < 0x24 then if x < 0x22 then (if x < 0x21 then 0x7d else 0xc2) else (if x < 0x23 then 0x1d else 0xb5)
              else if x < 0x26 then (if x < 0x25 then 0xf9 else 0xb9) else (if x < 0x27 then 0x27 else 0x6a)
            else
              if x < 0x2c then if x < 0x2a then (if x < 0x29 then 0x4d else 0xe4) else (if x < 0x2b then 0xa6 else 0x72)
              else if x < 0x2e then (if x < 0x2d then 0x9a else 0xc9) else (if x < 0x2f then 0x09 else 0x78)
          else
            if x < 0x38 then
              if x < 0x34 then if x < 0x32 then (if x < 0x31 then 0x65 else 0x2f) else (if x < 0x33 then 0x8a else 0x05)
              else if x < 0x36 then (if x < 0x35 then 0x21 else 0x0f) else (if x < 0x37 then 0xe1 else 0x24)
            else
              if x < 0x3c then if x < 0x3a then (if x < 0x39 then 0x12 else 0xf0) else (if x < 0x3b then 0x82 else 0x45)
              else if x < 0x3e then (if x < 0x3d then 0x35 else 0x93) else (if x < 0x3f then 0xda else 0x8e)
      else
        if x < 0x60 then
          if x < 0x50 then
            if x < 0x48 then
              if x < 0x44 then if x < 0x42 then (if x < 0x41 then 0x96 else 0x8f) else (if x < 0x43 then 0xdb else 0xbd)
              else if x < 0x46 then (if x < 0x45 then 0x36 else 0xd0) else (if x < 0x47 then 0xce else 0x94)
            else
              if x < 0x4c then if x < 0x4a then (if x < 0x49 then 0x13 else 0x5c) else (if x < 0x4b then 0xd2 else 0xf1)
              else if x < 0x4e then (if x < 0x4d then 0x40 else 0x46) else (if x < 0x4f then 0x83 else 0x38)
          else
            if x < 0x58 then
              if x < 0x54 then if x < 0x52 then (if x < 0x51 then 0x66 else 0xdd) else (if x < 0x53 then 0xfd else 0x30)
              else if x < 0x56 then (if x < 0x55 then 0xbf else 0x06) else (if x < 0x57 then 0x8b else 0x62)
            else
              if x < 0x5c then if x < 0x5a then (if x < 0x59 then 0xb3 else 0x25) else (if x < 0x5b then 0xe2 else 0x98)
              else if x < 0x5e then (if x < 0x5d then 0x22 else 0x88) else (if x < 0x5f then 0x91 else 0x10)
        else
          if x < 0x70 then
            if x < 0x68 then
              if x < 0x64 then if x < 0x62 then (if x < 0x61 then 0x7e else 0x6e) else (if x < 0x63 then 0x48 else 0xc3)
              else if x < 0x66 then (if x < 0x65 then 0xa3 else 0xb6) else (if x < 0x67 then 0x1e else 0x42)
            else
              if x < 0x6c then if x < 0x6a then (if x < 0x69 then 0x3a else 0x6b) else (if x < 0x6b then 0x28 else 0x54)
              else if x < 0x6e then (if x < 0x6d then 0xfa else 0x85) else (if x < 0x6f then 0x3d else 0xba)
          else
            if x < 0x78 then
              if x < 0x74 then if x < 0x72 then (if x < 0x71 then 0x2b else 0x79) else (if x < 0x73 then 0x0a else 0x15)
              else if x < 0x76 then (if x < 0x75 then 0x9b else 0x9f) else (if x < 0x77 then 0x5e else 0xca)
            else
              if x < 0x7c then if x < 0x7a then (if x < 0x79 then 0x4e else 0xd4) else (if x < 0x7b then 0xac else 0xe5)
              else if x < 0x7e then (if x < 0x7d then 0xf3 else 0x73) else (if x < 0x7f then 0xa7 else 0x57)
    else
      if x < 0xc0 then
        if x < 0xa0 then
          if x < 0x90 then
            if x < 0x88 then
              if x < 0x84 then if x < 0x82 then (if x < 0x81 then 0xaf else 0x58) else (if x < 0x83 then 0xa8 else 0x50)
              else if x < 0x86 then (if x < 0x85 then 0xf4 else 0xea) else (if x < 0x87 then 0xd6 else 0x74)
            else
              if x < 0x8c then if x < 0x8a then (if x < 0x89 then 0x4f else 0xae) else (if x < 0x8b then 0xe9 else 0xd5)
              else if x < 0x8e then (if x < 0x8d then 0xe7 else 0xe6) else (if x < 0x8f then 0xad else 0xe8)
          else
            if x < 0x98 then
              if x < 0x94 then if x < 0x92 then (if x < 0x91 then 0x2c else 0xd7) else (if x < 0x93 then 0x75 else 0x7a)
              else if x < 0x96 then (if x < 0x95 then 0xeb else 0x16) else (if x < 0x97 then 0x0b else 0xf5)
            else
              if x < 0x9c then if x < 0x9a then (if x < 0x99 then 0x59 else 0xcb) else (if x < 0x9b then 0x5f else 0xb0)
              else if x < 0x9e then (if x < 0x9d then 0x9c else 0xa9) else (if x < 0x9f then 0x51 else 0xa0)
        else
          if x < 0xb0 then
            if x < 0xa8 then
              if x < 0xa4 then if x < 0xa2 then (if x < 0xa1 then 0x7f else 0x0c) else (if x < 0xa3 then 0xf6 else 0x6f)
              else if x < 0xa6 then (if x < 0xa5 then 0x17 else 0xc4) else (if x < 0xa7 then 0x49 else 0xec)
            else
              if x < 0xac then if x < 0xaa then (if x < 0xa9 then 0xd8 else 0x43) else (if x < 0xab then 0x1f else 0x2d)
              else if x < 0xae then (if x < 0xad then 0xa4 else 0x76) else (if x < 0xaf then 0x7b else 0xb7)
          else
            if x < 0xb8 then
              if x < 0xb4 then if x < 0xb2 then (if x < 0xb1 then 0xcc else 0xbb) else (if x < 0xb3 then 0x3e else 0x5a)
              else if x < 0xb6 then (if x < 0xb5 then 0xfb else 0x60) else (if x < 0xb7 then 0xb1 else 0x86)
            else
              if x < 0xbc then if x < 0xba then (if x < 0xb9 then 0x3b else 0x52) else (if x < 0xbb then 0xa1 else 0x6c)
              else if x < 0xbe then (if x < 0xbd then 0xaa else 0x55) else (if x < 0xbf then 0x29 else 0x9d)
      else
        if x < 0xe0 then
          if x < 0xd0 then
            if x < 0xc8 then
              if x < 0xc4 then if x < 0xc2 then (if x < 0xc1 then 0x97 else 0xb2) else (if x < 0xc3 then 0x87 else 0x90)
              else if x < 0xc6 then (if x < 0xc5 then 0x61 else 0xbe) else (if x < 0xc7 then 0xdc else 0xfc)
            else
              if x < 0xcc then if x < 0xca then (if x < 0xc9 then 0xbc else 0x95) else (if x < 0xcb then 0xcf else 0xcd)
              else if x < 0xce then (if x < 0xcd then 0x37 else 0x3f) else (if x < 0xcf then 0x5b else 0xd1)
          else
            if x < 0xd8 then
              if x < 0xd4 then if x < 0xd2 then (if x < 0xd1 then 0x53 else 0x39) else (if x < 0xd3 then 0x84 else 0x3c)
              else if x < 0xd6 then (if x < 0xd5 then 0x41 else 0xa2) else (if x < 0xd7 then 0x6d else 0x47)
            else
              if x < 0xdc then if x < 0xda then (if x < 0xd9 then 0x14 else 0x2a) else (if x < 0xdb then 0x9e else 0x5d)
              else if x < 0xde then (if x < 0xdd then 0x56 else 0xf2) else (if x < 0xdf then 0xd3 else 0xab)
        else
          if x < 0xf0 then
            if x < 0xe8 then
              if x < 0xe4 then if x < 0xe2 then (if x < 0xe1 then 0x44 else 0x11) else (if x < 0xe3 then 0x92 else 0xd9)
              else if x < 0xe6 then (if x < 0xe5 then 0x23 else 0x20) else (if x < 0xe7 then 0x2e else 0x89)
            else
              if x < 0xec then if x < 0xea then (if x < 0xe9 then 0xb4 else 0x7c) else (if x < 0xeb then 0xb8 else 0x26)
              else if x < 0xee then (if x < 0xed then 0x77 else 0x99) else (if x < 0xef then 0xe3 else 0xa5)
          else
            if x < 0xf8 then
              if x < 0xf4 then if x < 0xf2 then (if x < 0xf1 then 0x67 else 0x4a) else (if x < 0xf3 then 0xed else 0xde)
              else if x < 0xf6 then (if x < 0xf5 then 0xc5 else 0x31) else (if x < 0xf7 then 0xfe else 0x18)
            else
              if x < 0xfc then if x < 0xfa then (if x < 0xf9 then 0x0d else 0x63) else (if x < 0xfb then 0x8c else 0x80)
              else if x < 0xfe then (if x < 0xfd then 0xc0 else 0xf7) else (if x < 0xff then 0x70 else 0x07)
  }

  lemma ThreeAndThird(x: byte)
    ensures Three(Third(x)) == x == Third(Three(x))
  {}

  lemma LogOfThree(x: byte)
    requires x != 0 && Three(x) != 1
    ensures Log(Three(x)) == Log(x) + 1 && Log(x) < 254
  {}

  lemma ThreeOfZero()
    ensures Three(0) == 0
  {}

  function ToNat(b: byte): nat { b as nat }

  lemma NextNat(b: byte)
    requires b < 254
    ensures ToNat(b + 1) == ToNat(b) + 1
  {}

  lemma ThreeMoves(a: byte, b: byte)
    ensures Product(a, Three(b)) == Three(Product(a, b)) == Product(Three(a), b)
  {
    hide Product, Three;
    ThreeMovesOut(a, b);
    ThreeMovesOut(b, a);
    ProductCommutes(a, b);
    ProductCommutes(Three(a), b);
  }

  lemma ThreeMovesOut(a: byte, b: byte)
    ensures Product(a, Three(b)) == Three(Product(a, b))
  {
    hide GMul, PolyOf, XTime, Plus;
    SmallMultiples(b);
    SmallMultiples(Product(a, b));
    GMulCommutes(PolyOf(a), P3, b);
  }

  // ----- The table

  lemma AffineInverse(b: byte)
    ensures Affine(AffineUndone(b)) == b == AffineUndone(Affine(b))
  {}

  lemma InverseOfSmall()
    ensures Inverse(1) == 1 && Sub(0) == Affine(0)
  {}

  /** The law of the table: from the entry of a byte follows that of its threefold. */
  lemma TableStep(x: byte)
    ensures Third(InvSub(Affine(Third(Inverse(x))))) == x
  {}

  lemma InverseOfThree(x: byte)
    ensures Three(Inverse(Three(x))) == Inverse(x)
  {
    hide Affine, AffineUndone, Sub, InvSub, Three, Third;
    var y := Affine(Third(Inverse(x)));
    TableStep(x);
    ThreeAndThird(InvSub(y));
    InvSubInverse(y);
    AffineInverse(Third(Inverse(x)));
    ThreeAndThird(Inverse(x));
  }

  /** What the table says is the inverse, for every byte but 0. */
  lemma {:induction false} InverseIsInverse(x: byte)
    requires x != 0
    ensures Product(x, Inverse(x)) == 1
    decreases ToNat(Log(x))
  {
    hide Product, Inverse, Log, Three, Third, ToNat;
    if x == 1 {
      InverseOfSmall();
      ProductOne(1);
    } else {
      var y := Third(x);
      ThreeAndThird(x);
      ThreeOfZero();
      LogOfThree(y);
      NextNat(Log(y));
      InverseIsInverse(y);
      InverseOfThree(y);
      ThreeMoves(y, Inverse(x));
    }
  }

  /** Every entry of the table is the affine map of the one inverse of its index, and of 0 for index 0, which has none. */
  lemma SubIsAffineOfInverse(x: byte, y: byte)
    ensures if x == 0 then Sub(x) == Affine(0) else Product(x, y) == 1 <==> Sub(x) == Affine(y)
  {
    hide Product, Affine, AffineUndone, Sub;
    AffineInverse(Sub(x));
    AffineInverse(y);
    if x == 0 {
      InverseOfSmall();
    } else {
      InverseIsInverse(x);
      if Product(x, y) == 1 { InverseIsUnique(x, y, Inverse(x)); }
    }
  }
}
