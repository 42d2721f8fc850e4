/** Field elements as gcm/ghash.go stores them: two words, the leading bits in `low`. */
module FieldElements {
  import opened BitStrings
  import opened Gf128

  /** The leading 64 bits are in `low`, as binary.BigEndian reads them. */
  datatype FieldElement = FieldElement(low: bv64, high: bv64)

  function Value(e: FieldElement): block {
    Bits(e.low, 64) + Bits(e.high, 64)
  }

  function GhashAdd(x: FieldElement, y: FieldElement): FieldElement {
    FieldElement(Xor64(x.low, y.low), Xor64(x.high, y.high))
  }

  function GhashDouble(x: FieldElement): FieldElement {
    var high := ShiftIn(x.high, x.low);
    var low := Half(x.low);
    FieldElement(if Odd(x.high) then Xor64(low, 0xe100_0000_0000_0000) else low, high)
  }

  lemma GhashAddIsXor(x: FieldElement, y: FieldElement)
    ensures Value(GhashAdd(x, y)) == Xor(Value(x), Value(y))
  {
    hide Bits, Xor64;
    BitsXor(x.low, y.low, 64);
    BitsXor(x.high, y.high, 64);
  }

  lemma HalfBits(w: bv64)
    ensures Bits(Half(w), 64) == [false] + Bits(w, 64)[..63]
  {
    hide Bits;
    ShiftInBits(w, 0);
    assert ShiftIn(w, 0) == Half(w);
  }

  lemma ReductionBits()
    ensures Bits(0xe100_0000_0000_0000, 64) == R()[..64]
  {
    hide Bits;
    TopByte(0xe1);
    BitsNibble(0xe1, 4);
    BitsNibble(0xe, 0);
    assert Bits(0xe, 0) == [];
    assert Nibble(0xe1) == [false, false, false, true] && Nibble(0xe) == [true, true, true, false];
  }

  lemma XorHalves(a: bits, b: bits)
    requires |a| == |b| == 64
    ensures Xor(a + b, R()) == Xor(a, R()[..64]) + b
  {
    assert R()[64..] == Zeros(64);
    assert R() == R()[..64] + Zeros(64);
  }

  lemma ShiftHalves(a: bits, b: bits)
    requires |a| == |b| == 64
    ensures (a + b)[127] == b[63]
    ensures ([false] + a[..63]) + ([a[63]] + b[..63]) == [false] + (a + b)[..127]
  {
  }

  lemma GhashDoubleIsDouble(x: FieldElement)
    ensures Value(GhashDouble(x)) == Double(Value(x))
  {
    var a, b := Bits(x.low, 64), Bits(x.high, 64);
    var low, high := Half(x.low), ShiftIn(x.high, x.low);
    assert Bits(low, 64) + Bits(high, 64) == [false] + (a + b)[..127] && (a + b)[127] == Odd(x.high) by {
      hide *;
      HalfBits(x.low);
      ShiftInBits(x.high, x.low);
      BitsStep(x.low, 63);
      BitsStep(x.high, 63);
      ShiftHalves(a, b);
    }
    hide Bits, Half, Odd, ShiftIn, Xor64, R, Xor;
    if Odd(x.high) {
      calc {
        Value(GhashDouble(x));
        Bits(Xor64(low, 0xe100_0000_0000_0000), 64) + Bits(high, 64);
        { BitsXor(low, 0xe100_0000_0000_0000, 64); ReductionBits(); }
        Xor(Bits(low, 64), R()[..64]) + Bits(high, 64);
        { XorHalves(Bits(low, 64), Bits(high, 64)); }
        Double(Value(x));
      }
    }
  }

  // ---------- Multiplying by x^4 with the reduction table ----------

  const GHASH_REDUCTION_TABLE: seq<bv16> := [
    0x0000, 0x1c20, 0x3840, 0x2460, 0x7080, 0x6ca0, 0x48c0, 0x54e0,
    0xe100, 0xfd20, 0xd940, 0xc560, 0x9180, 0x8da0, 0xa9c0, 0xb5e0
  ]

  function Carry(bit: bool): bv64 {
    if bit then 0xe100_0000_0000_0000 else 0
  }

  /** What four doublings fold back into the leading word. */
  function Fold(c0: bv64, c1: bv64, c2: bv64, c3: bv64): bv64 {
    Xor64(Half(Xor64(Half(Xor64(Half(c0), c1)), c2)), c3)
  }

  function ShiftIn4(w: bv64, c: bv64): bv64 {
    (w >> 4) | (c << 60)
  }

  function LowNibble(w: bv64): (n: nat)
    ensures n < 16
  {
    (w & 0xf) as nat
  }

  lemma LowNibbleBits(w: bv64)
    ensures LowNibble(w) / 8 % 2 == 1 <==> w & 8 == 8
    ensures LowNibble(w) / 4 % 2 == 1 <==> w & 4 == 4
    ensures LowNibble(w) / 2 % 2 == 1 <==> w & 2 == 2
    ensures LowNibble(w) % 2 == 1 <==> w & 1 == 1
  {
  }

  function ReductionEntry(n: nat): bv64
    requires n < 16
  {
    GHASH_REDUCTION_TABLE[n] as bv64 << 48
  }

  /** The shift of z by one nibble at the head of the inner loop. */
  function MulBy16(z: FieldElement): FieldElement {
    FieldElement(Xor64(Shift4(z.low), ReductionEntry(LowNibble(z.high))), ShiftIn4(z.high, z.low))
  }

  lemma ReductionTableFolds(n: nat)
    requires n < 16
    ensures ReductionEntry(n)
         == Fold(Carry(n % 2 == 1), Carry(n / 2 % 2 == 1), Carry(n / 4 % 2 == 1), Carry(n / 8 % 2 == 1))
  {
  }

  lemma LowFour(l: bv64, c0: bv64, c1: bv64, c2: bv64, c3: bv64)
    ensures Xor64(Half(Xor64(Half(Xor64(Half(Xor64(Half(l), c0)), c1)), c2)), c3)
         == Xor64(Shift4(l), Fold(c0, c1, c2, c3))
  {
    hide Half, Xor64, Shift4, Odd, Nibble;
    Shift4IsHalves(l);
    var l1, l2, l3 := Half(l), Half(Half(l)), Half(Half(Half(l)));
    XorStep(l1, c0);
    var f1 := Xor64(Half(c0), c1);
    Xor64Assoc(l2, Half(c0), c1);
    XorStep(l2, f1);
    var f2 := Xor64(Half(f1), c2);
    Xor64Assoc(l3, Half(f1), c2);
    XorStep(l3, f2);
    Xor64Assoc(Half(l3), Half(f2), c3);
  }

  lemma HighFourRaw(h: bv64, l: bv64)
    ensures var h1 := (h >> 1) | (l << 63);
            var h2 := (h1 >> 1) | ((l >> 1) << 63);
            var h3 := (h2 >> 1) | (((l >> 1) >> 1) << 63);
            && (h3 >> 1) | ((((l >> 1) >> 1) >> 1) << 63) == (h >> 4) | (l << 60)
            && (h1 & 1 == 1 <==> h & 2 == 2)
            && (h2 & 1 == 1 <==> h & 4 == 4)
            && (h3 & 1 == 1 <==> h & 8 == 8)
  {
  }

  lemma HighFourShifts(h: bv64, l: bv64)
    ensures var h1 := ShiftIn(h, l);
            var h2 := ShiftIn(h1, Half(l));
            var h3 := ShiftIn(h2, Half(Half(l)));
            && ShiftIn(h3, Half(Half(Half(l)))) == ShiftIn4(h, l)
            && Nibble(h) == [Odd(h3), Odd(h2), Odd(h1), Odd(h)]
  {
    HighFourRaw(h, l);
  }

  lemma ShiftInOdd(w: bv64, c: bv64, d: bv64)
    requires Odd(c) == Odd(d)
    ensures ShiftIn(w, c) == ShiftIn(w, d)
  {
  }

  lemma CarryIsEven(b: bool)
    ensures !Odd(Carry(b)) && !Odd(Half(Carry(b))) && !Odd(Half(Half(Carry(b))))
  {
  }

  /** Reducing the leading word does not disturb the bits that the next shifts hand down. */
  lemma HandedDown(l: bv64, b0: bool, b1: bool, b2: bool)
    ensures var l1 := Xor64(Half(l), Carry(b0));
            var l2 := Xor64(Half(l1), Carry(b1));
            var l3 := Xor64(Half(l2), Carry(b2));
            Odd(l1) == Odd(Half(l)) && Odd(l2) == Odd(Half(Half(l))) && Odd(l3) == Odd(Half(Half(Half(l))))
  {
    hide Half, Odd, Xor64, Carry;
    CarryIsEven(b0);
    CarryIsEven(b1);
    CarryIsEven(b2);
    var l1 := Xor64(Half(l), Carry(b0));
    var l2 := Xor64(Half(l1), Carry(b1));
    XorStep(Half(l), Carry(b0));
    XorStep(Half(Half(l)), Half(Carry(b0)));
    XorStep(Half(l1), Carry(b1));
    XorStep(Half(Half(Half(l))), Half(Half(Carry(b0))));
    XorStep(Half(Half(l1)), Half(Carry(b1)));
    XorStep(Half(l2), Carry(b2));
  }

  lemma DoubleParts(x: FieldElement)
    ensures GhashDouble(x) == FieldElement(Xor64(Half(x.low), Carry(Odd(x.high))), ShiftIn(x.high, x.low))
  {
    hide Half, Odd, ShiftIn;
  }

  lemma NibbleMatches(h: bv64)
    ensures var n := LowNibble(h);
            Nibble(h) == [n / 8 % 2 == 1, n / 4 % 2 == 1, n / 2 % 2 == 1, n % 2 == 1]
  {
    LowNibbleBits(h);
  }

  lemma HighOfFourDoubles(z: FieldElement)
    ensures var z1 := GhashDouble(z);
            var z2 := GhashDouble(z1);
            var z3 := GhashDouble(z2);
            && GhashDouble(z3).high == ShiftIn4(z.high, z.low)
            && Nibble(z.high) == [Odd(z3.high), Odd(z2.high), Odd(z1.high), Odd(z.high)]
  {
    hide *;
    var z1 := GhashDouble(z);
    var z2 := GhashDouble(z1);
    var z3 := GhashDouble(z2);
    DoubleParts(z);
    DoubleParts(z1);
    DoubleParts(z2);
    DoubleParts(z3);
    HandedDown(z.low, Odd(z.high), Odd(z1.high), Odd(z2.high));
    HighFourShifts(z.high, z.low);
    ShiftInOdd(z1.high, z1.low, Half(z.low));
    ShiftInOdd(z2.high, z2.low, Half(Half(z.low)));
    ShiftInOdd(z3.high, z3.low, Half(Half(Half(z.low))));
  }

  lemma LowOfFourDoubles(z: FieldElement)
    ensures var z1 := GhashDouble(z);
            var z2 := GhashDouble(z1);
            var z3 := GhashDouble(z2);
            GhashDouble(z3).low == Xor64(Shift4(z.low),
              Fold(Carry(Odd(z.high)), Carry(Odd(z1.high)), Carry(Odd(z2.high)), Carry(Odd(z3.high))))
  {
    hide *;
    var z1 := GhashDouble(z);
    var z2 := GhashDouble(z1);
    var z3 := GhashDouble(z2);
    DoubleParts(z);
    DoubleParts(z1);
    DoubleParts(z2);
    DoubleParts(z3);
    LowFour(z.low, Carry(Odd(z.high)), Carry(Odd(z1.high)), Carry(Odd(z2.high)), Carry(Odd(z3.high)));
  }

  lemma ReductionEntryFolds(h: bv64)
    ensures var b := Nibble(h);
            ReductionEntry(LowNibble(h)) == Fold(Carry(b[3]), Carry(b[2]), Carry(b[1]), Carry(b[0]))
  {
    hide LowNibble, ReductionEntry, Carry, Fold;
    NibbleMatches(h);
    ReductionTableFolds(LowNibble(h));
  }

  /** A four-bit shift with one table lookup is four doublings. */
  lemma MulBy16IsFourDoubles(z: FieldElement)
    ensures MulBy16(z) == GhashDouble(GhashDouble(GhashDouble(GhashDouble(z))))
  {
    hide GhashDouble, Fold, Carry, Xor64, Odd, Shift4, ShiftIn4, ReductionEntry, LowNibble, Nibble;
    HighOfFourDoubles(z);
    LowOfFourDoubles(z);
    ReductionEntryFolds(z.high);
  }

  lemma ValueInjective(x: FieldElement, y: FieldElement)
    requires Value(x) == Value(y)
    ensures x == y
  {
    hide Bits;
    assert Bits(x.low, 64) == Value(x)[..64] && Bits(y.low, 64) == Value(y)[..64];
    assert Bits(x.high, 64) == Value(x)[64..] && Bits(y.high, 64) == Value(y)[64..];
    BitsInjective(x.low, y.low);
    BitsInjective(x.high, y.high);
  }

  lemma ZeroElement()
    ensures Value(FieldElement(0, 0)) == Zeros(128)
  {
    hide Bits;
    TopBit(false);
  }

  // ---------- The same products, computed on elements ----------

  function ProductElement(x: bits, v: FieldElement): FieldElement {
    if x == [] then FieldElement(0, 0)
    else GhashAdd(if x[0] then v else FieldElement(0, 0), ProductElement(x[1..], GhashDouble(v)))
  }

  lemma {:induction false} ProductElementIsProduct(x: bits, v: FieldElement)
    ensures Value(ProductElement(x, v)) == Product(x, Value(v))
  {
    hide Value, GhashAdd, GhashDouble, Xor, Double;
    ZeroElement();
    if x != [] {
      ProductElementIsProduct(x[1..], GhashDouble(v));
      GhashDoubleIsDouble(v);
      GhashAddIsXor(if x[0] then v else FieldElement(0, 0), ProductElement(x[1..], GhashDouble(v)));
    }
  }

  function MulElement(x: FieldElement, y: FieldElement): FieldElement {
    ProductElement(Value(x), y)
  }

  lemma MulElementIsMul(x: FieldElement, y: FieldElement)
    ensures Value(MulElement(x, y)) == Mul(Value(x), Value(y))
  {
    hide Value, Product, ProductElement, Mul;
    ProductElementIsProduct(Value(x), y);
    MulIsProduct(Value(x), Value(y));
  }
}
