/** The Advanced Encryption Standard as FIPS 197 states it, over bytes, columns and states. */
module Fips197 {
  import opened AesTables
  import opened BigEndian

  // ---------- Bytes as elements of GF(2^8), section 4 ----------

  /** Multiplication by x modulo x^8 + x^4 + x^3 + x + 1. */
  function Xtime(a: octet): octet { (a << 1) ^ (if a & 0x80 == 0 then 0 else 0x1b) }

  /** a times b: the sum of the multiples of a by the powers of x in b. */
  function Times(a: octet, b: octet): octet {
    var a1 := Xtime(a);
    var a2 := Xtime(a1);
    var a3 := Xtime(a2);
    var a4 := Xtime(a3);
    var a5 := Xtime(a4);
    var a6 := Xtime(a5);
    var a7 := Xtime(a6);
    (if b & 0x01 == 0 then 0 else a) ^ (if b & 0x02 == 0 then 0 else a1)
    ^ (if b & 0x04 == 0 then 0 else a2) ^ (if b & 0x08 == 0 then 0 else a3)
    ^ (if b & 0x10 == 0 then 0 else a4) ^ (if b & 0x20 == 0 then 0 else a5)
    ^ (if b & 0x40 == 0 then 0 else a6) ^ (if b & 0x80 == 0 then 0 else a7)
  }

  /** y is the multiplicative inverse of x, where 0 counts as its own. */
  predicate IsInverse(x: octet, y: octet) {
    if x == 0 then y == 0 else Times(x, y) == 1
  }

  /** The affine map of section 5.1.1: bit i is b_i + b_(i+4) + b_(i+5) + b_(i+6) + b_(i+7) + c_i. */
  function Affine(b: octet): octet {
    b ^ ((b << 4) | (b >> 4)) ^ ((b << 3) | (b >> 5)) ^ ((b << 2) | (b >> 6)) ^ ((b << 1) | (b >> 7)) ^ 0x63
  }

  function AffineInverse(b: octet): octet {
    ((b << 1) | (b >> 7)) ^ ((b << 3) | (b >> 5)) ^ ((b << 6) | (b >> 2)) ^ 0x05
  }

  lemma AffineOfInverse(b: octet)
    ensures Affine(AffineInverse(b)) == b
  {
  }

  // A byte table is checked a quarter at a time.

  predicate InQuarter(x: octet, q: octet) { x & 0xC0 == q }

  lemma Quarters(x: octet)
    ensures InQuarter(x, 0) || InQuarter(x, 0x40) || InQuarter(x, 0x80) || InQuarter(x, 0xC0)
  {
  }

  lemma InverseQuarter0(x: octet)
    requires InQuarter(x, 0)
    ensures IsInverse(x, AffineInverse(Sbox0(x)))
  {
  }

  lemma InverseQuarter1(x: octet)
    requires InQuarter(x, 0x40)
    ensures IsInverse(x, AffineInverse(Sbox0(x)))
  {
  }

  lemma InverseQuarter2(x: octet)
    requires InQuarter(x, 0x80)
    ensures IsInverse(x, AffineInverse(Sbox0(x)))
  {
  }

  lemma InverseQuarter3(x: octet)
    requires InQuarter(x, 0xC0)
    ensures IsInverse(x, AffineInverse(Sbox0(x)))
  {
  }

  lemma UndoQuarter0(x: octet)
    requires InQuarter(x, 0)
    ensures Sbox1(Sbox0(x)) == x
  {
  }

  lemma UndoQuarter1(x: octet)
    requires InQuarter(x, 0x40)
    ensures Sbox1(Sbox0(x)) == x
  {
  }

  lemma UndoQuarter2(x: octet)
    requires InQuarter(x, 0x80)
    ensures Sbox1(Sbox0(x)) == x
  {
  }

  lemma UndoQuarter3(x: octet)
    requires InQuarter(x, 0xC0)
    ensures Sbox1(Sbox0(x)) == x
  {
  }

  /** sbox0 is the inverse in GF(2^8) followed by the affine map. */
  lemma SboxIsAffineInverse(x: octet) returns (y: octet)
    ensures IsInverse(x, y) && Sbox0(x) == Affine(y)
  {
    hide *;
    y := AffineInverse(Sbox0(x));
    AffineOfInverse(Sbox0(x));
    Quarters(x);
    if InQuarter(x, 0) {
      InverseQuarter0(x);
    } else if InQuarter(x, 0x40) {
      InverseQuarter1(x);
    } else if InQuarter(x, 0x80) {
      InverseQuarter2(x);
    } else {
      InverseQuarter3(x);
    }
  }

  /** sbox1 undoes sbox0. */
  lemma SboxesInvert(x: octet)
    ensures Sbox1(Sbox0(x)) == x
  {
    hide *;
    Quarters(x);
    if InQuarter(x, 0) {
      UndoQuarter0(x);
    } else if InQuarter(x, 0x40) {
      UndoQuarter1(x);
    } else if InQuarter(x, 0x80) {
      UndoQuarter2(x);
    } else {
      UndoQuarter3(x);
    }
  }

  // ---------- Columns and states ----------

  datatype Column = Column(b0: octet, b1: octet, b2: octet, b3: octet)

  datatype State = State(c0: Column, c1: Column, c2: Column, c3: Column)

  function XorColumn(a: Column, b: Column): Column {
    Column(XorOctet(a.b0, b.b0), XorOctet(a.b1, b.b1), XorOctet(a.b2, b.b2), XorOctet(a.b3, b.b3))
  }

  function Sum4(a: octet, b: octet, c: octet, d: octet): octet {
    XorOctet(XorOctet(XorOctet(a, b), c), d)
  }

  function SubColumn(c: Column): Column {
    Column(Sbox0(c.b0), Sbox0(c.b1), Sbox0(c.b2), Sbox0(c.b3))
  }

  function InvSubColumn(c: Column): Column {
    Column(Sbox1(c.b0), Sbox1(c.b1), Sbox1(c.b2), Sbox1(c.b3))
  }

  function MixColumn(c: Column): Column {
    Column(
      Sum4(Times(c.b0, 2), Times(c.b1, 3), c.b2, c.b3),
      Sum4(c.b0, Times(c.b1, 2), Times(c.b2, 3), c.b3),
      Sum4(c.b0, c.b1, Times(c.b2, 2), Times(c.b3, 3)),
      Sum4(Times(c.b0, 3), c.b1, c.b2, Times(c.b3, 2)))
  }

  /** The sum of the column's bytes, each times a factor. */
  function InvRow(c: Column, f: Column): octet {
    Sum4(Times(c.b0, f.b0), Times(c.b1, f.b1), Times(c.b2, f.b2), Times(c.b3, f.b3))
  }

  function InvMixColumn(c: Column): Column {
    Column(InvRow(c, Column(14, 11, 13, 9)), InvRow(c, Column(9, 14, 11, 13)),
           InvRow(c, Column(13, 9, 14, 11)), InvRow(c, Column(11, 13, 9, 14)))
  }

  function AddRoundKey(s: State, k: State): State {
    State(XorColumn(s.c0, k.c0), XorColumn(s.c1, k.c1), XorColumn(s.c2, k.c2), XorColumn(s.c3, k.c3))
  }

  function SubBytes(s: State): State {
    State(SubColumn(s.c0), SubColumn(s.c1), SubColumn(s.c2), SubColumn(s.c3))
  }

  function InvSubBytes(s: State): State {
    State(InvSubColumn(s.c0), InvSubColumn(s.c1), InvSubColumn(s.c2), InvSubColumn(s.c3))
  }

  /** Row r moves r places to the left. */
  function ShiftRows(s: State): State {
    State(
      Column(s.c0.b0, s.c1.b1, s.c2.b2, s.c3.b3),
      Column(s.c1.b0, s.c2.b1, s.c3.b2, s.c0.b3),
      Column(s.c2.b0, s.c3.b1, s.c0.b2, s.c1.b3),
      Column(s.c3.b0, s.c0.b1, s.c1.b2, s.c2.b3))
  }

  function InvShiftRows(s: State): State {
    State(
      Column(s.c0.b0, s.c3.b1, s.c2.b2, s.c1.b3),
      Column(s.c1.b0, s.c0.b1, s.c3.b2, s.c2.b3),
      Column(s.c2.b0, s.c1.b1, s.c0.b2, s.c3.b3),
      Column(s.c3.b0, s.c2.b1, s.c1.b2, s.c0.b3))
  }

  function MixColumns(s: State): State {
    State(MixColumn(s.c0), MixColumn(s.c1), MixColumn(s.c2), MixColumn(s.c3))
  }

  function InvMixColumns(s: State): State {
    State(InvMixColumn(s.c0), InvMixColumn(s.c1), InvMixColumn(s.c2), InvMixColumn(s.c3))
  }

  /** The bytes of a block fill the state column by column. */
  function StateOf(b: seq<octet>): State
    requires |b| == 16
  {
    State(Column(b[0], b[1], b[2], b[3]), Column(b[4], b[5], b[6], b[7]),
          Column(b[8], b[9], b[10], b[11]), Column(b[12], b[13], b[14], b[15]))
  }

  function ColumnBytes(c: Column): (b: seq<octet>)
    ensures |b| == 4
  {
    [c.b0, c.b1, c.b2, c.b3]
  }

  function StateBytes(s: State): (b: seq<octet>)
    ensures |b| == 16
  {
    ColumnBytes(s.c0) + ColumnBytes(s.c1) + ColumnBytes(s.c2) + ColumnBytes(s.c3)
  }

  lemma StateBytesRoundTrip(s: State, b: seq<octet>)
    requires |b| == 16
    ensures StateOf(StateBytes(s)) == s && StateBytes(StateOf(b)) == b
  {
  }

  // ---------- The key schedule and the cipher, section 5 ----------

  predicate IsKey(key: seq<octet>) { |key| == 16 || |key| == 24 || |key| == 32 }

  type aesKey = key: seq<octet> | IsKey(key) witness seq(16, i => 0)

  function RotColumn(c: Column): Column { Column(c.b1, c.b2, c.b3, c.b0) }

  /** x^n in GF(2^8). */
  function XPower(n: nat): octet {
    if n == 0 then 1 else Xtime(XPower(n - 1))
  }

  /** What word i adds to word i - Nk. */
  function KeyCore(nk: nat, i: nat, previous: Column): Column
    requires nk > 0 && i >= nk
  {
    if i % nk == 0 then XorColumn(SubColumn(RotColumn(previous)), Column(XPower(i / nk - 1), 0, 0, 0))
    else if nk > 6 && i % nk == 4 then SubColumn(previous)
    else previous
  }

  /** Word i of the expanded key. */
  function KeyWord(key: aesKey, i: nat): Column {
    var nk := |key| / 4;
    if i < nk then Column(key[4 * i], key[4 * i + 1], key[4 * i + 2], key[4 * i + 3])
    else XorColumn(KeyWord(key, i - nk), KeyCore(nk, i, KeyWord(key, i - 1)))
  }

  function RoundKey(key: aesKey, r: nat): State {
    State(KeyWord(key, 4 * r), KeyWord(key, 4 * r + 1), KeyWord(key, 4 * r + 2), KeyWord(key, 4 * r + 3))
  }

  /** Nr: 10, 12 or 14. */
  function Rounds(key: aesKey): nat { |key| / 4 + 6 }

  function ShiftSub(s: State): State { ShiftRows(SubBytes(s)) }

  function InvShiftSub(s: State): State { InvSubBytes(InvShiftRows(s)) }

  /** The state after r whole rounds. */
  function AfterRounds(key: aesKey, s: State, r: nat): State {
    if r == 0 then AddRoundKey(s, RoundKey(key, 0))
    else AddRoundKey(MixColumns(ShiftSub(AfterRounds(key, s, r - 1))), RoundKey(key, r))
  }

  function Cipher(key: aesKey, s: State): State {
    AddRoundKey(ShiftSub(AfterRounds(key, s, Rounds(key) - 1)), RoundKey(key, Rounds(key)))
  }

  /** The state after r whole rounds of the inverse cipher of section 5.3. */
  function AfterInvRounds(key: aesKey, s: State, r: nat): State
    requires r <= Rounds(key)
  {
    if r == 0 then AddRoundKey(s, RoundKey(key, Rounds(key)))
    else InvMixColumns(AddRoundKey(InvShiftSub(AfterInvRounds(key, s, r - 1)), RoundKey(key, Rounds(key) - r)))
  }

  function InvCipher(key: aesKey, s: State): State {
    AddRoundKey(InvShiftSub(AfterInvRounds(key, s, Rounds(key) - 1)), RoundKey(key, 0))
  }

  // ---------- Every step has its inverse ----------

  lemma XorColumnBack(a: Column, k: Column)
    ensures XorColumn(XorColumn(a, k), k) == a
  {
    hide XorOctet;
    XorOctetTwice(a.b0, k.b0);
    XorOctetTwice(a.b1, k.b1);
    XorOctetTwice(a.b2, k.b2);
    XorOctetTwice(a.b3, k.b3);
  }

  lemma AddRoundKeyBack(s: State, k: State)
    ensures AddRoundKey(AddRoundKey(s, k), k) == s
  {
    hide XorColumn;
    XorColumnBack(s.c0, k.c0);
    XorColumnBack(s.c1, k.c1);
    XorColumnBack(s.c2, k.c2);
    XorColumnBack(s.c3, k.c3);
  }

  lemma SubColumnBack(c: Column)
    ensures InvSubColumn(SubColumn(c)) == c
  {
    hide Sbox0, Sbox1;
    SboxesInvert(c.b0);
    SboxesInvert(c.b1);
    SboxesInvert(c.b2);
    SboxesInvert(c.b3);
  }

  lemma ShiftSubBack(s: State)
    ensures InvShiftSub(ShiftSub(s)) == s
  {
    hide SubColumn, InvSubColumn;
    assert InvShiftRows(ShiftRows(SubBytes(s))) == SubBytes(s) by {
      hide SubBytes;
    }
    SubColumnBack(s.c0);
    SubColumnBack(s.c1);
    SubColumnBack(s.c2);
    SubColumnBack(s.c3);
  }

  // MixColumn and InvMixColumn are linear, so they need comparing on single bytes only.

  lemma XorSwap(a: octet, b: octet, c: octet, d: octet)
    ensures XorOctet(XorOctet(a, b), XorOctet(c, d)) == XorOctet(XorOctet(a, c), XorOctet(b, d))
  {
    hide XorOctet;
    XorOctetAssoc(a, b, XorOctet(c, d));
    XorOctetAssoc(b, c, d);
    XorOctetComm(b, c);
    XorOctetAssoc(c, b, d);
    XorOctetAssoc(a, c, XorOctet(b, d));
  }

  function Shifted(a: octet): octet { a << 1 }

  function Carry(a: octet): octet { if a & 0x80 == 0 then 0 else 0x1b }

  lemma XtimeParts(a: octet)
    ensures Xtime(a) == XorOctet(Shifted(a), Carry(a))
  {
  }

  lemma ShiftedLinear(a: octet, b: octet)
    ensures Shifted(XorOctet(a, b)) == XorOctet(Shifted(a), Shifted(b))
  {
  }

  lemma CarryLinear(a: octet, b: octet)
    ensures Carry(XorOctet(a, b)) == XorOctet(Carry(a), Carry(b))
  {
  }

  lemma XtimeLinear(a: octet, b: octet)
    ensures Xtime(XorOctet(a, b)) == XorOctet(Xtime(a), Xtime(b))
  {
    hide *;
    XtimeParts(a);
    XtimeParts(b);
    XtimeParts(XorOctet(a, b));
    ShiftedLinear(a, b);
    CarryLinear(a, b);
    XorSwap(Shifted(a), Shifted(b), Carry(a), Carry(b));
  }

  function Xtime2(a: octet): octet { Xtime(Xtime(a)) }

  function Xtime3(a: octet): octet { Xtime(Xtime2(a)) }

  lemma TimesTwoThree(a: octet)
    ensures Times(a, 2) == Xtime(a)
    ensures Times(a, 3) == XorOctet(a, Xtime(a))
  {
  }

  lemma TimesNineEleven(a: octet)
    ensures Times(a, 9) == XorOctet(a, Xtime3(a))
    ensures Times(a, 11) == XorOctet(XorOctet(a, Xtime(a)), Xtime3(a))
  {
  }

  lemma TimesThirteenFourteen(a: octet)
    ensures Times(a, 13) == XorOctet(XorOctet(a, Xtime2(a)), Xtime3(a))
    ensures Times(a, 14) == XorOctet(XorOctet(Xtime(a), Xtime2(a)), Xtime3(a))
  {
  }

  lemma SmallTimes(a: octet)
    ensures Times(a, 2) == Xtime(a)
    ensures Times(a, 3) == XorOctet(a, Xtime(a))
    ensures Times(a, 9) == XorOctet(a, Xtime3(a))
    ensures Times(a, 11) == XorOctet(XorOctet(a, Xtime(a)), Xtime3(a))
    ensures Times(a, 13) == XorOctet(XorOctet(a, Xtime2(a)), Xtime3(a))
    ensures Times(a, 14) == XorOctet(XorOctet(Xtime(a), Xtime2(a)), Xtime3(a))
  {
    hide *;
    TimesTwoThree(a);
    TimesNineEleven(a);
    TimesThirteenFourteen(a);
  }

  lemma XtimesLinear(a: octet, b: octet)
    ensures Xtime(XorOctet(a, b)) == XorOctet(Xtime(a), Xtime(b))
    ensures Xtime2(XorOctet(a, b)) == XorOctet(Xtime2(a), Xtime2(b))
    ensures Xtime3(XorOctet(a, b)) == XorOctet(Xtime3(a), Xtime3(b))
  {
    hide Xtime, XorOctet;
    XtimeLinear(a, b);
    XtimeLinear(Xtime(a), Xtime(b));
    XtimeLinear(Xtime2(a), Xtime2(b));
  }

  /** The multiplications that MixColumn and InvMixColumn use. */
  predicate Factor(n: octet) { n == 2 || n == 3 || n == 9 || n == 11 || n == 13 || n == 14 }

  lemma TimesLinear(a: octet, b: octet, n: octet)
    requires Factor(n)
    ensures Times(XorOctet(a, b), n) == XorOctet(Times(a, n), Times(b, n))
  {
    hide Times, XorOctet, Xtime, Xtime2, Xtime3;
    SmallTimes(a);
    SmallTimes(b);
    SmallTimes(XorOctet(a, b));
    XtimesLinear(a, b);
    XorSwap(a, b, Xtime(a), Xtime(b));
    XorSwap(a, b, Xtime2(a), Xtime2(b));
    XorSwap(a, b, Xtime3(a), Xtime3(b));
    XorSwap(XorOctet(a, Xtime(a)), XorOctet(b, Xtime(b)), Xtime3(a), Xtime3(b));
    XorSwap(XorOctet(a, Xtime2(a)), XorOctet(b, Xtime2(b)), Xtime3(a), Xtime3(b));
    XorSwap(Xtime(a), Xtime(b), Xtime2(a), Xtime2(b));
    XorSwap(XorOctet(Xtime(a), Xtime2(a)), XorOctet(Xtime(b), Xtime2(b)), Xtime3(a), Xtime3(b));
  }

  lemma Sum4Linear(a: Column, b: Column)
    ensures Sum4(XorOctet(a.b0, b.b0), XorOctet(a.b1, b.b1), XorOctet(a.b2, b.b2), XorOctet(a.b3, b.b3))
         == XorOctet(Sum4(a.b0, a.b1, a.b2, a.b3), Sum4(b.b0, b.b1, b.b2, b.b3))
  {
    hide XorOctet;
    XorSwap(a.b0, b.b0, a.b1, b.b1);
    XorSwap(XorOctet(a.b0, a.b1), XorOctet(b.b0, b.b1), a.b2, b.b2);
    XorSwap(XorOctet(XorOctet(a.b0, a.b1), a.b2), XorOctet(XorOctet(b.b0, b.b1), b.b2), a.b3, b.b3);
  }

  lemma TwoThreeLinear(a: octet, b: octet)
    ensures Times(XorOctet(a, b), 2) == XorOctet(Times(a, 2), Times(b, 2))
    ensures Times(XorOctet(a, b), 3) == XorOctet(Times(a, 3), Times(b, 3))
  {
    hide Times, XorOctet;
    TimesLinear(a, b, 2);
    TimesLinear(a, b, 3);
  }

  lemma MixColumnLinear(a: Column, b: Column)
    ensures MixColumn(XorColumn(a, b)) == XorColumn(MixColumn(a), MixColumn(b))
  {
    hide Times, XorOctet, Sum4;
    TwoThreeLinear(a.b0, b.b0);
    TwoThreeLinear(a.b1, b.b1);
    TwoThreeLinear(a.b2, b.b2);
    TwoThreeLinear(a.b3, b.b3);
    Sum4Linear(Column(Times(a.b0, 2), Times(a.b1, 3), a.b2, a.b3), Column(Times(b.b0, 2), Times(b.b1, 3), b.b2, b.b3));
    Sum4Linear(Column(a.b0, Times(a.b1, 2), Times(a.b2, 3), a.b3), Column(b.b0, Times(b.b1, 2), Times(b.b2, 3), b.b3));
    Sum4Linear(Column(a.b0, a.b1, Times(a.b2, 2), Times(a.b3, 3)), Column(b.b0, b.b1, Times(b.b2, 2), Times(b.b3, 3)));
    Sum4Linear(Column(Times(a.b0, 3), a.b1, a.b2, Times(a.b3, 2)), Column(Times(b.b0, 3), b.b1, b.b2, Times(b.b3, 2)));
  }

  lemma InvRowLinear(a: Column, b: Column, f: Column)
    requires Factor(f.b0) && Factor(f.b1) && Factor(f.b2) && Factor(f.b3)
    ensures InvRow(XorColumn(a, b), f) == XorOctet(InvRow(a, f), InvRow(b, f))
  {
    hide Times, XorOctet, Sum4, Factor;
    TimesLinear(a.b0, b.b0, f.b0);
    TimesLinear(a.b1, b.b1, f.b1);
    TimesLinear(a.b2, b.b2, f.b2);
    TimesLinear(a.b3, b.b3, f.b3);
    Sum4Linear(Column(Times(a.b0, f.b0), Times(a.b1, f.b1), Times(a.b2, f.b2), Times(a.b3, f.b3)),
               Column(Times(b.b0, f.b0), Times(b.b1, f.b1), Times(b.b2, f.b2), Times(b.b3, f.b3)));
  }

  lemma InvMixColumnLinear(a: Column, b: Column)
    ensures InvMixColumn(XorColumn(a, b)) == XorColumn(InvMixColumn(a), InvMixColumn(b))
  {
    hide InvRow, XorOctet;
    InvRowLinear(a, b, Column(14, 11, 13, 9));
    InvRowLinear(a, b, Column(9, 14, 11, 13));
    InvRowLinear(a, b, Column(13, 9, 14, 11));
    InvRowLinear(a, b, Column(11, 13, 9, 14));
  }

  lemma MixUnitBytes(x: octet)
    ensures MixColumn(Column(x, 0, 0, 0)) == Column(Times(x, 2), x, x, Times(x, 3))
  {
    hide Times, XorOctet;
    TimesZero();
    XorOctetZero(x);
    XorOctetZero(0);
    XorOctetZero(Times(x, 2));
    XorOctetZero(Times(x, 3));
  }

  lemma TimesZero()
    ensures Times(0, 2) == Times(0, 3) == 0
  {
  }

  lemma InvRow0(x: octet)
    ensures Sum4(Times(Times(x, 2), 14), Times(x, 11), Times(x, 13), Times(Times(x, 3), 9)) == x
  {
  }

  lemma InvRow1(x: octet)
    ensures Sum4(Times(Times(x, 2), 9), Times(x, 14), Times(x, 11), Times(Times(x, 3), 13)) == 0
  {
  }

  lemma InvRow2(x: octet)
    ensures Sum4(Times(Times(x, 2), 13), Times(x, 9), Times(x, 14), Times(Times(x, 3), 11)) == 0
  {
  }

  lemma InvRow3(x: octet)
    ensures Sum4(Times(Times(x, 2), 11), Times(x, 13), Times(x, 9), Times(Times(x, 3), 14)) == 0
  {
  }

  lemma MixUnitBack(x: octet)
    ensures InvMixColumn(MixColumn(Column(x, 0, 0, 0))) == Column(x, 0, 0, 0)
  {
    hide Times, Sum4, MixColumn;
    MixUnitBytes(x);
    InvRow0(x);
    InvRow1(x);
    InvRow2(x);
    InvRow3(x);
  }

  // Both matrices are circulant: rotating the column rotates the product.

  lemma Sum4Rotated(a: octet, b: octet, c: octet, d: octet)
    ensures Sum4(b, c, d, a) == Sum4(a, b, c, d)
  {
    hide XorOctet;
    XorOctetComm(XorOctet(XorOctet(b, c), d), a);
    XorOctetAssoc(a, XorOctet(b, c), d);
    XorOctetAssoc(a, b, c);
  }

  lemma MixColumnRotated(c: Column)
    ensures MixColumn(RotColumn(c)) == RotColumn(MixColumn(c))
  {
    hide Times, Sum4;
    Sum4Rotated(c.b0, Times(c.b1, 2), Times(c.b2, 3), c.b3);
    Sum4Rotated(c.b0, c.b1, Times(c.b2, 2), Times(c.b3, 3));
    Sum4Rotated(Times(c.b0, 3), c.b1, c.b2, Times(c.b3, 2));
    Sum4Rotated(Times(c.b0, 2), Times(c.b1, 3), c.b2, c.b3);
  }

  lemma InvMixColumnRotated(c: Column)
    ensures InvMixColumn(RotColumn(c)) == RotColumn(InvMixColumn(c))
  {
    hide Times, Sum4;
    Sum4Rotated(Times(c.b0, 14), Times(c.b1, 11), Times(c.b2, 13), Times(c.b3, 9));
    Sum4Rotated(Times(c.b0, 9), Times(c.b1, 14), Times(c.b2, 11), Times(c.b3, 13));
    Sum4Rotated(Times(c.b0, 13), Times(c.b1, 9), Times(c.b2, 14), Times(c.b3, 11));
    Sum4Rotated(Times(c.b0, 11), Times(c.b1, 13), Times(c.b2, 9), Times(c.b3, 14));
  }

  lemma MixRotatedBack(c: Column)
    requires InvMixColumn(MixColumn(c)) == c
    ensures InvMixColumn(MixColumn(RotColumn(c))) == RotColumn(c)
  {
    hide *;
    MixColumnRotated(c);
    InvMixColumnRotated(MixColumn(c));
  }

  lemma MixUnitsBack(x: octet)
    ensures InvMixColumn(MixColumn(Column(x, 0, 0, 0))) == Column(x, 0, 0, 0)
    ensures InvMixColumn(MixColumn(Column(0, x, 0, 0))) == Column(0, x, 0, 0)
    ensures InvMixColumn(MixColumn(Column(0, 0, x, 0))) == Column(0, 0, x, 0)
    ensures InvMixColumn(MixColumn(Column(0, 0, 0, x))) == Column(0, 0, 0, x)
  {
    hide InvMixColumn, MixColumn;
    MixUnitBack(x);
    MixRotatedBack(Column(x, 0, 0, 0));
    MixRotatedBack(Column(0, 0, 0, x));
    MixRotatedBack(Column(0, 0, x, 0));
  }

  lemma MixOfSum(a: Column, b: Column)
    requires InvMixColumn(MixColumn(a)) == a && InvMixColumn(MixColumn(b)) == b
    ensures InvMixColumn(MixColumn(XorColumn(a, b))) == XorColumn(a, b)
  {
    hide *;
    MixColumnLinear(a, b);
    InvMixColumnLinear(MixColumn(a), MixColumn(b));
  }

  lemma SumOfUnits(c: Column)
    ensures c == XorColumn(XorColumn(Column(c.b0, 0, 0, 0), Column(0, c.b1, 0, 0)),
                           XorColumn(Column(0, 0, c.b2, 0), Column(0, 0, 0, c.b3)))
  {
    hide XorOctet;
    XorOctetZero(c.b0);
    XorOctetZero(c.b1);
    XorOctetZero(c.b2);
    XorOctetZero(c.b3);
    XorOctetZero(0);
  }

  lemma MixColumnBack(c: Column)
    ensures InvMixColumn(MixColumn(c)) == c
  {
    hide *;
    var a, b := Column(c.b0, 0, 0, 0), Column(0, c.b1, 0, 0);
    var d, e := Column(0, 0, c.b2, 0), Column(0, 0, 0, c.b3);
    MixUnitsBack(c.b0);
    MixUnitsBack(c.b1);
    MixUnitsBack(c.b2);
    MixUnitsBack(c.b3);
    MixOfSum(a, b);
    MixOfSum(d, e);
    MixOfSum(XorColumn(a, b), XorColumn(d, e));
    SumOfUnits(c);
  }

  lemma MixColumnsBack(s: State)
    ensures InvMixColumns(MixColumns(s)) == s
  {
    hide MixColumn, InvMixColumn;
    MixColumnBack(s.c0);
    MixColumnBack(s.c1);
    MixColumnBack(s.c2);
    MixColumnBack(s.c3);
  }

  /** Each round of the inverse cipher takes back one round of the cipher. */
  lemma {:induction false} RoundsBack(key: aesKey, s: State, n: nat)
    requires n < Rounds(key)
    ensures AfterInvRounds(key, Cipher(key, s), n) == ShiftSub(AfterRounds(key, s, Rounds(key) - 1 - n))
  {
    hide AddRoundKey, ShiftSub, InvShiftSub, MixColumns, InvMixColumns, RoundKey, Rounds;
    var last := Rounds(key) - 1 - n;
    if n == 0 {
      AddRoundKeyBack(ShiftSub(AfterRounds(key, s, last)), RoundKey(key, Rounds(key)));
    } else {
      RoundsBack(key, s, n - 1);
      var mixed := MixColumns(ShiftSub(AfterRounds(key, s, last)));
      assert AfterRounds(key, s, last + 1) == AddRoundKey(mixed, RoundKey(key, last + 1));
      ShiftSubBack(AfterRounds(key, s, last + 1));
      AddRoundKeyBack(mixed, RoundKey(key, last + 1));
      MixColumnsBack(ShiftSub(AfterRounds(key, s, last)));
    }
  }

  /** The inverse cipher undoes the cipher, for every key and block. */
  lemma InvCipherUndoesCipher(key: aesKey, s: State)
    ensures InvCipher(key, Cipher(key, s)) == s
  {
    hide AddRoundKey, ShiftSub, InvShiftSub, Cipher, AfterInvRounds, RoundKey;
    RoundsBack(key, s, Rounds(key) - 1);
    ShiftSubBack(AfterRounds(key, s, 0));
    AddRoundKeyBack(s, RoundKey(key, 0));
  }
}
