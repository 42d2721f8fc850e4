/** Bit strings, most significant bit first, and the 64-bit words that hold them. */
module BitStrings {
  type bits = seq<bool>

  function Zeros(n: nat): (z: bits)
    ensures |z| == n && forall i :: 0 <= i < n ==> !z[i]
  {
    seq(n, i => false)
  }

  function Xor(a: bits, b: bits): (c: bits)
    requires |a| == |b|
    ensures |c| == |a| && forall i :: 0 <= i < |c| ==> c[i] == (a[i] != b[i])
  {
    seq(|a|, i requires 0 <= i < |a| => a[i] != b[i])
  }

  // Word operations have names so that proofs can `hide` their bit-vector meaning.

  function Half(w: bv64): bv64 { w >> 1 }

  predicate Odd(w: bv64) { w & 1 == 1 }

  function Xor64(a: bv64, b: bv64): bv64 { a ^ b }

  /** The n low bits of w. */
  function Bits(w: bv64, n: nat): (b: bits)
    ensures |b| == n
    decreases n
  {
    if n == 0 then [] else Bits(Half(w), n - 1) + [Odd(w)]
  }

  lemma BitsStep(w: bv64, n: nat)
    ensures Bits(w, n + 1) == Bits(Half(w), n) + [Odd(w)]
  {
  }

  lemma XorStepRaw(a: bv64, b: bv64)
    ensures (a ^ b) >> 1 == (a >> 1) ^ (b >> 1)
    ensures (a ^ b) & 1 == 1 <==> (a & 1 == 1) != (b & 1 == 1)
  {
  }

  lemma XorStep(a: bv64, b: bv64)
    ensures Half(Xor64(a, b)) == Xor64(Half(a), Half(b))
    ensures Odd(Xor64(a, b)) <==> Odd(a) != Odd(b)
  {
    XorStepRaw(a, b);
  }

  lemma {:induction false} BitsXor(a: bv64, b: bv64, n: nat)
    ensures Bits(Xor64(a, b), n) == Xor(Bits(a, n), Bits(b, n))
    decreases n
  {
    hide Xor64, Half, Odd;
    if n > 0 {
      XorStep(a, b);
      BitsXor(Half(a), Half(b), n - 1);
    }
  }

  /** Appending four bits at a time. */
  function Shift4(w: bv64): bv64 { w >> 4 }

  function Nibble(w: bv64): bits {
    [w & 8 == 8, w & 4 == 4, w & 2 == 2, w & 1 == 1]
  }

  lemma Shift4Raw(w: bv64)
    ensures (((w >> 1) >> 1) >> 1) >> 1 == w >> 4
    ensures (w >> 1) & 1 == 1 <==> w & 2 == 2
    ensures ((w >> 1) >> 1) & 1 == 1 <==> w & 4 == 4
    ensures (((w >> 1) >> 1) >> 1) & 1 == 1 <==> w & 8 == 8
  {
  }

  lemma Shift4IsHalves(w: bv64)
    ensures Shift4(w) == Half(Half(Half(Half(w))))
    ensures Nibble(w) == [Odd(Half(Half(Half(w)))), Odd(Half(Half(w))), Odd(Half(w)), Odd(w)]
  {
    Shift4Raw(w);
  }

  lemma BitsNibble(w: bv64, n: nat)
    ensures Bits(w, n + 4) == Bits(Shift4(w), n) + Nibble(w)
  {
    hide Half, Odd, Shift4, Nibble;
    Shift4IsHalves(w);
    var w1 := Half(w);
    var w2 := Half(w1);
    var w3 := Half(w2);
    calc {
      Bits(w, n + 4);
      Bits(w1, n + 3) + [Odd(w)];
      Bits(w2, n + 2) + [Odd(w1)] + [Odd(w)];
      Bits(w3, n + 1) + [Odd(w2)] + [Odd(w1)] + [Odd(w)];
    }
  }

  // Words that end in zero nibbles.

  function Shift4Times(w: bv64, k: nat): bv64
    decreases k
  {
    if k == 0 then w else Shift4Times(Shift4(w), k - 1)
  }

  predicate EndsInZeroNibbles(w: bv64, k: nat)
    decreases k
  {
    k == 0 || (Nibble(w) == [false, false, false, false] && EndsInZeroNibbles(Shift4(w), k - 1))
  }

  lemma {:induction false} ZeroNibbles(w: bv64, n: nat, k: nat)
    requires EndsInZeroNibbles(w, k)
    ensures Bits(w, n + 4 * k) == Bits(Shift4Times(w, k), n) + Zeros(4 * k)
    decreases k
  {
    hide Shift4, Nibble, Half, Odd;
    if k > 0 {
      BitsNibble(w, n + 4 * (k - 1));
      ZeroNibbles(Shift4(w), n, k - 1);
    }
  }

  lemma TopByte(b: bv64)
    requires b == 0xe1 || b == 0x80 || b == 0
    ensures Bits(b << 56, 64) == Bits(b, 8) + Zeros(56)
  {
    hide Bits;
    var w := b << 56;
    assert EndsInZeroNibbles(w, 14) && Shift4Times(w, 14) == b by {
      assert EndsInZeroNibbles(w >> 48, 2) && Shift4Times(w >> 48, 2) == b;
      assert EndsInZeroNibbles(w >> 40, 4) && Shift4Times(w >> 40, 4) == b;
      assert EndsInZeroNibbles(w >> 32, 6) && Shift4Times(w >> 32, 6) == b;
      assert EndsInZeroNibbles(w >> 24, 8) && Shift4Times(w >> 24, 8) == b;
      assert EndsInZeroNibbles(w >> 16, 10) && Shift4Times(w >> 16, 10) == b;
      assert EndsInZeroNibbles(w >> 8, 12) && Shift4Times(w >> 8, 12) == b;
    }
    ZeroNibbles(w, 8, 14);
  }

  // Shifting right by one, with a bit coming in at the top.

  function Top(w: bv64, n: nat): bool
    decreases n
  {
    if n == 0 then Odd(w) else Top(Half(w), n - 1)
  }

  lemma {:induction false} TopSplit(w: bv64, n: nat)
    ensures Bits(w, n + 1) == [Top(w, n)] + Bits(w, n)
    decreases n
  {
    hide Half, Odd;
    if n > 0 {
      TopSplit(Half(w), n - 1);
    }
  }

  lemma {:induction false} TopShift4Times(w: bv64, n: nat, k: nat)
    ensures Top(w, n + 4 * k) == Top(Shift4Times(w, k), n)
    decreases k
  {
    hide Half, Odd, Shift4, Nibble;
    if k > 0 {
      Shift4IsHalves(w);
      var m := n + 4 * (k - 1);
      assert Top(w, m + 4) == Top(Half(w), m + 3) == Top(Half(Half(w)), m + 2);
      assert Top(Half(Half(w)), m + 2) == Top(Half(Half(Half(w))), m + 1) == Top(Shift4(w), m);
      TopShift4Times(Shift4(w), n, k - 1);
    }
  }

  lemma TopIsSignBit(w: bv64)
    ensures Top(w, 63) == (w >= 0x8000_0000_0000_0000)
  {
    TopShift4Times(w, 3, 15);
    assert Shift4Times(w, 15) == w >> 60 by {
      assert Shift4Times(w >> 56, 1) == w >> 60;
      assert Shift4Times(w >> 48, 3) == w >> 60;
      assert Shift4Times(w >> 40, 5) == w >> 60;
      assert Shift4Times(w >> 32, 7) == w >> 60;
      assert Shift4Times(w >> 24, 9) == w >> 60;
      assert Shift4Times(w >> 16, 11) == w >> 60;
      assert Shift4Times(w >> 8, 13) == w >> 60;
    }
    assert Top(w >> 60, 3) == (w >= 0x8000_0000_0000_0000);
  }

  lemma TopBit(c: bool)
    ensures Bits(if c then 0x8000_0000_0000_0000 else 0, 64) == [c] + Zeros(63)
  {
    var b: bv64 := if c then 0x80 else 0;
    TopByte(b);
    BitsNibble(b, 4);
    BitsNibble(b >> 4, 0);
    assert Nibble(b) == Zeros(4) && Nibble(b >> 4) == [c, false, false, false];
  }

  function ShiftIn(w: bv64, c: bv64): bv64 {
    (w >> 1) | (c << 63)
  }

  lemma ShiftInRaw(w: bv64, c: bv64)
    ensures w >> 1 < 0x8000_0000_0000_0000
    ensures c & 1 == 0 ==> (w >> 1) | (c << 63) == (w >> 1) ^ 0
    ensures c & 1 == 1 ==> (w >> 1) | (c << 63) == (w >> 1) ^ 0x8000_0000_0000_0000
  {
  }

  lemma ShiftInIsXor(w: bv64, c: bv64)
    ensures ShiftIn(w, c) == Xor64(Half(w), if Odd(c) then 0x8000_0000_0000_0000 else 0)
    ensures !Top(Half(w), 63)
  {
    ShiftInRaw(w, c);
    TopIsSignBit(Half(w));
  }

  lemma XorTop(m: bits, c: bool)
    ensures Xor([false] + m, [c] + Zeros(|m|)) == [c] + m
  {
  }

  lemma ShiftInBits(w: bv64, c: bv64)
    ensures Bits(ShiftIn(w, c), 64) == [Odd(c)] + Bits(w, 64)[..63]
  {
    hide *;
    var m := Bits(Half(w), 63);
    calc {
      Bits(ShiftIn(w, c), 64);
      { ShiftInIsXor(w, c); }
      Bits(Xor64(Half(w), if Odd(c) then 0x8000_0000_0000_0000 else 0), 64);
      { BitsXor(Half(w), if Odd(c) then 0x8000_0000_0000_0000 else 0, 64); }
      Xor(Bits(Half(w), 64), Bits(if Odd(c) then 0x8000_0000_0000_0000 else 0, 64));
      { TopSplit(Half(w), 63); ShiftInIsXor(w, c); TopBit(Odd(c)); }
      Xor([false] + m, [Odd(c)] + Zeros(63));
      { XorTop(m, Odd(c)); }
      [Odd(c)] + m;
      { BitsStep(w, 63); }
      [Odd(c)] + Bits(w, 64)[..63];
    }
  }

  // Bits loses nothing of a word.

  lemma HalfOddRaw(a: bv64, b: bv64)
    requires a >> 1 == b >> 1 && (a & 1 == 1 <==> b & 1 == 1)
    ensures a == b
  {
  }

  lemma HalfOdd(a: bv64, b: bv64)
    requires Half(a) == Half(b) && Odd(a) == Odd(b)
    ensures a == b
  {
    HalfOddRaw(a, b);
  }

  function HalfTimes(w: bv64, n: nat): bv64
    decreases n
  {
    if n == 0 then w else HalfTimes(Half(w), n - 1)
  }

  lemma {:induction false} LowBitsDetermine(a: bv64, b: bv64, n: nat)
    requires Bits(a, n) == Bits(b, n) && HalfTimes(a, n) == HalfTimes(b, n)
    ensures a == b
    decreases n
  {
    hide Half, Odd;
    if n > 0 {
      assert Bits(a, n)[n - 1] == Odd(a) && Bits(b, n)[n - 1] == Odd(b);
      assert Bits(a, n)[..n - 1] == Bits(Half(a), n - 1) && Bits(b, n)[..n - 1] == Bits(Half(b), n - 1);
      LowBitsDetermine(Half(a), Half(b), n - 1);
      HalfOdd(a, b);
    }
  }

  lemma {:induction false} HalfTimesIsShift4Times(w: bv64, k: nat)
    ensures HalfTimes(w, 4 * k) == Shift4Times(w, k)
    decreases k
  {
    hide Half, Odd, Shift4, Nibble;
    if k > 0 {
      Shift4IsHalves(w);
      var m := 4 * (k - 1);
      assert HalfTimes(w, m + 4) == HalfTimes(Half(w), m + 3) == HalfTimes(Half(Half(w)), m + 2);
      assert HalfTimes(Half(Half(w)), m + 2) == HalfTimes(Half(Half(Half(w))), m + 1) == HalfTimes(Shift4(w), m);
      HalfTimesIsShift4Times(Shift4(w), k - 1);
    }
  }

  lemma NothingLeft(w: bv64)
    ensures HalfTimes(w, 64) == 0
  {
    HalfTimesIsShift4Times(w, 16);
    assert Shift4Times(w, 16) == 0 by {
      assert Shift4Times(w >> 60, 1) == 0;
      assert Shift4Times(w >> 52, 3) == 0;
      assert Shift4Times(w >> 44, 5) == 0;
      assert Shift4Times(w >> 36, 7) == 0;
      assert Shift4Times(w >> 28, 9) == 0;
      assert Shift4Times(w >> 20, 11) == 0;
      assert Shift4Times(w >> 12, 13) == 0;
      assert Shift4Times(w >> 4, 15) == 0;
    }
  }

  lemma BitsInjective(a: bv64, b: bv64)
    requires Bits(a, 64) == Bits(b, 64)
    ensures a == b
  {
    hide *;
    NothingLeft(a);
    NothingLeft(b);
    LowBitsDetermine(a, b, 64);
  }

  lemma XorAssocBits(a: bits, b: bits, c: bits)
    requires |a| == |b| == |c|
    ensures Xor(Xor(a, b), c) == Xor(a, Xor(b, c))
  {
  }

  lemma Xor64Assoc(a: bv64, b: bv64, c: bv64)
    ensures Xor64(Xor64(a, b), c) == Xor64(a, Xor64(b, c))
  {
    hide *;
    BitsXor(a, b, 64);
    BitsXor(b, c, 64);
    BitsXor(Xor64(a, b), c, 64);
    BitsXor(a, Xor64(b, c), 64);
    XorAssocBits(Bits(a, 64), Bits(b, 64), Bits(c, 64));
    BitsInjective(Xor64(Xor64(a, b), c), Xor64(a, Xor64(b, c)));
  }
}
