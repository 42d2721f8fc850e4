/** The field GF(2^128) on bit strings, as section 6.3 of NIST SP 800-38D multiplies in it. */
module Gf128 {
  import opened BitStrings

  type block = b: bits | |b| == 128 witness Zeros(128)

  /** 11100001 followed by 120 zeros. */
  function R(): block {
    [true, true, true, false, false, false, false, true] + Zeros(120)
  }

  /** One step of V: a right shift, reduced by R when the last bit falls out. */
  function Double(v: block): block {
    var shifted := [false] + v[..127];
    if v[127] then Xor(shifted, R()) else shifted
  }

  /** The loop over Z_i and V_i, one bit of X at a time. */
  function MulLoop(x: bits, z: block, v: block): block {
    if x == [] then z else MulLoop(x[1..], if x[0] then Xor(z, v) else z, Double(v))
  }

  /** The product X . Y. */
  function Mul(x: block, y: block): block {
    MulLoop(x, Zeros(128), y)
  }

  /** The polynomial with coefficients `x` (lowest degree first), times v. */
  function Product(x: bits, v: block): block {
    if x == [] then Zeros(128) else Xor(if x[0] then v else Zeros(128), Product(x[1..], Double(v)))
  }

  lemma XorAssoc(a: block, b: block, c: block)
    ensures Xor(Xor(a, b), c) == Xor(a, Xor(b, c))
  {
  }

  lemma XorComm(a: block, b: block)
    ensures Xor(a, b) == Xor(b, a)
  {
  }

  lemma XorZero(a: block)
    ensures Xor(a, Zeros(128)) == a == Xor(Zeros(128), a)
  {
  }

  lemma {:induction false} MulLoopIsProduct(x: bits, z: block, v: block)
    ensures MulLoop(x, z, v) == Xor(z, Product(x, v))
  {
    hide Xor, Double, Zeros;
    if x == [] {
      XorZero(z);
    } else {
      var first := if x[0] then v else Zeros(128);
      XorZero(z);
      MulLoopIsProduct(x[1..], Xor(z, first), Double(v));
      XorAssoc(z, first, Product(x[1..], Double(v)));
    }
  }

  lemma MulIsProduct(x: block, y: block)
    ensures Mul(x, y) == Product(x, y)
  {
    MulLoopIsProduct(x, Zeros(128), y);
    XorZero(Product(x, y));
  }

  lemma DoubleAt(v: block, k: nat)
    requires k < 128
    ensures Double(v)[k] == ((k > 0 && v[k - 1]) != (v[127] && R()[k]))
  {
    hide R, Xor;
    var shifted := [false] + v[..127];
    if v[127] {
      assert Double(v) == Xor(shifted, R());
    }
  }

  lemma DoubleIsLinear(a: block, b: block)
    ensures Double(Xor(a, b)) == Xor(Double(a), Double(b))
  {
    hide Double, R;
    forall k: nat | k < 128
      ensures Double(Xor(a, b))[k] == Xor(Double(a), Double(b))[k]
    {
      DoubleAt(a, k);
      DoubleAt(b, k);
      DoubleAt(Xor(a, b), k);
    }
  }

  lemma DoubleOfZero()
    ensures Double(Zeros(128)) == Zeros(128)
  {
  }

  lemma {:induction false} ProductOfDouble(x: bits, v: block)
    ensures Product(x, Double(v)) == Double(Product(x, v))
  {
    hide Xor, Double, Zeros;
    DoubleOfZero();
    if x != [] {
      ProductOfDouble(x[1..], Double(v));
      DoubleIsLinear(if x[0] then v else Zeros(128), Product(x[1..], Double(v)));
    }
  }

  function DoubleTimes(v: block, n: nat): block
    decreases n
  {
    if n == 0 then v else DoubleTimes(Double(v), n - 1)
  }

  lemma {:induction false} ProductConcat(x: bits, y: bits, v: block)
    ensures Product(x + y, v) == Xor(Product(x, v), Product(y, DoubleTimes(v, |x|)))
  {
    hide Xor, Double, Zeros;
    if x == [] {
      assert x + y == y;
      XorZero(Product(y, v));
    } else {
      assert (x + y)[1..] == x[1..] + y;
      ProductConcat(x[1..], y, Double(v));
      XorAssoc(if x[0] then v else Zeros(128), Product(x[1..], Double(v)), Product(y, DoubleTimes(v, |x|)));
    }
  }

  lemma {:induction false} ProductOfDoubleTimes(x: bits, v: block, n: nat)
    ensures Product(x, DoubleTimes(v, n)) == DoubleTimes(Product(x, v), n)
    decreases n
  {
    hide Double, Product;
    if n > 0 {
      ProductOfDouble(x, v);
      ProductOfDoubleTimes(x, Double(v), n - 1);
    }
  }

  /** Horner's rule: prepending coefficients multiplies what was there. */
  lemma Horner(x: bits, y: bits, v: block)
    ensures Product(x + y, v) == Xor(Product(x, v), DoubleTimes(Product(y, v), |x|))
  {
    ProductConcat(x, y, v);
    ProductOfDoubleTimes(y, v, |x|);
  }

  lemma {:induction false} ProductOfZeros(n: nat, h: block)
    ensures Product(Zeros(n), h) == Zeros(128)
    decreases n
  {
    if n > 0 {
      assert Zeros(n)[1..] == Zeros(n - 1);
      ProductOfZeros(n - 1, Double(h));
    }
  }

  lemma ProductOfFalse(h: block)
    ensures Product([false], h) == Zeros(128)
  {
    assert [false] == Zeros(1);
    ProductOfZeros(1, h);
  }

  lemma ProductOfNothing(h: block)
    ensures Product([], h) == Zeros(128)
  {
  }
}
