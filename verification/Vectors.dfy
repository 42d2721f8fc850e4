/** The vectors of the TLS presentation language (section 3.4 of RFC 8446) in bytes,
    and the builders and readers in terms of them. */
module Vectors {
  import opened Cryptobyte
  import opened Wrappers

  // ---------- Numbers and vectors ----------

  /** The last w bytes of a number, the most significant first. */
  function Wide(n: nat, w: nat): (b: bytes)
    ensures |b| == w
    decreases w
  {
    if w == 0 then [] else Wide(n / 256, w - 1) + [n % 256]
  }

  /** A vector behind its length in w bytes. */
  function Vec(w: nat, x: bytes): bytes { Wide(|x|, w) + x }

  lemma WideOne(n: nat)
    ensures Wide(n, 1) == [n % 256] == U8(n)
  {
    assert Wide(n / 256, 0) == [];
  }

  lemma WideTwo(n: nat)
    ensures Wide(n, 2) == U16(n)
  {
    WideOne(n / 256);
  }

  lemma WideThree(n: nat)
    ensures Wide(n, 3) == U24(n)
  {
    WideTwo(n / 256);
  }

  lemma WideFour(n: nat)
    ensures Wide(n, 4) == U32(n) == [n / 0x100_0000 % 256, n / 0x1_0000 % 256, n / 256 % 256, n % 256]
  {
    WideTwo(n / 256 / 256);
    assert Wide(n / 256, 3) == Wide(n / 256 / 256, 2) + [n / 256 % 256];
    assert n / 256 / 256 == n / 0x1_0000 && n / 256 / 256 / 256 == n / 0x100_0000;
    LowHalf(n);
    LowHalf(n / 0x1_0000);
  }

  lemma LowHalf(n: nat)
    ensures U16(n % 0x1_0000) == [n / 256 % 256, n % 256]
  {
    var q, m := n / 0x1_0000, n % 0x1_0000;
    HighBytes(256 * q, m);
    HighBytes(q, m / 256);
  }

  lemma WideEight(n: nat)
    ensures Wide(n, 8) == U64(n)
  {
    hide U32;
    var n1 := n / 256;
    var n2 := n1 / 256;
    var n3 := n2 / 256;
    var hi := n3 / 256;
    assert Wide(n1, 7) == Wide(n2, 6) + [n1 % 256];
    assert Wide(n2, 6) == Wide(n3, 5) + [n2 % 256];
    assert Wide(n3, 5) == Wide(hi, 4) + [n3 % 256];
    assert hi == n / 0x1_0000_0000;
    WideFour(hi);
    WideFour(n % 0x1_0000_0000);
    LowBytes(n);
  }

  lemma LowBytes(n: nat)
    ensures var m := n % 0x1_0000_0000;
            && m / 0x100_0000 % 256 == n / 256 / 256 / 256 % 256
            && m / 0x1_0000 % 256 == n / 256 / 256 % 256
            && m / 256 % 256 == n / 256 % 256
            && m % 256 == n % 256
  {
    var q, m := n / 0x1_0000_0000, n % 0x1_0000_0000;
    HighBytes(q * 0x100_0000, m);
    HighBytes(q * 0x1_0000, m / 256);
    HighBytes(q * 256, m / 256 / 256);
    HighBytes(q, m / 256 / 256 / 256);
    assert m / 256 / 256 == m / 0x1_0000 && m / 256 / 256 / 256 == m / 0x100_0000;
  }

  lemma HighBytes(k: nat, m: nat)
    ensures (256 * k + m) / 256 == k + m / 256 && (256 * k + m) % 256 == m % 256
  {
  }

  // ---------- Strings behind their lengths ----------

  lemma In8(s: bytes, x: bytes, rest: bytes)
    ensures ReadPrefix8(s) == Got(x, rest) <==> |x| < 0x100 && s == Vec(1, x) + rest
  {
    hide ReadPrefix8, U8;
    WideOne(|x|);
    if ReadPrefix8(s) == Got(x, rest) {
      ReadPrefix8Inverse(s);
    }
    if |x| < 0x100 {
      Prefix8RoundTrip(x, rest);
    }
  }

  lemma In16(s: bytes, x: bytes, rest: bytes)
    ensures ReadPrefix16(s) == Got(x, rest) <==> |x| < 0x1_0000 && s == Vec(2, x) + rest
  {
    hide ReadPrefix16, U16;
    WideTwo(|x|);
    if ReadPrefix16(s) == Got(x, rest) {
      ReadPrefix16Inverse(s);
    }
    if |x| < 0x1_0000 {
      Prefix16RoundTrip(x, rest);
    }
  }

  lemma Number16(s: bytes, n: nat, rest: bytes)
    ensures ReadU16(s) == Got(n, rest) <==> n < 0x1_0000 && s == Wide(n, 2) + rest
  {
    WideTwo(n);
    if n < 0x1_0000 {
      U16RoundTrip(n, rest);
    }
    if ReadU16(s).Got? {
      ReadU16Inverse(s);
    }
  }

  lemma Number32(s: bytes, n: nat, rest: bytes)
    ensures ReadU32(s) == Got(n, rest) <==> n < 0x1_0000_0000 && s == Wide(n, 4) + rest
  {
    hide Wide, U16, U32;
    WideFour(n);
    if n < 0x1_0000_0000 {
      U32RoundTrip(n, rest);
    }
    if ReadU32(s) == Got(n, rest) {
      ReadU16Inverse(s);
      var hi, mid := ReadU16(s).value, ReadU16(s).rest;
      ReadU16Inverse(mid);
      var lo := ReadU16(mid).value;
      HalvesOf32(hi, lo);
      assert U16(hi) + (U16(lo) + rest) == U16(hi) + U16(lo) + rest;
    }
  }

  lemma HalvesOf32(hi: nat, lo: nat)
    requires hi < 0x1_0000 && lo < 0x1_0000
    ensures U32(hi * 0x1_0000 + lo) == U16(hi) + U16(lo)
  {
    hide U16;
  }

  lemma Number24(s: bytes, n: nat, rest: bytes)
    ensures ReadU24(s) == Got(n, rest) <==> n < 0x100_0000 && s == Wide(n, 3) + rest
  {
    hide Wide;
    WideThree(n);
    if n < 0x100_0000 {
      U24RoundTrip(n, rest);
    }
    if ReadU24(s) == Got(n, rest) {
      assert s == [s[0], s[1], s[2]] + rest;
    }
  }

  lemma In24(s: bytes, x: bytes, rest: bytes)
    ensures ReadPrefix24(s) == Got(x, rest) <==> |x| < 0x100_0000 && s == Vec(3, x) + rest
  {
    hide ReadU24, U24, Wide;
    WideThree(|x|);
    if ReadPrefix24(s) == Got(x, rest) {
      Number24(s, |x|, x + rest);
      assert ReadU24(s).rest == x + rest;
      assert Wide(|x|, 3) + (x + rest) == Vec(3, x) + rest;
    }
    if |x| < 0x100_0000 {
      Prefix24RoundTrip(x, rest);
    }
  }

  lemma Number64(s: bytes, n: nat, rest: bytes)
    ensures ReadU64(s) == Got(n, rest) <==> n < 0x1_0000_0000_0000_0000 && s == Wide(n, 8) + rest
  {
    hide Wide, ReadU32, U32;
    WideEight(n);
    if n < 0x1_0000_0000_0000_0000 {
      U64RoundTrip(n, rest);
    }
    if ReadU64(s) == Got(n, rest) {
      var hi, mid := ReadU32(s).value, ReadU32(s).rest;
      var lo := ReadU32(mid).value;
      Number32(s, hi, mid);
      Number32(mid, lo, rest);
      WideFour(hi);
      WideFour(lo);
      assert n / 0x1_0000_0000 == hi && n % 0x1_0000_0000 == lo;
      assert U32(hi) + (U32(lo) + rest) == U32(hi) + U32(lo) + rest;
    }
  }

  // ---------- Lists ----------

  function Flat<T>(wire: T -> bytes, xs: seq<T>): bytes {
    if xs == [] then [] else wire(xs[0]) + Flat(wire, xs[1..])
  }

  ghost predicate AllGood<T>(good: T -> bool, xs: seq<T>) {
    forall i :: 0 <= i < |xs| ==> good(xs[i])
  }

  /** For the good elements write and read agree that wire is how they look, and read finds no others. */
  ghost predicate Agreed<T(!new)>(write: T -> builder, read: bytes -> Read<T>, wire: T -> bytes, good: T -> bool) {
    && (forall x :: good(x) ==> write(x) == Some(wire(x)) && ReadsBack(write, read, x))
    && (forall s :: WritesBack(write, read, s))
    && (forall s :: read(s).Got? ==> good(read(s).value))
  }

  lemma {:induction false} FlatIsEncoded<T(!new)>(write: T -> builder, wire: T -> bytes, good: T -> bool, xs: seq<T>)
    requires AllGood(good, xs) && forall x :: good(x) ==> write(x) == Some(wire(x))
    ensures EncodeAll(write, xs) == Some(Flat(wire, xs))
    decreases |xs|
  {
    if xs != [] {
      assert good(xs[0]);
      forall i | 0 <= i < |xs[1..]|
        ensures good(xs[1..][i])
      {
        assert xs[1..][i] == xs[i + 1];
      }
      FlatIsEncoded(write, wire, good, xs[1..]);
    }
  }

  /** A list is read from exactly the bytes that it looks like. */
  lemma ListReadIff<T(!new)>(write: T -> builder, read: bytes -> Read<T>, wire: T -> bytes, good: T -> bool, s: bytes, xs: seq<T>)
    requires Agreed(write, read, wire, good)
    ensures DecodeAll(read, s) == Some(xs) <==> AllGood(good, xs) && s == Flat(wire, xs)
  {
    hide DecodeAll, EncodeAll, Flat;
    if DecodeAll(read, s) == Some(xs) {
      ListInverse(write, read, s);
      AllDecoded(read, good, s);
      FlatIsEncoded(write, wire, good, xs);
    }
    if AllGood(good, xs) && s == Flat(wire, xs) {
      FlatIsEncoded(write, wire, good, xs);
      forall i | 0 <= i < |xs|
        ensures ReadsBack(write, read, xs[i])
      {
        assert good(xs[i]);
      }
      ListRoundTrip(write, read, xs);
    }
  }

  lemma FlatNonempty<T(!new)>(write: T -> builder, read: bytes -> Read<T>, wire: T -> bytes, good: T -> bool, xs: seq<T>)
    requires Agreed(write, read, wire, good) && AllGood(good, xs)
    ensures Flat(wire, xs) == [] <==> xs == []
  {
    if xs != [] {
      assert good(xs[0]);
      assert ReadsBack(write, read, xs[0]);
    }
  }
}
