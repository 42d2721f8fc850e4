/** The table-driven GHASH of gcm/ghash.go. */
module Ghash {
  import opened BigEndian
  import opened BitStrings
  import opened Gf128
  import opened FieldElements

  /** The order of the four bits of i, reversed. */
  function ReverseBits(i: nat): (r: nat)
    requires i < 16
    ensures r < 16
  {
    var b := i as bv8;
    var swapped := ((b << 2) & 0xc) | ((b >> 2) & 0x3);
    (((swapped << 1) & 0xa) | ((swapped >> 1) & 0x5)) as nat
  }

  lemma ReverseBitsValue(i: nat)
    requires i < 16
    ensures ReverseBits(i) == i % 2 * 8 + i / 2 % 2 * 4 + i / 4 % 2 * 2 + i / 8
  {
  }

  /** The polynomial of degree at most 3 whose coefficients are the bits of i. */
  function Poly(i: nat): bits {
    [i % 2 == 1, i / 2 % 2 == 1, i / 4 % 2 == 1, i / 8 % 2 == 1]
  }

  ghost predicate IsMultiple(e: FieldElement, i: nat, h: block) {
    Value(e) == Product(Poly(i), h)
  }

  lemma ZeroTimes(h: block)
    ensures IsMultiple(FieldElement(0, 0), 0, h)
  {
    hide Product, Bits;
    ZeroElement();
    ProductOfZeros(4, h);
    assert Poly(0) == Zeros(4);
  }

  lemma OneTimes(x: FieldElement)
    ensures IsMultiple(x, 1, Value(x))
  {
    hide Double, Xor, Bits;
    var h := Value(x);
    assert Poly(1) == [true] + Zeros(3);
    ProductOfZeros(3, Double(h));
    XorZero(h);
  }

  lemma TwiceTimes(e: FieldElement, i: nat, h: block)
    requires i < 8 && IsMultiple(e, i, h)
    ensures IsMultiple(GhashDouble(e), 2 * i, h)
  {
    hide Double, Xor, Bits, GhashDouble, Zeros;
    GhashDoubleIsDouble(e);
    var p := Poly(i)[..3];
    assert Poly(2 * i) == [false] + p && Poly(i) == p + [false];
    calc {
      Product([false] + p, h);
      { XorZero(Product(p, Double(h))); }
      Product(p, Double(h));
      { ProductOfDouble(p, h); }
      Double(Product(p, h));
    }
    ProductConcat(p, [false], h);
    ProductOfFalse(DoubleTimes(h, 3));
    XorZero(Product(p, h));
  }

  lemma OneMoreTime(e: FieldElement, x: FieldElement, i: nat)
    requires i < 16 && i % 2 == 0 && IsMultiple(e, i, Value(x))
    ensures IsMultiple(GhashAdd(e, x), i + 1, Value(x))
  {
    hide Double, Xor, Bits, GhashAdd, Zeros;
    var h := Value(x);
    GhashAddIsXor(e, x);
    var p := Poly(i)[1..];
    assert Poly(i) == [false] + p && Poly(i + 1) == [true] + p;
    XorZero(Product(p, Double(h)));
    XorComm(Product(p, Double(h)), h);
  }

  lemma ReverseBitsTable()
    ensures ReverseBits(0) == 0 && ReverseBits(1) == 8 && ReverseBits(2) == 4 && ReverseBits(3) == 12
    ensures ReverseBits(4) == 2 && ReverseBits(5) == 10 && ReverseBits(6) == 6 && ReverseBits(7) == 14
    ensures ReverseBits(8) == 1 && ReverseBits(9) == 9 && ReverseBits(10) == 5 && ReverseBits(11) == 13
    ensures ReverseBits(12) == 3 && ReverseBits(13) == 11 && ReverseBits(14) == 7 && ReverseBits(15) == 15
  {
  }

  lemma ReverseBitsTwice(i: nat)
    requires i < 16
    ensures ReverseBits(ReverseBits(i)) == i
  {
    hide ReverseBits;
    ReverseBitsTable();
  }

  ghost predicate FilledBelow(table: seq<FieldElement>, n: nat, h: block) {
    |table| == 16 && forall k: nat :: k < n && k < 16 ==> IsMultiple(table[ReverseBits(k)], k, h)
  }

  lemma FillEntry(table: seq<FieldElement>, n: nat, e: FieldElement, h: block)
    requires n < 16 && FilledBelow(table, n, h) && IsMultiple(e, n, h)
    ensures FilledBelow(table[ReverseBits(n) := e], n + 1, h)
  {
    hide ReverseBits, IsMultiple;
    forall k: nat | k < n
      ensures ReverseBits(k) != ReverseBits(n)
    {
      ReverseBitsTwice(k);
      ReverseBitsTwice(n);
    }
  }

  ghost predicate IsProductTable(table: seq<FieldElement>, h: block) {
    FilledBelow(table, 16, h)
  }

  /** Builds the sixteen multiples of H that the multiplication looks up. */
  method BuildProductTable(x: FieldElement) returns (table: array<FieldElement>)
    ensures fresh(table) && IsProductTable(table[..], Value(x))
  {
    hide ReverseBits, IsMultiple, GhashDouble, GhashAdd, FilledBelow, Value;
    ghost var h := Value(x);
    table := new FieldElement[16](_ => FieldElement(0, 0));
    FirstEntries(table[..], x);
    table[ReverseBits(1)] := x;
    var i := 2;
    while i < 16
      invariant 2 <= i <= 16 && i % 2 == 0
      invariant FilledBelow(table[..], i, h)
    {
      EntryOf(table[..], i, i / 2, h);
      TwiceTimes(table[ReverseBits(i / 2)], i / 2, h);
      FillEntry(table[..], i, GhashDouble(table[ReverseBits(i / 2)]), h);
      table[ReverseBits(i)] := GhashDouble(table[ReverseBits(i / 2)]);
      EntryOf(table[..], i + 1, i, h);
      OneMoreTime(table[ReverseBits(i)], x, i);
      FillEntry(table[..], i + 1, GhashAdd(table[ReverseBits(i)], x), h);
      table[ReverseBits(i + 1)] := GhashAdd(table[ReverseBits(i)], x);
      i := i + 2;
    }
  }

  lemma FirstEntries(table: seq<FieldElement>, x: FieldElement)
    requires |table| == 16 && forall k :: 0 <= k < 16 ==> table[k] == FieldElement(0, 0)
    ensures FilledBelow(table[ReverseBits(1) := x], 2, Value(x))
  {
    hide ReverseBits, IsMultiple, Value;
    ReverseBitsTable();
    ZeroTimes(Value(x));
    OneTimes(x);
    assert FilledBelow(table, 1, Value(x));
    FillEntry(table, 1, x, Value(x));
  }

  lemma EntryOf(table: seq<FieldElement>, n: nat, k: nat, h: block)
    requires k < n <= 16 && FilledBelow(table, n, h)
    ensures |table| == 16 && IsMultiple(table[ReverseBits(k)], k, h)
  {
    hide ReverseBits, IsMultiple;
  }

  /** What one nibble of the multiplier looks up is that nibble, as a polynomial, times H. */
  lemma LookUp(table: seq<FieldElement>, word: bv64, h: block)
    requires IsProductTable(table, h)
    ensures |table| == 16 && Value(table[LowNibble(word)]) == Product(Nibble(word), h)
  {
    hide ReverseBits, Value, Product, LowNibble, Nibble, FilledBelow;
    var n := LowNibble(word);
    var i := ReverseBits(n);
    EntryOf(table, 16, i, h);
    ReverseBitsTwice(n);
    ReverseBitsValue(n);
    NibbleMatches(word);
    assert Poly(i) == Nibble(word) by {
      hide *;
      PolyOfReversed(n, i);
    }
  }

  lemma PolyOfReversed(n: nat, i: nat)
    requires n < 16 && i == n % 2 * 8 + n / 2 % 2 * 4 + n / 4 % 2 * 2 + n / 8
    ensures Poly(i) == [n / 8 % 2 == 1, n / 4 % 2 == 1, n / 2 % 2 == 1, n % 2 == 1]
  {
  }

  lemma MulBy16IsDoubleTimes(z: FieldElement)
    ensures Value(MulBy16(z)) == DoubleTimes(Value(z), 4)
  {
    hide Value, MulBy16, Double, GhashDouble;
    MulBy16IsFourDoubles(z);
    var z1 := GhashDouble(z);
    var z2 := GhashDouble(z1);
    GhashDoubleIsDouble(z);
    GhashDoubleIsDouble(z1);
    GhashDoubleIsDouble(z2);
    GhashDoubleIsDouble(GhashDouble(z2));
    var v := Value(z);
    assert DoubleTimes(v, 4) == DoubleTimes(Double(v), 3) == DoubleTimes(Double(Double(v)), 2);
  }

  /** One pass of the inner loop is one step of Horner's rule. */
  lemma MulStep(table: seq<FieldElement>, z: FieldElement, word: bv64, done: bits, h: block)
    requires IsProductTable(table, h) && Value(z) == Product(done, h)
    ensures |table| == 16
    ensures Value(GhashAdd(MulBy16(z), table[LowNibble(word)])) == Product(Nibble(word) + done, h)
  {
    LookUp(table, word, h);
    hide *;
    var t := table[LowNibble(word)];
    calc {
      Value(GhashAdd(MulBy16(z), t));
      { GhashAddIsXor(MulBy16(z), t); }
      Xor(Value(MulBy16(z)), Value(t));
      { MulBy16IsDoubleTimes(z); }
      Xor(DoubleTimes(Product(done, h), 4), Product(Nibble(word), h));
      { XorComm(DoubleTimes(Product(done, h), 4), Product(Nibble(word), h)); }
      Xor(Product(Nibble(word), h), DoubleTimes(Product(done, h), 4));
      { NibbleLength(word); Horner(Nibble(word), done, h); }
      Product(Nibble(word) + done, h);
    }
  }

  lemma NibbleLength(word: bv64)
    ensures |Nibble(word)| == 4
  {
  }

  lemma TakeNibble(word: bv64, n: nat, suffix: bits, whole: bv64)
    requires Bits(word, n + 4) + suffix == Bits(whole, 64)
    ensures Bits(Shift4(word), n) + (Nibble(word) + suffix) == Bits(whole, 64)
  {
    hide *;
    BitsNibble(word, n);
    ConcatAssoc(Bits(Shift4(word), n), Nibble(word), suffix);
  }

  lemma ConcatAssoc(a: bits, b: bits, c: bits)
    ensures a + (b + c) == a + b + c
  {
  }

  lemma TableLength(table: seq<FieldElement>, h: block)
    requires IsProductTable(table, h)
    ensures |table| == 16
  {
  }

  /** y times H, a nibble at a time from the highest coefficient down. */
  method GhashMul(table: array<FieldElement>, y: FieldElement, ghost h: block) returns (z: FieldElement)
    requires IsProductTable(table[..], h)
    ensures Value(z) == Mul(Value(y), h)
  {
    hide *;
    z := FieldElement(0, 0);
    ghost var done: bits := [];
    ZeroElement();
    ProductOfNothing(h);
    TableLength(table[..], h);
    for i := 0 to 2
      invariant Value(z) == Product(done, h)
      invariant done == if i == 0 then [] else if i == 1 then Bits(y.high, 64) else Bits(y.low, 64) + Bits(y.high, 64)
    {
      var word := y.high;
      if i == 1 {
        word := y.low;
      }
      ghost var whole, before, suffix: bits := word, done, [];
      var j := 0;
      while j < 64
        invariant 0 <= j <= 64 && j % 4 == 0
        invariant done == suffix + before
        invariant Bits(word, 64 - j) + suffix == Bits(whole, 64)
        invariant Value(z) == Product(done, h)
      {
        MulStep(table[..], z, word, done, h);
        TakeNibble(word, 60 - j, suffix, whole);
        ConcatAssoc(Nibble(word), suffix, before);
        suffix := Nibble(word) + suffix;
        done := Nibble(word) + done;
        z := MulBy16(z);
        var t := table[LowNibble(word)];
        z := GhashAdd(z, t);
        word := Shift4(word);
        j := j + 4;
      }
      NoBits(word);
    }
    ValueParts(y);
    MulIsProduct(Value(y), h);
  }

  lemma ValueParts(y: FieldElement)
    ensures Value(y) == Bits(y.low, 64) + Bits(y.high, 64)
  {
  }

  lemma NoBits(w: bv64)
    ensures Bits(w, 0) == []
  {
  }

  // ---------- Absorbing byte strings ----------

  function ElementOf(s: seq<octet>): FieldElement
    requires |s| == 16
  {
    FieldElement(Uint64(s[..8]), Uint64(s[8..]))
  }

  function PutElement(e: FieldElement): (s: seq<octet>)
    ensures |s| == 16
  {
    PutUint64(e.low) + PutUint64(e.high)
  }

  /** The 128 bits of a 16-byte block. */
  function BlockOf(s: seq<octet>): block
    requires |s| == 16
  {
    Value(ElementOf(s))
  }

  lemma ElementOfPutElement(e: FieldElement)
    ensures ElementOf(PutElement(e)) == e
  {
    hide Uint64, PutUint64;
    assert PutElement(e)[..8] == PutUint64(e.low) && PutElement(e)[8..] == PutUint64(e.high);
    Uint64PutUint64(e.low);
    Uint64PutUint64(e.high);
  }

  /** The bits of a byte, the most significant first. */
  function OctetBits(b: octet): bits {
    [b & 0x80 != 0, b & 0x40 != 0, b & 0x20 != 0, b & 0x10 != 0, b & 8 != 0, b & 4 != 0, b & 2 != 0, b & 1 != 0]
  }

  function AllBits(s: seq<octet>): bits {
    if s == [] then [] else AllBits(s[..|s| - 1]) + OctetBits(s[|s| - 1])
  }

  function Append8(w: bv64, b: octet): bv64 { (w << 8) | b as bv64 }

  lemma Append8Parts(w: bv64, b: octet)
    requires w >> 56 == 0
    ensures Shift4(Shift4(Append8(w, b))) == w
    ensures Nibble(Shift4(Append8(w, b))) + Nibble(Append8(w, b)) == OctetBits(b)
  {
  }

  lemma WordAppended(s: seq<octet>)
    requires |s| == 8
    ensures Uint64(s) == Append8(Append8(Append8(Append8(Append8(Append8(Append8(s[0] as bv64, s[1]), s[2]), s[3]), s[4]), s[5]),
                                 s[6]), s[7])
  {
  }

  lemma BitsAppended(w: bv64, b: octet, n: nat)
    requires w >> 56 == 0
    ensures Bits(Append8(w, b), n + 8) == Bits(w, n) + OctetBits(b)
  {
    hide Append8, Shift4, Nibble, OctetBits, Bits;
    Append8Parts(w, b);
    BitsNibble(Append8(w, b), n + 4);
    BitsNibble(Shift4(Append8(w, b)), n);
    ConcatAssoc(Bits(w, n), Nibble(Shift4(Append8(w, b))), Nibble(Append8(w, b)));
  }

  /** The word that the first k bytes of s make. */
  function FrontWord(s: seq<octet>, k: nat): bv64
    requires k <= |s|
  {
    if k == 0 then 0 else Append8(FrontWord(s, k - 1), s[k - 1])
  }

  /** w has no bits beyond its k low bytes. */
  predicate Fits(w: bv64, k: nat) {
    if k == 0 then w == 0
    else if k == 1 then w <= 0xFF
    else if k == 2 then w <= 0xFFFF
    else if k == 3 then w <= 0xFF_FFFF
    else if k == 4 then w <= 0xFFFF_FFFF
    else if k == 5 then w <= 0xFF_FFFF_FFFF
    else if k == 6 then w <= 0xFFFF_FFFF_FFFF
    else if k == 7 then w <= 0xFF_FFFF_FFFF_FFFF
    else true
  }

  lemma AppendedFits(w: bv64, b: octet, k: nat)
    requires k < 8 && Fits(w, k)
    ensures Fits(Append8(w, b), k + 1) && w >> 56 == 0
  {
    AppendedFitsRaw(w, b);
  }

  lemma AppendedFitsRaw(w: bv64, b: octet)
    ensures w == 0 ==> Append8(w, b) <= 0xFF
    ensures w <= 0xFF ==> Append8(w, b) <= 0xFFFF
    ensures w <= 0xFFFF ==> Append8(w, b) <= 0xFF_FFFF
    ensures w <= 0xFF_FFFF ==> Append8(w, b) <= 0xFFFF_FFFF
    ensures w <= 0xFFFF_FFFF ==> Append8(w, b) <= 0xFF_FFFF_FFFF
    ensures w <= 0xFF_FFFF_FFFF ==> Append8(w, b) <= 0xFFFF_FFFF_FFFF
    ensures w <= 0xFFFF_FFFF_FFFF ==> Append8(w, b) <= 0xFF_FFFF_FFFF_FFFF
    ensures w <= 0xFF_FFFF_FFFF_FFFF ==> w >> 56 == 0
  {
  }

  lemma {:induction false} FrontBits(s: seq<octet>, k: nat)
    requires k <= |s| && k <= 8
    ensures Fits(FrontWord(s, k), k)
    ensures Bits(FrontWord(s, k), 8 * k) == AllBits(s[..k])
  {
    hide Append8, OctetBits, Fits;
    if k == 0 {
      NothingFits();
    } else {
      FrontBits(s, k - 1);
      AppendedFits(FrontWord(s, k - 1), s[k - 1], k - 1);
      BitsAppended(FrontWord(s, k - 1), s[k - 1], 8 * (k - 1));
      assert s[..k][..k - 1] == s[..k - 1];
    }
  }

  lemma NothingFits()
    ensures Fits(0, 0)
  {
  }

  lemma FrontStep(s: seq<octet>, k: nat)
    requires k < |s|
    ensures FrontWord(s, k + 1) == Append8(FrontWord(s, k), s[k]) && FrontWord(s, 0) == 0
  {
  }

  lemma WordBits(s: seq<octet>)
    requires |s| == 8
    ensures Bits(Uint64(s), 64) == AllBits(s)
  {
    hide Append8, AllBits, Bits, Uint64;
    WordAppended(s);
    FrontBits(s, 8);
    FirstOctet(s[0]);
    FrontStep(s, 0);
    FrontStep(s, 1);
    FrontStep(s, 2);
    FrontStep(s, 3);
    FrontStep(s, 4);
    FrontStep(s, 5);
    FrontStep(s, 6);
    FrontStep(s, 7);
    assert s[..8] == s;
  }

  lemma FirstOctet(b: octet)
    ensures Append8(0, b) == b as bv64
  {
  }

  lemma {:induction false} AllBitsConcat(s: seq<octet>, t: seq<octet>)
    ensures AllBits(s + t) == AllBits(s) + AllBits(t)
    decreases |t|
  {
    hide OctetBits;
    if t == [] {
      assert s + t == s;
    } else {
      var n := |t| - 1;
      assert (s + t)[..|s + t| - 1] == s + t[..n];
      AllBitsConcat(s, t[..n]);
    }
  }

  /** A block is its bytes, the first first, and of each byte its most significant bit first (section 6.1 of SP 800-38D). */
  lemma BlockBits(s: seq<octet>)
    requires |s| == 16
    ensures BlockOf(s) == AllBits(s)
  {
    hide AllBits, Bits, Uint64;
    WordBits(s[..8]);
    WordBits(s[8..]);
    AllBitsConcat(s[..8], s[8..]);
    assert s[..8] + s[8..] == s;
  }

  /** GHASH of section 6.4 continued from y: Y_i = (Y_{i-1} + X_i) . H. */
  function GhashBlocks(h: block, y: block, x: seq<octet>): block
    requires |x| % 16 == 0
    decreases |x|
  {
    if |x| < 16 then y
    else
      var previous := GhashBlocks(h, y, x[..|x| - 16]);
      Mul(Xor(previous, BlockOf(x[|x| - 16..])), h)
  }

  lemma {:induction false} GhashBlocksConcat(h: block, y: block, a: seq<octet>, b: seq<octet>)
    requires |a| % 16 == |b| % 16 == 0
    ensures GhashBlocks(h, y, a + b) == GhashBlocks(h, GhashBlocks(h, y, a), b)
    decreases |b|
  {
    hide Mul, Xor, BlockOf;
    if b == [] {
      assert a + b == a;
    } else {
      var n := |b| - 16;
      assert (a + b)[..|a| + n] == a + b[..n] && (a + b)[|a| + n..] == b[n..];
      GhashBlocksConcat(h, y, a, b[..n]);
    }
  }

  function Nulls(n: nat): (z: seq<octet>)
    ensures |z| == n
  {
    seq(n, _ => 0)
  }

  /** data, extended with zeros to a whole number of blocks. */
  function Pad(data: seq<octet>): (p: seq<octet>)
    ensures |p| % 16 == 0 && |data| <= |p| < |data| + 16 && data <= p
  {
    data + Nulls((16 - |data| % 16) % 16)
  }

  function PadAll(inputs: seq<seq<octet>>): (p: seq<octet>)
    ensures |p| % 16 == 0
  {
    if inputs == [] then [] else PadAll(inputs[..|inputs| - 1]) + Pad(inputs[|inputs| - 1])
  }

  method UpdateBlocks(table: array<FieldElement>, y: FieldElement, blocks: seq<octet>, ghost h: block)
    returns (z: FieldElement)
    requires IsProductTable(table[..], h) && |blocks| % 16 == 0
    ensures Value(z) == GhashBlocks(h, Value(y), blocks)
  {
    hide *;
    z := y;
    var rest := blocks;
    ghost var done: seq<octet> := [];
    AbsorbNothing(h, Value(y));
    while |rest| > 0
      invariant |rest| % 16 == |done| % 16 == 0 && done + rest == blocks
      invariant Value(z) == GhashBlocks(h, Value(y), done)
    {
      GhashAddIsXor(z, ElementOf(rest[..16]));
      AbsorbBlock(h, Value(y), done, rest[..16]);
      z := GhashAdd(z, ElementOf(rest[..16]));
      z := GhashMul(table, z, h);
      done := done + rest[..16];
      rest := rest[16..];
    }
    assert done == blocks;
  }

  lemma AbsorbBlock(h: block, y: block, done: seq<octet>, x: seq<octet>)
    requires |done| % 16 == 0 && |x| == 16
    ensures GhashBlocks(h, y, done + x) == Mul(Xor(GhashBlocks(h, y, done), Value(ElementOf(x))), h)
  {
    hide Mul, Xor, Value, ElementOf;
    var all := done + x;
    assert all[..|all| - 16] == done && all[|all| - 16..] == x;
  }

  method GhashUpdate(table: array<FieldElement>, y: FieldElement, data: seq<octet>, ghost h: block)
    returns (z: FieldElement)
    requires IsProductTable(table[..], h)
    ensures Value(z) == GhashBlocks(h, Value(y), Pad(data))
  {
    hide Value, IsProductTable, GhashBlocks;
    var fullBlocks := |data| / 16 * 16;
    z := UpdateBlocks(table, y, data[..fullBlocks], h);
    if |data| != fullBlocks {
      var partialBlock := data[fullBlocks..] + Nulls(16 - (|data| - fullBlocks));
      z := UpdateBlocks(table, z, partialBlock, h);
      GhashBlocksConcat(h, Value(y), data[..fullBlocks], partialBlock);
      assert Pad(data) == data[..fullBlocks] + partialBlock;
    } else {
      assert Pad(data) == data[..fullBlocks];
    }
  }

  // ---------- GHASH as a function on byte strings ----------

  function GhashElements(h: FieldElement, x: seq<octet>): FieldElement
    requires |x| % 16 == 0
    decreases |x|
  {
    if |x| < 16 then FieldElement(0, 0)
    else
      var previous := GhashElements(h, x[..|x| - 16]);
      MulElement(GhashAdd(previous, ElementOf(x[|x| - 16..])), h)
  }

  lemma {:induction false} GhashElementsIsGhashBlocks(h: FieldElement, x: seq<octet>)
    requires |x| % 16 == 0
    ensures Value(GhashElements(h, x)) == GhashBlocks(Value(h), Zeros(128), x)
    decreases |x|
  {
    hide Value, GhashAdd, MulElement, Mul, Xor, ElementOf;
    if x == [] {
      ZeroElement();
    } else {
      var n := |x| - 16;
      var previous := GhashElements(h, x[..n]);
      GhashElementsIsGhashBlocks(h, x[..n]);
      GhashAddIsXor(previous, ElementOf(x[n..]));
      MulElementIsMul(GhashAdd(previous, ElementOf(x[n..])), h);
    }
  }

  function GHASH(H: seq<octet>, x: seq<octet>): (s: seq<octet>)
    requires |H| == 16 && |x| % 16 == 0
    ensures |s| == 16
  {
    PutElement(GhashElements(ElementOf(H), x))
  }

  /** GHASH_H(X) of section 6.4: start from the zero block and absorb X block by block. */
  lemma GHASHIsGhashBlocks(H: seq<octet>, x: seq<octet>)
    requires |H| == 16 && |x| % 16 == 0
    ensures BlockOf(GHASH(H, x)) == GhashBlocks(BlockOf(H), Zeros(128), x)
  {
    hide Value, GhashElements, GhashBlocks, ElementOf, PutElement;
    var y := GhashElements(ElementOf(H), x);
    ElementOfPutElement(y);
    GhashElementsIsGhashBlocks(ElementOf(H), x);
  }

  lemma BlockOfInjective(s: seq<octet>, t: seq<octet>)
    requires |s| == |t| == 16 && BlockOf(s) == BlockOf(t)
    ensures s == t
  {
    hide Value, Uint64, PutUint64;
    ValueInjective(ElementOf(s), ElementOf(t));
    PutUint64Uint64(s[..8]);
    PutUint64Uint64(s[8..]);
    PutUint64Uint64(t[..8]);
    PutUint64Uint64(t[8..]);
    assert s == s[..8] + s[8..] && t == t[..8] + t[8..];
  }

  /** Absorbing several inputs, each padded, is absorbing the concatenation of the padded inputs. */
  method GhashInputs(H: seq<octet>, inputs: seq<seq<octet>>) returns (out: seq<octet>)
    requires |H| == 16
    ensures out == GHASH(H, PadAll(inputs))
  {
    hide Value, IsProductTable, GhashBlocks, PutElement, ElementOf, Pad, GHASH;
    var x := ElementOf(H);
    ghost var h := Value(x);
    var table := BuildProductTable(x);
    var y := FieldElement(0, 0);
    ZeroElement();
    AbsorbNothing(h, Zeros(128));
    for i := 0 to |inputs|
      invariant IsProductTable(table[..], h)
      invariant Value(y) == GhashBlocks(h, Zeros(128), PadAll(inputs[..i]))
    {
      GhashBlocksConcat(h, Zeros(128), PadAll(inputs[..i]), Pad(inputs[i]));
      assert inputs[..i + 1][..i] == inputs[..i];
      y := GhashUpdate(table, y, inputs[i], h);
    }
    assert inputs[..|inputs|] == inputs;
    ElementOfPutElement(y);
    out := PutElement(y);
    GHASHIsGhashBlocks(H, PadAll(inputs));
    BlockOfInjective(out, GHASH(H, PadAll(inputs)));
  }

  lemma AbsorbNothing(h: block, y: block)
    ensures GhashBlocks(h, y, []) == y
  {
  }
}
