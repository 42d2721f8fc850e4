/** CBC padding: extractPadding and roundUp of conn.go, against section 6.2.3.2 of RFC 5246. */
module Padding {
  import opened BigEndian

  // ---------- The plain specification ----------

  /** The last byte says how many equal bytes stand before it. */
  predicate WellPadded(p: seq<octet>) {
    |p| > 0 && EndsIn(p, p[|p| - 1], ByteValue(p[|p| - 1]) + 1)
  }

  function FromEnd(p: seq<octet>, i: nat): octet
    requires i < |p|
  {
    p[|p| - 1 - i]
  }

  /** The last n bytes of p are all b. */
  predicate EndsIn(p: seq<octet>, b: octet, n: nat) {
    n <= |p| && forall i: nat :: i < n ==> FromEnd(p, i) == b
  }

  function PaddingToRemove(p: seq<octet>): nat
    requires |p| > 0
  {
    if WellPadded(p) then ByteValue(p[|p| - 1]) + 1 else 1
  }

  // ---------- Branch-free selection ----------

  const MAX_INT31 := 0x7FFF_FFFF

  /** Go's uint subtraction, which wraps at 64 bits. */
  function SubUint(a: nat, b: nat): nat { (a - b) % 0x1_0000_0000_0000_0000 }

  /** byte(int32(^t) >> 31): all ones when bit 31 of t is clear. */
  function MsbClearMask(t: nat): octet {
    if t / 0x8000_0000 % 2 == 0 then 0xFF else 0
  }

  lemma MaskCompares(a: nat, b: nat)
    requires a <= MAX_INT31 && b <= MAX_INT31
    ensures MsbClearMask(SubUint(a, b)) == if b <= a then 0xFF else 0
  {
    if b <= a {
      assert SubUint(a, b) == a - b;
    } else {
      assert SubUint(a, b) == 0x1_0000_0000_0000_0000 - (b - a);
      assert SubUint(a, b) / 0x8000_0000 == 0x1_FFFF_FFFF;
    }
  }

  /** good &^= mask&paddingLen ^ mask&b. */
  function ClearIfDifferent(good: octet, mask: octet, paddingLen: octet, b: octet): octet {
    good & !((mask & paddingLen) ^ (mask & b))
  }

  lemma ClearMeaning(good: octet, mask: octet, paddingLen: octet, b: octet)
    requires mask == 0xFF || mask == 0
    ensures ClearIfDifferent(good, mask, paddingLen, b) == 0xFF <==> good == 0xFF && (mask == 0 || paddingLen == b)
  {
  }

  /** Ands the bits of good together and spreads the result over the byte. */
  function SpreadAnd(good: octet): octet {
    var g1 := good & (good << 4);
    var g2 := g1 & (g1 << 2);
    var g3 := g2 & (g2 << 1);
    if g3 & 0x80 != 0 then 0xFF else 0
  }

  lemma SpreadMeaning(good: octet)
    ensures SpreadAnd(good) == if good == 0xFF then 0xFF else 0
  {
  }

  function And(a: octet, b: octet): octet { a & b }

  lemma AndMask(a: octet)
    ensures And(a, 0xFF) == a && And(a, 0) == 0
  {
  }

  /** What `good` says once i bytes from the end have been looked at. */
  predicate GoodSoFar(payload: seq<octet>, paddingLen: octet, i: nat)
    requires i <= |payload|
  {
    && ByteValue(paddingLen) < |payload|
    && forall j: nat :: j < i && j <= ByteValue(paddingLen) ==> FromEnd(payload, j) == paddingLen
  }

  /** The padding length to remove, and 255 or 0 for good or bad padding. */
  method ExtractPadding(payload: seq<octet>) returns (toRemove: nat, good: octet)
    ensures payload == [] ==> toRemove == 0 && good == 0
    ensures 0 < |payload| <= MAX_INT31 ==> good == (if WellPadded(payload) then 0xFF else 0)
    ensures 0 < |payload| <= MAX_INT31 ==> toRemove == PaddingToRemove(payload)
  {
    hide ByteValue, SubUint, MsbClearMask, ClearIfDifferent, SpreadAnd, And;
    if |payload| < 1 {
      return 0, 0;
    }
    var paddingLen := payload[|payload| - 1];
    var t := SubUint(|payload| - 1, ByteValue(paddingLen));
    good := MsbClearMask(t);
    if |payload| <= MAX_INT31 {
      MaskCompares(|payload| - 1, ByteValue(paddingLen));
    }

    var toCheck := 256;
    if toCheck > |payload| {
      toCheck := |payload|;
    }
    for i := 0 to toCheck
      invariant |payload| <= MAX_INT31 ==>
                  (good == 0xFF <==> GoodSoFar(payload, paddingLen, i))
    {
      t := SubUint(ByteValue(paddingLen), i);
      var mask := MsbClearMask(t);
      var b := FromEnd(payload, i);
      MaskCompares(ByteValue(paddingLen), i);
      ClearMeaning(good, mask, paddingLen, b);
      good := ClearIfDifferent(good, mask, paddingLen, b);
    }
    SpreadMeaning(good);
    good := SpreadAnd(good);
    AndMask(paddingLen);
    ZeroOctetValue();
    paddingLen := And(paddingLen, good);
    toRemove := ByteValue(paddingLen) + 1;
  }

  // ---------- Padding as it is written ----------

  function RoundUp(a: nat, b: nat): nat
    requires b > 0
  {
    a + (b - a % b) % b
  }

  lemma TimesMonotone(x: nat, y: nat, b: nat)
    requires x <= y
    ensures x * b <= y * b
  {
  }

  lemma NextMultiple(q: nat, m: nat, b: nat, r: nat)
    requires 0 < r < b && q * b + r <= m * b
    ensures q * b + b <= m * b
  {
    if m <= q {
      TimesMonotone(m, q, b);
    } else {
      TimesMonotone(q + 1, m, b);
    }
  }

  lemma NoRemainder(x: nat, q: nat, b: nat)
    requires b > 0 && x == q * b
    ensures x % b == 0
  {
    var k, r := x / b, x % b;
    assert x == k * b + r;
    if k < q {
      TimesMonotone(k + 1, q, b);
    } else {
      TimesMonotone(q, k, b);
    }
  }

  /** How many times b fits into what a is rounded up to. */
  function RoundedQuotient(a: nat, b: nat): nat
    requires b > 0
  {
    if a % b == 0 then a / b else a / b + 1
  }

  lemma RoundUpQuotient(a: nat, b: nat)
    requires b > 0
    ensures RoundUp(a, b) == RoundedQuotient(a, b) * b
  {
    var q, r := a / b, a % b;
    assert a == q * b + r;
    if r != 0 {
      assert RoundUp(a, b) == q * b + b;
    }
  }

  /** roundUp is the least multiple of b from a on. */
  lemma RoundUpIsLeastMultiple(a: nat, b: nat, m: nat)
    requires b > 0
    ensures RoundUp(a, b) % b == 0 && a <= RoundUp(a, b)
    ensures a <= m * b ==> RoundUp(a, b) <= m * b
  {
    RoundUpQuotient(a, b);
    NoRemainder(RoundUp(a, b), RoundedQuotient(a, b), b);
    if a <= m * b {
      RoundUpLeast(a, b, m);
    }
  }

  lemma RoundUpLeast(a: nat, b: nat, m: nat)
    requires b > 0 && a <= m * b
    ensures RoundUp(a, b) <= m * b
  {
    var q, r := a / b, a % b;
    assert a == q * b + r;
    if r == 0 {
      assert RoundUp(a, b) == a;
    } else {
      NextMultiple(q, m, b, r);
      assert RoundUp(a, b) == q * b + b;
    }
  }

  /** n bytes that all say n - 1. */
  function PadBytes(n: nat): (p: seq<octet>)
    requires 0 < n <= 256
    ensures |p| == n && forall i :: 0 <= i < n ==> p[i] == Byte(n - 1)
  {
    seq(n, i => Byte(n - 1))
  }

  lemma PaddingRecognised(data: seq<octet>, n: nat)
    requires 0 < n <= 256
    ensures WellPadded(data + PadBytes(n)) && PaddingToRemove(data + PadBytes(n)) == n
  {
    hide PadBytes, Byte, ByteValue;
    ByteTruncates(n - 1);
    var p := data + PadBytes(n);
    assert p[|p| - 1] == PadBytes(n)[n - 1];
  }
}
