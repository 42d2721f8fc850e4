/** Big-endian views of byte strings as machine words, for the cryptographic modules. */
module BigEndian {
  type octet = bv8

  function XorOctet(a: octet, b: octet): octet { a ^ b }

  lemma XorOctetAssoc(a: octet, b: octet, c: octet)
    ensures XorOctet(XorOctet(a, b), c) == XorOctet(a, XorOctet(b, c))
  {
  }

  lemma XorOctetComm(a: octet, b: octet)
    ensures XorOctet(a, b) == XorOctet(b, a)
  {
  }

  lemma XorOctetTwice(a: octet, m: octet)
    ensures XorOctet(XorOctet(a, m), m) == a
  {
  }

  lemma XorOctetZero(a: octet)
    ensures XorOctet(a, 0) == a == XorOctet(0, a)
  {
  }

  /** The number a byte stands for. */
  function ByteValue(b: octet): (n: nat)
    ensures n < 256
  {
    b as nat
  }

  /** Go's byte(n), which keeps the low eight bits. */
  function Byte(n: nat): octet {
    if n % 256 == 0 then 0 else NextOctet(Byte(n - 1))
  }

  function NextOctet(b: octet): octet { b + 1 }

  lemma NextOctetValue(b: octet)
    requires ByteValue(b) < 255
    ensures ByteValue(NextOctet(b)) == ByteValue(b) + 1
  {
  }

  lemma NextOctetWraps(b: octet)
    ensures NextOctet(b) == 0 <==> b == 0xFF
  {
  }

  lemma {:induction false} ByteTruncates(n: nat)
    ensures ByteValue(Byte(n)) == n % 256
  {
    hide NextOctet, ByteValue;
    if n % 256 == 0 {
      ZeroOctetValue();
    } else {
      ByteTruncates(n - 1);
      NextOctetValue(Byte(n - 1));
    }
  }

  lemma SameByte(a: octet, b: octet)
    requires ByteValue(a) == ByteValue(b)
    ensures a == b
  {
  }

  lemma ZeroOctetValue()
    ensures ByteValue(0) == 0
  {
  }

  // ---------- Numbers of any length ----------

  /** The number that some bytes stand for, the first being the most significant. */
  function Number(s: seq<octet>): nat {
    if s == [] then 0 else Number(s[..|s| - 1]) * 256 + s[|s| - 1] as nat
  }

  function Power256(n: nat): nat {
    if n == 0 then 1 else 256 * Power256(n - 1)
  }

  /** The last n bytes of a number. */
  function BigEndianBytes(v: nat, n: nat): (b: seq<octet>)
    ensures |b| == n
    decreases n
  {
    if n == 0 then [] else BigEndianBytes(v / 256, n - 1) + [Byte(v)]
  }

  lemma {:induction false} BytesNumber(v: nat, n: nat)
    requires v < Power256(n)
    ensures Number(BigEndianBytes(v, n)) == v
    decreases n
  {
    hide Byte;
    if n > 0 {
      BytesNumber(v / 256, n - 1);
      var b := BigEndianBytes(v, n);
      assert b[..n - 1] == BigEndianBytes(v / 256, n - 1);
      ByteTruncates(v);
      assert ByteValue(b[n - 1]) == v % 256;
    }
  }

  lemma {:induction false} NumberOfZeros(n: nat)
    ensures BigEndianBytes(0, n) == seq(n, _ => 0 as octet)
    decreases n
  {
    if n > 0 {
      NumberOfZeros(n - 1);
    }
  }

  // ---------- Machine words ----------

  function Uint32(s: seq<octet>): bv32
    requires |s| == 4
  {
    (s[0] as bv32 << 24) | (s[1] as bv32 << 16) | (s[2] as bv32 << 8) | s[3] as bv32
  }

  function PutUint32(w: bv32): (s: seq<octet>)
    ensures |s| == 4
  {
    [(w >> 24) as octet, ((w >> 16) & 0xFF) as octet, ((w >> 8) & 0xFF) as octet, (w & 0xFF) as octet]
  }

  lemma PutUint32Uint32(s: seq<octet>)
    requires |s| == 4
    ensures PutUint32(Uint32(s)) == s
  {
  }

  lemma Uint32PutUint32(w: bv32)
    ensures Uint32(PutUint32(w)) == w
  {
  }

  function Uint64(s: seq<octet>): bv64
    requires |s| == 8
  {
    (Uint32(s[..4]) as bv64 << 32) | Uint32(s[4..]) as bv64
  }

  function PutUint64(w: bv64): (s: seq<octet>)
    ensures |s| == 8
  {
    PutUint32((w >> 32) as bv32) + PutUint32((w & 0xFFFF_FFFF) as bv32)
  }

  lemma Halves(hi: bv32, lo: bv32)
    ensures (((hi as bv64 << 32) | lo as bv64) >> 32) as bv32 == hi
    ensures (((hi as bv64 << 32) | lo as bv64) & 0xFFFF_FFFF) as bv32 == lo
  {
  }

  lemma PutUint64Uint64(s: seq<octet>)
    requires |s| == 8
    ensures PutUint64(Uint64(s)) == s
  {
    hide Uint32, PutUint32;
    Halves(Uint32(s[..4]), Uint32(s[4..]));
    PutUint32Uint32(s[..4]);
    PutUint32Uint32(s[4..]);
  }

  lemma Uint64PutUint64(w: bv64)
    ensures Uint64(PutUint64(w)) == w
  {
    hide Uint32, PutUint32;
    var hi, lo := (w >> 32) as bv32, (w & 0xFFFF_FFFF) as bv32;
    assert PutUint64(w)[..4] == PutUint32(hi) && PutUint64(w)[4..] == PutUint32(lo);
    Uint32PutUint32(hi);
    Uint32PutUint32(lo);
  }
}
