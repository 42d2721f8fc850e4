/** Galois/Counter Mode: gcm/gcm_generic.go and gcm/gcm.go against section 7 of NIST SP 800-38D. */
module Gcm {
  import opened BigEndian
  import opened Ghash
  import opened Wrappers

  const GCM_BLOCK_SIZE := 16
  const GCM_MINIMUM_TAG_SIZE := 12
  const GCM_STANDARD_NONCE_SIZE := 12
  const MAX_PLAINTEXT := 0xFFFF_FFFE * 16

  type octets16 = s: seq<octet> | |s| == 16 witness Nulls(16)

  /** A 128-bit block cipher under a fixed key. */
  type blockCipher = octets16 -> octets16

  // ---------- Counter mode ----------

  /** The last four bytes of the block, plus one, wrapping. */
  function Inc32(ctr: octets16): octets16 {
    ctr[..12] + PutUint32(Uint32(ctr[12..]) + 1)
  }

  function Inc32Times(ctr: octets16, n: nat): octets16
    decreases n
  {
    if n == 0 then ctr else Inc32Times(Inc32(ctr), n - 1)
  }

  function XorOctets(a: seq<octet>, b: seq<octet>): (c: seq<octet>)
    requires |a| <= |b|
    ensures |c| == |a| && forall i :: 0 <= i < |a| ==> c[i] == XorOctet(a[i], b[i])
  {
    seq(|a|, i requires 0 <= i < |a| => XorOctet(a[i], b[i]))
  }

  /** The number of counter blocks that n bytes use up. */
  function Blocks(n: nat): nat { (n + 15) / 16 }

  /** GCTR of section 6.5. */
  function Gctr(E: blockCipher, ctr: octets16, x: seq<octet>): (y: seq<octet>)
    ensures |y| == |x|
    decreases |x|
  {
    if |x| <= 16 then XorOctets(x, E(ctr))
    else
      var rest := Gctr(E, Inc32(ctr), x[16..]);
      XorOctets(x[..16], E(ctr)) + rest
  }

  lemma XorOctetsTwice(x: seq<octet>, m: seq<octet>)
    requires |x| <= |m|
    ensures XorOctets(XorOctets(x, m), m) == x
  {
    hide XorOctet;
    forall i | 0 <= i < |x|
      ensures XorOctets(XorOctets(x, m), m)[i] == x[i]
    {
      XorOctetTwice(x[i], m[i]);
    }
  }

  lemma {:induction false} GctrInvolution(E: blockCipher, ctr: octets16, x: seq<octet>)
    ensures Gctr(E, ctr, Gctr(E, ctr, x)) == x
    decreases |x|
  {
    hide XorOctets, Inc32;
    if |x| <= 16 {
      XorOctetsTwice(x, E(ctr));
    } else {
      var head := XorOctets(x[..16], E(ctr));
      var y := Gctr(E, ctr, x);
      assert y[..16] == head && y[16..] == Gctr(E, Inc32(ctr), x[16..]);
      XorOctetsTwice(x[..16], E(ctr));
      GctrInvolution(E, Inc32(ctr), x[16..]);
    }
  }

  /** Byte i is masked with the matching byte of the encrypted counter, which goes up by one with every block. */
  lemma {:induction false} KeyStreamByte(E: blockCipher, ctr: octets16, x: seq<octet>, i: nat)
    requires i < |x|
    ensures Gctr(E, ctr, x)[i] == XorOctet(x[i], E(Inc32Times(ctr, i / 16))[i % 16])
    decreases i
  {
    hide Inc32, XorOctet;
    if i >= 16 {
      KeyStreamByte(E, Inc32(ctr), x[16..], i - 16);
      assert Inc32Times(ctr, i / 16) == Inc32Times(Inc32(ctr), (i - 16) / 16);
    }
  }

  method GcmInc32(counterBlock: array<octet>)
    requires counterBlock.Length == 16
    modifies counterBlock
    ensures counterBlock[..] == Inc32(old(counterBlock[..]))
  {
    var ctr := PutUint32(Uint32(counterBlock[12..]) + 1);
    counterBlock[12], counterBlock[13], counterBlock[14], counterBlock[15] := ctr[0], ctr[1], ctr[2], ctr[3];
  }

  method XorBytes(out: array<octet>, from: nat, x: seq<octet>, mask: octets16)
    requires |x| <= 16 && from + |x| <= out.Length
    modifies out
    ensures out[..] == old(out[..from]) + XorOctets(x, mask) + old(out[from + |x|..])
  {
    hide XorOctet;
    for i := 0 to |x|
      invariant forall k :: 0 <= k < i ==> out[from + k] == XorOctet(x[k], mask[k])
      invariant out[..from] == old(out[..from]) && out[from + i..] == old(out[from + i..])
    {
      out[from + i] := XorOctet(x[i], mask[i]);
    }
  }

  lemma GctrStep(E: blockCipher, ctr: octets16, done: seq<octet>, src: seq<octet>, from: nat)
    requires from + 16 <= |src|
    ensures done + Gctr(E, ctr, src[from..])
         == done + XorOctets(src[from..from + 16], E(ctr)) + Gctr(E, Inc32(ctr), src[from + 16..])
    ensures Inc32Times(ctr, Blocks(|src| - from)) == Inc32Times(Inc32(ctr), Blocks(|src| - from - 16))
  {
    hide Inc32, XorOctets;
    var x := src[from..];
    assert x[..16] == src[from..from + 16] && x[16..] == src[from + 16..];
    if |x| == 16 {
      assert x[..16] == x && x[16..] == [];
    }
  }

  lemma GctrLast(E: blockCipher, ctr: octets16, x: seq<octet>)
    requires |x| < 16
    ensures Gctr(E, ctr, x) == XorOctets(x, E(ctr))
    ensures Inc32Times(ctr, Blocks(|x|)) == if x == [] then ctr else Inc32(ctr)
  {
  }

  /** Writes GCTR of src to the front of out, and leaves the counter past the blocks used. */
  method GcmCounterCrypt(E: blockCipher, out: array<octet>, src: seq<octet>, counter: array<octet>)
    requires out.Length >= |src| && counter.Length == 16 && out != counter
    modifies out, counter
    ensures out[..] == Gctr(E, old(counter[..]), src) + old(out[|src|..])
    ensures counter[..] == Inc32Times(old(counter[..]), Blocks(|src|))
  {
    hide XorOctets, Inc32, Gctr, Inc32Times, Blocks;
    ghost var ctr0: octets16 := counter[..];
    var done := 0;
    while |src| - done >= GCM_BLOCK_SIZE
      invariant 0 <= done <= |src|
      invariant Inc32Times(counter[..], Blocks(|src| - done)) == Inc32Times(ctr0, Blocks(|src|))
      invariant out[..done] + Gctr(E, counter[..], src[done..]) == Gctr(E, ctr0, src)
      invariant out[done..] == old(out[done..])
    {
      GctrStep(E, counter[..], out[..done], src, done);
      var mask := E(counter[..]);
      GcmInc32(counter);
      XorBytes(out, done, src[done..done + 16], mask);
      done := done + 16;
    }
    GctrLast(E, counter[..], src[done..]);
    if |src| - done > 0 {
      var mask := E(counter[..]);
      GcmInc32(counter);
      XorBytes(out, done, src[done..], mask);
    }
  }

  // ---------- The mode of operation ----------

  /** uint64(n) * 8 as eight bytes: the length in bits, modulo 2^64. */
  function Size64(n: nat): (s: seq<octet>)
    ensures |s| == 8
  {
    BigEndianBytes(n * 8 % 0x1_0000_0000_0000_0000, 8)
  }

  function HashKey(E: blockCipher): octets16 {
    E(Nulls(16))
  }

  function LengthBlock(data: seq<octet>, ciphertext: seq<octet>): octets16 {
    Size64(|data|) + Size64(|ciphertext|)
  }

  function JoinBlocks(a: seq<octet>, b: seq<octet>): (c: seq<octet>)
    requires |a| % 16 == 0 && |b| % 16 == 0
    ensures |c| % 16 == 0
  {
    a + b
  }

  /** What GHASH absorbs to derive the pre-counter block from a nonce that is not 96 bits long. */
  function NonceInput(nonce: seq<octet>): (x: seq<octet>)
    ensures |x| % 16 == 0
  {
    JoinBlocks(Pad(nonce), LengthBlock([], nonce))
  }

  /** What GHASH absorbs to authenticate: both parts padded, then their lengths in bits. */
  function TagInput(data: seq<octet>, ciphertext: seq<octet>): (x: seq<octet>)
    ensures |x| % 16 == 0
  {
    JoinBlocks(JoinBlocks(Pad(data), Pad(ciphertext)), LengthBlock(data, ciphertext))
  }

  /** A length below 2^61 in bits, as a number; lengths wrap at 2^64 bits. */
  lemma SizeInBits(n: nat)
    ensures Number(Size64(n)) == n * 8 % 0x1_0000_0000_0000_0000
    ensures n < 0x2000_0000_0000_0000 ==> Number(Size64(n)) == 8 * n
  {
    hide Number, BigEndianBytes;
    assert Power256(8) == 0x1_0000_0000_0000_0000;
    BytesNumber(n * 8 % 0x1_0000_0000_0000_0000, 8);
  }

  /** x is a followed by the fewest zeros that make whole blocks of it. */
  ghost predicate ZeroPadded(x: seq<octet>, a: seq<octet>) {
    && a <= x && |x| % 16 == 0 && |x| < |a| + 16
    && forall i :: |a| <= i < |x| ==> x[i] == 0
  }

  lemma PadsWithZeros(a: seq<octet>)
    ensures ZeroPadded(Pad(a), a)
  {
  }

  /**
   * What is authenticated, byte by byte: the additional data and the ciphertext, each padded with zeros, and then the
   * two lengths in bits as 64-bit numbers.
   */
  lemma AuthenticatedText(data: seq<octet>, c: seq<octet>)
    requires |data| < 0x2000_0000_0000_0000 && |c| < 0x2000_0000_0000_0000
    ensures exists a, b, l, m :: TagInput(data, c) == a + b + l + m
              && ZeroPadded(a, data) && ZeroPadded(b, c)
              && |l| == |m| == 8 && Number(l) == 8 * |data| && Number(m) == 8 * |c|
  {
    hide Pad, Size64, ZeroPadded, Number;
    PadsWithZeros(data);
    PadsWithZeros(c);
    SizeInBits(|data|);
    SizeInBits(|c|);
    var a, b, l, m := Pad(data), Pad(c), Size64(|data|), Size64(|c|);
    assert TagInput(data, c) == a + b + l + m;
  }

  /** The same for a nonce: itself, padded with zeros, eight zero bytes, and its length in bits. */
  lemma HashedNonce(nonce: seq<octet>)
    requires |nonce| < 0x2000_0000_0000_0000
    ensures exists a, l :: NonceInput(nonce) == a + Nulls(8) + l
              && ZeroPadded(a, nonce) && |l| == 8 && Number(l) == 8 * |nonce|
  {
    hide Pad, Size64, ZeroPadded, Number;
    PadsWithZeros(nonce);
    SizeInBits(|nonce|);
    EmptySize();
    var a, l := Pad(nonce), Size64(|nonce|);
    assert NonceInput(nonce) == a + Nulls(8) + l;
  }

  /** J0 of section 7.1, step 2. */
  function PreCounter(H: octets16, nonce: seq<octet>): octets16 {
    if |nonce| == GCM_STANDARD_NONCE_SIZE then nonce + [0, 0, 0, 1] else GHASH(H, NonceInput(nonce))
  }

  /** The full tag of section 7.1, steps 5 and 6, before truncation. */
  function FullTag(E: blockCipher, J: octets16, data: seq<octet>, ciphertext: seq<octet>): octets16 {
    Gctr(E, J, GHASH(HashKey(E), TagInput(data, ciphertext)))
  }

  lemma EmptySize()
    ensures Size64(0) == Nulls(8)
  {
    hide BigEndianBytes;
    NumberOfZeros(8);
  }

  /** GCM-AE of section 7.1. */
  function AuthenticatedEncryption(E: blockCipher, tagSize: nat, nonce: seq<octet>, plaintext: seq<octet>, data: seq<octet>)
    : (sealed: seq<octet>)
    requires tagSize <= 16
    ensures |sealed| == |plaintext| + tagSize
  {
    var J := PreCounter(HashKey(E), nonce);
    var c := Gctr(E, Inc32(J), plaintext);
    c + FullTag(E, J, data, c)[..tagSize]
  }

  method DeriveCounter(H: octets16, nonce: seq<octet>, counter: array<octet>)
    requires counter.Length == 16 && counter[..] == Nulls(16)
    modifies counter
    ensures counter[..] == PreCounter(H, nonce)
  {
    hide *;
    if |nonce| == 12 {
      PreCounterFast(H, nonce);
      for i := 0 to 12
        invariant counter[..i] == nonce[..i] && counter[i..] == Nulls(16)[i..]
      {
        counter[i] := nonce[i];
      }
      TrailingOne(counter[..]);
      counter[15] := 1;
    } else {
      var lenBlock := Nulls(8) + Size64(|nonce|);
      var y := GhashInputs(H, [nonce, lenBlock]);
      PreCounterSlow(H, nonce);
      PadAllTwo(nonce, lenBlock);
      for i := 0 to 16
        invariant counter[..i] == y[..i]
      {
        counter[i] := y[i];
      }
    }
  }

  lemma PreCounterFast(H: octets16, nonce: seq<octet>)
    requires |nonce| == 12
    ensures PreCounter(H, nonce) == nonce + [0, 0, 0, 1]
  {
  }

  lemma PreCounterSlow(H: octets16, nonce: seq<octet>)
    requires |nonce| != 12
    ensures (|Pad(nonce)| + 16) % 16 == 0
    ensures PreCounter(H, nonce) == GHASH(H, Pad(nonce) + (Nulls(8) + Size64(|nonce|)))
  {
    hide GHASH, Pad, Size64;
    EmptySize();
  }

  lemma TrailingOne(counter: seq<octet>)
    requires |counter| == 16 && counter[12..] == Nulls(16)[12..]
    ensures counter[15 := 1] == counter[..12] + [0, 0, 0, 1]
  {
  }

  lemma PadWhole(b: seq<octet>)
    requires |b| == 16
    ensures Pad(b) == b
  {
    assert (16 - |b| % 16) % 16 == 0;
  }

  lemma PadAllNone()
    ensures PadAll([]) == []
  {
  }

  lemma PadAllStep(inputs: seq<seq<octet>>, x: seq<octet>)
    ensures PadAll(inputs + [x]) == PadAll(inputs) + Pad(x)
  {
    hide Pad;
    var all := inputs + [x];
    assert all[..|all| - 1] == inputs;
  }

  lemma PadAllTwo(a: seq<octet>, b: seq<octet>)
    requires |b| == 16
    ensures PadAll([a, b]) == Pad(a) + b
  {
    hide Pad, PadAll;
    PadAllNone();
    PadAllStep([], a);
    PadAllStep([a], b);
    PadWhole(b);
    assert [] + [a] == [a] && [a] + [b] == [a, b];
  }

  lemma PadAllThree(a: seq<octet>, b: seq<octet>, c: seq<octet>)
    requires |c| == 16
    ensures PadAll([a, b, c]) == Pad(a) + Pad(b) + c
  {
    hide Pad, PadAll;
    PadAllNone();
    PadAllStep([], a);
    PadAllStep([a], b);
    PadAllStep([a, b], c);
    PadWhole(c);
    assert [] + [a] == [a] && [a] + [b] == [a, b] && [a, b] + [c] == [a, b, c];
  }

  method GcmAuth(out: array<octet>, H: octets16, tagMask: octets16, ciphertext: seq<octet>, data: seq<octet>)
    requires out.Length == 16
    modifies out
    ensures out[..] == XorOctets(GHASH(H, TagInput(data, ciphertext)), tagMask)
  {
    hide GHASH, Pad, XorOctets, Size64;
    var lenBlock := Size64(|data|) + Size64(|ciphertext|);
    var S := GhashInputs(H, [data, ciphertext, lenBlock]);
    PadAllThree(data, ciphertext, lenBlock);
    XorBytes(out, 0, S, tagMask);
  }

  /** Encrypting zeros exposes the key stream, so masking with the result is GCTR. */
  lemma TagMask(E: blockCipher, J: octets16, S: octets16)
    ensures XorOctets(S, Gctr(E, J, Nulls(16))) == Gctr(E, J, S)
    ensures Inc32Times(J, Blocks(16)) == Inc32(J)
  {
    hide XorOctet, Inc32;
    forall i | 0 <= i < 16
      ensures Gctr(E, J, Nulls(16))[i] == E(J)[i]
    {
      XorOctetZero(E(J)[i]);
    }
    assert Gctr(E, J, Nulls(16)) == E(J);
  }

  /** The first lines that sealing and opening share: the hash key, the tag mask and the data counter. */
  method StartMode(E: blockCipher, nonce: seq<octet>)
    returns (H: octets16, tagMask: array<octet>, counter: array<octet>)
    ensures fresh(tagMask) && fresh(counter) && tagMask != counter
    ensures tagMask.Length == 16 && counter.Length == 16 && H == HashKey(E)
    ensures tagMask[..] == Gctr(E, PreCounter(H, nonce), Nulls(16))
    ensures counter[..] == Inc32(PreCounter(H, nonce))
  {
    hide PreCounter, Inc32, Inc32Times, Gctr, Blocks;
    H := E(Nulls(16));
    counter := new octet[16](_ => 0);
    DeriveCounter(H, nonce, counter);
    TagMask(E, counter[..], Nulls(16));
    tagMask := new octet[16](_ => 0);
    assert tagMask[..] == Nulls(16);
    GcmCounterCrypt(E, tagMask, tagMask[..], counter);
  }

  method Authenticate(E: blockCipher, H: octets16, tagMask: octets16, ghost J: octets16, ciphertext: seq<octet>, data: seq<octet>)
    returns (tag: seq<octet>)
    requires H == HashKey(E) && tagMask == Gctr(E, J, Nulls(16))
    ensures tag == FullTag(E, J, data, ciphertext)
  {
    hide Gctr, XorOctets, TagInput, GHASH;
    TagMask(E, J, GHASH(H, TagInput(data, ciphertext)));
    var out := new octet[16](_ => 0);
    GcmAuth(out, H, tagMask, ciphertext, data);
    tag := out[..];
  }

  method SealGeneric(out: array<octet>, E: blockCipher, tagSize: nat, nonce: seq<octet>, plaintext: seq<octet>, data: seq<octet>)
    requires tagSize <= 16 && out.Length == |plaintext| + tagSize
    modifies out
    ensures out[..] == AuthenticatedEncryption(E, tagSize, nonce, plaintext, data)
  {
    hide PreCounter, Inc32, Inc32Times, Gctr, FullTag, HashKey;
    var H, tagMask, counter := StartMode(E, nonce);
    GcmCounterCrypt(E, out, plaintext, counter);
    ghost var c := out[..|plaintext|];
    var tag := Authenticate(E, H, tagMask[..], PreCounter(H, nonce), out[..|plaintext|], data);
    for i := 0 to tagSize
      invariant out[..|plaintext|] == c
      invariant out[|plaintext|..|plaintext| + i] == tag[..i]
    {
      out[|plaintext| + i] := tag[i];
    }
    assert out[..] == c + out[|plaintext|..];
  }

  /** GCM-AD of section 7.2: the plaintext, or nothing when the tag does not match. */
  function AuthenticatedDecryption(E: blockCipher, tagSize: nat, nonce: seq<octet>, sealed: seq<octet>, data: seq<octet>)
    : (plaintext: Option<seq<octet>>)
    requires tagSize <= 16
  {
    if |sealed| < tagSize then None
    else
      var J := PreCounter(HashKey(E), nonce);
      var c, tag := sealed[..|sealed| - tagSize], sealed[|sealed| - tagSize..];
      if FullTag(E, J, data, c)[..tagSize] == tag then Some(Gctr(E, Inc32(J), c)) else None
  }

  method OpenGeneric(out: array<octet>, E: blockCipher, tagSize: nat, nonce: seq<octet>, sealed: seq<octet>, data: seq<octet>)
    returns (ok: bool)
    requires tagSize <= 16 && |sealed| == out.Length + tagSize
    modifies out
    ensures ok <==> AuthenticatedDecryption(E, tagSize, nonce, sealed, data).Some?
    ensures ok ==> out[..] == AuthenticatedDecryption(E, tagSize, nonce, sealed, data).value
  {
    hide PreCounter, Inc32, Inc32Times, Gctr, FullTag, HashKey;
    var H, tagMask, counter := StartMode(E, nonce);
    var tag := sealed[|sealed| - tagSize..];
    var ciphertext := sealed[..|sealed| - tagSize];
    var expectedTag := Authenticate(E, H, tagMask[..], PreCounter(H, nonce), ciphertext, data);
    if expectedTag[..tagSize] != tag {
      return false;
    }
    GcmCounterCrypt(E, out, ciphertext, counter);
    return true;
  }

  /** Opening undoes sealing, and nothing else opens: what opens to p is exactly what sealing p gives. */
  lemma OpenIffSealed(E: blockCipher, tagSize: nat, nonce: seq<octet>, sealed: seq<octet>, data: seq<octet>, p: seq<octet>)
    requires tagSize <= 16
    ensures AuthenticatedDecryption(E, tagSize, nonce, sealed, data) == Some(p)
       <==> sealed == AuthenticatedEncryption(E, tagSize, nonce, p, data)
  {
    hide PreCounter, Inc32, Gctr, FullTag, HashKey;
    var ctr := Inc32(PreCounter(HashKey(E), nonce));
    GctrInvolution(E, ctr, p);
    if |sealed| >= tagSize {
      var c := sealed[..|sealed| - tagSize];
      assert sealed == c + sealed[|sealed| - tagSize..];
      GctrInvolution(E, ctr, c);
    }
  }

  // ---------- The interface of gcm.go ----------

  datatype GCM = GCM(cipher: blockCipher, nonceSize: nat, tagSize: nat) {
    predicate Valid() {
      nonceSize > 0 && GCM_MINIMUM_TAG_SIZE <= tagSize <= GCM_BLOCK_SIZE
    }
  }

  function NewGCM(E: blockCipher, nonceSize: int, tagSize: int): (g: Option<GCM>)
    ensures g.Some? <==> nonceSize > 0 && 12 <= tagSize <= 16
    ensures g.Some? ==> g.value.Valid() && g.value == GCM(E, nonceSize, tagSize)
  {
    if tagSize < GCM_MINIMUM_TAG_SIZE || tagSize > GCM_BLOCK_SIZE then None
    else if nonceSize <= 0 then None
    else Some(GCM(E, nonceSize, tagSize))
  }

  /** A call returns bytes, returns errOpen, or panics. */
  datatype Outcome = Returned(bytes: seq<octet>) | Failed | Panicked

  /** What Seal does: a panic, or dst followed by GCM-AE. */
  function SealOutcome(g: GCM, dst: seq<octet>, nonce: seq<octet>, plaintext: seq<octet>, data: seq<octet>): Outcome
    requires g.Valid()
  {
    if |nonce| != g.nonceSize || |plaintext| > MAX_PLAINTEXT then Panicked
    else Returned(dst + AuthenticatedEncryption(g.cipher, g.tagSize, nonce, plaintext, data))
  }

  /** What Open does: a panic, an error, or dst followed by the result of GCM-AD. */
  function OpenOutcome(g: GCM, dst: seq<octet>, nonce: seq<octet>, sealed: seq<octet>, data: seq<octet>): Outcome
    requires g.Valid()
  {
    if |nonce| != g.nonceSize then Panicked
    else if |sealed| > MAX_PLAINTEXT + g.tagSize then Failed
    else
      match AuthenticatedDecryption(g.cipher, g.tagSize, nonce, sealed, data)
      case None => Failed
      case Some(p) => Returned(dst + p)
  }

  method Seal(g: GCM, dst: seq<octet>, nonce: seq<octet>, plaintext: seq<octet>, data: seq<octet>) returns (r: Outcome)
    requires g.Valid()
    ensures r == SealOutcome(g, dst, nonce, plaintext, data)
  {
    hide AuthenticatedEncryption;
    if |nonce| != g.nonceSize || g.nonceSize == 0 {
      return Panicked;
    }
    if |plaintext| > MAX_PLAINTEXT {
      return Panicked;
    }
    var out := new octet[|plaintext| + g.tagSize](_ => 0);
    SealGeneric(out, g.cipher, g.tagSize, nonce, plaintext, data);
    r := Returned(dst + out[..]);
  }

  /** `tail` is what the destination behind dst holds on return: nothing unauthenticated on failure. */
  method Open(g: GCM, dst: seq<octet>, nonce: seq<octet>, sealed: seq<octet>, data: seq<octet>)
    returns (r: Outcome, tail: seq<octet>)
    requires g.Valid()
    ensures r == OpenOutcome(g, dst, nonce, sealed, data)
    ensures r.Failed? ==> tail == Nulls(|tail|)
  {
    hide AuthenticatedDecryption;
    DecryptShort(g, nonce, sealed, data);
    tail := [];
    if |nonce| != g.nonceSize {
      return Panicked, tail;
    }
    if |sealed| < g.tagSize {
      return Failed, tail;
    }
    if |sealed| > MAX_PLAINTEXT + g.tagSize {
      return Failed, tail;
    }
    var out := new octet[|sealed| - g.tagSize](_ => 0);
    var ok := OpenGeneric(out, g.cipher, g.tagSize, nonce, sealed, data);
    if !ok {
      for i := 0 to out.Length
        invariant forall k :: 0 <= k < i ==> out[k] == 0
      {
        out[i] := 0;
      }
      return Failed, out[..];
    }
    r, tail := Returned(dst + out[..]), out[..];
  }

  lemma DecryptShort(g: GCM, nonce: seq<octet>, sealed: seq<octet>, data: seq<octet>)
    requires g.Valid()
    ensures |sealed| < g.tagSize ==> AuthenticatedDecryption(g.cipher, g.tagSize, nonce, sealed, data).None?
  {
  }

  /** Through the interface: Open gives p back, behind any dst, exactly for what Seal makes of p. */
  lemma OpenIffSealReturned(g: GCM, dst: seq<octet>, nonce: seq<octet>, sealed: seq<octet>, data: seq<octet>, p: seq<octet>)
    requires g.Valid()
    ensures OpenOutcome(g, dst, nonce, sealed, data) == Returned(dst + p)
       <==> SealOutcome(g, [], nonce, p, data) == Returned(sealed)
  {
    hide AuthenticatedDecryption, AuthenticatedEncryption;
    OpenIffSealed(g.cipher, g.tagSize, nonce, sealed, data, p);
    var result := AuthenticatedDecryption(g.cipher, g.tagSize, nonce, sealed, data);
    if result.Some? {
      OpenIffSealed(g.cipher, g.tagSize, nonce, sealed, data, result.value);
      assert (dst + result.value)[|dst|..] == result.value && (dst + p)[|dst|..] == p;
    }
    assert [] + AuthenticatedEncryption(g.cipher, g.tagSize, nonce, p, data)
        == AuthenticatedEncryption(g.cipher, g.tagSize, nonce, p, data);
  }
}
