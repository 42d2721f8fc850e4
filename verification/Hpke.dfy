/** The message sequence of HPKE contexts: nonces, their limit, and lockstep (hpke/hpye.go). */
module Hpke {
  import opened BigEndian
  import opened Gcm
  import opened Nonces
  import opened Records
  import opened Wrappers

  const TWO64: nat := 0x1_0000_0000_0000_0000
  const NONCE_SIZE := 12

  /** A 128-bit counter as two words. */
  datatype Uint128 = Uint128(hi: nat, lo: nat)
  {
    ghost predicate Valid() {
      hi < TWO64 && lo < TWO64
    }

    function Value(): nat { hi * TWO64 + lo }

    /** One more, with the carry out of the low word, and wrapping at 128 bits. */
    function AddOne(): Uint128 {
      var carry := if lo + 1 == TWO64 then 1 else 0;
      Uint128((hi + carry) % TWO64, (lo + 1) % TWO64)
    }

    /** The lengths of the two words added up, as the original does it. */
    function BitLen(): nat { Len64(hi) + Len64(lo) }
  }

  /** The number of bits of n. */
  function Len64(n: nat): nat {
    if n == 0 then 0 else 1 + Len64(n / 2)
  }

  lemma AddOneValue(u: Uint128)
    requires u.Valid()
    ensures u.AddOne().Valid()
    ensures u.Value() + 1 < TWO64 * TWO64 ==> u.AddOne().Value() == u.Value() + 1
    ensures u.Value() + 1 == TWO64 * TWO64 ==> u.AddOne().Value() == 0
  {
  }

  function Power2(n: nat): nat {
    if n == 0 then 1 else 2 * Power2(n - 1)
  }

  lemma {:induction false} Len64Bounds(n: nat, k: nat)
    ensures Len64(n) <= k <==> n < Power2(k)
  {
    if k == 0 {
    } else if n == 0 {
      Len64Bounds(0, k - 1);
    } else {
      Len64Bounds(n / 2, k - 1);
    }
  }

  lemma Powers()
    ensures Power2(30) == 0x4000_0000 && Power2(63) == 0x8000_0000_0000_0000 && Power2(64) == TWO64
  {
    assert Power2(10) == 1024;
    assert Power2(20) == 1024 * 1024;
    assert Power2(30) == 1024 * 1024 * 1024;
    assert Power2(40) == 0x100_0000_0000;
    assert Power2(50) == 0x4_0000_0000_0000;
    assert Power2(60) == 0x1000_0000_0000_0000;
  }

  /** The largest sequence number a context can hold: 2^94 + 2^63. */
  const LAST: nat := 0x4000_0000 * TWO64 + 0x8000_0000_0000_0000

  /** What incrementNonce tests before it adds one. */
  predicate LimitReached(u: Uint128) {
    u.BitLen() >= NONCE_SIZE * 8 - 1
  }

  /** Below 2^94 + 2^63 the guard stays down, and there it comes up. */
  lemma LimitIsLast(u: Uint128)
    requires u.Valid() && u.Value() <= LAST
    ensures LimitReached(u) <==> u.Value() == LAST
  {
    hide Len64;
    Powers();
    Len64Bounds(u.lo, 64);
    Len64Bounds(u.lo, 63);
    Len64Bounds(u.hi, 30);
    Len64Bounds(u.hi, 31);
    assert Power2(31) == 0x8000_0000;
    if u.hi < 0x4000_0000 {
      assert Len64(u.hi) <= 30 && Len64(u.lo) <= 64;
    } else {
      assert u.hi == 0x4000_0000 && u.lo <= 0x8000_0000_0000_0000;
    }
  }

  // ---------- Nonces ----------

  lemma {:induction false} LastBytes(v: nat, n: nat, m: nat)
    requires m <= n
    ensures BigEndianBytes(v, n)[n - m..] == BigEndianBytes(v, m)
    decreases m
  {
    hide Byte;
    if m > 0 {
      LastBytes(v / 256, n - 1, m - 1);
      assert BigEndianBytes(v, n)[n - m..] == BigEndianBytes(v / 256, n - 1)[n - m..] + [Byte(v)];
    }
  }

  function Bytes(u: Uint128): (b: octets)
    ensures |b| == 16
  {
    BigEndianBytes(u.hi, 8) + BigEndianBytes(u.lo, 8)
  }

  lemma {:induction false} TwoWords(hi: nat, lo: nat, n: nat)
    requires lo < Power256(n)
    ensures BigEndianBytes(hi * Power256(n) + lo, 8 + n) == BigEndianBytes(hi, 8) + BigEndianBytes(lo, n)
    decreases n
  {
    hide Byte, Power256;
    if n > 0 {
      PowerStep(hi, n);
      var q := hi * Power256(n - 1);
      assert (256 * q + lo) / 256 == q + lo / 256;
      TwoWords(hi, lo / 256, n - 1);
      ByteOfMultiple(q, lo);
    } else {
      PowerZero(hi);
      assert BigEndianBytes(hi, 8) + [] == BigEndianBytes(hi, 8);
    }
  }

  lemma PowerStep(hi: nat, n: nat)
    requires n > 0
    ensures hi * Power256(n) == 256 * (hi * Power256(n - 1)) && Power256(n) == 256 * Power256(n - 1)
  {
  }

  lemma PowerZero(hi: nat)
    ensures Power256(0) == 1 && hi * Power256(0) == hi
  {
  }

  lemma ByteOfMultiple(q: nat, n: nat)
    ensures Byte(256 * q + n) == Byte(n)
  {
    hide Byte, ByteValue;
    ByteTruncates(256 * q + n);
    ByteTruncates(n);
    SameByte(Byte(256 * q + n), Byte(n));
  }

  lemma BytesOfValue(u: Uint128)
    requires u.Valid()
    ensures Bytes(u) == BigEndianBytes(u.Value(), 16)
  {
    hide BigEndianBytes;
    assert Power256(8) == TWO64;
    TwoWords(u.hi, u.lo, 8);
  }

  /** The nonce of message k: its number in the last twelve bytes, masked with the base nonce. */
  function MessageNonce(base: octets, k: nat): octets
    requires |base| == NONCE_SIZE
  {
    XorOctets(BigEndianBytes(k, NONCE_SIZE), base)
  }

  /** Without its mask the nonce of message k is the number k: dropping the top four bytes loses nothing. */
  lemma NonceNumber(base: octets, k: nat)
    requires |base| == NONCE_SIZE && k <= LAST
    ensures Number(XorOctets(MessageNonce(base, k), base)) == k
  {
    hide BigEndianBytes, XorOctets, Number;
    assert Power256(12) == TWO64 * 0x1_0000_0000 by {
      assert Power256(4) == 0x1_0000_0000;
      assert Power256(8) == TWO64;
    }
    BytesNumber(k, NONCE_SIZE);
    XorOctetsTwice(BigEndianBytes(k, NONCE_SIZE), base);
  }

  /** So no two messages share a nonce. */
  lemma NoncesDistinct(base: octets, k: nat, k': nat)
    requires |base| == NONCE_SIZE && k <= LAST && k' <= LAST
    ensures MessageNonce(base, k) == MessageNonce(base, k') <==> k == k'
  {
    hide BigEndianBytes, XorOctets, Number;
    NonceNumber(base, k);
    NonceNumber(base, k');
  }

  // ---------- Contexts ----------

  ghost predicate LawfulHpke(k: AeadKey) {
    forall n: octets, p: octets, a: octets :: |n| == NONCE_SIZE ==> k.open(n, k.seal(n, p, a), a) == Some(p)
  }

  class Context {
    const aead: AeadKey
    const baseNonce: octets
    var seqNum: Uint128

    /** The sequence number has been reached by counting. */
    ghost predicate Valid()
      reads this
    {
      |baseNonce| == NONCE_SIZE && seqNum.Valid() && seqNum.Value() <= LAST
    }

    constructor (key: AeadKey, base: octets)
      requires |base| == NONCE_SIZE
      ensures Valid() && seqNum.Value() == 0 && aead == key && baseNonce == base
    {
      aead, baseNonce, seqNum := key, base, Uint128(0, 0);
    }

    method NextNonce() returns (nonce: octets)
      requires Valid()
      ensures nonce == MessageNonce(baseNonce, seqNum.Value())
    {
      hide BigEndianBytes, XorOctet;
      BytesOfValue(seqNum);
      LastBytes(seqNum.Value(), 16, NONCE_SIZE);
      nonce := Bytes(seqNum)[16 - NONCE_SIZE..];
      ghost var start := nonce;
      for i := 0 to |baseNonce|
        invariant |nonce| == NONCE_SIZE
        invariant forall j :: 0 <= j < i ==> nonce[j] == XorOctet(start[j], baseNonce[j])
        invariant forall j :: i <= j < NONCE_SIZE ==> nonce[j] == start[j]
      {
        nonce := nonce[i := XorOctet(nonce[i], baseNonce[i])];
      }
    }

    /** Counts a message; false is the panic at the message limit. */
    method IncrementNonce() returns (ok: bool)
      requires Valid()
      modifies `seqNum
      ensures Valid() && (ok <==> old(seqNum.Value()) < LAST)
      ensures seqNum.Value() == if ok then old(seqNum.Value()) + 1 else old(seqNum.Value())
    {
      LimitIsLast(seqNum);
      if seqNum.BitLen() >= NONCE_SIZE * 8 - 1 {
        return false;
      }
      AddOneValue(seqNum);
      seqNum := seqNum.AddOne();
      return true;
    }

    /** Sender.Seal: the text under the next nonce; None is the panic at the limit. */
    method Seal(aad: octets, plaintext: octets) returns (ciphertext: Option<octets>)
      requires Valid()
      modifies `seqNum
      ensures Valid()
      ensures ciphertext == if old(seqNum.Value()) < LAST
                            then Some(aead.seal(MessageNonce(baseNonce, old(seqNum.Value())), plaintext, aad)) else None
      ensures seqNum.Value() == old(seqNum.Value()) + (if ciphertext.Some? then 1 else 0)
    {
      var nonce := NextNonce();
      var sealed := aead.seal(nonce, plaintext, aad);
      var ok := IncrementNonce();
      ciphertext := if ok then Some(sealed) else None;
    }

    /** Recipient.Open: counts the message only if it opens; crashed is the panic at the limit. */
    method Open(aad: octets, ciphertext: octets) returns (plaintext: Option<octets>, crashed: bool)
      requires Valid()
      modifies `seqNum
      ensures Valid()
      ensures var result := aead.open(MessageNonce(baseNonce, old(seqNum.Value())), ciphertext, aad);
              && (crashed <==> result.Some? && old(seqNum.Value()) == LAST)
              && (!crashed ==> plaintext == result)
              && seqNum.Value() == old(seqNum.Value()) + (if !crashed && result.Some? then 1 else 0)
    {
      var nonce := NextNonce();
      plaintext := aead.open(nonce, ciphertext, aad);
      crashed := false;
      if plaintext.None? {
        return;
      }
      var ok := IncrementNonce();
      crashed := !ok;
    }
  }

  // ---------- Lockstep ----------

  datatype Message = Message(aad: octets, plaintext: octets)

  /** The k-th ciphertext of a sender that has sealed the messages given. */
  function CiphertextAt(key: AeadKey, base: octets, messages: seq<Message>, k: nat): octets
    requires |base| == NONCE_SIZE && k < |messages|
  {
    key.seal(MessageNonce(base, k), messages[k].plaintext, messages[k].aad)
  }

  /** A delivery: the next genuine ciphertext, or something else that does not open at this point. */
  datatype Delivery = Genuine | Other(aad: octets, ciphertext: octets)

  /** What a recipient has opened, its sequence number, and whether it met the panic at the limit. */
  datatype Received = Received(next: nat, texts: seq<octets>, crashed: bool)

  /** Recipient.Open on these: a text that opens at the limit is not handed over. */
  function Deliver(key: AeadKey, base: octets, r: Received, aad: octets, ciphertext: octets): Received
    requires |base| == NONCE_SIZE
  {
    if r.crashed then r
    else
      match key.open(MessageNonce(base, r.next), ciphertext, aad)
      case None => r
      case Some(p) => if r.next == LAST then r.(crashed := true) else Received(r.next + 1, r.texts + [p], false)
  }

  function DeliverAll(key: AeadKey, base: octets, messages: seq<Message>, deliveries: seq<Delivery>): Received
    requires |base| == NONCE_SIZE
    decreases |deliveries|
  {
    if deliveries == [] then Received(0, [], false)
    else
      var n := |deliveries| - 1;
      var r := DeliverAll(key, base, messages, deliveries[..n]);
      match deliveries[n]
      case Other(aad, ciphertext) => Deliver(key, base, r, aad, ciphertext)
      case Genuine =>
        if r.next < |messages|
        then Deliver(key, base, r, messages[r.next].aad, CiphertextAt(key, base, messages, r.next))
        else r
  }

  /** Nothing but the genuine ciphertexts opens. */
  ghost predicate Unforgeable(key: AeadKey, base: octets, messages: seq<Message>, deliveries: seq<Delivery>)
    requires |base| == NONCE_SIZE
  {
    forall i :: 0 <= i < |deliveries| && deliveries[i].Other? ==>
      key.open(MessageNonce(base, DeliverAll(key, base, messages, deliveries[..i]).next),
               deliveries[i].ciphertext, deliveries[i].aad).None?
  }

  function GenuineCount(deliveries: seq<Delivery>): nat {
    if deliveries == [] then 0
    else GenuineCount(deliveries[..|deliveries| - 1]) + (if deliveries[|deliveries| - 1].Genuine? then 1 else 0)
  }

  function Texts(messages: seq<Message>): (t: seq<octets>)
    ensures |t| == |messages| && forall i :: 0 <= i < |t| ==> t[i] == messages[i].plaintext
  {
    seq(|messages|, i requires 0 <= i < |messages| => messages[i].plaintext)
  }

  /**
   * However many deliveries fail in between, the recipient opens the genuine messages in order, and its sequence
   * number counts exactly those; it panics exactly when more of them come than the limit allows.
   */
  lemma {:induction false} Lockstep(key: AeadKey, base: octets, messages: seq<Message>, deliveries: seq<Delivery>)
    requires |base| == NONCE_SIZE && LawfulHpke(key) && Unforgeable(key, base, messages, deliveries)
    requires GenuineCount(deliveries) <= |messages|
    ensures var r := DeliverAll(key, base, messages, deliveries);
            && r.next <= |messages| && r.texts == Texts(messages[..r.next])
            && (r.crashed <==> GenuineCount(deliveries) > LAST)
            && r.next == if r.crashed then LAST else GenuineCount(deliveries)
    decreases |deliveries|
  {
    hide MessageNonce, Deliver, Texts;
    if deliveries == [] {
      assert messages[..0] == [] && Texts([]) == [];
    } else {
      var n := |deliveries| - 1;
      var front := deliveries[..n];
      forall i | 0 <= i < |front| && front[i].Other?
        ensures key.open(MessageNonce(base, DeliverAll(key, base, messages, front[..i]).next),
                         front[i].ciphertext, front[i].aad).None?
      {
        assert front[..i] == deliveries[..i] && front[i] == deliveries[i];
      }
      Lockstep(key, base, messages, front);
      var r := DeliverAll(key, base, messages, front);
      if deliveries[n].Genuine? {
        GenuineStep(key, base, messages, r, GenuineCount(front));
      } else {
        OtherStep(key, base, r, deliveries[n].aad, deliveries[n].ciphertext);
      }
    }
  }

  /** Where a recipient stands after k genuine messages. */
  predicate Stands(messages: seq<Message>, r: Received, k: nat) {
    && r.next <= |messages| && r.texts == Texts(messages[..r.next])
    && (r.crashed <==> k > LAST)
    && r.next == if r.crashed then LAST else k
  }

  lemma GenuineStep(key: AeadKey, base: octets, messages: seq<Message>, r: Received, k: nat)
    requires |base| == NONCE_SIZE && LawfulHpke(key) && k < |messages| && Stands(messages, r, k)
    ensures r.next < |messages|
    ensures Stands(messages, Deliver(key, base, r, messages[r.next].aad, CiphertextAt(key, base, messages, r.next)), k + 1)
  {
    hide MessageNonce, CiphertextAt, LawfulHpke;
    if !r.crashed {
      OpensGenuine(key, base, messages, k);
      assert Texts(messages[..k + 1]) == Texts(messages[..k]) + [messages[k].plaintext];
    }
  }

  lemma OtherStep(key: AeadKey, base: octets, r: Received, aad: octets, ciphertext: octets)
    requires |base| == NONCE_SIZE && key.open(MessageNonce(base, r.next), ciphertext, aad).None?
    ensures Deliver(key, base, r, aad, ciphertext) == r
  {
    hide MessageNonce;
  }

  lemma OpensGenuine(key: AeadKey, base: octets, messages: seq<Message>, k: nat)
    requires |base| == NONCE_SIZE && LawfulHpke(key) && k < |messages|
    ensures key.open(MessageNonce(base, k), CiphertextAt(key, base, messages, k), messages[k].aad) == Some(messages[k].plaintext)
  {
    hide XorOctets, BigEndianBytes;
    assert |MessageNonce(base, k)| == NONCE_SIZE;
  }
}
