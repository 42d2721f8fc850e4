/**
 * Nonce discipline of one AES-GCM traffic key: halfConn.incSeq (conn.go), the nonce wrappers of
 * cipher_suites.go and the counting AEADs of gcm/gcm_nonces.go.
 */
module Nonces {
  import opened BigEndian
  import opened Ghash
  import opened Gcm
  import opened Wrappers

  type octets8 = s: seq<octet> | |s| == 8 witness Nulls(8)
  type octets12 = s: seq<octet> | |s| == 12 witness Nulls(12)

  const MAX_UINT64: nat := 0xFFFF_FFFF_FFFF_FFFF

  // ---------- The record sequence number ----------

  /** One more, as a big-endian number; None when the number would wrap. */
  function Increment(s: seq<octet>): (t: Option<seq<octet>>)
    ensures t.Some? ==> |t.value| == |s|
  {
    if s == [] then None
    else
      var n := |s| - 1;
      if s[n] != 0xFF then Some(s[..n] + [NextOctet(s[n])])
      else
        match Increment(s[..n])
        case None => None
        case Some(t) => Some(t + [0])
  }

  lemma OctetPlusOne(b: octet)
    requires b != 0xFF
    ensures NextOctet(b) as nat == b as nat + 1
  {
  }

  lemma {:induction false} NumberIncrement(s: seq<octet>)
    ensures Number(s) < Power256(|s|)
    ensures Increment(s).None? <==> Number(s) == Power256(|s|) - 1
    ensures Increment(s).Some? ==> Number(Increment(s).value) == Number(s) + 1
  {
    if s != [] {
      var n := |s| - 1;
      NumberIncrement(s[..n]);
      if s[n] != 0xFF {
        OctetPlusOne(s[n]);
        assert (s[..n] + [NextOctet(s[n])])[..n] == s[..n];
      } else if Increment(s[..n]).Some? {
        var t := Increment(s[..n]).value;
        assert (t + [0])[..n] == t;
      }
    }
  }

  lemma {:induction false} NumberInjective(s: seq<octet>, t: seq<octet>)
    requires |s| == |t| && Number(s) == Number(t)
    ensures s == t
  {
    if s != [] {
      var n := |s| - 1;
      SplitDigit(Number(s[..n]), s[n] as nat, Number(t[..n]), t[n] as nat);
      NumberInjective(s[..n], t[..n]);
      SameOctet(s[n], t[n]);
      assert s == s[..n] + [s[n]] && t == t[..n] + [t[n]];
    }
  }

  lemma SplitDigit(q: nat, d: nat, q': nat, d': nat)
    requires d < 256 && d' < 256 && q * 256 + d == q' * 256 + d'
    ensures q == q' && d == d'
  {
  }

  lemma SameOctet(a: octet, b: octet)
    requires a as nat == b as nat
    ensures a == b
  {
  }

  /** An incremented front, with the bytes behind it. */
  function Before(front: Option<seq<octet>>, tail: seq<octet>): Option<seq<octet>> {
    if front.Some? then Some(front.value + tail) else None
  }

  lemma CarryOver(s: seq<octet>, tail: seq<octet>)
    requires s != []
    ensures var n := |s| - 1;
            Before(Increment(s), tail) == if s[n] != 0xFF then Some(s[..n] + [NextOctet(s[n])] + tail)
                                          else Before(Increment(s[..n]), [0] + tail)
  {
    var n := |s| - 1;
    if s[n] == 0xFF && Increment(s[..n]).Some? {
      var t := Increment(s[..n]).value;
      assert t + [0] + tail == t + ([0] + tail);
    }
  }

  lemma NothingBehind(o: Option<seq<octet>>)
    ensures Before(o, []) == o
  {
    if o.Some? {
      assert o.value + [] == o.value;
    }
  }

  /** incSeq: adds one in place; false stands for the wraparound panic. */
  method IncSeq(s: array<octet>) returns (ok: bool)
    requires s.Length == 8
    modifies s
    ensures ok <==> Increment(old(s[..])).Some?
    ensures ok ==> s[..] == Increment(old(s[..])).value
  {
    hide NextOctet, Increment;
    ghost var s0 := s[..];
    var i := 7;
    assert s0[..8] == s0 && s[8..] == [];
    NothingBehind(Increment(s0));
    while i >= 0
      invariant -1 <= i <= 7
      invariant s[..i + 1] == s0[..i + 1]
      invariant Increment(s0) == Before(Increment(s0[..i + 1]), s[i + 1..])
    {
      ghost var rest := s[i + 1..];
      assert s0[..i + 1][..i] == s0[..i];
      CarryOver(s0[..i + 1], rest);
      NextOctetWraps(s[i]);
      s[i] := NextOctet(s[i]);
      if s[i] != 0 {
        assert s[..] == s0[..i] + [NextOctet(s0[i])] + rest;
        return true;
      }
      assert s[i..] == [0] + rest;
      i := i - 1;
    }
    IncrementNothing();
    return false;
  }

  lemma IncrementNothing()
    ensures Increment([]) == None
  {
  }

  // ---------- TLS 1.3: the masked nonce and the AEAD that watches it ----------

  /** The nonce xorNonceAEAD hands on: its mask with the sequence number folded into the last eight bytes. */
  function MaskedNonce(mask: octets12, s: octets8): octets12 {
    mask[..4] + XorOctets(mask[4..], s)
  }

  /** The fields of GCMForTLS13, with the counter words as byte strings and numbers. */
  datatype Guard13 = Guard13(ready: bool, mask: octets8, next: nat)

  const FRESH_13 := Guard13(false, Nulls(8), 0)

  /** The fields after Seal has looked at a nonce, and whether it went on to encrypt. */
  function Admit13(g: Guard13, nonce: octets12): (Guard13, bool) {
    var g' := if g.ready then g else g.(ready := true, mask := nonce[4..]);
    var counter := Number(XorOctets(nonce[4..], g'.mask));
    if counter == MAX_UINT64 || counter < g'.next then (g', false)
    else (g'.(next := counter + 1), true)
  }

  class GCMForTLS13 {
    const gcm: GCM
    var ready: bool
    var mask: octets8
    var next: nat

    constructor (cipher: blockCipher)
      ensures Fields() == FRESH_13 && gcm == GCM(cipher, 12, 16)
    {
      gcm := GCM(cipher, 12, 16);
      ready, mask, next := false, Nulls(8), 0;
    }

    function Fields(): Guard13
      reads this
    {
      Guard13(ready, mask, next)
    }

    method Seal(dst: seq<octet>, nonce: seq<octet>, plaintext: seq<octet>, data: seq<octet>) returns (r: Outcome)
      requires gcm.Valid()
      modifies this
      ensures |nonce| != 12 ==> r == Panicked && Fields() == old(Fields())
      ensures |nonce| == 12 ==> Fields() == Admit13(old(Fields()), nonce).0
      ensures |nonce| == 12 ==>
                r == if Admit13(old(Fields()), nonce).1 then SealOutcome(gcm, dst, nonce, plaintext, data) else Panicked
    {
      hide SealOutcome, Number, XorOctets;
      if |nonce| != 12 {
        return Panicked;
      }
      if !ready {
        ready := true;
        mask := nonce[4..];
      }
      var counter := Number(XorOctets(nonce[4..], mask));
      if counter == MAX_UINT64 {
        return Panicked;
      }
      if counter < next {
        return Panicked;
      }
      next := counter + 1;
      r := Gcm.Seal(gcm, dst, nonce, plaintext, data);
    }
  }

  class XorNonceAEAD {
    const nonceMask: array<octet>
    const aead: GCMForTLS13

    ghost predicate Valid() {
      nonceMask.Length == 12 && aead.gcm.Valid()
    }

    constructor (cipher: blockCipher, mask: octets12)
      ensures Valid() && nonceMask[..] == mask && aead.Fields() == FRESH_13 && aead.gcm == GCM(cipher, 12, 16)
      ensures fresh(nonceMask) && fresh(aead)
    {
      nonceMask := new octet[12](i requires 0 <= i < 12 => mask[i]);
      aead := new GCMForTLS13(cipher);
    }

    method FoldIn(nonce: octets8)
      requires Valid()
      modifies nonceMask
      ensures nonceMask[..] == MaskedNonce(old(nonceMask[..]), nonce)
    {
      hide XorOctet;
      ghost var mask := nonceMask[..];
      for i := 0 to 8
        invariant nonceMask[..4] == mask[..4] && nonceMask[4 + i..] == mask[4 + i..]
        invariant forall k :: 0 <= k < i ==> nonceMask[4 + k] == XorOctet(mask[4 + k], nonce[k])
      {
        nonceMask[4 + i] := XorOctet(nonceMask[4 + i], nonce[i]);
      }
    }

    /** Seals under the masked nonce and takes the nonce out of the mask again, unless the seal panics. */
    method Seal(dst: seq<octet>, nonce: octets8, plaintext: seq<octet>, data: seq<octet>) returns (r: Outcome)
      requires Valid()
      modifies nonceMask, aead
      ensures nonceMask[..] == if r.Panicked? then MaskedNonce(old(nonceMask[..]), nonce) else old(nonceMask[..])
      ensures var admitted := Admit13(old(aead.Fields()), MaskedNonce(old(nonceMask[..]), nonce));
              && aead.Fields() == admitted.0
              && r == if admitted.1
                      then SealOutcome(aead.gcm, dst, MaskedNonce(old(nonceMask[..]), nonce), plaintext, data)
                      else Panicked
    {
      hide SealOutcome, XorOctets, Admit13;
      ghost var mask := nonceMask[..];
      FoldIn(nonce);
      r := aead.Seal(dst, nonceMask[..], plaintext, data);
      if r.Panicked? {
        return;
      }
      FoldIn(nonce);
      MaskTwice(mask, nonce);
    }
  }

  lemma MaskTwice(mask: octets12, s: octets8)
    ensures MaskedNonce(MaskedNonce(mask, s), s) == mask
  {
    hide XorOctets;
    XorOctetsTwice(mask[4..], s);
    var folded := MaskedNonce(mask, s);
    assert folded[..4] == mask[..4] && folded[4..] == XorOctets(mask[4..], s);
    assert mask == mask[..4] + mask[4..];
  }

  // ---------- TLS 1.2: the explicit nonce behind a fixed prefix ----------

  function Admit12(next: nat, nonce: octets12): (nat, bool) {
    var counter := Number(nonce[4..]);
    if counter == MAX_UINT64 || counter < next then (next, false) else (counter + 1, true)
  }

  class GCMForTLS12 {
    const gcm: GCM
    var next: nat

    constructor (cipher: blockCipher)
      ensures next == 0 && gcm == GCM(cipher, 12, 16)
    {
      gcm := GCM(cipher, 12, 16);
      next := 0;
    }

    method Seal(dst: seq<octet>, nonce: seq<octet>, plaintext: seq<octet>, data: seq<octet>) returns (r: Outcome)
      requires gcm.Valid()
      modifies this
      ensures |nonce| != 12 ==> r == Panicked && next == old(next)
      ensures |nonce| == 12 ==> next == Admit12(old(next), nonce).0
      ensures |nonce| == 12 ==>
                r == if Admit12(old(next), nonce).1 then SealOutcome(gcm, dst, nonce, plaintext, data) else Panicked
    {
      hide SealOutcome, Number;
      if |nonce| != 12 {
        return Panicked;
      }
      var counter := Number(nonce[4..]);
      if counter == MAX_UINT64 {
        return Panicked;
      }
      if counter < next {
        return Panicked;
      }
      next := counter + 1;
      r := Gcm.Seal(gcm, dst, nonce, plaintext, data);
    }
  }

  class PrefixNonceAEAD {
    const nonce: array<octet>
    const aead: GCMForTLS12

    ghost predicate Valid() {
      nonce.Length == 12 && aead.gcm.Valid()
    }

    constructor (cipher: blockCipher, prefix: seq<octet>)
      requires |prefix| == 4
      ensures Valid() && nonce[..4] == prefix && aead.next == 0 && aead.gcm == GCM(cipher, 12, 16)
      ensures fresh(nonce) && fresh(aead)
    {
      var bytes := new octet[12](i => if 0 <= i < 4 then prefix[i] else 0);
      assert bytes[..4] == prefix;
      nonce := bytes;
      aead := new GCMForTLS12(cipher);
    }

    method Seal(dst: seq<octet>, explicit: octets8, plaintext: seq<octet>, data: seq<octet>) returns (r: Outcome)
      requires Valid()
      modifies nonce, aead
      ensures nonce[..] == old(nonce[..4]) + explicit
      ensures var admitted := Admit12(old(aead.next), old(nonce[..4]) + explicit);
              && aead.next == admitted.0
              && r == if admitted.1
                      then SealOutcome(aead.gcm, dst, old(nonce[..4]) + explicit, plaintext, data)
                      else Panicked
    {
      hide SealOutcome, Admit12;
      for i := 0 to 8
        modifies nonce
        invariant nonce[..4] == old(nonce[..4]) && nonce[4..4 + i] == explicit[..i]
      {
        nonce[4 + i] := explicit[i];
      }
      assert nonce[..] == old(nonce[..4]) + explicit;
      r := aead.Seal(dst, nonce[..], plaintext, data);
    }
  }

  // ---------- The life of a key ----------

  /** What one direction of a connection carries from record to record under one key. */
  datatype Writer13 = Writer13(s: octets8, guard: Guard13)

  /** One record: seal under the masked sequence number, then increment; None when either step panics. */
  function Record13(mask: octets12, w: Writer13): Option<Writer13> {
    var admitted := Admit13(w.guard, MaskedNonce(mask, w.s));
    if !admitted.1 then None
    else
      match Increment(w.s)
      case None => None
      case Some(t) => Some(Writer13(t, admitted.0))
  }

  /** The state after k records under a new key. */
  function After13(mask: octets12, k: nat): Option<Writer13> {
    if k == 0 then Some(Writer13(Nulls(8), FRESH_13))
    else
      match After13(mask, k - 1)
      case None => None
      case Some(w) => Record13(mask, w)
  }

  lemma {:induction false} NumberOfNulls(n: nat)
    ensures Number(Nulls(n)) == 0
  {
    if n > 0 {
      assert Nulls(n)[..n - 1] == Nulls(n - 1);
      NumberOfNulls(n - 1);
    }
  }

  lemma Power256Of8()
    ensures Power256(8) == MAX_UINT64 + 1
  {
  }

  lemma Unmask(m: octets8, s: octets8)
    ensures XorOctets(XorOctets(m, s), m) == s
  {
    hide XorOctet;
    forall i | 0 <= i < 8
      ensures XorOctets(XorOctets(m, s), m)[i] == s[i]
    {
      XorOctetComm(m[i], s[i]);
      XorOctetTwice(s[i], m[i]);
    }
  }

  lemma XorNothing(m: octets8)
    ensures XorOctets(m, Nulls(8)) == m
  {
    forall i | 0 <= i < 8
      ensures XorOctets(m, Nulls(8))[i] == m[i]
    {
    }
  }

  /** The guard's view after k records: it has learned the mask and expects exactly k. */
  ghost predicate InStep(mask: octets12, w: Writer13, k: nat) {
    && Number(w.s) == k
    && w.guard == (if k == 0 then FRESH_13 else Guard13(true, mask[4..], k))
  }

  /** The guard sees the bare sequence number, and refuses only the very last one. */
  lemma AdmitInStep(mask: octets12, w: Writer13, k: nat)
    requires InStep(mask, w, k) && k <= MAX_UINT64
    ensures Admit13(w.guard, MaskedNonce(mask, w.s)).1 <==> k < MAX_UINT64
    ensures k < MAX_UINT64 ==> Admit13(w.guard, MaskedNonce(mask, w.s)).0 == Guard13(true, mask[4..], k + 1)
  {
    hide XorOctets, Number;
    var nonce := MaskedNonce(mask, w.s);
    assert nonce[4..] == XorOctets(mask[4..], w.s);
    Unmask(mask[4..], w.s);
    if k == 0 {
      NumberOfNulls(8);
      NumberInjective(w.s, Nulls(8));
      XorNothing(mask[4..]);
    }
  }

  /** k records can be written under one key exactly when k is below 2^64; then the guard is in step. */
  lemma {:induction false} RunInStep(mask: octets12, k: nat)
    ensures After13(mask, k).Some? <==> k <= MAX_UINT64
    ensures k <= MAX_UINT64 ==> InStep(mask, After13(mask, k).value, k)
  {
    hide Admit13, Number, MaskedNonce;
    if k == 0 {
      NumberOfNulls(8);
    } else {
      RunInStep(mask, k - 1);
      if k - 1 <= MAX_UINT64 {
        var w := After13(mask, k - 1).value;
        AdmitInStep(mask, w, k - 1);
        NumberIncrement(w.s);
        Power256Of8();
      }
    }
  }

  /** encrypt's AEAD branch for TLS 1.3: seal under the sequence number, then increment it. */
  method SealRecord13(s: array<octet>, x: XorNonceAEAD, dst: seq<octet>, plaintext: seq<octet>, data: seq<octet>)
    returns (r: Outcome, ok: bool)
    requires x.Valid() && s.Length == 8 && s != x.nonceMask
    modifies s, x.nonceMask, x.aead
    ensures !r.Panicked? ==> x.nonceMask[..] == old(x.nonceMask[..])
    ensures ok <==> !r.Panicked? && Record13(old(x.nonceMask[..]), old(Writer13(s[..], x.aead.Fields()))).Some?
    ensures ok ==>
              Record13(old(x.nonceMask[..]), old(Writer13(s[..], x.aead.Fields()))) == Some(Writer13(s[..], x.aead.Fields()))
    ensures ok ==> r == SealOutcome(x.aead.gcm, dst, MaskedNonce(old(x.nonceMask[..]), old(s[..])), plaintext, data)
  {
    hide SealOutcome, Admit13, MaskedNonce, Increment;
    ghost var mask, w := x.nonceMask[..], Writer13(s[..], x.aead.Fields());
    r := x.Seal(dst, s[..], plaintext, data);
    if r.Panicked? {
      return r, false;
    }
    ok := IncSeq(s);
  }

  datatype Writer12 = Writer12(s: octets8, next: nat)

  function Record12(prefix: seq<octet>, w: Writer12): Option<Writer12>
    requires |prefix| == 4
  {
    var admitted := Admit12(w.next, prefix + w.s);
    if !admitted.1 then None
    else
      match Increment(w.s)
      case None => None
      case Some(t) => Some(Writer12(t, admitted.0))
  }

  function After12(prefix: seq<octet>, k: nat): Option<Writer12>
    requires |prefix| == 4
  {
    if k == 0 then Some(Writer12(Nulls(8), 0))
    else
      match After12(prefix, k - 1)
      case None => None
      case Some(w) => Record12(prefix, w)
  }

  lemma {:induction false} RunInStep12(prefix: seq<octet>, k: nat)
    requires |prefix| == 4
    ensures After12(prefix, k).Some? <==> k <= MAX_UINT64
    ensures k <= MAX_UINT64 ==> Number(After12(prefix, k).value.s) == k == After12(prefix, k).value.next
  {
    hide Number;
    if k == 0 {
      NumberOfNulls(8);
    } else {
      RunInStep12(prefix, k - 1);
      if k - 1 <= MAX_UINT64 {
        var w := After12(prefix, k - 1).value;
        assert (prefix + w.s)[4..] == w.s;
        NumberIncrement(w.s);
        Power256Of8();
      }
    }
  }

  // ---------- The guards under any caller ----------

  /** The guard after some nonces have been tried, whatever they are. */
  function Guards13(nonces: seq<octets12>): Guard13 {
    if nonces == [] then FRESH_13 else Admit13(Guards13(nonces[..|nonces| - 1]), nonces[|nonces| - 1]).0
  }

  function Guards12(nonces: seq<octets12>): nat {
    if nonces == [] then 0 else Admit12(Guards12(nonces[..|nonces| - 1]), nonces[|nonces| - 1]).0
  }

  /** The j-th nonce is let through. */
  predicate Admitted13(nonces: seq<octets12>, j: nat)
    requires j < |nonces|
  {
    Admit13(Guards13(nonces[..j]), nonces[j]).1
  }

  predicate Admitted12(nonces: seq<octets12>, j: nat)
    requires j < |nonces|
  {
    Admit12(Guards12(nonces[..j]), nonces[j]).1
  }

  /** The counter of the j-th nonce: its last eight bytes, less the mask that the first nonce shows. */
  function Counter13(nonces: seq<octets12>, j: nat): nat
    requires j < |nonces|
  {
    Number(XorOctets(nonces[j][4..], nonces[0][4..]))
  }

  function Counter12(nonces: seq<octets12>, j: nat): nat
    requires j < |nonces|
  {
    Number(nonces[j][4..])
  }

  /** next is just above the counters let through so far. */
  ghost predicate JustAbove(counters: seq<nat>, admitted: seq<bool>, next: nat)
    requires |counters| == |admitted|
  {
    && (forall i :: 0 <= i < |counters| && admitted[i] ==> counters[i] < next)
    && (next > 0 ==> exists i :: 0 <= i < |counters| && admitted[i] && counters[i] == next - 1)
  }

  /** The numbers and decisions for the nonces so far. */
  ghost function Counters13(nonces: seq<octets12>, n: nat): seq<nat>
    requires n <= |nonces|
  {
    seq(n, i requires 0 <= i < n => Counter13(nonces, i))
  }

  ghost function Decisions13(nonces: seq<octets12>, n: nat): seq<bool>
    requires n <= |nonces|
  {
    seq(n, i requires 0 <= i < n => Admitted13(nonces, i))
  }

  ghost function Counters12(nonces: seq<octets12>, n: nat): seq<nat>
    requires n <= |nonces|
  {
    seq(n, i requires 0 <= i < n => Counter12(nonces, i))
  }

  ghost function Decisions12(nonces: seq<octets12>, n: nat): seq<bool>
    requires n <= |nonces|
  {
    seq(n, i requires 0 <= i < n => Admitted12(nonces, i))
  }

  /** One more number is let through when it is not below next, and then raises it. */
  lemma StillAbove(counters: seq<nat>, admitted: seq<bool>, next: nat, c: nat, ok: bool)
    requires |counters| == |admitted| && JustAbove(counters, admitted, next) && (ok ==> c >= next)
    ensures JustAbove(counters + [c], admitted + [ok], if ok then c + 1 else next)
    ensures c >= next <==> forall i :: 0 <= i < |counters| && admitted[i] ==> counters[i] < c
  {
    var cs, oks := counters + [c], admitted + [ok];
    if ok {
      assert oks[|counters|] && cs[|counters|] == c;
    } else if next > 0 {
      var i :| 0 <= i < |counters| && admitted[i] && counters[i] == next - 1;
      assert oks[i] && cs[i] == next - 1;
    }
  }

  lemma {:induction false} GuardFollows13(nonces: seq<octets12>, n: nat)
    requires n <= |nonces|
    ensures var g := Guards13(nonces[..n]);
            && (n > 0 ==> g.ready && g.mask == nonces[0][4..])
            && (n == 0 ==> g == FRESH_13)
            && JustAbove(Counters13(nonces, n), Decisions13(nonces, n), g.next)
    decreases n
  {
    hide Number, XorOctets, JustAbove;
    if n == 0 {
      assert nonces[..0] == [];
      NothingAbove();
      assert Counters13(nonces, 0) == [] && Decisions13(nonces, 0) == [];
    } else {
      var m := n - 1;
      GuardFollows13(nonces, m);
      assert nonces[..n][..m] == nonces[..m] && nonces[..n][m] == nonces[m];
      var g, c, ok := Guards13(nonces[..m]), Counter13(nonces, m), Admitted13(nonces, m);
      StillAbove(Counters13(nonces, m), Decisions13(nonces, m), g.next, c, ok);
      assert Counters13(nonces, n) == Counters13(nonces, m) + [c];
      assert Decisions13(nonces, n) == Decisions13(nonces, m) + [ok];
    }
  }

  lemma NothingAbove()
    ensures JustAbove([], [], 0)
  {
  }

  /**
   * Whatever nonces a caller tries under TLS 1.3, one is let through exactly when its counter is above all that were let
   * through before, and is not the last one; so no nonce is ever let through twice.
   */
  lemma OnlyUpwards13(nonces: seq<octets12>, j: nat)
    requires j < |nonces|
    ensures Admitted13(nonces, j) <==>
              && Counter13(nonces, j) != MAX_UINT64
              && forall i :: 0 <= i < j && Admitted13(nonces, i) ==> Counter13(nonces, i) < Counter13(nonces, j)
    ensures Admitted13(nonces, j) ==> forall i :: 0 <= i < j && Admitted13(nonces, i) ==> nonces[i] != nonces[j]
  {
    hide Number, XorOctets, JustAbove, Guards13;
    GuardFollows13(nonces, j);
    var counters, admitted := Counters13(nonces, j), Decisions13(nonces, j);
    var g, c := Guards13(nonces[..j]), Counter13(nonces, j);
    StillAbove(counters, admitted, g.next, c, c >= g.next);
    assert forall i :: 0 <= i < j ==> counters[i] == Counter13(nonces, i) && admitted[i] == Admitted13(nonces, i);
    if j == 0 {
      FirstCounter(nonces[0][4..]);
    }
  }

  lemma FirstCounter(mask: octets8)
    ensures Number(XorOctets(mask, mask)) == 0
  {
    hide Number;
    var x := XorOctets(mask, mask);
    forall i | 0 <= i < 8
      ensures x[i] == 0
    {
      XorOctetSelf(mask[i]);
    }
    assert x == Nulls(8);
    NumberOfNulls(8);
  }

  lemma XorOctetSelf(a: octet)
    ensures XorOctet(a, a) == 0
  {
  }

  lemma {:induction false} GuardFollows12(nonces: seq<octets12>, n: nat)
    requires n <= |nonces|
    ensures JustAbove(Counters12(nonces, n), Decisions12(nonces, n), Guards12(nonces[..n]))
    decreases n
  {
    hide Number, JustAbove;
    if n == 0 {
      assert nonces[..0] == [];
      NothingAbove();
      assert Counters12(nonces, 0) == [] && Decisions12(nonces, 0) == [];
    } else {
      var m := n - 1;
      GuardFollows12(nonces, m);
      assert nonces[..n][..m] == nonces[..m] && nonces[..n][m] == nonces[m];
      var c, ok := Counter12(nonces, m), Admitted12(nonces, m);
      StillAbove(Counters12(nonces, m), Decisions12(nonces, m), Guards12(nonces[..m]), c, ok);
      assert Counters12(nonces, n) == Counters12(nonces, m) + [c];
      assert Decisions12(nonces, n) == Decisions12(nonces, m) + [ok];
    }
  }

  /** The same under TLS 1.2, where the counter is the explicit nonce. */
  lemma OnlyUpwards12(nonces: seq<octets12>, j: nat)
    requires j < |nonces|
    ensures Admitted12(nonces, j) <==>
              && Counter12(nonces, j) != MAX_UINT64
              && forall i :: 0 <= i < j && Admitted12(nonces, i) ==> Counter12(nonces, i) < Counter12(nonces, j)
    ensures Admitted12(nonces, j) ==> forall i :: 0 <= i < j && Admitted12(nonces, i) ==> nonces[i] != nonces[j]
  {
    hide Number, JustAbove, Guards12;
    GuardFollows12(nonces, j);
    var counters, admitted := Counters12(nonces, j), Decisions12(nonces, j);
    StillAbove(counters, admitted, Guards12(nonces[..j]), Counter12(nonces, j), Counter12(nonces, j) >= Guards12(nonces[..j]));
    assert forall i :: 0 <= i < j ==> counters[i] == Counter12(nonces, i) && admitted[i] == Admitted12(nonces, i);
  }

  // ---------- The AES inputs of one key ----------

  /** The i-th block a record feeds to the cipher: the tag mask's for i = 0, then the key stream's. */
  function InputBlock(nonce: octets12, i: nat): octets16 {
    Inc32Times(nonce + [0, 0, 0, 1], i)
  }

  lemma {:induction false} Inc32TimesLast(ctr: octets16, n: nat)
    ensures Inc32Times(ctr, n + 1) == Inc32(Inc32Times(ctr, n))
    decreases n
  {
    hide Inc32;
    if n > 0 {
      Inc32TimesLast(Inc32(ctr), n - 1);
    }
  }

  // The four cases of a carry through a 32-bit word.

  lemma NoCarry(a: octet, b: octet, c: octet, d: octet)
    requires d != 0xFF
    ensures var w := ((a as bv32 << 24) | (b as bv32 << 16) | (c as bv32 << 8) | d as bv32) + 1;
            && (w >> 24) as octet == a
            && ((w >> 16) & 0xFF) as octet == b
            && ((w >> 8) & 0xFF) as octet == c
            && (w & 0xFF) as octet == d + 1
  {
  }

  lemma CarryOnce(a: octet, b: octet, c: octet, d: octet)
    requires d == 0xFF && c != 0xFF
    ensures var w := ((a as bv32 << 24) | (b as bv32 << 16) | (c as bv32 << 8) | d as bv32) + 1;
            && (w >> 24) as octet == a
            && ((w >> 16) & 0xFF) as octet == b
            && ((w >> 8) & 0xFF) as octet == c + 1
            && (w & 0xFF) as octet == 0
  {
  }

  lemma CarryTwice(a: octet, b: octet, c: octet, d: octet)
    requires d == c == 0xFF && b != 0xFF
    ensures var w := ((a as bv32 << 24) | (b as bv32 << 16) | (c as bv32 << 8) | d as bv32) + 1;
            && (w >> 24) as octet == a
            && ((w >> 16) & 0xFF) as octet == b + 1
            && ((w >> 8) & 0xFF) as octet == 0
            && (w & 0xFF) as octet == 0
  {
  }

  lemma CarryThrice(a: octet, b: octet, c: octet, d: octet)
    requires d == c == b == 0xFF && a != 0xFF
    ensures var w := ((a as bv32 << 24) | (b as bv32 << 16) | (c as bv32 << 8) | d as bv32) + 1;
            && (w >> 24) as octet == a + 1
            && ((w >> 16) & 0xFF) as octet == 0
            && ((w >> 8) & 0xFF) as octet == 0
            && (w & 0xFF) as octet == 0
  {
  }

  /** One more as a 32-bit word, which wraps. */
  function NextWord(s: seq<octet>): seq<octet>
    requires |s| == 4
  {
    PutUint32(Uint32(s) + 1)
  }

  lemma CarryWord(a: octet, b: octet, c: octet, d: octet)
    ensures var p := NextWord([a, b, c, d]);
            && (d != 0xFF ==> p == [a, b, c, NextOctet(d)])
            && (d == 0xFF && c != 0xFF ==> p == [a, b, NextOctet(c), 0])
            && (d == c == 0xFF && b != 0xFF ==> p == [a, NextOctet(b), 0, 0])
            && (d == c == b == 0xFF && a != 0xFF ==> p == [NextOctet(a), 0, 0, 0])
  {
    if d != 0xFF {
      NoCarry(a, b, c, d);
    } else if c != 0xFF {
      CarryOnce(a, b, c, d);
    } else if b != 0xFF {
      CarryTwice(a, b, c, d);
    } else if a != 0xFF {
      CarryThrice(a, b, c, d);
    }
  }

  lemma IncrementLast(s: seq<octet>, d: octet)
    ensures d != 0xFF ==> Increment(s + [d]) == Some(s + [NextOctet(d)])
    ensures d == 0xFF && Increment(s).Some? ==> Increment(s + [d]) == Some(Increment(s).value + [0])
  {
    assert (s + [d])[..|s|] == s;
  }

  lemma IncrementFour(a: octet, b: octet, c: octet, d: octet)
    ensures var t := Increment([a] + [b] + [c] + [d]);
            && (d != 0xFF ==> t == Some([a] + [b] + [c] + [NextOctet(d)]))
            && (d == 0xFF && c != 0xFF ==> t == Some([a] + [b] + [NextOctet(c)] + [0]))
            && (d == c == 0xFF && b != 0xFF ==> t == Some([a] + [NextOctet(b)] + [0] + [0]))
            && (d == c == b == 0xFF && a != 0xFF ==> t == Some([NextOctet(a)] + [0] + [0] + [0]))
  {
    hide Increment, NextOctet;
    IncrementLast([a] + [b] + [c], d);
    IncrementLast([a] + [b], c);
    IncrementLast([a], b);
    IncrementLast([], a);
    assert [] + [a] == [a] && [] + [NextOctet(a)] == [NextOctet(a)];
  }

  lemma FourOctets(a: octet, b: octet, c: octet, d: octet)
    ensures [a] + [b] + [c] + [d] == [a, b, c, d]
  {
  }

  lemma IncrementOctets(a: octet, b: octet, c: octet, d: octet)
    requires !(a == b == c == d == 0xFF)
    ensures Increment([a, b, c, d]) == Some(NextWord([a, b, c, d]))
  {
    hide *;
    FourOctets(a, b, c, d);
    CarryWord(a, b, c, d);
    IncrementFour(a, b, c, d);
    if d != 0xFF {
      FourOctets(a, b, c, NextOctet(d));
    } else if c != 0xFF {
      FourOctets(a, b, NextOctet(c), 0);
    } else if b != 0xFF {
      FourOctets(a, NextOctet(b), 0, 0);
    } else {
      FourOctets(NextOctet(a), 0, 0, 0);
    }
  }

  /** Inc32 is the same increment as that of the sequence number, while it does not wrap. */
  lemma IncrementWord(s: seq<octet>)
    requires |s| == 4 && s != [0xFF, 0xFF, 0xFF, 0xFF]
    ensures Increment(s) == Some(NextWord(s))
  {
    hide *;
    assert s == [s[0], s[1], s[2], s[3]];
    IncrementOctets(s[0], s[1], s[2], s[3]);
  }

  lemma NumberLast(s: seq<octet>, d: octet)
    ensures Number(s + [d]) == Number(s) * 256 + d as nat
  {
    assert (s + [d])[..|s|] == s;
  }

  lemma NumberWord(a: octet, b: octet, c: octet, d: octet)
    ensures Number([a, b, c, d]) == ((a as nat * 256 + b as nat) * 256 + c as nat) * 256 + d as nat
  {
    hide Number;
    assert [a, b, c, d] == [a, b, c] + [d] && [a, b, c] == [a, b] + [c] && [a, b] == [a] + [b] && [a] == [] + [a];
    NumberOfNulls(0);
    assert Nulls(0) == [];
    NumberLast([], a);
    NumberLast([a], b);
    NumberLast([a, b], c);
    NumberLast([a, b, c], d);
  }

  /** Below the message limit the 32-bit counter does not wrap: block i carries the number i + 1. */
  lemma {:induction false} InputBlockValue(nonce: octets12, i: nat)
    requires i <= 0xFFFF_FFFE
    ensures InputBlock(nonce, i)[..12] == nonce && Number(InputBlock(nonce, i)[12..]) == i + 1
    decreases i
  {
    hide Uint32, PutUint32, Number;
    if i == 0 {
      NumberWord(0, 0, 0, 1);
      assert InputBlock(nonce, 0)[12..] == [0, 0, 0, 1];
    } else {
      InputBlockValue(nonce, i - 1);
      Inc32TimesLast(nonce + [0, 0, 0, 1], i - 1);
      var previous := InputBlock(nonce, i - 1);
      NumberWord(0xFF, 0xFF, 0xFF, 0xFF);
      IncrementWord(previous[12..]);
      NumberIncrement(previous[12..]);
      assert InputBlock(nonce, i) == Inc32(previous);
    }
  }

  /** Two input blocks are equal only if they are the same block of the same nonce; none is the zero block. */
  lemma InputBlocksDistinct(nonce: octets12, i: nat, nonce': octets12, i': nat)
    requires i <= 0xFFFF_FFFE && i' <= 0xFFFF_FFFE
    ensures InputBlock(nonce, i) == InputBlock(nonce', i') ==> nonce == nonce' && i == i'
    ensures InputBlock(nonce, i) != Nulls(16)
  {
    hide InputBlock, Number;
    InputBlockValue(nonce, i);
    InputBlockValue(nonce', i');
    assert Nulls(16)[12..] == Nulls(4);
    NumberOfNulls(4);
  }

  /** The nonce of record k (counted from 0) under a TLS 1.3 key. */
  function NonceOfRecord13(mask: octets12, k: nat): octets12
    requires After13(mask, k).Some?
  {
    MaskedNonce(mask, After13(mask, k).value.s)
  }

  function NonceOfRecord12(prefix: seq<octet>, k: nat): octets12
    requires |prefix| == 4 && After12(prefix, k).Some?
  {
    prefix + After12(prefix, k).value.s
  }

  /** The largest block index a record of n plaintext bytes reaches. */
  lemma MessageLimit(n: nat)
    requires n <= MAX_PLAINTEXT
    ensures Blocks(n) <= 0xFFFF_FFFE
  {
  }

  lemma NoncesDistinct13(mask: octets12, k: nat, k': nat)
    requires k < MAX_UINT64 && k' < MAX_UINT64
    ensures After13(mask, k).Some? && After13(mask, k').Some?
    ensures NonceOfRecord13(mask, k) == NonceOfRecord13(mask, k') ==> k == k'
  {
    hide Number, XorOctets, Admit13;
    RunInStep(mask, k);
    RunInStep(mask, k');
    var s, s' := After13(mask, k).value.s, After13(mask, k').value.s;
    Unmask(mask[4..], s);
    Unmask(mask[4..], s');
    assert MaskedNonce(mask, s)[4..] == XorOctets(mask[4..], s);
    assert MaskedNonce(mask, s')[4..] == XorOctets(mask[4..], s');
  }

  /**
   * Over the whole life of a TLS 1.3 AES-GCM key, whatever the record lengths: the blocks given to AES for
   * tag masks and key streams are pairwise distinct, and none is the zero block that gives the hash key.
   */
  lemma KeyLife13(mask: octets12, lengths: seq<nat>, k: nat, i: nat, k': nat, i': nat)
    requires |lengths| <= MAX_UINT64 && forall j :: 0 <= j < |lengths| ==> lengths[j] <= MAX_PLAINTEXT
    requires k < |lengths| && i <= Blocks(lengths[k]) && k' < |lengths| && i' <= Blocks(lengths[k'])
    ensures After13(mask, k).Some? && After13(mask, k').Some?
    ensures InputBlock(NonceOfRecord13(mask, k), i) == InputBlock(NonceOfRecord13(mask, k'), i') <==> (k, i) == (k', i')
    ensures InputBlock(NonceOfRecord13(mask, k), i) != Nulls(16)
  {
    hide InputBlock, NonceOfRecord13, After13;
    NoncesDistinct13(mask, k, k');
    MessageLimit(lengths[k]);
    MessageLimit(lengths[k']);
    InputBlocksDistinct(NonceOfRecord13(mask, k), i, NonceOfRecord13(mask, k'), i');
  }

  /** The same for a TLS 1.2 key, whose explicit nonces are the sequence numbers. */
  lemma KeyLife12(prefix: seq<octet>, lengths: seq<nat>, k: nat, i: nat, k': nat, i': nat)
    requires |prefix| == 4 && |lengths| <= MAX_UINT64 && forall j :: 0 <= j < |lengths| ==> lengths[j] <= MAX_PLAINTEXT
    requires k < |lengths| && i <= Blocks(lengths[k]) && k' < |lengths| && i' <= Blocks(lengths[k'])
    ensures After12(prefix, k).Some? && After12(prefix, k').Some?
    ensures InputBlock(NonceOfRecord12(prefix, k), i) == InputBlock(NonceOfRecord12(prefix, k'), i')
       <==> (k, i) == (k', i')
    ensures InputBlock(NonceOfRecord12(prefix, k), i) != Nulls(16)
  {
    hide InputBlock, Number, Record12;
    RunInStep12(prefix, k);
    RunInStep12(prefix, k');
    assert NonceOfRecord12(prefix, k)[4..] == After12(prefix, k).value.s;
    assert NonceOfRecord12(prefix, k')[4..] == After12(prefix, k').value.s;
    MessageLimit(lengths[k]);
    MessageLimit(lengths[k']);
    InputBlocksDistinct(NonceOfRecord12(prefix, k), i, NonceOfRecord12(prefix, k'), i');
  }

  // ---------- Those blocks are all the cipher is asked for ----------

  lemma {:induction false} GctrReads(E: blockCipher, F: blockCipher, ctr: octets16, x: seq<octet>)
    requires forall j: nat :: j < Blocks(|x|) ==> E(Inc32Times(ctr, j)) == F(Inc32Times(ctr, j))
    ensures Gctr(E, ctr, x) == Gctr(F, ctr, x)
    decreases |x|
  {
    hide Inc32, XorOctets;
    assert x != [] ==> E(Inc32Times(ctr, 0)) == F(Inc32Times(ctr, 0));
    if |x| > 16 {
      forall j: nat | j < Blocks(|x| - 16)
        ensures E(Inc32Times(Inc32(ctr), j)) == F(Inc32Times(Inc32(ctr), j))
      {
        assert Inc32Times(ctr, j + 1) == Inc32Times(Inc32(ctr), j);
      }
      GctrReads(E, F, Inc32(ctr), x[16..]);
    }
  }

  /** Sealing consults the cipher only at the zero block and at the record's input blocks. */
  lemma SealReads(E: blockCipher, F: blockCipher, tagSize: nat, nonce: octets12, p: seq<octet>, data: seq<octet>)
    requires tagSize <= 16 && E(Nulls(16)) == F(Nulls(16))
    requires forall i: nat :: i <= Blocks(|p|) ==> E(InputBlock(nonce, i)) == F(InputBlock(nonce, i))
    ensures AuthenticatedEncryption(E, tagSize, nonce, p, data) == AuthenticatedEncryption(F, tagSize, nonce, p, data)
  {
    hide Inc32, Gctr, GHASH, TagInput;
    var J := PreCounter(HashKey(E), nonce);
    assert J == nonce + [0, 0, 0, 1] == PreCounter(HashKey(F), nonce);
    forall j: nat | j < Blocks(|p|)
      ensures E(Inc32Times(Inc32(J), j)) == F(Inc32Times(Inc32(J), j))
    {
      assert InputBlock(nonce, j + 1) == Inc32Times(Inc32(J), j);
    }
    GctrReads(E, F, Inc32(J), p);
    var c := Gctr(E, Inc32(J), p);
    assert E(InputBlock(nonce, 0)) == F(InputBlock(nonce, 0));
    GctrReads(E, F, J, GHASH(HashKey(E), TagInput(data, c)));
  }

  /**
   * Every byte that is sealed under a 96-bit nonce: byte i of the text under block i / 16 + 1 of the key stream, and the
   * tag, which is GHASH of the authenticated text, under block 0.
   */
  lemma SealedBytes(E: blockCipher, tagSize: nat, nonce: octets12, p: seq<octet>, data: seq<octet>)
    requires tagSize <= 16
    ensures var sealed := AuthenticatedEncryption(E, tagSize, nonce, p, data);
            var S := GHASH(E(Nulls(16)), TagInput(data, sealed[..|p|]));
            && (forall i: nat :: i < |p| ==> sealed[i] == XorOctet(p[i], E(InputBlock(nonce, i / 16 + 1))[i % 16]))
            && (forall j: nat :: j < tagSize ==> sealed[|p| + j] == XorOctet(S[j], E(InputBlock(nonce, 0))[j]))
  {
    hide Inc32, Gctr, GHASH, TagInput, XorOctet;
    var sealed := AuthenticatedEncryption(E, tagSize, nonce, p, data);
    var J := PreCounter(HashKey(E), nonce);
    assert J == nonce + [0, 0, 0, 1];
    var c := Gctr(E, Inc32(J), p);
    assert sealed[..|p|] == c;
    forall i: nat | i < |p|
      ensures sealed[i] == XorOctet(p[i], E(InputBlock(nonce, i / 16 + 1))[i % 16])
    {
      KeyStreamByte(E, Inc32(J), p, i);
      assert InputBlock(nonce, i / 16 + 1) == Inc32Times(Inc32(J), i / 16);
      assert sealed[i] == c[i];
    }
    var S := GHASH(HashKey(E), TagInput(data, c));
    forall j: nat | j < tagSize
      ensures sealed[|p| + j] == XorOctet(S[j], E(InputBlock(nonce, 0))[j])
    {
      KeyStreamByte(E, J, S, j);
      assert InputBlock(nonce, 0) == Inc32Times(J, 0) == J;
      assert sealed[|p| + j] == FullTag(E, J, data, c)[j];
    }
  }
}
