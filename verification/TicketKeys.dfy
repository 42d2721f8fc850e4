/** Session ticket keys: automatic rotation (common.go), and tickets sealed and opened with them (ticket.go). */
module TicketKeys {
  import opened BigEndian
  import opened Records
  import opened Wrappers

  /** Times and durations are nanoseconds. */
  const HOUR := 3_600_000_000_000
  const TICKET_KEY_LIFETIME := 7 * 24 * HOUR
  const TICKET_KEY_ROTATION := 24 * HOUR
  const BLOCK_SIZE := 16
  const MAC_SIZE := 32

  datatype TicketKey = TicketKey(aesKey: octets, hmacKey: octets, created: int)

  /** The key material that random bytes expand to. */
  datatype Material = Material(aesKey: octets, hmacKey: octets)

  /** clock(i) is the result of the i-th reading of the clock. */
  ghost predicate Monotone(clock: nat -> int) {
    forall i: nat, j: nat :: i <= j ==> clock(i) <= clock(j)
  }

  // ---------- Rotation as a function ----------

  /** The head key needs no replacement at the reading t of the clock. */
  predicate Fresh(keys: seq<TicketKey>, clock: nat -> int, t: nat) {
    keys != [] && clock(t) - keys[0].created < TICKET_KEY_ROTATION
  }

  /** The keys that have not expired, each looked at one reading of the clock later. */
  function Survivors(keys: seq<TicketKey>, clock: nat -> int, t: nat): seq<TicketKey> {
    if keys == [] then []
    else (if clock(t) - keys[0].created < TICKET_KEY_LIFETIME then [keys[0]] else []) + Survivors(keys[1..], clock, t + 1)
  }

  function NewKey(m: Material, now: int): TicketKey { TicketKey(m.aesKey, m.hmacKey, now) }

  /** The reading after the one that finds the head key stale; without keys there is nothing to look at. */
  function AfterCheck(keys: seq<TicketKey>, t: nat): nat { if keys == [] then t else t + 1 }

  /** The keys after a call that looks at the head key, if there is one, at the reading t of the clock. */
  function Rotated(keys: seq<TicketKey>, clock: nat -> int, t: nat, m: Material): seq<TicketKey> {
    if Fresh(keys, clock, t) then keys
    else [NewKey(m, clock(AfterCheck(keys, t)))] + Survivors(keys, clock, AfterCheck(keys, t) + 1)
  }

  /** The next reading of the clock after such a call. */
  function NextReading(keys: seq<TicketKey>, clock: nat -> int, t: nat): nat {
    if Fresh(keys, clock, t) then t + 1 else AfterCheck(keys, t) + 1 + |keys|
  }

  // ---------- What every rotation keeps ----------

  /** Newest first, at least a day apart, none from the future. */
  ghost predicate Spaced(keys: seq<TicketKey>, now: int) {
    && (forall i :: 0 <= i < |keys| ==> keys[i].created <= now)
    && (forall i, j :: 0 <= i < j < |keys| ==> keys[i].created - keys[j].created >= TICKET_KEY_ROTATION)
  }

  lemma {:induction false} SurvivorsArePrefix(keys: seq<TicketKey>, clock: nat -> int, t: nat) returns (n: nat)
    requires Monotone(clock) && Spaced(keys, clock(t))
    ensures n <= |keys| && Survivors(keys, clock, t) == keys[..n]
    ensures forall i :: 0 <= i < |keys| ==> (i < n <==> clock(t + i) - keys[i].created < TICKET_KEY_LIFETIME)
    decreases |keys|
  {
    if keys == [] {
      n := 0;
    } else {
      var rest := keys[1..];
      assert clock(t) <= clock(t + 1);
      forall i, j | 0 <= i < j < |rest|
        ensures rest[i].created - rest[j].created >= TICKET_KEY_ROTATION
      {
        assert rest[i] == keys[i + 1] && rest[j] == keys[j + 1];
      }
      var m := SurvivorsArePrefix(rest, clock, t + 1);
      if clock(t) - keys[0].created < TICKET_KEY_LIFETIME {
        n := m + 1;
        assert keys[..n] == [keys[0]] + rest[..m];
        forall i | 0 <= i < |keys|
          ensures i < n <==> clock(t + i) - keys[i].created < TICKET_KEY_LIFETIME
        {
          if i > 0 {
            assert keys[i] == rest[i - 1];
          }
        }
      } else {
        n := 0;
        forall i | 0 <= i < |keys|
          ensures clock(t + i) - keys[i].created >= TICKET_KEY_LIFETIME
        {
          assert clock(t) <= clock(t + i);
        }
        if |rest| > 0 {
          assert rest[0] == keys[1];
        }
      }
    }
  }

  /** A key i places behind one created now is at least i days old, so only six can be left behind it. */
  lemma SpacingCounts(keys: seq<TicketKey>, now: int, i: nat)
    requires Spaced(keys, now) && i < |keys|
    ensures keys[0].created - keys[i].created >= i * TICKET_KEY_ROTATION
    decreases i
  {
    if i > 0 {
      SpacingCounts(keys, now, i - 1);
    }
  }

  /** Every call leaves the keys newest first and a day apart, at most seven, with a head less than a day old. */
  lemma RotationKeeps(keys: seq<TicketKey>, clock: nat -> int, t: nat, m: Material)
    requires Monotone(clock) && Spaced(keys, clock(t)) && |keys| <= 7
    ensures var keys' := Rotated(keys, clock, t, m);
            && Spaced(keys', clock(NextReading(keys, clock, t)))
            && 1 <= |keys'| <= 7
            && clock(t) - keys'[0].created < TICKET_KEY_ROTATION
  {
    var last, now := NextReading(keys, clock, t), AfterCheck(keys, t);
    assert clock(t) <= clock(last);
    if !Fresh(keys, clock, t) {
      assert clock(t) <= clock(now) <= clock(now + 1) <= clock(last);
      var n := SurvivorsArePrefix(keys, clock, now + 1);
      if |keys| == 7 {
        SpacingCounts(keys, clock(t), 6);
        assert clock(t) <= clock(now + 1 + 6);
        assert n <= 6;
      }
    }
  }

  // ---------- Runs ----------

  /** A call of ticketKeys: its first reading of the clock, and the key material it would use. */
  datatype Call = Call(start: nat, material: Material)

  /** The keys after the first n calls. */
  function KeysAfter(clock: nat -> int, calls: seq<Call>, n: nat): seq<TicketKey>
    requires n <= |calls|
  {
    if n == 0 then [] else Rotated(KeysAfter(clock, calls, n - 1), clock, calls[n - 1].start, calls[n - 1].material)
  }

  /** Calls take the lock one after the other. */
  ghost predicate InOrder(clock: nat -> int, calls: seq<Call>) {
    forall n :: 0 < n < |calls| ==>
      NextReading(KeysAfter(clock, calls, n - 1), clock, calls[n - 1].start) <= calls[n].start
  }

  /** In every run: seven keys at most, newest first and a day apart, the head fresh at the call. */
  lemma {:induction false} RunKeeps(clock: nat -> int, calls: seq<Call>, n: nat)
    requires Monotone(clock) && InOrder(clock, calls) && 0 < n <= |calls|
    ensures var keys := KeysAfter(clock, calls, n);
            && 1 <= |keys| <= 7
            && clock(calls[n - 1].start) - keys[0].created < TICKET_KEY_ROTATION
            && Spaced(keys, clock(NextReading(KeysAfter(clock, calls, n - 1), clock, calls[n - 1].start)))
  {
    hide Rotated, Fresh, NextReading, Monotone, InOrder, Spaced;
    var t := calls[n - 1].start;
    var keys := KeysAfter(clock, calls, n - 1);
    if n > 1 {
      RunKeeps(clock, calls, n - 1);
      var before := NextReading(KeysAfter(clock, calls, n - 2), clock, calls[n - 2].start);
      InOrderAt(clock, calls, n - 1);
      Later(clock, before, t);
      SpacedLater(keys, clock(before), clock(t));
    } else {
      NoKeysSpaced(clock(t));
    }
    RotationKeeps(keys, clock, t, calls[n - 1].material);
  }

  lemma NoKeysSpaced(now: int)
    ensures Spaced([], now)
  {
  }

  /** A key is still there after a call whose last reading of the clock finds it less than seven days old. */
  lemma KeySurvives(keys: seq<TicketKey>, clock: nat -> int, t: nat, m: Material, k: TicketKey)
    requires Monotone(clock) && Spaced(keys, clock(t)) && k in keys
    requires clock(NextReading(keys, clock, t)) - k.created < TICKET_KEY_LIFETIME
    ensures k in Rotated(keys, clock, t, m)
  {
    hide Survivors, NewKey;
    if !Fresh(keys, clock, t) {
      var now := AfterCheck(keys, t);
      assert clock(t) <= clock(now + 1);
      var n := SurvivorsArePrefix(keys, clock, now + 1);
      var i :| 0 <= i < |keys| && keys[i] == k;
      assert clock(now + 1 + i) <= clock(now + 1 + |keys|);
      assert keys[..n][i] == k;
    }
  }

  /**
   * A ticket sealed at call e stays sealed under a kept key for six days: the head key of call e is among the keys of
   * every later call that ends within six days of it.
   */
  lemma {:induction false} HeadKeptSixDays(clock: nat -> int, calls: seq<Call>, e: nat, n: nat)
    requires Monotone(clock) && InOrder(clock, calls) && 0 < e <= n <= |calls|
    requires clock(NextReading(KeysAfter(clock, calls, n - 1), clock, calls[n - 1].start))
             <= clock(calls[e - 1].start) + 6 * 24 * HOUR
    ensures KeysAfter(clock, calls, e) != [] && KeysAfter(clock, calls, e)[0] in KeysAfter(clock, calls, n)
    decreases n
  {
    hide Rotated, Fresh, NextReading, Monotone, InOrder, Spaced;
    RunKeeps(clock, calls, e);
    if n > e {
      var k := KeysAfter(clock, calls, e)[0];
      var keys := KeysAfter(clock, calls, n - 1);
      var t := calls[n - 1].start;
      var before := NextReading(KeysAfter(clock, calls, n - 2), clock, calls[n - 2].start);
      RunKeeps(clock, calls, n - 1);
      InOrderAt(clock, calls, n - 1);
      LaterReading(keys, clock, t);
      Later(clock, before, t);
      Later(clock, t, NextReading(keys, clock, t));
      SpacedLater(keys, clock(before), clock(t));
      HeadKeptSixDays(clock, calls, e, n - 1);
      KeySurvives(keys, clock, t, calls[n - 1].material, k);
    }
  }

  lemma Later(clock: nat -> int, i: nat, j: nat)
    requires Monotone(clock) && i <= j
    ensures clock(i) <= clock(j)
  {
  }

  lemma InOrderAt(clock: nat -> int, calls: seq<Call>, n: nat)
    requires InOrder(clock, calls) && 0 < n < |calls|
    ensures NextReading(KeysAfter(clock, calls, n - 1), clock, calls[n - 1].start) <= calls[n].start
  {
  }

  lemma SpacedLater(keys: seq<TicketKey>, now: int, later: int)
    requires Spaced(keys, now) && now <= later
    ensures Spaced(keys, later)
  {
  }

  lemma LaterReading(keys: seq<TicketKey>, clock: nat -> int, t: nat)
    ensures t <= NextReading(keys, clock, t)
  {
  }

  // ---------- The rotation as it runs ----------

  class Config {
    var sessionTicketsDisabled: bool
    var sessionTicketKeys: seq<TicketKey>
    var autoSessionTicketKeys: seq<TicketKey>

    constructor ()
      ensures !sessionTicketsDisabled && sessionTicketKeys == autoSessionTicketKeys == []
    {
      sessionTicketsDisabled, sessionTicketKeys, autoSessionTicketKeys := false, [], [];
    }

    /** Puts a new key in front and drops the expired ones. */
    method Replace(clock: nat -> int, start: nat, material: Material) returns (next: nat)
      modifies `autoSessionTicketKeys
      ensures autoSessionTicketKeys == [NewKey(material, clock(start))] + Survivors(old(autoSessionTicketKeys), clock, start + 1)
      ensures next == start + 1 + |old(autoSessionTicketKeys)|
    {
      ghost var before := autoSessionTicketKeys;
      var valid := [NewKey(material, clock(start))];
      next := start + 1;
      for i := 0 to |autoSessionTicketKeys|
        invariant autoSessionTicketKeys == before && next == start + 1 + i
        invariant valid + Survivors(before[i..], clock, next)
               == [NewKey(material, clock(start))] + Survivors(before, clock, start + 1)
      {
        var k := autoSessionTicketKeys[i];
        assert before[i..][0] == k && before[i..][1..] == before[i + 1..];
        if clock(next) - k.created < TICKET_KEY_LIFETIME {
          valid := valid + [k];
        }
        next := next + 1;
      }
      autoSessionTicketKeys := valid;
    }

    /**
     * ticketKeys without a per-client configuration: checked is the reading of the clock that decided, and next the
     * one that comes after the call.
     */
    method TicketKeys(clock: nat -> int, start: nat, material: Material)
      returns (keys: seq<TicketKey>, next: nat, ghost checked: nat)
      modifies `autoSessionTicketKeys
      ensures sessionTicketsDisabled ==> keys == []
      ensures !sessionTicketsDisabled && sessionTicketKeys != [] ==> keys == sessionTicketKeys
      ensures sessionTicketsDisabled || sessionTicketKeys != [] ==> autoSessionTicketKeys == old(autoSessionTicketKeys)
      ensures !sessionTicketsDisabled && sessionTicketKeys == [] ==>
                && keys == autoSessionTicketKeys
                && start <= checked <= start + 1
                && keys == Rotated(old(autoSessionTicketKeys), clock, checked, material)
                && next == NextReading(old(autoSessionTicketKeys), clock, checked)
    {
      hide Survivors;
      next, checked := start, start;
      if sessionTicketsDisabled {
        return [], next, checked;
      }
      if |sessionTicketKeys| != 0 {
        return sessionTicketKeys, next, checked;
      }
      if |autoSessionTicketKeys| > 0 {
        next := next + 1;
        if clock(start) - autoSessionTicketKeys[0].created < TICKET_KEY_ROTATION {
          return autoSessionTicketKeys, next, checked;
        }
      }
      checked := next;
      var stale := |autoSessionTicketKeys| == 0;
      if !stale {
        stale := clock(next) - autoSessionTicketKeys[0].created >= TICKET_KEY_ROTATION;
        next := next + 1;
      }
      if stale {
        next := Replace(clock, next, material);
      }
      keys := autoSessionTicketKeys;
    }
  }

  // ---------- Tickets ----------

  /** The primitives: an HMAC key and data to a 32-byte tag, and AES-CTR by key and IV. */
  datatype Primitives = Primitives(mac: (octets, octets) -> octets, ctr: (octets, octets, octets) -> octets)

  ghost predicate Lawful(p: Primitives) {
    && (forall k: octets, x: octets :: |p.mac(k, x)| == MAC_SIZE)
    && (forall k: octets, iv: octets, x: octets :: |p.ctr(k, iv, x)| == |x| && p.ctr(k, iv, p.ctr(k, iv, x)) == x)
  }

  /** IV, ciphertext, and a tag over both. */
  function Ticket(p: Primitives, key: TicketKey, iv: octets, state: octets): octets {
    var authenticated := iv + p.ctr(key.aesKey, iv, state);
    authenticated + p.mac(key.hmacKey, authenticated)
  }

  /** The first key whose tag matches opens the ticket. */
  function OpenTicket(p: Primitives, keys: seq<TicketKey>, iv: octets, ciphertext: octets, tag: octets): Option<octets> {
    if keys == [] then None
    else if tag == p.mac(keys[0].hmacKey, iv + ciphertext) then Some(p.ctr(keys[0].aesKey, iv, ciphertext))
    else OpenTicket(p, keys[1..], iv, ciphertext, tag)
  }

  method EncryptTicket(p: Primitives, keys: seq<TicketKey>, random: Option<octets>, state: octets)
    returns (ticket: Option<octets>)
    requires random.Some? ==> |random.value| == BLOCK_SIZE
    ensures ticket == if keys == [] || random.None? then None else Some(Ticket(p, keys[0], random.value, state))
  {
    if |keys| == 0 || random.None? {
      return None;
    }
    var iv := random.value;
    var key := keys[0];
    var ciphertext := p.ctr(key.aesKey, iv, state);
    var authenticated := iv + ciphertext;
    ticket := Some(authenticated + p.mac(key.hmacKey, authenticated));
  }

  /** The tag of a ticket, its last 32 bytes, is the one that a key gives to all that comes before it. */
  predicate Authentic(p: Primitives, k: TicketKey, ticket: octets)
    requires |ticket| >= BLOCK_SIZE + MAC_SIZE
  {
    p.mac(k.hmacKey, ticket[..|ticket| - MAC_SIZE]) == ticket[|ticket| - MAC_SIZE..]
  }

  /** x is what the first key that authenticates the ticket deciphers, between the IV in front and the tag behind. */
  ghost predicate OpensTo(p: Primitives, keys: seq<TicketKey>, ticket: octets, x: octets) {
    && |ticket| >= BLOCK_SIZE + MAC_SIZE
    && exists i :: 0 <= i < |keys|
         && Authentic(p, keys[i], ticket) && (forall j :: 0 <= j < i ==> !Authentic(p, keys[j], ticket))
         && x == p.ctr(keys[i].aesKey, ticket[..BLOCK_SIZE], ticket[BLOCK_SIZE..|ticket| - MAC_SIZE])
  }

  /** A ticket opens to what its first authenticating key deciphers, and not at all when no key authenticates it. */
  method DecryptTicket(p: Primitives, keys: seq<TicketKey>, encrypted: octets) returns (state: Option<octets>)
    ensures forall x :: state == Some(x) <==> OpensTo(p, keys, encrypted, x)
    ensures state == None <==>
              |encrypted| < BLOCK_SIZE + MAC_SIZE || forall i :: 0 <= i < |keys| ==> !Authentic(p, keys[i], encrypted)
    ensures |encrypted| < BLOCK_SIZE + MAC_SIZE ==> state == None
    ensures |encrypted| >= BLOCK_SIZE + MAC_SIZE ==>
              state == OpenTicket(p, keys, encrypted[..BLOCK_SIZE], encrypted[BLOCK_SIZE..|encrypted| - MAC_SIZE],
                                  encrypted[|encrypted| - MAC_SIZE..])
  {
    if |encrypted| < BLOCK_SIZE + MAC_SIZE {
      return None;
    }
    var iv := encrypted[..BLOCK_SIZE];
    var ciphertext := encrypted[BLOCK_SIZE..|encrypted| - MAC_SIZE];
    var authenticated := encrypted[..|encrypted| - MAC_SIZE];
    var macBytes := encrypted[|encrypted| - MAC_SIZE..];
    assert authenticated == iv + ciphertext;
    assert keys[0..] == keys;
    for i := 0 to |keys|
      invariant forall j :: 0 <= j < i ==> !Authentic(p, keys[j], encrypted)
      invariant OpenTicket(p, keys, iv, ciphertext, macBytes) == OpenTicket(p, keys[i..], iv, ciphertext, macBytes)
    {
      assert keys[i..][0] == keys[i] && keys[i..][1..] == keys[i + 1..];
      if macBytes != p.mac(keys[i].hmacKey, authenticated) {
        continue;
      }
      return Some(p.ctr(keys[i].aesKey, iv, ciphertext));
    }
    return None;
  }

  /** A tag that verifies under two of the keys means that they are the same key. */
  ghost predicate MacSeparates(p: Primitives, keys: seq<TicketKey>, k: TicketKey) {
    forall i: nat, x: octets :: i < |keys| && p.mac(keys[i].hmacKey, x) == p.mac(k.hmacKey, x) ==> keys[i].aesKey == k.aesKey
  }

  lemma {:induction false} OpensSealed(p: Primitives, keys: seq<TicketKey>, k: TicketKey, iv: octets, state: octets)
    requires Lawful(p) && k in keys && MacSeparates(p, keys, k)
    ensures var c := p.ctr(k.aesKey, iv, state);
            OpenTicket(p, keys, iv, c, p.mac(k.hmacKey, iv + c)) == Some(state)
    decreases |keys|
  {
    var c := p.ctr(k.aesKey, iv, state);
    if p.mac(k.hmacKey, iv + c) == p.mac(keys[0].hmacKey, iv + c) {
      assert keys[0].aesKey == k.aesKey;
    } else {
      assert keys == [keys[0]] + keys[1..];
      forall i: nat, x: octets | i < |keys[1..]| && p.mac(keys[1..][i].hmacKey, x) == p.mac(k.hmacKey, x)
        ensures keys[1..][i].aesKey == k.aesKey
      {
        assert keys[1..][i] == keys[i + 1];
      }
      OpensSealed(p, keys[1..], k, iv, state);
    }
  }

  /**
   * In every run with a monotone clock, a ticket made with the keys of one call can be opened, to the same state, with
   * the keys of every later call that ends within six days.
   */
  lemma TicketsLastSixDays(p: Primitives, clock: nat -> int, calls: seq<Call>, e: nat, n: nat, iv: octets, state: octets)
    requires Lawful(p) && Monotone(clock) && InOrder(clock, calls) && 0 < e <= n <= |calls| && |iv| == BLOCK_SIZE
    requires clock(NextReading(KeysAfter(clock, calls, n - 1), clock, calls[n - 1].start))
             <= clock(calls[e - 1].start) + 6 * 24 * HOUR
    requires forall k :: k in KeysAfter(clock, calls, n) ==> MacSeparates(p, KeysAfter(clock, calls, n), k)
    ensures KeysAfter(clock, calls, e) != []
    ensures var ticket := Ticket(p, KeysAfter(clock, calls, e)[0], iv, state);
            && |ticket| >= BLOCK_SIZE + MAC_SIZE
            && OpenTicket(p, KeysAfter(clock, calls, n), ticket[..BLOCK_SIZE], ticket[BLOCK_SIZE..|ticket| - MAC_SIZE],
                          ticket[|ticket| - MAC_SIZE..]) == Some(state)
  {
    hide Rotated, Fresh, NextReading, Monotone, InOrder, MacSeparates, KeysAfter, OpenTicket;
    HeadKeptSixDays(clock, calls, e, n);
    var k := KeysAfter(clock, calls, e)[0];
    var c := p.ctr(k.aesKey, iv, state);
    var ticket := Ticket(p, k, iv, state);
    var tag := p.mac(k.hmacKey, iv + c);
    assert ticket == iv + c + tag;
    assert ticket[..BLOCK_SIZE] == iv && ticket[BLOCK_SIZE..|ticket| - MAC_SIZE] == c && ticket[|ticket| - MAC_SIZE..] == tag;
    OpensSealed(p, KeysAfter(clock, calls, n), k, iv, state);
  }
}
