/**
 * The read side of Conn (conn.go): readRecordOrCCS with its retries, as a function of the connection and of the
 * bytes still to come, whatever the pieces they arrive in.
 */
module Readers {
  import opened BigEndian
  import opened Ghash
  import opened HalfConns
  import opened Nonces
  import opened Padding
  import opened Records
  import opened Wrappers
  import opened Writers

  const MAX_USELESS_RECORDS := 16

  /** Why reading stopped for good. */
  datatype Error =
    | Eof
    | UnexpectedEof
    | PendingInput
    | BadHeader
    | LocalAlert(alert: nat)
    | RemoteAlert(code: octet)
    | TooManyIgnored

  datatype Conn = Conn(
    half: Half, nextCipher: Cipher, nextMac: Mac,
    vers: nat, haveVers: bool, complete: bool,
    hand: octets, input: octets, retryCount: nat, err: Option<Error>)
  {
    /** Prepared keys fit the connection, and retryCount passes 16 only together with a permanent error. */
    ghost predicate Valid() {
      && half.Valid()
      && (!nextCipher.NoCipher? ==> Rekeyed(half, half.version, nextCipher, nextMac).Valid())
      && (err.None? ==> retryCount <= MAX_USELESS_RECORDS)
    }
  }

  /** rest is what the peer's bytes have left; ReadCrash is a panic of the original. */
  datatype Outcome = ReadOk(conn: Conn, rest: octets) | ReadFailed(conn: Conn, rest: octets) | ReadCrash

  function Fail(c: Conn, s: octets, e: Error): (o: Outcome)
    ensures o.ReadFailed? && o.conn.err == Some(e)
  {
    ReadFailed(c.(err := Some(e)), s)
  }

  function ExpectedVersion(vers: nat): nat { if vers == VERSION_TLS13 then VERSION_TLS12 else vers }

  /** The checks made on a record header before the record is read. */
  predicate HeaderRefused(c: Conn, s: octets)
    requires |s| >= RECORD_HEADER_LEN
  {
    var typ, vers, n := s[0], LengthOf(s[1], s[2]), LengthOf(s[3], s[4]);
    || (!c.complete && typ == 0x80)
    || (c.haveVers && vers != ExpectedVersion(c.vers))
    || (!c.haveVers && ((typ != ALERT && typ != HANDSHAKE) || vers >= 0x1000))
    || (c.vers == VERSION_TLS13 && n > MAX_CIPHERTEXT_TLS13)
    || n > MAX_CIPHERTEXT
  }

  /** What to do with a delivered record: nothing more, drop it and read another, or fail. */
  datatype Verdict = Keep(conn: Conn) | Retry(conn: Conn) | Stop(conn: Conn, error: Error)

  const UNEXPECTED_MESSAGE := 10
  const BAD_RECORD_MAC := 20
  const RECORD_OVERFLOW := 22
  const DECODE_ERROR := 50
  const INTERNAL_ERROR := 80
  const USER_CANCELED: octet := 90

  function AlertCode(a: Alert): nat {
    match a
    case UnexpectedMessage => UNEXPECTED_MESSAGE
    case BadRecordMAC => BAD_RECORD_MAC
    case RecordOverflow => RECORD_OVERFLOW
  }

  function JudgeAlert(c: Conn, data: octets): Verdict {
    if |data| != 2 then Stop(c, LocalAlert(UNEXPECTED_MESSAGE))
    else if data[1] == 0 then Stop(c, Eof)
    else if c.vers == VERSION_TLS13 then
      if data[1] == USER_CANCELED then Retry(c) else Stop(c, RemoteAlert(data[1]))
    else if data[0] == 1 then Retry(c)
    else if data[0] == 2 then Stop(c, RemoteAlert(data[1]))
    else Stop(c, LocalAlert(UNEXPECTED_MESSAGE))
  }

  function JudgeChangeCipherSpec(c: Conn, data: octets, expectCCS: bool): Verdict {
    if |data| != 1 || data[0] != 1 then Stop(c, LocalAlert(DECODE_ERROR))
    else if c.hand != [] then Stop(c, LocalAlert(UNEXPECTED_MESSAGE))
    else if c.vers == VERSION_TLS13 && !c.complete then Retry(c)
    else if !expectCCS then Stop(c, LocalAlert(UNEXPECTED_MESSAGE))
    else if c.nextCipher.NoCipher? || c.half.version == VERSION_TLS13 then Stop(c, LocalAlert(INTERNAL_ERROR))
    else Keep(c.(half := Rekeyed(c.half, c.half.version, c.nextCipher, c.nextMac), nextCipher := NoCipher, nextMac := NoMac))
  }

  function Judge(c: Conn, typ: octet, data: octets, expectCCS: bool): Verdict {
    if |data| > MAX_PLAINTEXT then Stop(c, LocalAlert(RECORD_OVERFLOW))
    else if c.half.cipher.NoCipher? && typ == APPLICATION_DATA then Stop(c, LocalAlert(UNEXPECTED_MESSAGE))
    else
      var c := if typ != ALERT && typ != CHANGE_CIPHER_SPEC && data != [] then c.(retryCount := 0) else c;
      if c.vers == VERSION_TLS13 && typ != HANDSHAKE && c.hand != [] then Stop(c, LocalAlert(UNEXPECTED_MESSAGE))
      else if typ == ALERT then JudgeAlert(c, data)
      else if typ == CHANGE_CIPHER_SPEC then JudgeChangeCipherSpec(c, data, expectCCS)
      else if typ == APPLICATION_DATA then
        if !c.complete || expectCCS then Stop(c, LocalAlert(UNEXPECTED_MESSAGE))
        else if data == [] then Retry(c)
        else Keep(c.(input := data))
      else if typ == HANDSHAKE then
        if data == [] || expectCCS then Stop(c, LocalAlert(UNEXPECTED_MESSAGE))
        else Keep(c.(hand := c.hand + data))
      else Stop(c, LocalAlert(UNEXPECTED_MESSAGE))
  }

  /** A dropped record leaves the retry count where it was. */
  lemma RetryKeepsCount(c: Conn, typ: octet, data: octets, expectCCS: bool)
    ensures Judge(c, typ, data, expectCCS).Retry? ==> Judge(c, typ, data, expectCCS).conn == c
  {
  }

  lemma DecryptKeepsValid(h: Half, record: octets)
    requires h.Valid() && |record| >= RECORD_HEADER_LEN
    ensures match DecryptRecord(h, record)
            case Panic => true
            case Rejected(_, next) => next.Valid() && next.version == h.version && next.shape == h.shape
            case Delivered(_, _, next) => next.Valid() && next.version == h.version && next.shape == h.shape
  {
    hide LengthBytes, WellPadded, PaddingToRemove, RoundUp, LastNonZero, NextIv, ApplyStream;
  }

  /** What becomes of one record: the call ends, or the record is dropped. */
  datatype Step = Ended(outcome: Outcome) | Dropped(conn: Conn, rest: octets)

  function OneRecord(c: Conn, s: octets, expectCCS: bool): Step
    requires c.Valid()
  {
    if c.err.Some? then Ended(ReadFailed(c, s))
    else if c.input != [] then Ended(Fail(c, s, PendingInput))
    else if |s| < RECORD_HEADER_LEN then Ended(Fail(c, s, if s == [] then Eof else UnexpectedEof))
    else if HeaderRefused(c, s) then Ended(Fail(c, s, BadHeader))
    else
      var n := RECORD_HEADER_LEN + LengthOf(s[3], s[4]);
      if |s| < n then Ended(Fail(c, s, UnexpectedEof))
      else
        match DecryptRecord(c.half, s[..n])
        case Panic => Ended(ReadCrash)
        case Rejected(alert, next) => Ended(Fail(c.(half := next), s[n..], LocalAlert(AlertCode(alert))))
        case Delivered(data, typ, next) =>
          match Judge(c.(half := next), typ, data, expectCCS)
          case Keep(c') => Ended(ReadOk(c', s[n..]))
          case Stop(c', e) => Ended(Fail(c', s[n..], e))
          case Retry(c') => Dropped(c', s[n..])
  }

  /** A dropped record changes nothing but the half connection; in particular it never resets the retry count. */
  lemma DroppedKeepsCount(c: Conn, s: octets, expectCCS: bool)
    requires c.Valid() && OneRecord(c, s, expectCCS).Dropped?
    ensures var d := OneRecord(c, s, expectCCS);
            && d.conn.Valid() && d.conn == c.(half := d.conn.half) && c.err.None?
            && |d.rest| < |s| && d.rest == s[|s| - |d.rest|..]
  {
    hide DecryptRecord, Judge, HeaderRefused, LengthOf;
    var n := RECORD_HEADER_LEN + LengthOf(s[3], s[4]);
    DecryptKeepsValid(c.half, s[..n]);
    var d := DecryptRecord(c.half, s[..n]);
    RetryKeepsCount(c.(half := d.next), d.typ, d.data, expectCCS);
  }

  /** readRecordOrCCS, with retryReadRecord, over the bytes s that the peer still has to give. */
  function ReadRecord(c: Conn, s: octets, expectCCS: bool): Outcome
    requires c.Valid()
    decreases MAX_USELESS_RECORDS + 1 - c.retryCount
  {
    match OneRecord(c, s, expectCCS)
    case Ended(outcome) => outcome
    case Dropped(c', rest) =>
      DroppedKeepsCount(c, s, expectCCS);
      var counted := c'.(retryCount := c'.retryCount + 1);
      if counted.retryCount > MAX_USELESS_RECORDS then Fail(counted, rest, TooManyIgnored)
      else ReadRecord(counted, rest, expectCCS)
  }

  // ---------- What a call can do ----------

  /** The handshake buffer grew. */
  ghost predicate Grew(c: Conn, c': Conn) {
    c.hand < c'.hand && c'.input == [] && c'.nextCipher == c.nextCipher
  }

  /** The prepared cipher was taken into use. */
  ghost predicate Switched(c: Conn, c': Conn) {
    && !c.nextCipher.NoCipher? && c'.nextCipher.NoCipher?
    && c'.half.cipher == c.nextCipher && c'.half.seqNum == Nulls(8)
    && c'.hand == c.hand && c'.input == []
  }

  /** Application data became available. */
  ghost predicate Filled(c: Conn, c': Conn) {
    c'.input != [] && c'.hand == c.hand && c'.nextCipher == c.nextCipher
  }

  /** Nothing but the half connection, the retry count and the error changed. */
  ghost predicate OnlyFailed(c: Conn, c': Conn) {
    c'.err.Some? && c' == c.(half := c'.half, retryCount := c'.retryCount, err := c'.err)
  }

  lemma JudgeDoesOneThing(c: Conn, typ: octet, data: octets, expectCCS: bool)
    requires c.Valid() && c.input == [] && c.err.None?
    ensures var v := Judge(c, typ, data, expectCCS);
            && v.conn.complete == c.complete
            && (v.Keep? ==>
                  && v.conn.Valid() && v.conn.err.None?
                  && ((Grew(c, v.conn) && !expectCCS) || (Switched(c, v.conn) && expectCCS)
                      || (Filled(c, v.conn) && !expectCCS && c.complete)))
            && (v.Stop? ==> v.conn == c.(retryCount := v.conn.retryCount))
  {
  }

  lemma OneRecordDoesOneThing(c: Conn, s: octets, expectCCS: bool)
    requires c.Valid()
    ensures match OneRecord(c, s, expectCCS)
            case Dropped(_, _) => true
            case Ended(ReadCrash) => true
            case Ended(ReadFailed(c', _)) => c'.Valid() && OnlyFailed(c, c')
            case Ended(ReadOk(c', rest)) =>
              && c'.Valid() && c'.err.None? && c'.complete == c.complete
              && |rest| < |s| && rest == s[|s| - |rest|..]
              && (if expectCCS then Switched(c, c') else Grew(c, c') || (Filled(c, c') && c.complete))
  {
    hide DecryptRecord, Judge, HeaderRefused, LengthOf;
    if c.err.None? && c.input == [] && |s| >= RECORD_HEADER_LEN && !HeaderRefused(c, s) {
      var n := RECORD_HEADER_LEN + LengthOf(s[3], s[4]);
      if |s| >= n {
        DecryptKeepsValid(c.half, s[..n]);
        var d := DecryptRecord(c.half, s[..n]);
        if d.Delivered? {
          JudgeDoesOneThing(c.(half := d.next), d.typ, d.data, expectCCS);
        }
      }
    }
  }

  /**
   * The documented invariant: a call does exactly one of growing the handshake buffer, changing the cipher spec (only
   * when that is expected), making application data available (only after the handshake), or failing for good. It
   * consumes a non-empty front of what the peer sends when it succeeds.
   */
  lemma {:induction false} OneThingHappens(c: Conn, s: octets, expectCCS: bool)
    requires c.Valid()
    ensures match ReadRecord(c, s, expectCCS)
            case ReadCrash => true
            case ReadFailed(c', _) => c'.Valid() && OnlyFailed(c, c')
            case ReadOk(c', rest) =>
              && c'.Valid() && c'.err.None? && c'.complete == c.complete
              && |rest| < |s| && rest == s[|s| - |rest|..]
              && (if expectCCS then Switched(c, c') else Grew(c, c') || (Filled(c, c') && c.complete))
    decreases MAX_USELESS_RECORDS + 1 - c.retryCount
  {
    hide OneRecord, Grew, Switched, Filled;
    OneRecordDoesOneThing(c, s, expectCCS);
    if OneRecord(c, s, expectCCS).Dropped? {
      var d := OneRecord(c, s, expectCCS);
      DroppedKeepsCount(c, s, expectCCS);
      var c1 := d.conn.(retryCount := d.conn.retryCount + 1);
      if c1.retryCount <= MAX_USELESS_RECORDS {
        OneThingHappens(c1, d.rest, expectCCS);
        var o := ReadRecord(c1, d.rest, expectCCS);
        if !o.ReadCrash? {
          SameThing(c, c1, o.conn);
        }
        if o.ReadOk? {
          LaterSuffix(s, |s| - |d.rest|, o.rest);
        }
      }
    }
  }

  lemma LaterSuffix(s: octets, n: nat, rest: octets)
    requires n <= |s| && |rest| <= |s[n..]|
    ensures s[n..][|s[n..]| - |rest|..] == s[|s| - |rest|..]
  {
  }

  /** What happened to c2, a version of c with another half or retry count, happened to c. */
  lemma SameThing(c: Conn, c2: Conn, c': Conn)
    requires c2 == c.(half := c2.half, retryCount := c2.retryCount)
    ensures Grew(c2, c') == Grew(c, c') && Switched(c2, c') == Switched(c, c') && Filled(c2, c') == Filled(c, c')
    ensures OnlyFailed(c2, c') ==> OnlyFailed(c, c')
  {
  }

  /** The three successes exclude each other. */
  lemma OnlyOneThing(c: Conn, c': Conn)
    requires c.input == []
    ensures !(Grew(c, c') && Switched(c, c')) && !(Grew(c, c') && Filled(c, c')) && !(Switched(c, c') && Filled(c, c'))
  {
  }

  /** Once a call has failed, every later call fails with the same error and changes nothing. */
  lemma FailureIsPermanent(c: Conn, s: octets, expectCCS: bool, s': octets, expectCCS': bool)
    requires c.Valid() && ReadRecord(c, s, expectCCS).ReadFailed?
    ensures var c' := ReadRecord(c, s, expectCCS).conn;
            c'.Valid() && c'.err.Some? && ReadRecord(c', s', expectCCS') == ReadFailed(c', s')
  {
    hide Judge, DecryptRecord;
    OneThingHappens(c, s, expectCCS);
  }

  lemma PanicsAtLastNumber(h: Half, record: octets)
    requires h.Valid() && |record| >= RECORD_HEADER_LEN
    ensures DecryptRecord(h, record).Panic? ==> Number(h.seqNum) == MAX_UINT64
    ensures DecryptRecord(h, record).Delivered? ==> Number(DecryptRecord(h, record).next.seqNum) <= Number(h.seqNum) + 1
  {
    hide LengthBytes, WellPadded, PaddingToRemove, RoundUp, LastNonZero, NextIv, ApplyStream, Increment, Number;
    NumberIncrement(h.seqNum);
  }

  /** The only panic is that of the sequence number, once it cannot count the records that may still be dropped. */
  lemma {:induction false} PanicsAtTheEndOfNumbers(c: Conn, s: octets, expectCCS: bool)
    requires c.Valid() && ReadRecord(c, s, expectCCS).ReadCrash?
    ensures Number(c.half.seqNum) + MAX_USELESS_RECORDS - c.retryCount >= MAX_UINT64
    decreases MAX_USELESS_RECORDS + 1 - c.retryCount
  {
    hide DecryptRecord, Judge, HeaderRefused, LengthOf, Number;
    var n := RECORD_HEADER_LEN + LengthOf(s[3], s[4]);
    PanicsAtLastNumber(c.half, s[..n]);
    if OneRecord(c, s, expectCCS).Dropped? {
      var d := DecryptRecord(c.half, s[..n]);
      RetryKeepsCount(c.(half := d.next), d.typ, d.data, expectCCS);
      DroppedKeepsCount(c, s, expectCCS);
      var c1 := OneRecord(c, s, expectCCS).conn;
      PanicsAtTheEndOfNumbers(c1.(retryCount := c1.retryCount + 1), OneRecord(c, s, expectCCS).rest, expectCCS);
    }
  }

  // ---------- The reader as an object ----------

  datatype ReadStatus = ReadFine | ReadError | ReadPanicked

  /** How the switch over a record's type ended. */
  datatype Action = Kept | Again | Stopped

  lemma DecryptKeepsLawful(h: Half, record: octets)
    requires h.Lawful() && |record| >= RECORD_HEADER_LEN
    ensures match DecryptRecord(h, record)
            case Panic => true
            case Rejected(_, next) => next.Lawful() && next.version == h.version && next.shape == h.shape
            case Delivered(_, _, next) => next.Lawful() && next.version == h.version && next.shape == h.shape
  {
    hide LengthBytes, WellPadded, PaddingToRemove, RoundUp, LastNonZero, ApplyStream;
  }

  /** The keys in use, and those prepared, obey their laws. */
  ghost predicate LawfulConn(c: Conn) {
    && c.Valid() && c.half.Lawful()
    && (!c.nextCipher.NoCipher? ==> Rekeyed(c.half, c.half.version, c.nextCipher, c.nextMac).Lawful())
  }

  lemma JudgeKeepsLawful(c: Conn, typ: octet, data: octets, expectCCS: bool)
    requires LawfulConn(c)
    ensures var v := Judge(c, typ, data, expectCCS);
            LawfulConn(v.conn) && forall e: Error :: LawfulConn(v.conn.(err := Some(e)))
  {
    hide LawfulStream, LawfulAead, LawfulCbc, LawfulMac;
  }

  lemma OneRecordKeepsLawful(c: Conn, s: octets, expectCCS: bool)
    requires LawfulConn(c)
    ensures match OneRecord(c, s, expectCCS)
            case Dropped(c', _) => LawfulConn(c') && LawfulConn(c'.(retryCount := c'.retryCount + 1, err := Some(TooManyIgnored)))
            case Ended(ReadCrash) => true
            case Ended(ReadFailed(c', _)) => LawfulConn(c')
            case Ended(ReadOk(c', _)) => LawfulConn(c')
  {
    hide DecryptRecord, Judge, HeaderRefused, LengthOf, LawfulStream, LawfulAead, LawfulCbc, LawfulMac;
    if c.err.None? && c.input == [] && |s| >= RECORD_HEADER_LEN && !HeaderRefused(c, s) {
      var n := RECORD_HEADER_LEN + LengthOf(s[3], s[4]);
      if |s| >= n {
        DecryptKeepsLawful(c.half, s[..n]);
        var d := DecryptRecord(c.half, s[..n]);
        if d.Delivered? {
          JudgeKeepsLawful(c.(half := d.next), d.typ, d.data, expectCCS);
        }
      }
    }
  }

  class Reader {
    const half: HalfConn
    var vers: nat
    var haveVers: bool
    var complete: bool
    var hand: octets
    var input: octets
    var retryCount: nat
    var err: Option<Error>
    /** Bytes that have arrived, and bytes the peer sends that have not. */
    var rawInput: octets
    var network: octets

    function State(): Conn
      requires half.Sized()
      reads this, half, half.seqNum, half.handshakeLen
    {
      Conn(half.State(), half.nextCipher, half.nextMac, vers, haveVers, complete, hand, input, retryCount, err)
    }

    function Coming(): octets
      reads this
    {
      rawInput + network
    }

    ghost predicate Valid()
      reads this, half, half.seqNum, half.handshakeLen
    {
      half.Sized() && LawfulConn(State())
    }

    constructor (h: HalfConn, version: nat, handshakeComplete: bool, peer: octets)
      requires h.Sized() && h.State().Lawful()
      requires !h.nextCipher.NoCipher? ==> Rekeyed(h.State(), h.version, h.nextCipher, h.nextMac).Lawful()
      ensures half == h && vers == version && haveVers && complete == handshakeComplete
      ensures Valid() && Coming() == peer && hand == input == [] && retryCount == 0 && err.None?
    {
      half, vers, haveVers, complete := h, version, true, handshakeComplete;
      hand, input, retryCount, err, rawInput, network := [], [], 0, None, [], peer;
    }

    /** Reads until n bytes are there, and as many more as happen to have arrived. */
    method ReadFromUntil(n: nat) returns (ok: bool)
      modifies `rawInput, `network
      ensures Coming() == old(Coming())
      ensures ok <==> |Coming()| >= n
      ensures ok ==> |rawInput| >= n
      ensures !ok ==> rawInput == Coming()
    {
      if |rawInput| >= n {
        return true;
      }
      var needs := n - |rawInput|;
      if |network| < needs {
        rawInput, network := rawInput + network, [];
        return false;
      }
      var k :| needs <= k <= |network|;
      assert network == network[..k] + network[k..];
      rawInput, network := rawInput + network[..k], network[k..];
      return true;
    }

    method HandleAlert(data: octets) returns (a: Action)
      requires Valid()
      modifies `err
      ensures match JudgeAlert(old(State()), data)
              case Keep(_) => false
              case Retry(c') => a == Again && State() == c'
              case Stop(c', e) => a == Stopped && State() == c'.(err := Some(e))
    {
      a := Stopped;
      if |data| != 2 {
        err := Some(LocalAlert(UNEXPECTED_MESSAGE));
      } else if data[1] == 0 {
        err := Some(Eof);
      } else if vers == VERSION_TLS13 {
        if data[1] == USER_CANCELED {
          return Again;
        }
        err := Some(RemoteAlert(data[1]));
      } else if data[0] == 1 {
        return Again;
      } else if data[0] == 2 {
        err := Some(RemoteAlert(data[1]));
      } else {
        err := Some(LocalAlert(UNEXPECTED_MESSAGE));
      }
    }

    method HandleChangeCipherSpec(data: octets, expectCCS: bool) returns (a: Action)
      requires Valid()
      modifies `err, half, half.seqNum
      ensures match JudgeChangeCipherSpec(old(State()), data, expectCCS)
              case Keep(c') => a == Kept && State() == c'
              case Retry(c') => a == Again && State() == c'
              case Stop(c', e) => a == Stopped && State() == c'.(err := Some(e))
    {
      hide Rekeyed;
      a := Stopped;
      if |data| != 1 || data[0] != 1 {
        err := Some(LocalAlert(DECODE_ERROR));
        return;
      }
      if |hand| > 0 {
        err := Some(LocalAlert(UNEXPECTED_MESSAGE));
        return;
      }
      if vers == VERSION_TLS13 && !complete {
        return Again;
      }
      if !expectCCS {
        err := Some(LocalAlert(UNEXPECTED_MESSAGE));
        return;
      }
      var ok := half.ChangeCipherSpec();
      if !ok {
        err := Some(LocalAlert(INTERNAL_ERROR));
        return;
      }
      a := Kept;
    }

    /** The switch over the type of a delivered record. */
    method Handle(typ: octet, data: octets, expectCCS: bool) returns (a: Action)
      requires Valid()
      modifies `err, `input, `hand, `retryCount, half, half.seqNum
      ensures match Judge(old(State()), typ, data, expectCCS)
              case Keep(c') => a == Kept && State() == c'
              case Retry(c') => a == Again && State() == c'
              case Stop(c', e) => a == Stopped && State() == c'.(err := Some(e))
    {
      hide JudgeAlert, JudgeChangeCipherSpec;
      a := Stopped;
      if |data| > MAX_PLAINTEXT {
        err := Some(LocalAlert(RECORD_OVERFLOW));
        return;
      }
      if half.cipher.NoCipher? && typ == APPLICATION_DATA {
        err := Some(LocalAlert(UNEXPECTED_MESSAGE));
        return;
      }
      if typ != ALERT && typ != CHANGE_CIPHER_SPEC && |data| > 0 {
        retryCount := 0;
      }
      if vers == VERSION_TLS13 && typ != HANDSHAKE && |hand| > 0 {
        err := Some(LocalAlert(UNEXPECTED_MESSAGE));
        return;
      }
      if typ == ALERT {
        a := HandleAlert(data);
      } else if typ == CHANGE_CIPHER_SPEC {
        a := HandleChangeCipherSpec(data, expectCCS);
      } else if typ == APPLICATION_DATA {
        if !complete || expectCCS {
          err := Some(LocalAlert(UNEXPECTED_MESSAGE));
          return;
        }
        if |data| == 0 {
          return Again;
        }
        input := data;
        a := Kept;
      } else if typ == HANDSHAKE {
        if |data| == 0 || expectCCS {
          err := Some(LocalAlert(UNEXPECTED_MESSAGE));
          return;
        }
        hand := hand + data;
        a := Kept;
      } else {
        err := Some(LocalAlert(UNEXPECTED_MESSAGE));
      }
    }

    /** The outcome of one record, or of a whole call. */
    ghost predicate Is(o: Outcome, status: ReadStatus)
      requires half.Sized()
      reads this, half, half.seqNum, half.handshakeLen
    {
      match o
      case ReadOk(c', rest) => status == ReadFine && State() == c' && Coming() == rest
      case ReadFailed(c', rest) => status == ReadError && State() == c' && Coming() == rest
      case ReadCrash => status == ReadPanicked
    }

    /** Takes the next whole record off the input; None when there is none to be had. */
    method FetchRecord() returns (record: Option<octets>)
      requires Valid() && err.None? && input == []
      modifies `rawInput, `network, `err
      ensures var c, s := old(State()), old(Coming());
              if |s| < RECORD_HEADER_LEN then
                record.None? && Is(Fail(c, s, if s == [] then Eof else UnexpectedEof), ReadError)
              else if HeaderRefused(c, s) then record.None? && Is(Fail(c, s, BadHeader), ReadError)
              else
                var n := RECORD_HEADER_LEN + LengthOf(s[3], s[4]);
                if |s| < n then record.None? && Is(Fail(c, s, UnexpectedEof), ReadError)
                else record == Some(s[..n]) && State() == c && Coming() == s[n..]
    {
      hide LengthOf, LawfulConn;
      record := None;
      var enough := ReadFromUntil(RECORD_HEADER_LEN);
      if !enough {
        err := Some(if |rawInput| == 0 then Eof else UnexpectedEof);
        return;
      }
      ghost var s := Coming();
      SameHeader(State(), rawInput, s);
      if HeaderRefused(State(), rawInput) {
        err := Some(BadHeader);
        return;
      }
      var n := RECORD_HEADER_LEN + LengthOf(rawInput[3], rawInput[4]);
      enough := ReadFromUntil(n);
      if !enough {
        err := Some(UnexpectedEof);
        return;
      }
      record := Some(rawInput[..n]);
      rawInput := rawInput[n..];
      assert record.value == s[..n] && Coming() == s[n..];
    }

    /** Reads, opens and handles one record; again means that it was dropped. */
    method TakeRecord(expectCCS: bool) returns (status: ReadStatus, again: bool)
      requires Valid()
      modifies `rawInput, `network, `err, `input, `hand, `retryCount, half, half.seqNum
      ensures match OneRecord(old(State()), old(Coming()), expectCCS)
              case Ended(o) => !again && Is(o, status)
              case Dropped(c', rest) => again && State() == c' && Coming() == rest
    {
      hide DecryptRecord, Judge, HeaderRefused, LengthOf, LawfulStream, LawfulAead, LawfulCbc, LawfulMac;
      if err.Some? {
        return ReadError, false;
      }
      if |input| != 0 {
        err := Some(PendingInput);
        return ReadError, false;
      }
      var record := FetchRecord();
      if record.None? {
        return ReadError, false;
      }
      DecryptKeepsLawful(half.State(), record.value);
      var d := half.Decrypt(record.value);
      match d {
        case ReadPanic => status, again := ReadPanicked, false;
        case Alerted(alert) =>
          err := Some(LocalAlert(AlertCode(alert)));
          status, again := ReadError, false;
        case Got(data, typ) =>
          var action := Handle(typ, data, expectCCS);
          status, again := if action == Stopped then ReadError else ReadFine, action == Again;
      }
    }

    /** readRecordOrCCS and retryReadRecord: reads records until one counts, dropping at most 16 in a row. */
    method ReadRecordOrCCS(expectCCS: bool) returns (status: ReadStatus)
      requires Valid()
      modifies `rawInput, `network, `err, `input, `hand, `retryCount, half, half.seqNum
      ensures Is(ReadRecord(old(State()), old(Coming()), expectCCS), status)
      ensures !status.ReadPanicked? ==> Valid()
      decreases MAX_USELESS_RECORDS + 1 - retryCount
    {
      hide OneRecord, LawfulConn;
      ghost var c, s := State(), Coming();
      LawfulIsValid(c);
      OneRecordKeepsLawful(c, s, expectCCS);
      var again;
      status, again := TakeRecord(expectCCS);
      if !again {
        return;
      }
      DroppedKeepsCount(c, s, expectCCS);
      retryCount := retryCount + 1;
      if retryCount > MAX_USELESS_RECORDS {
        err := Some(TooManyIgnored);
        return ReadError;
      }
      CountedLawful(OneRecord(c, s, expectCCS).conn);
      status := ReadRecordOrCCS(expectCCS);
    }
  }

  lemma LawfulIsValid(c: Conn)
    requires LawfulConn(c)
    ensures c.Valid()
  {
  }

  lemma CountedLawful(c: Conn)
    requires LawfulConn(c) && c.err.None? && c.retryCount < MAX_USELESS_RECORDS
    ensures LawfulConn(c.(retryCount := c.retryCount + 1))
  {
  }

  lemma SameHeader(c: Conn, s: octets, s': octets)
    requires RECORD_HEADER_LEN <= |s| && s <= s'
    ensures HeaderRefused(c, s) == HeaderRefused(c, s')
    ensures s[3] == s'[3] && s[4] == s'[4]
  {
  }
}
