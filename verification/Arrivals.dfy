/** What becomes of each record a peer sends (conn.go), told in its type and its bytes. */
module Arrivals {
  import opened BigEndian
  import opened Ghash
  import opened Nonces
  import opened Padding
  import opened Readers
  import opened Records
  import opened Streams
  import opened Wrappers
  import opened Writers

  // ---------- A record at the front of the stream ----------

  /** The header is one that a connection in this state goes on with. */
  predicate HeaderAccepted(c: Conn, s: octets) {
    && |s| >= 5
    && (!c.complete ==> s[0] != 0x80)
    && (if c.haveVers then Number(s[1..3]) == if c.vers == 0x0304 then 0x0303 else c.vers
        else (s[0] == 21 || s[0] == 22) && Number(s[1..3]) < 0x1000)
    && Number(s[3..5]) <= (if c.vers == 0x0304 then 16384 + 256 else 16384 + 2048)
  }

  lemma HeaderChecked(c: Conn, s: octets)
    requires |s| >= 5
    ensures HeaderRefused(c, s) <==> !HeaderAccepted(c, s)
    ensures LengthOf(s[3], s[4]) == Number(s[3..5])
  {
    hide Number, LengthOf;
    assert s[1..3] == [s[1], s[2]] && s[3..5] == [s[3], s[4]];
    LengthOfIsNumber(s[1], s[2]);
    LengthOfIsNumber(s[3], s[4]);
  }

  /** The connection can read, and the stream s is a whole record, which opens to data of that type, and then rest. */
  ghost predicate Arrives(c: Conn, s: octets, typ: octet, data: octets, next: Half, rest: octets) {
    && c.Valid() && c.err.None? && c.input == []
    && HeaderAccepted(c, s)
    && |s| == 5 + Number(s[3..5]) + |rest| && s[5 + Number(s[3..5])..] == rest
    && DecryptRecord(c.half, s[..5 + Number(s[3..5])]) == Delivered(data, typ, next)
  }

  /** The call failed with this error, and what follows the record was not touched. */
  predicate FailsWith(o: Outcome, e: Error, rest: octets) {
    o.ReadFailed? && o.conn.err == Some(e) && o.rest == rest
  }

  /** The record is dropped: the call goes on with what follows it, unless it is the seventeenth in a row. */
  ghost predicate IsDropped(c: Conn, s: octets, expectCCS: bool, next: Half, rest: octets) {
    && c.Valid()
    && var counted := c.(half := next, retryCount := c.retryCount + 1);
       if c.retryCount == 16 then FailsWith(ReadRecord(c, s, expectCCS), TooManyIgnored, rest)
       else counted.Valid() && ReadRecord(c, s, expectCCS) == ReadRecord(counted, rest, expectCCS)
  }

  /** What Judge decides is what the call does. */
  lemma JudgedOnArrival(c: Conn, s: octets, typ: octet, data: octets, next: Half, rest: octets, expectCCS: bool)
    requires Arrives(c, s, typ, data, next, rest)
    ensures match Judge(c.(half := next), typ, data, expectCCS)
            case Keep(c') => ReadRecord(c, s, expectCCS) == ReadOk(c', rest)
            case Stop(_, e) => FailsWith(ReadRecord(c, s, expectCCS), e, rest)
            case Retry(_) => IsDropped(c, s, expectCCS, next, rest)
  {
    hide DecryptRecord, Judge, HeaderRefused, Number, LengthOf, HeaderAccepted;
    HeaderChecked(c, s);
    DecryptKeepsValid(c.half, s[..5 + Number(s[3..5])]);
    RetryKeepsCount(c.(half := next), typ, data, expectCCS);
  }

  // ---------- Records by their type ----------

  /** An alert: close_notify (0) ends the stream; user_canceled (90) in TLS 1.3, and warnings (1) before it, are dropped. */
  lemma AlertArrives(c: Conn, s: octets, data: octets, next: Half, rest: octets, expectCCS: bool)
    requires Arrives(c, s, 21, data, next, rest) && (c.vers == 0x0304 ==> c.hand == [])
    ensures var o := ReadRecord(c, s, expectCCS);
            if |data| > 16384 then FailsWith(o, LocalAlert(22), rest)
            else if |data| != 2 then FailsWith(o, LocalAlert(10), rest)
            else if data[1] == 0 then FailsWith(o, Eof, rest)
            else if (if c.vers == 0x0304 then data[1] == 90 else data[0] == 1) then IsDropped(c, s, expectCCS, next, rest)
            else if c.vers == 0x0304 || data[0] == 2 then FailsWith(o, RemoteAlert(data[1]), rest)
            else FailsWith(o, LocalAlert(10), rest)
  {
    hide ReadRecord, Arrives, IsDropped;
    JudgedOnArrival(c, s, 21, data, next, rest, expectCCS);
  }

  /** Application data is for a connection that has finished its handshake and has keys; empty records are dropped. */
  lemma DataArrives(c: Conn, s: octets, data: octets, next: Half, rest: octets, expectCCS: bool)
    requires Arrives(c, s, 23, data, next, rest)
    ensures var o := ReadRecord(c, s, expectCCS);
            if |data| > 16384 then FailsWith(o, LocalAlert(22), rest)
            else if next.cipher.NoCipher? || (c.vers == 0x0304 && c.hand != []) || !c.complete || expectCCS
            then FailsWith(o, LocalAlert(10), rest)
            else if data == [] then IsDropped(c, s, expectCCS, next, rest)
            else o == ReadOk(c.(half := next, input := data, retryCount := 0), rest)
  {
    hide ReadRecord, Arrives, IsDropped;
    JudgedOnArrival(c, s, 23, data, next, rest, expectCCS);
  }

  /** A handshake record adds to the messages gathered; it must not be empty. */
  lemma HandshakeArrives(c: Conn, s: octets, data: octets, next: Half, rest: octets, expectCCS: bool)
    requires Arrives(c, s, 22, data, next, rest)
    ensures var o := ReadRecord(c, s, expectCCS);
            if |data| > 16384 then FailsWith(o, LocalAlert(22), rest)
            else if data == [] || expectCCS then FailsWith(o, LocalAlert(10), rest)
            else o == ReadOk(c.(half := next, hand := c.hand + data, retryCount := 0), rest)
  {
    hide ReadRecord, Arrives, IsDropped;
    JudgedOnArrival(c, s, 22, data, next, rest, expectCCS);
  }

  /** change_cipher_spec is dropped during a TLS 1.3 handshake, and before TLS 1.3 takes the prepared keys into use. */
  lemma ChangeCipherSpecArrives(c: Conn, s: octets, data: octets, next: Half, rest: octets, expectCCS: bool)
    requires Arrives(c, s, 20, data, next, rest) && next.version == c.half.version
    ensures var o := ReadRecord(c, s, expectCCS);
            if |data| > 16384 then FailsWith(o, LocalAlert(22), rest)
            else if c.vers == 0x0304 && c.hand != [] then FailsWith(o, LocalAlert(10), rest)
            else if data != [1] then FailsWith(o, LocalAlert(50), rest)
            else if c.hand != [] then FailsWith(o, LocalAlert(10), rest)
            else if c.vers == 0x0304 && !c.complete then IsDropped(c, s, expectCCS, next, rest)
            else if !expectCCS then FailsWith(o, LocalAlert(10), rest)
            else if c.nextCipher.NoCipher? || c.half.version == 0x0304 then FailsWith(o, LocalAlert(80), rest)
            else o == ReadOk(c.(half := next.(cipher := c.nextCipher, mac := c.nextMac, seqNum := Nulls(8)),
                                nextCipher := NoCipher, nextMac := NoMac), rest)
  {
    hide ReadRecord, Arrives, IsDropped, Nulls;
    JudgedOnArrival(c, s, 20, data, next, rest, expectCCS);
  }

  /** There are no other types. */
  lemma OthersArrive(c: Conn, s: octets, typ: octet, data: octets, next: Half, rest: octets, expectCCS: bool)
    requires Arrives(c, s, typ, data, next, rest) && typ !in {20, 21, 22, 23}
    ensures FailsWith(ReadRecord(c, s, expectCCS), LocalAlert(if |data| > 16384 then 22 else 10), rest)
  {
    hide ReadRecord, Arrives, IsDropped;
    JudgedOnArrival(c, s, typ, data, next, rest, expectCCS);
  }

  /** Unless a record arrives, the call fails for one of these reasons. */
  lemma ArrivesOrFails(c: Conn, s: octets, expectCCS: bool)
    requires c.Valid()
    ensures var o := ReadRecord(c, s, expectCCS);
            if c.err.Some? then o == ReadFailed(c, s)
            else if c.input != [] then o == ReadFailed(c.(err := Some(PendingInput)), s)
            else if s == [] then o == ReadFailed(c.(err := Some(Eof)), s)
            else if |s| < 5 then o == ReadFailed(c.(err := Some(UnexpectedEof)), s)
            else if !HeaderAccepted(c, s) then o == ReadFailed(c.(err := Some(BadHeader)), s)
            else if |s| < 5 + Number(s[3..5]) then o == ReadFailed(c.(err := Some(UnexpectedEof)), s)
            else
              match DecryptRecord(c.half, s[..5 + Number(s[3..5])])
              case Delivered(data, typ, next) => Arrives(c, s, typ, data, next, s[5 + Number(s[3..5])..])
              case Panic => o == ReadCrash
              case Rejected(alert, next) =>
                o == ReadFailed(c.(half := next, err := Some(LocalAlert(if alert.UnexpectedMessage? then 10
                                                                         else if alert.BadRecordMAC? then 20 else 22))),
                                s[5 + Number(s[3..5])..])
  {
    hide DecryptRecord, Judge, HeaderRefused, Number, LengthOf, HeaderAccepted;
    if |s| >= 5 {
      HeaderChecked(c, s);
    }
  }

  // ---------- Records that a writer in step sends ----------

  /** A writer and a reader at the two ends of a direction, during the handshake or after it. */
  ghost predicate Joined(w: Half, c: Conn) {
    && w.Lawful() && SmallOverheads(w) && ShapeBounded(w) && 0 < w.version < 65536
    && c.Valid() && InSync(w, c.half) && c.vers == w.version && c.haveVers && c.input == [] && c.err.None?
  }

  function Record(w: Half, typ: octet, payload: octets, random: Option<octets>): Encrypted
    requires w.Valid()
  {
    EncryptRecord(w, RecordHeader(typ, VersionBytes(w.version), |payload|), payload, random)
  }

  lemma HeaderOfSent(h: Half, typ: octet, version: octets, payload: octets, random: Option<octets>)
    requires h.Valid() && |version| == 2
    ensures var e := EncryptRecord(h, RecordHeader(typ, version, |payload|), payload, random);
            e.Sent? ==>
              && |e.record| >= RECORD_HEADER_LEN
              && (e.record[0] == typ || e.record[0] == APPLICATION_DATA)
              && e.record[1..3] == version
              && e.record[3..5] == LengthBytes(|e.record| - RECORD_HEADER_LEN)
  {
    hide LengthBytes;
    if h.cipher.NoCipher? {
      HeaderParts(typ, version, |payload|, payload);
    } else {
      SentHeader(h, typ, version, payload, random);
    }
  }

  /** What is sent arrives, with the type and the content it was sent with, and leaves both ends joined. */
  lemma SentArrives(w: Half, c: Conn, typ: octet, payload: octets, random: Option<octets>, rest: octets)
    requires Joined(w, c) && Draws(w, random) && !Shaped(w, typ) && Record(w, typ, payload, random).Sent?
    requires |payload| <= MAX_PLAINTEXT && typ != 0 && typ != 0x80 && Number(c.half.seqNum) < MAX_UINT64
    ensures var e := Record(w, typ, payload, random);
            exists next :: Arrives(c, e.record + rest, typ, payload, next, rest) && Joined(e.next, c.(half := next))
              && Number(next.seqNum) <= Number(c.half.seqNum) + 1 && next.version == c.half.version
  {
    hide EncryptRecord, DecryptRecord, LengthOf, LengthBytes, Number, Increment, SmallOverheads, FragmentLength, VersionBytes;
    var version := VersionBytes(w.version);
    var header := RecordHeader(typ, version, |payload|);
    var e := EncryptRecord(w, header, payload, random);
    AdvanceCounts(c.half);
    RecordRoundTrip(w, c.half, typ, version, payload, random);
    HeaderOfSent(w, typ, version, payload, random);
    HeaderParts(typ, version, |payload|, []);
    SentLength(w, header, payload, random);
    WithinCiphertextLimits(w, |payload|);
    HeaderNumbers(e.record, version, rest);
    VersionNumber(w.version);
    var s := e.record + rest;
    assert s[..|e.record|] == e.record && s[|e.record|..] == rest;
    HeaderChecked(c, s);
    DecryptKeepsValid(c.half, e.record);
    PanicsAtLastNumber(c.half, e.record);
    SentKeepsVersion(w, header, payload, random);
    EncryptKeeps(w, header, payload, random);
    var next := DecryptRecord(c.half, e.record).next;
    assert Arrives(c, s, typ, payload, next, rest);
  }

  lemma SentKeepsVersion(w: Half, header: octets, payload: octets, random: Option<octets>)
    requires w.Valid() && |header| == RECORD_HEADER_LEN
    ensures EncryptRecord(w, header, payload, random).Sent? ==> EncryptRecord(w, header, payload, random).next.version == w.version
  {
    hide LengthBytes, InnerPlaintext, PadBytes, CbcPadding, NextIv, ApplyStream, Increment;
  }

  /** The version in a record's header as a number: 1.0 before one is agreed, and never above 1.2. */
  lemma VersionWritten(vers: nat)
    requires vers <= VERSION_TLS13
    ensures Number(VersionBytes(vers)) == if vers == 0 then 0x0301 else if vers == 0x0304 then 0x0303 else vers
  {
    hide Number, LengthBytes, BigEndianBytes;
    var v := if vers == 0 then VERSION_TLS10 else if vers == VERSION_TLS13 then VERSION_TLS12 else vers;
    LengthIsBigEndian(v);
    BytesNumber(v, 2);
  }

  // ---------- Alerts ----------

  /** No handshake message is half read, where TLS 1.3 allows nothing between its parts. */
  predicate Quiet(c: Conn) {
    c.vers == 0x0304 ==> c.hand == []
  }

  /** Alerts to be dropped: user_canceled in TLS 1.3, every warning but close_notify before it. */
  predicate Ignored(vers: nat, level: octet, code: octet) {
    code != 0 && if vers == 0x0304 then code == 90 else level == 1
  }

  lemma FailedReadsNothing(c: Conn, s: octets)
    requires c.Valid() && c.input == [] && ReadRecord(c, s, false).ReadFailed?
    ensures ReadAll(c, s) == []
  {
    hide ReadRecord;
  }

  lemma SameReads(c: Conn, s: octets, c': Conn, s': octets)
    requires c.Valid() && c.input == [] && c'.Valid() && c'.input == []
    requires ReadRecord(c, s, false) == ReadRecord(c', s', false)
    ensures ReadAll(c, s) == ReadAll(c', s')
  {
    hide ReadRecord;
  }

  /** close_notify, of any level, ends the stream: nothing behind it is ever read. */
  lemma CloseIsRead(w: Half, c: Conn, level: octet, random: Option<octets>, rest: octets, expectCCS: bool)
    requires Joined(w, c) && Quiet(c) && Draws(w, random) && Number(c.half.seqNum) < MAX_UINT64
    requires Record(w, 21, [level, 0], random).Sent?
    ensures var record := Record(w, 21, [level, 0], random).record;
            FailsWith(ReadRecord(c, record + rest, expectCCS), Eof, rest) && ReadAll(c, record + rest) == []
  {
    hide Record, ReadRecord, Arrives, ReadAll;
    var s := Record(w, 21, [level, 0], random).record + rest;
    SentArrives(w, c, 21, [level, 0], random, rest);
    var next :| Arrives(c, s, 21, [level, 0], next, rest);
    AlertArrives(c, s, [level, 0], next, rest, expectCCS);
    AlertArrives(c, s, [level, 0], next, rest, false);
    FailedReadsNothing(c, s);
  }

  /** An alert to be dropped leaves everything as it would be without it, except that it is counted. */
  lemma WarningIsRead(w: Half, c: Conn, level: octet, code: octet, random: Option<octets>, rest: octets, expectCCS: bool)
    returns (c': Conn)
    requires Joined(w, c) && Quiet(c) && Draws(w, random) && Number(c.half.seqNum) < MAX_UINT64
    requires Record(w, 21, [level, code], random).Sent? && Ignored(w.version, level, code)
    ensures var e := Record(w, 21, [level, code], random);
            && c' == c.(half := c'.half, retryCount := c.retryCount + 1)
            && Number(c'.half.seqNum) <= Number(c.half.seqNum) + 1
            && (if c.retryCount == 16
                then FailsWith(ReadRecord(c, e.record + rest, expectCCS), TooManyIgnored, rest) && ReadAll(c, e.record + rest) == []
                else
                  && Joined(e.next, c')
                  && ReadRecord(c, e.record + rest, expectCCS) == ReadRecord(c', rest, expectCCS)
                  && ReadAll(c, e.record + rest) == ReadAll(c', rest))
  {
    hide Record, ReadRecord, Arrives, ReadAll, Number, SmallOverheads;
    var e := Record(w, 21, [level, code], random);
    var s := e.record + rest;
    SentArrives(w, c, 21, [level, code], random, rest);
    var next :| Arrives(c, s, 21, [level, code], next, rest) && Joined(e.next, c.(half := next))
                && Number(next.seqNum) <= Number(c.half.seqNum) + 1;
    AlertArrives(c, s, [level, code], next, rest, expectCCS);
    AlertArrives(c, s, [level, code], next, rest, false);
    c' := c.(half := next, retryCount := c.retryCount + 1);
    if c.retryCount == 16 {
      FailedReadsNothing(c, s);
    } else {
      SameReads(c, s, c', rest);
    }
  }

  /** Every other alert is reported as the peer's, and ends the stream; one of an unknown level is itself an error. */
  lemma ErrorIsRead(w: Half, c: Conn, level: octet, code: octet, random: Option<octets>, rest: octets, expectCCS: bool)
    requires Joined(w, c) && Quiet(c) && Draws(w, random) && Number(c.half.seqNum) < MAX_UINT64
    requires Record(w, 21, [level, code], random).Sent? && code != 0 && !Ignored(w.version, level, code)
    ensures var s := Record(w, 21, [level, code], random).record + rest;
            && FailsWith(ReadRecord(c, s, expectCCS),
                         if w.version == 0x0304 || level == 2 then RemoteAlert(code) else LocalAlert(10), rest)
            && ReadAll(c, s) == []
  {
    hide Record, ReadRecord, Arrives, ReadAll;
    var s := Record(w, 21, [level, code], random).record + rest;
    SentArrives(w, c, 21, [level, code], random, rest);
    var next :| Arrives(c, s, 21, [level, code], next, rest);
    AlertArrives(c, s, [level, code], next, rest, expectCCS);
    AlertArrives(c, s, [level, code], next, rest, false);
    FailedReadsNothing(c, s);
  }

  // ---------- Runs of alerts ----------

  datatype AlertSent = AlertSent(level: octet, code: octet, random: Option<octets>)

  /** Alerts sent one after the other, if all of them can be sent. */
  ghost function AlertFlow(w: Half, alerts: seq<AlertSent>): Option<Flow>
    requires w.Valid()
    decreases |alerts|
  {
    if alerts == [] then Some(Flow(w, []))
    else
      match Record(w, 21, [alerts[0].level, alerts[0].code], alerts[0].random)
      case Crashed => None
      case Refused(_) => None
      case Sent(record, next) =>
        if !next.Valid() || !Draws(w, alerts[0].random) then None
        else
          match AlertFlow(next, alerts[1..])
          case None => None
          case Some(flow) => Some(Flow(flow.next, [record] + flow.records))
  }

  /** Up to sixteen alerts in a row that are to be dropped change nothing of what is read; one more ends the stream. */
  lemma {:induction false} WarningsAreRead(w: Half, c: Conn, alerts: seq<AlertSent>, rest: octets) returns (c': Conn)
    requires Joined(w, c) && Quiet(c) && AlertFlow(w, alerts).Some? && Number(c.half.seqNum) + |alerts| <= MAX_UINT64
    requires forall i :: 0 <= i < |alerts| ==> Ignored(w.version, alerts[i].level, alerts[i].code)
    ensures var flow := AlertFlow(w, alerts).value;
            var s := Concat(flow.records) + rest;
            if c.retryCount + |alerts| <= 16 then
              && c' == c.(half := c'.half, retryCount := c.retryCount + |alerts|)
              && Joined(flow.next, c')
              && ReadAll(c, s) == ReadAll(c', rest)
            else ReadAll(c, s) == []
    decreases |alerts|
  {
    hide Record, ReadRecord, ReadAll, Number, SmallOverheads, Concat, Joined, Ignored;
    JoinedValid(w, c);
    c' := c;
    if alerts == [] {
      NoRecords();
      assert Concat([]) + rest == rest;
    } else {
      var a, more := alerts[0], alerts[1..];
      assert Ignored(w.version, alerts[0].level, alerts[0].code);
      var e := Record(w, 21, [a.level, a.code], a.random);
      var flow := AlertFlow(e.next, more).value;
      FirstOfFlow(e.record, flow.records, rest);
      c' := WarningIsRead(w, c, a.level, a.code, a.random, Concat(flow.records) + rest, false);
      if c.retryCount < 16 {
        JoinedVersion(e.next, c', w, c);
        forall i | 0 <= i < |more|
          ensures Ignored(e.next.version, more[i].level, more[i].code)
        {
          assert more[i] == alerts[i + 1];
        }
        c' := WarningsAreRead(e.next, c', more, rest);
      }
    }
  }

  lemma JoinedValid(w: Half, c: Conn)
    requires Joined(w, c)
    ensures w.Valid() && c.Valid() && c.input == [] && c.retryCount <= 16
  {
  }

  lemma JoinedVersion(w': Half, c': Conn, w: Half, c: Conn)
    requires Joined(w', c') && Joined(w, c) && c'.vers == c.vers
    ensures w'.version == w.version && w'.Valid()
  {
  }

  lemma FirstOfFlow(record: octets, records: seq<octets>, rest: octets)
    ensures Concat([record] + records) + rest == record + (Concat(records) + rest)
  {
    hide Concat;
    ConcatAppend([record], records);
    ConcatOne([record]);
  }

  /** A stream that its writer closed is read in full, and nothing that follows the close is. */
  lemma ClosedStream(w: Half, c: Conn, vers: nat, chunks: seq<octets>, random: nat -> Option<octets>,
                     level: octet, random': Option<octets>, rest: octets)
    requires Connected(w, c, vers) && AllDraws(w, random) && SendAll(w, APPLICATION_DATA, vers, chunks, random).Some?
    requires forall i :: 0 <= i < |chunks| ==> 1 <= |chunks[i]| <= MAX_PLAINTEXT
    requires Number(w.seqNum) + |chunks| < MAX_UINT64
    requires var flow := SendAll(w, APPLICATION_DATA, vers, chunks, random).value;
             flow.next.Valid() && Draws(flow.next, random') && Record(flow.next, 21, [level, 0], random').Sent?
    ensures var flow := SendAll(w, APPLICATION_DATA, vers, chunks, random).value;
            ReadAll(c, Concat(flow.records) + (Record(flow.next, 21, [level, 0], random').record + rest)) == Concat(chunks)
  {
    hide SendAll, ReadAll, Record, Concat, Number, SmallOverheads;
    var flow := SendAll(w, APPLICATION_DATA, vers, chunks, random).value;
    var closing := Record(flow.next, 21, [level, 0], random').record + rest;
    var c' := ChunksReadBack(w, c, vers, chunks, random, closing);
    CloseIsRead(flow.next, c', level, random', rest, false);
    assert Concat(chunks) + [] == Concat(chunks);
  }
}
