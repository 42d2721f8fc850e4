/** Stream integrity: what Write calls put in, Read calls give back, byte for byte and in order. */
module Streams {
  import opened BigEndian
  import opened Ghash
  import opened Nonces
  import opened Padding
  import opened Readers
  import opened Records
  import opened Wrappers
  import opened Writers

  // ---------- One application data record ----------

  lemma SentHeader(h: Half, typ: octet, version: octets, payload: octets, random: Option<octets>)
    requires h.Valid() && |version| == 2 && !h.cipher.NoCipher?
    ensures var e := EncryptRecord(h, RecordHeader(typ, version, |payload|), payload, random);
            e.Sent? ==>
              && |e.record| >= RECORD_HEADER_LEN
              && (e.record[0] == typ || e.record[0] == APPLICATION_DATA)
              && e.record[1..3] == version
              && e.record[3..5] == LengthBytes(|e.record| - RECORD_HEADER_LEN)
  {
    hide LengthBytes, InnerPlaintext, PadBytes, CbcPadding, NextIv, ApplyStream, Advance;
    HeaderParts(typ, version, |payload|, []);
  }

  lemma SentNext(h: Half, header: octets, payload: octets, random: Option<octets>)
    requires h.Valid() && |header| == RECORD_HEADER_LEN && !h.cipher.NoCipher?
    ensures var e := EncryptRecord(h, header, payload, random);
            e.Sent? ==>
              && Advance(h).Some? && e.next.seqNum == Advance(h).value.seqNum
              && e.next.version == h.version && !e.next.cipher.NoCipher?
              && e.next.ExplicitNonceLen() == h.ExplicitNonceLen()
  {
    hide LengthBytes, InnerPlaintext, PadBytes, CbcPadding, NextIv, ApplyStream, Increment;
  }

  lemma KeepsAppData(c: Conn, next: Half, data: octets)
    requires c.complete && c.hand == [] && 1 <= |data| <= MAX_PLAINTEXT && !next.cipher.NoCipher?
    ensures Judge(c.(half := next), APPLICATION_DATA, data, false) == Keep(c.(half := next, input := data, retryCount := 0))
  {
  }

  lemma HeaderNumbers(record: octets, version: octets, tail: octets)
    requires |record| >= RECORD_HEADER_LEN && |version| == 2 && record[1..3] == version
    requires record[3..5] == LengthBytes(|record| - RECORD_HEADER_LEN) && |record| - RECORD_HEADER_LEN < 65536
    ensures var s := record + tail;
            && LengthOf(s[1], s[2]) == LengthOf(version[0], version[1])
            && LengthOf(s[3], s[4]) == |record| - RECORD_HEADER_LEN
  {
    hide LengthBytes, LengthOf;
    var s := record + tail;
    LengthRoundTrip(|record| - RECORD_HEADER_LEN);
    assert s[1] == record[1..3][0] && s[2] == record[1..3][1] && s[3] == record[3..5][0] && s[4] == record[3..5][1];
  }

  lemma VersionNumber(vers: nat)
    requires 0 < vers < 65536
    ensures LengthOf(VersionBytes(vers)[0], VersionBytes(vers)[1]) == ExpectedVersion(vers)
  {
    hide LengthBytes, LengthOf;
    LengthRoundTrip(ExpectedVersion(vers));
  }

  /** A writer and a reader of application data at the two ends of a direction. */
  ghost predicate Connected(w: Half, c: Conn, vers: nat) {
    && w.Lawful() && SmallOverheads(w) && ShapeBounded(w) && !w.cipher.NoCipher?
    && w.version == vers && 0 < vers < 65536
    && c.Valid() && InSync(w, c.half)
    && c.vers == vers && c.haveVers && c.complete
    && c.hand == [] && c.input == [] && c.err.None?
  }

  /** Whatever the reader's retry count was, one record of application data makes its payload available. */
  lemma OneRecordRead(w: Half, c: Conn, vers: nat, chunk: octets, random: Option<octets>, tail: octets)
    requires Connected(w, c, vers) && Draws(w, random)
    requires 1 <= |chunk| <= MAX_PLAINTEXT && Number(w.seqNum) < MAX_UINT64
    ensures var e := EncryptRecord(w, RecordHeader(APPLICATION_DATA, VersionBytes(vers), |chunk|), chunk, random);
            e.Sent? ==>
              exists next: Half ::
                && ReadRecord(c, e.record + tail, false) == ReadOk(c.(half := next, input := chunk, retryCount := 0), tail)
                && Connected(e.next, c.(half := next, retryCount := 0), vers)
                && Number(e.next.seqNum) == Number(w.seqNum) + 1
                && e.next.ExplicitNonceLen() == w.ExplicitNonceLen()
  {
    hide EncryptRecord, DecryptRecord, LengthOf, LengthBytes, Number, Increment, SmallOverheads, FragmentLength, VersionBytes,
         Judge;
    var header := RecordHeader(APPLICATION_DATA, VersionBytes(vers), |chunk|);
    var e := EncryptRecord(w, header, chunk, random);
    if e.Sent? {
      AdvanceCounts(w);
      RecordRoundTrip(w, c.half, APPLICATION_DATA, VersionBytes(vers), chunk, random);
      SentHeader(w, APPLICATION_DATA, VersionBytes(vers), chunk, random);
      HeaderParts(APPLICATION_DATA, VersionBytes(vers), |chunk|, []);
      SentLength(w, header, chunk, random);
      WithinCiphertextLimits(w, |chunk|);
      HeaderNumbers(e.record, VersionBytes(vers), tail);
      VersionNumber(vers);
      var s := e.record + tail;
      assert s[..|e.record|] == e.record && s[|e.record|..] == tail;
      DecryptKeepsValid(c.half, e.record);
      SentNext(w, header, chunk, random);
      EncryptKeeps(w, header, chunk, random);
      var next := DecryptRecord(c.half, e.record).next;
      KeepsAppData(c, next, chunk);
      assert OneRecord(c, s, false) == Ended(ReadOk(c.(half := next, input := chunk, retryCount := 0), tail));
    }
  }

  // ---------- Everything there is to read ----------

  /** The application data in s, up to its end, an error, or a handshake message. */
  ghost function ReadAll(c: Conn, s: octets): octets
    requires c.Valid() && c.input == []
    decreases |s|
  {
    match ReadRecord(c, s, false)
    case ReadFailed(_, _) => []
    case ReadCrash => []
    case ReadOk(c', rest) =>
      OneThingHappens(c, s, false);
      if c'.input == [] then [] else c'.input + ReadAll(c'.(input := []), rest)
  }

  lemma NothingLeft(c: Conn)
    requires c.Valid() && c.input == []
    ensures ReadAll(c, []) == []
  {
  }

  ghost predicate AllDraws(w: Half, random: nat -> Option<octets>) {
    forall k: nat :: Draws(w, random(k))
  }

  /** Chunks sent one after the other are read back one after the other, before whatever follows them. */
  lemma {:induction false} ChunksReadBack(w: Half, c: Conn, vers: nat, chunks: seq<octets>, random: nat -> Option<octets>,
                                          tail: octets) returns (c': Conn)
    requires Connected(w, c, vers) && AllDraws(w, random) && SendAll(w, APPLICATION_DATA, vers, chunks, random).Some?
    requires forall i :: 0 <= i < |chunks| ==> 1 <= |chunks[i]| <= MAX_PLAINTEXT
    requires Number(w.seqNum) + |chunks| <= MAX_UINT64
    ensures var flow := SendAll(w, APPLICATION_DATA, vers, chunks, random).value;
            && Connected(flow.next, c', vers)
            && ReadAll(c, Concat(flow.records) + tail) == Concat(chunks) + ReadAll(c', tail)
            && Number(flow.next.seqNum) == Number(w.seqNum) + |chunks|
            && flow.next.ExplicitNonceLen() == w.ExplicitNonceLen()
    decreases |chunks|
  {
    hide EncryptRecord, ReadRecord, Number, SmallOverheads, RecordHeader, VersionBytes;
    if chunks == [] {
      c' := c;
      assert [] + tail == tail && [] + ReadAll(c, tail) == ReadAll(c, tail);
    } else {
      var n := |chunks| - 1;
      var flow := SendAll(w, APPLICATION_DATA, vers, chunks[..n], random).value;
      var h := flow.next;
      var e := EncryptRecord(h, RecordHeader(APPLICATION_DATA, VersionBytes(vers), |chunks[n]|), chunks[n], random(n));
      var c1 := ChunksReadBack(w, c, vers, chunks[..n], random, e.record + tail);
      assert Draws(w, random(n));
      OneRecordRead(h, c1, vers, chunks[n], random(n), tail);
      var next: Half :|
        && ReadRecord(c1, e.record + tail, false) == ReadOk(c1.(half := next, input := chunks[n], retryCount := 0), tail)
        && Connected(e.next, c1.(half := next, retryCount := 0), vers)
        && Number(e.next.seqNum) == Number(h.seqNum) + 1
        && e.next.ExplicitNonceLen() == h.ExplicitNonceLen();
      c' := c1.(half := next, retryCount := 0);
      OneStepOfReadAll(c1, e.record + tail, c', chunks[n], tail);
      LastRecord(flow.records, e.record, tail);
      assert Concat(chunks[..n]) + (chunks[n] + ReadAll(c', tail)) == Concat(chunks) + ReadAll(c', tail);
    }
  }

  lemma OneStepOfReadAll(c: Conn, s: octets, c': Conn, data: octets, rest: octets)
    requires c.Valid() && c.input == [] && c'.Valid() && c'.input == [] && data != []
    requires ReadRecord(c, s, false) == ReadOk(c'.(input := data), rest)
    ensures ReadAll(c, s) == data + ReadAll(c', rest)
  {
    hide ReadRecord;
    assert c'.(input := data).(input := []) == c';
  }

  lemma LastRecord(records: seq<octets>, record: octets, tail: octets)
    ensures Concat(records + [record]) + tail == Concat(records) + (record + tail)
  {
    assert (records + [record])[..|records|] == records;
  }

  // ---------- Any sequence of writes ----------

  /** One use of writeRecordLocked for application data: what was to be written, and how it was cut up. */
  datatype Call = Call(data: octets, chunks: seq<octets>, random: nat -> Option<octets>)

  ghost predicate ProperCall(w: Half, call: Call) {
    Splits(call.chunks, call.data) && AllDraws(w, call.random)
  }

  ghost function SessionFlow(w: Half, vers: nat, calls: seq<Call>): Option<Flow>
    requires w.Valid()
    decreases |calls|
  {
    if calls == [] then Some(Flow(w, []))
    else
      match SendAll(w, APPLICATION_DATA, vers, calls[0].chunks, calls[0].random)
      case None => None
      case Some(first) =>
        if !first.next.Valid() then None
        else
          match SessionFlow(first.next, vers, calls[1..])
          case None => None
          case Some(rest) => Some(Flow(rest.next, first.records + rest.records))
  }

  function AllData(calls: seq<Call>): octets {
    if calls == [] then [] else calls[0].data + AllData(calls[1..])
  }

  function RecordCount(calls: seq<Call>): nat {
    if calls == [] then 0 else |calls[0].chunks| + RecordCount(calls[1..])
  }

  lemma {:induction false} SessionReadBack(w: Half, c: Conn, vers: nat, calls: seq<Call>)
    requires Connected(w, c, vers) && SessionFlow(w, vers, calls).Some?
    requires forall i :: 0 <= i < |calls| ==> ProperCall(w, calls[i])
    requires Number(w.seqNum) + RecordCount(calls) <= MAX_UINT64
    ensures ReadAll(c, Concat(SessionFlow(w, vers, calls).value.records)) == AllData(calls)
    decreases |calls|
  {
    hide SendAll, ReadRecord, Number, SmallOverheads, Concat, ReadAll, Connected;
    ConnectedValid(w, c, vers);
    if calls == [] {
      NothingLeft(c);
      NoRecords();
    } else {
      var call := calls[0];
      assert ProperCall(w, call);
      var first := SendAll(w, APPLICATION_DATA, vers, call.chunks, call.random).value;
      var rest := SessionFlow(first.next, vers, calls[1..]).value;
      var c' := ChunksReadBack(w, c, vers, call.chunks, call.random, Concat(rest.records));
      ConcatAppend(first.records, rest.records);
      forall i | 0 <= i < |calls[1..]|
        ensures ProperCall(first.next, calls[1..][i])
      {
        assert ProperCall(w, calls[i + 1]);
        SameDraws(w, first.next, calls[i + 1].random);
      }
      SessionReadBack(first.next, c', vers, calls[1..]);
    }
  }

  lemma ConnectedValid(w: Half, c: Conn, vers: nat)
    requires Connected(w, c, vers)
    ensures w.Valid() && c.Valid() && c.input == []
  {
  }

  lemma SameDraws(w: Half, w': Half, random: nat -> Option<octets>)
    requires w.ExplicitNonceLen() == w'.ExplicitNonceLen() && AllDraws(w, random)
    ensures AllDraws(w', random)
  {
  }

  /**
   * Stream integrity: for any sequence of writes that succeeds, reading the records back delivers the bytes written,
   * all of them and in order.
   */
  lemma StreamIntegrity(w: Half, c: Conn, vers: nat, calls: seq<Call>)
    requires Connected(w, c, vers) && SessionFlow(w, vers, calls).Some?
    requires forall i :: 0 <= i < |calls| ==> ProperCall(w, calls[i])
    requires w.seqNum == Nulls(8) && RecordCount(calls) <= MAX_UINT64
    ensures ReadAll(c, Concat(SessionFlow(w, vers, calls).value.records)) == AllData(calls)
  {
    hide ReadAll, SessionFlow, Connected, Number;
    NumberOfNulls(8);
    SessionReadBack(w, c, vers, calls);
  }

  // ---------- Conn.Write ----------

  lemma OneCall(w: Half, vers: nat, call: Call)
    requires w.Valid() && SendAll(w, APPLICATION_DATA, vers, call.chunks, call.random).Some?
    requires SendAll(w, APPLICATION_DATA, vers, call.chunks, call.random).value.next.Valid()
    ensures SessionFlow(w, vers, [call]) == SendAll(w, APPLICATION_DATA, vers, call.chunks, call.random)
    ensures AllData([call]) == call.data
  {
    hide SendAll;
    var flow := SendAll(w, APPLICATION_DATA, vers, call.chunks, call.random).value;
    assert flow.records + [] == flow.records && call.data + [] == call.data;
  }

  lemma TwoCalls(w: Half, vers: nat, a: Call, b: Call)
    requires w.Valid() && SendAll(w, APPLICATION_DATA, vers, a.chunks, a.random).Some?
    requires SendAll(w, APPLICATION_DATA, vers, a.chunks, a.random).value.next.Valid()
    requires SessionFlow(SendAll(w, APPLICATION_DATA, vers, a.chunks, a.random).value.next, vers, [b]).Some?
    ensures var first := SendAll(w, APPLICATION_DATA, vers, a.chunks, a.random).value;
            var second := SessionFlow(first.next, vers, [b]).value;
            SessionFlow(w, vers, [a, b]) == Some(Flow(second.next, first.records + second.records))
            && Concat(first.records + second.records) == Concat(first.records) + Concat(second.records)
    ensures AllData([a, b]) == a.data + b.data
  {
    hide SendAll;
    assert [a, b][1..] == [b];
    assert [b][1..] == [] && AllData([b]) == b.data + [] == b.data;
    var first := SendAll(w, APPLICATION_DATA, vers, a.chunks, a.random).value;
    ConcatAppend(first.records, SessionFlow(first.next, vers, [b]).value.records);
  }

  lemma OneByteChunk(chunks: seq<octets>, b: octets)
    requires Splits(chunks, b) && |b| == 1
    ensures chunks == [b]
  {
    hide MAX_PLAINTEXT;
    var n := |chunks| - 1;
    if chunks == [] {
      NoRecords();
      assert false;
    }
    if n > 0 {
      ConcatNotShort(chunks[..n]);
      assert false;
    }
    ConcatOne(chunks);
  }

  lemma ConcatNotShort(chunks: seq<octets>)
    requires chunks != [] && |chunks[|chunks| - 1]| >= 1
    ensures |Concat(chunks)| >= 1
  {
  }

  /** The first byte of the data goes out by itself. */
  predicate SplitsFirst(vers: nat, cipher: Cipher, b: octets) {
    |b| > 1 && vers == VERSION_TLS10 && cipher.Cbc?
  }

  /**
   * Write: TLS 1.0 under a block cipher sends the first byte by itself, to make the next IV unpredictable. Whether or
   * not all of b could be written, exactly the first n bytes of it have gone out.
   */
  method Write(w: Writer, b: octets, random: nat -> Option<octets>, random': nat -> Option<octets>)
    returns (n: nat, status: Status, ghost calls: seq<Call>)
    requires w.Valid()
    modifies w`packetsSent, w`sendBuf, w`wire, w`bytesSent, w.out, w.out.seqNum, w.out.handshakeLen
    ensures !status.WritePanic? ==>
              && n <= |b| && AllData(calls) == b[..n]
              && (forall i :: 0 <= i < |calls| ==> Splits(calls[i].chunks, calls[i].data))
              && (forall i :: 0 <= i < |calls| ==> calls[i].random == random || calls[i].random == random')
              && var flow := SessionFlow(old(w.out.State()), w.vers, calls);
                 flow.Some? && w.Output() == old(w.Output()) + Concat(flow.value.records)
    ensures status.Done? ==>
              && n == |b| && w.Valid()
              && w.out.State() == SessionFlow(old(w.out.State()), w.vers, calls).value.next
    ensures status.Done? && SplitsFirst(w.vers, old(w.out.cipher), b) ==> |calls| == 2 && calls[0].chunks == [b[..1]]
    ensures status.Done? && !SplitsFirst(w.vers, old(w.out.cipher), b) ==> |calls| == 1
  {
    hide SendAll, Splits, SmallOverheads, Concat, AllData, SessionFlow;
    ghost var start, before := w.out.State(), w.Output();
    var m, rest := 0, b;
    ghost var chunks, first;
    calls := [];
    if |b| > 1 && w.vers == VERSION_TLS10 && w.out.cipher.Cbc? {
      n, status, chunks := w.WriteRecordLocked(APPLICATION_DATA, b[..1], random);
      if !status.WritePanic? {
        assert b[..1][..n] == b[..n];
        first := Call(b[..n], chunks, random);
        OneCall(start, w.vers, first);
        calls := [first];
      }
      if !status.Done? {
        return;
      }
      OneByteChunk(chunks, b[..1]);
      m, rest := 1, b[1..];
    }
    ghost var middle := w.out.State();
    n, status, chunks := w.WriteRecordLocked(APPLICATION_DATA, rest, random');
    if !status.WritePanic? {
      ghost var call := Call(rest[..n], chunks, random');
      OneCall(middle, w.vers, call);
      if m == 1 {
        TwoCalls(start, w.vers, first, call);
        assert b[..1] + rest[..n] == b[..n + 1];
        ThreeParts(before, Concat(SendAll(start, APPLICATION_DATA, w.vers, first.chunks, first.random).value.records),
                   Concat(SessionFlow(middle, w.vers, [call]).value.records));
      }
      calls := if m == 1 then [first, call] else [call];
    }
    n := n + m;
  }

  lemma ThreeParts(a: octets, b: octets, c: octets)
    ensures a + b + c == a + (b + c)
  {
  }

  // ---------- Conn.Read ----------

  /** All the application data still to be delivered. */
  ghost function Remaining(c: Conn, s: octets): octets
    requires c.Valid()
  {
    c.input + ReadAll(c.(input := []), s)
  }

  datatype Reading = Given | ReadErr | HandshakePending | Panicked

  lemma RemainingAfter(c: Conn, s: octets)
    requires c.Valid() && c.input == []
    ensures match ReadRecord(c, s, false)
            case ReadCrash => true
            case ReadFailed(c', rest) => c'.Valid() && c'.input == [] && Remaining(c, s) == Remaining(c', rest) == []
            case ReadOk(c', rest) =>
              && c'.Valid()
              && (c'.input != [] ==> c'.hand == c.hand && Remaining(c, s) == Remaining(c', rest))
              && (c'.input == [] ==> c.hand < c'.hand && Remaining(c, s) == [])
  {
    hide ReadRecord;
    OneThingHappens(c, s, false);
    assert c.(input := []) == c;
    match ReadRecord(c, s, false)
    case ReadCrash =>
    case ReadOk(c', rest) =>
    case ReadFailed(c', rest) =>
      FailureIsPermanent(c, s, false, rest, false);
      assert c'.(input := []) == c';
  }

  /**
   * Read: gives up to max bytes of what remains, and leaves the rest of it. What is handed over and what remains
   * always make up the same stream, unless a handshake message has to be dealt with first.
   */
  method Read(r: Reader, max: nat) returns (data: octets, result: Reading)
    requires r.Valid() && r.State().Valid()
    modifies r`rawInput, r`network, r`err, r`input, r`hand, r`retryCount, r.half, r.half.seqNum
    ensures !result.Panicked? ==> r.Valid() && r.State().Valid()
    ensures |data| <= max
    ensures !result.Panicked? && r.hand == old(r.hand) ==>
              data + Remaining(r.State(), r.Coming()) == Remaining(old(r.State()), old(r.Coming()))
    ensures result.Given? && max > 0 ==> data != []
    ensures result.ReadErr? && data == [] && r.hand == old(r.hand) ==> Remaining(old(r.State()), old(r.Coming())) == []
  {
    hide ReadRecord, LawfulConn, Remaining;
    data := [];
    if max == 0 {
      EmptyFirst(Remaining(r.State(), r.Coming()));
      return data, Given;
    }
    while |r.input| == 0
      invariant r.Valid() && r.State().Valid()
      invariant r.input != [] || (r.State() == old(r.State()) && r.Coming() == old(r.Coming()))
      invariant r.hand == old(r.hand)
      invariant Remaining(r.State(), r.Coming()) == Remaining(old(r.State()), old(r.Coming()))
      decreases if r.input == [] then 1 else 0
    {
      RemainingAfter(r.State(), r.Coming());
      var status := r.ReadRecordOrCCS(false);
      match status {
        case ReadPanicked => return [], Panicked;
        case ReadError =>
          EmptyFirst(Remaining(r.State(), r.Coming()));
          return [], ReadErr;
        case ReadFine =>
          if |r.hand| > 0 {
            EmptyFirst(Remaining(r.State(), r.Coming()));
            return [], HandshakePending;
          }
      }
    }
    var n := if |r.input| < max then |r.input| else max;
    data := r.input[..n];
    InputTaken(r.State(), r.Coming(), n);
    r.input := r.input[n..];
    result := Given;
    if n != 0 && |r.input| == 0 && |r.rawInput| > 0 && r.rawInput[0] == ALERT {
      // An alert is waiting: read it, so that the end of the stream is reported together with the last bytes.
      RemainingAfter(r.State(), r.Coming());
      var status := r.ReadRecordOrCCS(false);
      if status.ReadPanicked? {
        result := Panicked;
      } else if status.ReadError? {
        result := ReadErr;
      }
    }
  }

  lemma EmptyFirst(x: octets)
    ensures [] + x == x
  {
  }

  lemma InputTaken(c: Conn, s: octets, n: nat)
    requires LawfulConn(c) && n <= |c.input|
    ensures LawfulConn(c.(input := c.input[n..])) && c.(input := c.input[n..]).Valid()
    ensures c.input[..n] + Remaining(c.(input := c.input[n..]), s) == Remaining(c, s)
  {
    hide ReadAll, LawfulStream, LawfulAead, LawfulCbc, LawfulMac;
    assert c.(input := c.input[n..]).(input := []) == c.(input := []);
    assert c.input[..n] + c.input[n..] == c.input;
  }
}
