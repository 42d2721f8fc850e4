/** The write side of Conn (conn.go): fragmenting, record sizes, buffering, and coalescing of handshake messages. */
module Writers {
  import opened BigEndian
  import opened Ghash
  import opened HalfConns
  import opened Nonces
  import opened Padding
  import opened Records
  import opened Wrappers

  const VERSION_TLS10 := 0x0301
  const VERSION_TLS12 := 0x0303
  const TCP_MSS_ESTIMATE := 1208
  const RECORD_SIZE_BOOST_THRESHOLD := 128 * 1024
  const MAX_CIPHERTEXT := 16384 + 2048
  const MAX_CIPHERTEXT_TLS13 := 16384 + 256

  const SERVER_HELLO: octet := 2
  const FINISHED: octet := 20

  // ---------- How long a record gets ----------

  /** The sizes of the suites in use: MACs up to 64 bytes, 8 or 16-byte blocks, tags up to 255 bytes. */
  ghost predicate SmallOverheads(h: Half) {
    && (h.mac.Mac? ==> h.mac.size <= 64)
    && (h.cipher.Cbc? ==> h.cipher.cbc.blockSize == 8 || h.cipher.cbc.blockSize == 16)
    && (h.cipher.Aead? ==> h.cipher.aead.overhead <= 255)
  }

  /** The length field of a record that carries n unshaped bytes. */
  function FragmentLength(h: Half, n: nat): nat
    requires h.Valid()
  {
    match h.cipher
    case NoCipher => n
    case Stream(_, _) => n + h.mac.size
    case Aead(k) => if h.version == VERSION_TLS13 then n + 1 + k.overhead else k.explicitNonceLen + n + k.overhead
    case Cbc(k, _) => h.ExplicitNonceLen() + n + h.mac.size + CbcPadding(k, n + h.mac.size)
  }

  /** The fragment that encrypt puts behind the header, for a record that is not shaped. */
  ghost function FragmentOf(h: Half, header: octets, payload: octets, explicit: octets): octets
    requires h.Valid() && |header| == RECORD_HEADER_LEN
  {
    match h.cipher
    case NoCipher => payload
    case Stream(k, pos) => ApplyStream(k, pos, payload + h.mac.tag(h.seqNum, header, payload))
    case Aead(k) =>
      if h.version == VERSION_TLS13
      then k.seal(h.seqNum, payload + [header[0]], RecordHeader(APPLICATION_DATA, header[1..3], |payload| + 1 + k.overhead))
      else explicit + k.seal(if explicit == [] then h.seqNum else explicit, payload, h.seqNum + header)
    case Cbc(k, iv) =>
      var text := payload + h.mac.tag(h.seqNum, header, payload);
      explicit + k.enc(if explicit == [] then iv else explicit, text + PadBytes(CbcPadding(k, |text|)))
  }

  lemma FragmentSent(h: Half, header: octets, payload: octets, explicit: octets)
    requires h.Valid() && |header| == RECORD_HEADER_LEN && !Shaped(h, header[0])
    requires h.version == VERSION_TLS13 ==> explicit == []
    ensures var e := EncryptWith(h, header, payload, explicit);
            e.Sent? ==> |e.record| == RECORD_HEADER_LEN + |FragmentOf(h, header, payload, explicit)|
  {
    hide LengthBytes, PadBytes, CbcPadding, NextIv, Advance, ApplyStream;
  }

  lemma FragmentOfLength(h: Half, header: octets, payload: octets, explicit: octets)
    requires h.Lawful() && |header| == RECORD_HEADER_LEN && |explicit| == h.ExplicitNonceLen()
    requires h.version == VERSION_TLS13 ==> explicit == []
    ensures |FragmentOf(h, header, payload, explicit)| == FragmentLength(h, |payload|)
  {
    hide LengthBytes, PadBytes, CbcPadding;
    if h.cipher.Cbc? {
      CbcLengths(h.cipher.cbc, |payload| + h.mac.size, h.mac.size, h.ExplicitNonceLen());
    }
  }

  lemma SentLength(h: Half, header: octets, payload: octets, random: Option<octets>)
    requires h.Lawful() && |header| == RECORD_HEADER_LEN && Draws(h, random) && !Shaped(h, header[0])
    ensures var e := EncryptRecord(h, header, payload, random);
            e.Sent? ==> |e.record| == RECORD_HEADER_LEN + FragmentLength(h, |payload|)
  {
    hide EncryptWith, FragmentLength;
    var explicit := ExplicitNonce(h, random);
    if explicit.Some? {
      FragmentSent(h, header, payload, explicit.value);
      FragmentOfLength(h, header, payload, explicit.value);
    }
  }

  /** No record outgrows what the reader accepts. */
  lemma WithinCiphertextLimits(h: Half, n: nat)
    requires h.Valid() && SmallOverheads(h) && n <= MAX_PLAINTEXT
    ensures FragmentLength(h, n) <= if h.version == VERSION_TLS13 then MAX_CIPHERTEXT_TLS13 else MAX_CIPHERTEXT
  {
  }

  /** The payload that fills one TCP segment, and the largest that fits it. */
  function SegmentPayload(h: Half, vers: nat): int
    requires h.Valid()
  {
    var room := TCP_MSS_ESTIMATE - RECORD_HEADER_LEN - h.ExplicitNonceLen();
    (match h.cipher
     case NoCipher => room
     case Stream(_, _) => room - h.mac.size
     case Aead(k) => room - k.overhead
     case Cbc(k, _) => room - room % k.blockSize - 1 - h.mac.size)
    - (if vers == VERSION_TLS13 then 1 else 0)
  }

  lemma SegmentPayloadFits(h: Half, n: nat)
    requires h.Valid() && SmallOverheads(h) && !h.cipher.NoCipher?
    ensures SegmentPayload(h, h.version) > 0
    ensures RECORD_HEADER_LEN + FragmentLength(h, n) <= TCP_MSS_ESTIMATE <==> n <= SegmentPayload(h, h.version)
  {
  }

  // ---------- Splitting data into records ----------

  function Concat(parts: seq<octets>): octets {
    if parts == [] then [] else Concat(parts[..|parts| - 1]) + parts[|parts| - 1]
  }

  lemma ConcatOne(records: seq<octets>)
    requires |records| == 1
    ensures Concat(records) == records[0]
  {
    assert records[..|records| - 1] == [];
    assert Concat(records) == [] + records[0];
  }

  lemma NoRecords()
    ensures Concat([]) == []
  {
  }

  lemma {:induction false} ConcatAppend(a: seq<octets>, b: seq<octets>)
    ensures Concat(a + b) == Concat(a) + Concat(b)
    decreases |b|
  {
    if b == [] {
      assert a + b == a;
    } else {
      var n := |b| - 1;
      assert (a + b)[..|a + b| - 1] == a + b[..n];
      ConcatAppend(a, b[..n]);
    }
  }

  /** data cut into pieces of 1 to 16384 bytes. */
  ghost predicate Splits(chunks: seq<octets>, data: octets) {
    Concat(chunks) == data && forall i :: 0 <= i < |chunks| ==> 1 <= |chunks[i]| <= MAX_PLAINTEXT
  }

  /** Every chunk but the last fills its record. */
  ghost predicate FullButLast(chunks: seq<octets>) {
    forall i :: 0 <= i < |chunks| - 1 ==> |chunks[i]| == MAX_PLAINTEXT
  }

  /** The version bytes of a record header: 1.0 before a version is agreed, and 1.2 for TLS 1.3. */
  function VersionBytes(vers: nat): (b: octets)
    ensures |b| == 2
  {
    LengthBytes(if vers == 0 then VERSION_TLS10 else if vers == VERSION_TLS13 then VERSION_TLS12 else vers)
  }

  /** What sending some chunks one after the other leaves: the state of the half connection, and the records. */
  datatype Flow = Flow(next: Half, records: seq<octets>)

  /** random(k) is the k-th draw from the random source. */
  ghost function SendAll(h: Half, typ: octet, vers: nat, chunks: seq<octets>, random: nat -> Option<octets>): Option<Flow>
    requires h.Valid()
  {
    if chunks == [] then Some(Flow(h, []))
    else
      var n := |chunks| - 1;
      match SendAll(h, typ, vers, chunks[..n], random)
      case None => None
      case Some(flow) =>
        if !flow.next.Valid() then None
        else
          match EncryptRecord(flow.next, RecordHeader(typ, VersionBytes(vers), |chunks[n]|), chunks[n], random(n))
          case Crashed => None
          case Refused(_) => None
          case Sent(record, next) => Some(Flow(next, flow.records + [record]))
  }

  datatype Status = Done | WriteError | WritePanic

  function Least(a: int, b: int): int { if a <= b then a else b }

  /** What the sizes of records depend on when data is written: how much has been sent, and in how many packets. */
  datatype Pace = Pace(typ: octet, vers: nat, sizingDisabled: bool, buffering: bool, sent: nat, packets: nat)

  /** The most that the next record may carry when these have gone before it; what is only buffered does not count. */
  function PayloadLimit(p: Pace, h: Half, before: seq<octets>): int
    requires h.Valid()
  {
    var sent := p.sent + (if p.buffering then 0 else |Concat(before)|);
    if p.typ != APPLICATION_DATA || p.sizingDisabled || sent >= RECORD_SIZE_BOOST_THRESHOLD then MAX_PLAINTEXT
    else Least(MAX_PLAINTEXT, SegmentPayload(h, p.vers) * (p.packets + |before| + 1))
  }

  /** Every record carries as much as it may, or all there is left of the total. */
  ghost predicate Paced(p: Pace, h: Half, chunks: seq<octets>, records: seq<octets>, total: nat)
    requires h.Valid()
    decreases |chunks|
  {
    && |records| == |chunks|
    && (chunks != [] ==>
          var n := |chunks| - 1;
          && |chunks[n]| == Least(PayloadLimit(p, h, records[..n]), total - |Concat(chunks[..n])|)
          && Paced(p, h, chunks[..n], records[..n], total))
  }

  lemma PacedOneMore(p: Pace, h: Half, chunks: seq<octets>, records: seq<octets>, total: nat, chunk: octets, record: octets)
    requires h.Valid() && Paced(p, h, chunks, records, total)
    requires |chunk| == Least(PayloadLimit(p, h, records), total - |Concat(chunks)|)
    ensures Paced(p, h, chunks + [chunk], records + [record], total)
    ensures |Concat(records + [record])| == |Concat(records)| + |record|
  {
    hide PayloadLimit;
    assert (chunks + [chunk])[..|chunks|] == chunks && (records + [record])[..|records|] == records;
  }

  /** The sizes of records do not depend on how far the keys have got. */
  lemma SameSegment(h: Half, header: octets, payload: octets, random: Option<octets>, vers: nat)
    requires h.Valid() && |header| == RECORD_HEADER_LEN
    ensures match EncryptRecord(h, header, payload, random)
            case Sent(_, next) => next.Valid() && SegmentPayload(next, vers) == SegmentPayload(h, vers)
            case _ => true
  {
    hide LengthBytes, PadBytes, CbcPadding, NextIv, ApplyStream, Stage, Nulls;
  }

  class Writer {
    const out: HalfConn
    var vers: nat
    var dynamicRecordSizingDisabled: bool
    var bytesSent: nat
    var packetsSent: nat
    var buffering: bool
    var sendBuf: octets
    var wire: octets
    var handshakeBuf: Option<octets>

    /** Everything written so far is on the wire or in the send buffer. */
    function Output(): octets
      reads this
    {
      wire + sendBuf
    }

    ghost predicate Valid()
      reads this, out, out.seqNum, out.handshakeLen
    {
      out.Valid() && SmallOverheads(out.State()) && (!buffering ==> sendBuf == [])
    }

    constructor (halfConn: HalfConn, version: nat, sizingDisabled: bool)
      ensures out == halfConn && vers == version && dynamicRecordSizingDisabled == sizingDisabled
      ensures Output() == [] && !buffering && handshakeBuf.None? && bytesSent == packetsSent == 0
    {
      out, vers, dynamicRecordSizingDisabled := halfConn, version, sizingDisabled;
      bytesSent, packetsSent, buffering, sendBuf, wire, handshakeBuf := 0, 0, false, [], [], None;
    }

    /** Never 0 and never more than a record may hold; small at first, growing with each record sent. */
    method MaxPayloadSizeForWrite(typ: octet) returns (n: nat)
      requires Valid()
      modifies `packetsSent
      ensures 1 <= n <= MAX_PLAINTEXT
      ensures typ != APPLICATION_DATA || dynamicRecordSizingDisabled || bytesSent >= RECORD_SIZE_BOOST_THRESHOLD
              ==> n == MAX_PLAINTEXT && packetsSent == old(packetsSent)
      ensures typ == APPLICATION_DATA && !dynamicRecordSizingDisabled && bytesSent < RECORD_SIZE_BOOST_THRESHOLD
              ==> packetsSent == old(packetsSent) + 1
                  && n == Least(MAX_PLAINTEXT, SegmentPayload(out.State(), vers) * (old(packetsSent) + 1))
    {
      hide CbcPadding;
      if dynamicRecordSizingDisabled || typ != APPLICATION_DATA {
        return MAX_PLAINTEXT;
      }
      if bytesSent >= RECORD_SIZE_BOOST_THRESHOLD {
        return MAX_PLAINTEXT;
      }
      var payloadBytes: int := TCP_MSS_ESTIMATE - RECORD_HEADER_LEN - out.State().ExplicitNonceLen();
      match out.cipher {
        case NoCipher =>
        case Stream(_, _) => payloadBytes := payloadBytes - out.mac.size;
        case Aead(k) => payloadBytes := payloadBytes - k.overhead;
        case Cbc(k, _) =>
          payloadBytes := payloadBytes - payloadBytes % k.blockSize - 1;
          payloadBytes := payloadBytes - out.mac.size;
      }
      if vers == VERSION_TLS13 {
        payloadBytes := payloadBytes - 1;
      }
      assert payloadBytes == SegmentPayload(out.State(), vers) && 900 <= payloadBytes;
      var pkt := packetsSent;
      packetsSent := packetsSent + 1;
      AtLeast(payloadBytes, pkt + 1);
      if pkt > 1000 {
        return MAX_PLAINTEXT;
      }
      n := payloadBytes * (pkt + 1);
      if n > MAX_PLAINTEXT {
        n := MAX_PLAINTEXT;
      }
    }

    method Write(data: octets)
      requires Valid()
      modifies `sendBuf, `wire, `bytesSent
      ensures Output() == old(Output()) + data && (!buffering ==> sendBuf == [])
      ensures bytesSent == old(bytesSent) + (if buffering then 0 else |data|)
    {
      if buffering {
        sendBuf := sendBuf + data;
        return;
      }
      wire := wire + data;
      bytesSent := bytesSent + |data|;
    }

    method Flush()
      requires Valid()
      modifies `sendBuf, `wire, `bytesSent, `buffering
      ensures wire == old(wire) + old(sendBuf) && sendBuf == [] && Valid()
      ensures bytesSent == old(bytesSent) + |old(sendBuf)|
      ensures buffering == (old(buffering) && old(sendBuf) == [])
    {
      if |sendBuf| == 0 {
        return;
      }
      wire := wire + sendBuf;
      bytesSent := bytesSent + |sendBuf|;
      sendBuf := [];
      buffering := false;
    }

    /** One record of writeRecordLocked. */
    method SendChunk(typ: octet, chunk: octets, random: Option<octets>) returns (status: Status)
      requires Valid()
      modifies `sendBuf, `wire, `bytesSent, out`cipher, out.seqNum, out.handshakeLen
      ensures match EncryptRecord(old(out.State()), RecordHeader(typ, VersionBytes(vers), |chunk|), chunk, random)
              case Crashed => status == WritePanic
              case Refused(next) => status == WriteError && Output() == old(Output())
              case Sent(record, next) =>
                && status == Done && Valid() && out.State() == next && Output() == old(Output()) + record
                && bytesSent == old(bytesSent) + (if buffering then 0 else |record|)
    {
      hide EncryptRecord, RecordHeader, LengthBytes, VersionBytes, SmallOverheads;
      var header := RecordHeader(typ, VersionBytes(vers), |chunk|);
      EncryptKeeps(out.State(), header, chunk, random);
      var w := out.Encrypt(header, chunk, random);
      match w {
        case Failed => status := WriteError;
        case Panicked => status := WritePanic;
        case Wrote(record) =>
          Write(record);
          status := Done;
      }
    }

    /** What the sizes of the next records depend on. */
    function PaceOf(typ: octet): Pace
      reads this
    {
      Pace(typ, vers, dynamicRecordSizingDisabled, buffering, bytesSent, packetsSent)
    }

    /** One round of the loop: seals as much of rest as the next record may carry. */
    method SendPiece(typ: octet, rest: octets, random: Option<octets>) returns (m: nat, status: Status)
      requires Valid() && rest != []
      modifies `packetsSent, `sendBuf, `wire, `bytesSent, out`cipher, out.seqNum, out.handshakeLen
      ensures m == Least(PayloadLimit(old(PaceOf(typ)), old(out.State()), []), |rest|) && 1 <= m <= MAX_PLAINTEXT
      ensures match EncryptRecord(old(out.State()), RecordHeader(typ, VersionBytes(vers), m), rest[..m], random)
              case Crashed => status == WritePanic
              case Refused(next) => status == WriteError && Output() == old(Output())
              case Sent(record, next) =>
                && status == Done && Valid() && out.State() == next && Output() == old(Output()) + record
                && bytesSent == old(bytesSent) + (if buffering then 0 else |record|)
      ensures typ == APPLICATION_DATA && !dynamicRecordSizingDisabled && old(bytesSent) < RECORD_SIZE_BOOST_THRESHOLD ==>
                packetsSent == old(packetsSent) + 1
    {
      hide EncryptRecord, RecordHeader, VersionBytes, SmallOverheads, SegmentPayload;
      NoRecords();
      m := |rest|;
      var maxPayload := MaxPayloadSizeForWrite(typ);
      if m > maxPayload {
        m := maxPayload;
      }
      status := SendChunk(typ, rest[..m], random);
    }

    /** The sizes are those of the pace at the start, after what has been sent since. */
    ghost predicate InPace(p: Pace, start: Half, records: seq<octets>)
      requires start.Valid()
      reads this, out, out.seqNum, out.handshakeLen
    {
      && out.Valid() && SegmentPayload(out.State(), vers) == SegmentPayload(start, vers)
      && p.vers == vers && p.sizingDisabled == dynamicRecordSizingDisabled && p.buffering == buffering
      && bytesSent == p.sent + (if buffering then 0 else |Concat(records)|)
      && (p.typ == APPLICATION_DATA && !p.sizingDisabled && bytesSent < RECORD_SIZE_BOOST_THRESHOLD ==>
            packetsSent == p.packets + |records|)
    }

    lemma PaceNow(p: Pace, start: Half, records: seq<octets>)
      requires start.Valid() && InPace(p, start, records)
      ensures PayloadLimit(PaceOf(p.typ), out.State(), []) == PayloadLimit(p, start, records)
    {
      hide SegmentPayload, Concat;
      NoRecords();
    }

    /** Cuts data into records of the given type, seals each and hands it on. */
    method WriteRecordLocked(typ: octet, data: octets, random: nat -> Option<octets>)
      returns (n: nat, status: Status, ghost chunks: seq<octets>)
      requires Valid()
      modifies `packetsSent, `sendBuf, `wire, `bytesSent, out, out.seqNum, out.handshakeLen
      ensures !status.WritePanic? ==>
                && n <= |data|
                && Splits(chunks, data[..n])
                && (typ != APPLICATION_DATA ==> FullButLast(chunks))
                && var flow := SendAll(old(out.State()), typ, vers, chunks, random);
                   && flow.Some? && flow.value.next.Valid() && Output() == old(Output()) + Concat(flow.value.records)
                   && Paced(old(PaceOf(typ)), old(out.State()), chunks, flow.value.records, |data|)
      ensures status.Done? ==>
                && n == |data|
                && out.State() == AfterCCS(SendAll(old(out.State()), typ, vers, chunks, random).value.next, typ, vers,
                                           old(out.nextCipher), old(out.nextMac))
                && (typ != CHANGE_CIPHER_SPEC || vers == VERSION_TLS13 ==> Valid())
      ensures !status.Done? && typ == HANDSHAKE && |data| <= MAX_PLAINTEXT ==>
                SendAll(old(out.State()), typ, vers, [data], random).None?
    {
      hide EncryptRecord, RecordHeader, VersionBytes, SmallOverheads, Rekeyed, SendAll, Splits, Concat, Paced, PayloadLimit,
           SegmentPayload;
      ghost var start, pace := out.State(), PaceOf(typ);
      ghost var flow := Flow(start, []);
      n, chunks := 0, [];
      var rest, k := data, 0;
      NothingSent(start, typ, vers, random);
      NothingPaced(pace, start, |data|);
      while |rest| > 0
        invariant n <= |data| && rest == data[n..] && k == |chunks|
        invariant Splits(chunks, data[..n])
        invariant Valid() && out.State() == flow.next
        invariant SendAll(start, typ, vers, chunks, random) == Some(flow)
        invariant Paced(pace, start, chunks, flow.records, |data|) && InPace(pace, start, flow.records)
        invariant Output() == old(Output()) + Concat(flow.records)
        invariant out.nextCipher == old(out.nextCipher) && out.nextMac == old(out.nextMac)
      {
        PaceNow(pace, start, flow.records);
        SplitsLength(chunks, data[..n]);
        ghost var before := out.State();
        var m, one := SendPiece(typ, rest, random(k));
        ghost var chunk := rest[..m];
        OneMoreSent(start, typ, vers, chunks, chunk, random, flow);
        if !one.Done? {
          if typ != APPLICATION_DATA {
            PacedFull(pace, start, chunks, flow.records, |data|);
            if |data| <= MAX_PLAINTEXT {
              NotBegun(pace, start, chunks, flow.records, |data|);
              NoRecords();
              assert n == 0 && rest == data && chunk == data;
              assert chunks + [chunk] == [data];
            }
          }
          return n, one, chunks;
        }
        SplitsOneMore(chunks, data[..n], chunk);
        assert data[..n] + chunk == data[..n + m];
        SameSegment(before, RecordHeader(typ, VersionBytes(vers), m), chunk, random(k), vers);
        ghost var record := EncryptRecord(before, RecordHeader(typ, VersionBytes(vers), m), chunk, random(k)).record;
        PacedOneMore(pace, start, chunks, flow.records, |data|, chunk, record);
        flow := SendAll(start, typ, vers, chunks + [chunk], random).value;
        chunks := chunks + [chunk];
        n, rest, k := n + m, rest[m..], k + 1;
      }
      assert data[..n] == data;
      if typ != APPLICATION_DATA {
        SplitsLength(chunks, data);
        PacedFull(pace, start, chunks, flow.records, |data|);
      }
      if typ == CHANGE_CIPHER_SPEC && vers != VERSION_TLS13 {
        var ok := out.ChangeCipherSpec();
        if !ok {
          return n, WriteError, chunks;
        }
      }
      status := Done;
    }

    /** Collects the messages of a coalesced flight: all but ServerHello, up to Finished. */
    method Coalesce(data: octets) returns (ready: bool, whole: octets)
      modifies `handshakeBuf
      ensures if old(handshakeBuf).None? || data == [] || data[0] == SERVER_HELLO
              then ready && whole == data && handshakeBuf == old(handshakeBuf)
              else old(handshakeBuf).Some?
                   && whole == old(handshakeBuf).value + data
                   && ready == (data[0] == FINISHED)
                   && handshakeBuf == if ready then None else Some(whole)
    {
      if handshakeBuf.None? || |data| == 0 || data[0] == SERVER_HELLO {
        return true, data;
      }
      whole := handshakeBuf.value + data;
      ready := data[0] == FINISHED;
      handshakeBuf := if ready then None else Some(whole);
    }

    /** The outcome of writing the whole of a record's data, or of keeping it for later. */
    ghost predicate Wrote(start: Half, before: octets, typ: octet, whole: octets, random: nat -> Option<octets>,
                          status: Status, chunks: seq<octets>)
      requires start.Valid()
      reads this, out, out.seqNum, out.handshakeLen
    {
      && (!status.Done? && typ == HANDSHAKE && |whole| <= MAX_PLAINTEXT ==>
            SendAll(start, typ, vers, [whole], random).None?)
      && (status.Done? ==>
        && Splits(chunks, whole)
        && (typ != APPLICATION_DATA ==> FullButLast(chunks))
        && (typ != CHANGE_CIPHER_SPEC ==> Valid())
        && var flow := SendAll(start, typ, vers, chunks, random);
           flow.Some? && Output() == before + Concat(flow.value.records)
                      && (typ != CHANGE_CIPHER_SPEC ==> out.State() == flow.value.next))
    }

    /** writeRecord, and for typ HANDSHAKE also writeHandshakeRecord. */
    method WriteRecord(typ: octet, data: octets, random: nat -> Option<octets>)
      returns (status: Status, ghost whole: octets, ghost chunks: seq<octets>)
      requires Valid()
      modifies `packetsSent, `sendBuf, `wire, `bytesSent, `handshakeBuf, out, out.seqNum, out.handshakeLen
      ensures if typ != HANDSHAKE || old(handshakeBuf).None? || data == [] || data[0] == SERVER_HELLO
              then whole == data && handshakeBuf == old(handshakeBuf)
                   && Wrote(old(out.State()), old(Output()), typ, whole, random, status, chunks)
              else whole == old(handshakeBuf).value + data
                   && if data[0] == FINISHED
                      then handshakeBuf == None
                           && Wrote(old(out.State()), old(Output()), typ, whole, random, status, chunks)
                      else handshakeBuf == Some(whole) && status == Done
                           && Valid() && out.State() == old(out.State()) && Output() == old(Output())
    {
      hide SendAll, Splits, Concat, SmallOverheads;
      var ready, message := true, data;
      if typ == HANDSHAKE {
        ready, message := Coalesce(data);
      }
      whole, chunks := message, [];
      if !ready {
        return Done, whole, chunks;
      }
      var n;
      n, status, chunks := WriteRecordLocked(typ, message, random);
      assert message[..|message|] == message;
    }
  }

  lemma NothingPaced(p: Pace, h: Half, total: nat)
    requires h.Valid()
    ensures Paced(p, h, [], [], total)
  {
  }

  lemma SplitsLength(chunks: seq<octets>, data: octets)
    requires Splits(chunks, data)
    ensures |Concat(chunks)| == |data| && forall i :: 0 <= i < |chunks| ==> |chunks[i]| >= 1
  {
  }

  /** Records that carry no application data are as full as can be. */
  lemma {:induction false} PacedFull(p: Pace, h: Half, chunks: seq<octets>, records: seq<octets>, total: nat)
    requires h.Valid() && Paced(p, h, chunks, records, total) && |Concat(chunks)| <= total
    requires p.typ != APPLICATION_DATA && forall i :: 0 <= i < |chunks| ==> |chunks[i]| >= 1
    ensures FullButLast(chunks)
    ensures |Concat(chunks)| < total ==> forall i :: 0 <= i < |chunks| ==> |chunks[i]| == MAX_PLAINTEXT
    decreases |chunks|
  {
    hide SegmentPayload;
    if chunks != [] {
      var n := |chunks| - 1;
      PacedFull(p, h, chunks[..n], records[..n], total);
      assert forall i :: 0 <= i < n ==> chunks[i] == chunks[..n][i];
    }
  }

  /** Data that fits one record, and has not been sent, has not been begun. */
  lemma NotBegun(p: Pace, h: Half, chunks: seq<octets>, records: seq<octets>, total: nat)
    requires h.Valid() && Paced(p, h, chunks, records, total) && |Concat(chunks)| < total <= MAX_PLAINTEXT
    requires p.typ != APPLICATION_DATA && forall i :: 0 <= i < |chunks| ==> |chunks[i]| >= 1
    ensures chunks == [] && PayloadLimit(p, h, records) == MAX_PLAINTEXT
  {
    hide Paced;
    PacedFull(p, h, chunks, records, total);
    if chunks != [] {
      LastIncluded(chunks);
      assert false;
    }
  }

  lemma LastIncluded(chunks: seq<octets>)
    requires chunks != []
    ensures |Concat(chunks)| >= |chunks[|chunks| - 1]|
  {
  }

  lemma NothingSent(h: Half, typ: octet, vers: nat, random: nat -> Option<octets>)
    requires h.Valid()
    ensures SendAll(h, typ, vers, [], random) == Some(Flow(h, [])) && Splits([], []) && Concat([]) == []
  {
  }

  lemma OneMoreSent(h: Half, typ: octet, vers: nat, chunks: seq<octets>, chunk: octets, random: nat -> Option<octets>, flow: Flow)
    requires h.Valid() && flow.next.Valid() && SendAll(h, typ, vers, chunks, random) == Some(flow)
    ensures var after := SendAll(h, typ, vers, chunks + [chunk], random);
            match EncryptRecord(flow.next, RecordHeader(typ, VersionBytes(vers), |chunk|), chunk, random(|chunks|))
            case Crashed => after == None
            case Refused(_) => after == None
            case Sent(record, next) =>
              && after.Some? && after.value.next == next
              && Concat(after.value.records) == Concat(flow.records) + record
              && after.value.records == flow.records + [record]
  {
    hide EncryptRecord, RecordHeader, VersionBytes;
    assert (chunks + [chunk])[..|chunks|] == chunks;
    forall record: octets
      ensures Concat(flow.records + [record]) == Concat(flow.records) + record
    {
      assert (flow.records + [record])[..|flow.records|] == flow.records;
    }
  }

  function AfterCCS(h: Half, typ: octet, vers: nat, nextCipher: Cipher, nextMac: Mac): Half {
    if typ == CHANGE_CIPHER_SPEC && vers != VERSION_TLS13 then Rekeyed(h, h.version, nextCipher, nextMac) else h
  }

  lemma SplitsOneMore(chunks: seq<octets>, data: octets, chunk: octets)
    requires Splits(chunks, data) && 1 <= |chunk| <= MAX_PLAINTEXT
    ensures Splits(chunks + [chunk], data + chunk)
  {
    assert (chunks + [chunk])[..|chunks|] == chunks;
  }

  /** A record changes only the moving parts of a half connection. */
  lemma EncryptKeeps(h: Half, header: octets, payload: octets, random: Option<octets>)
    requires h.Valid() && |header| == RECORD_HEADER_LEN
    ensures match EncryptRecord(h, header, payload, random)
            case Crashed => true
            case Refused(next) => next.Valid() && (SmallOverheads(h) ==> SmallOverheads(next))
            case Sent(_, next) => next.Valid() && (SmallOverheads(h) ==> SmallOverheads(next))
  {
    hide LengthBytes, PadBytes, CbcPadding, NextIv, ApplyStream, Stage, Nulls;
  }

  lemma AtLeast(a: nat, b: nat)
    requires b >= 1
    ensures a * b >= a
    ensures a >= 17 && b > 1000 ==> a * b >= MAX_PLAINTEXT
  {
    if a >= 17 && b > 1000 {
      Times(a - 17, b);
    }
  }

  lemma Times(a: nat, b: nat)
    ensures (a + 17) * b >= 17 * b
  {
  }
}
