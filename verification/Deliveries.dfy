/** What decrypt delivers and what it refuses (conn.go), for every record and not only for those that encrypt sent. */
module Deliveries {
  import opened BigEndian
  import opened Ghash
  import opened Nonces
  import opened Padding
  import opened Records
  import opened Wrappers

  // ---------- Records with a MAC ----------

  /** x is data, its MAC under the current sequence number and a header that says its length, and then tail. */
  predicate Authentic(h: Half, typ: octet, version: octets, data: octets, tail: octets, x: octets)
    requires h.mac.Mac? && |version| == 2
  {
    x == data + h.mac.tag(h.seqNum, RecordHeader(typ, version, |data|), data) + tail
  }

  /** The record was delivered as this data, under the type of its header. */
  predicate Accepted(d: Decrypted, typ: octet, data: octets) {
    d.Delivered? && d.data == data && d.typ == typ
  }

  /** The padding that was found stands behind the MAC; without data it may also reach back into the MAC. */
  predicate PaddingBehind(data: octets, tail: octets, padding: nat) {
    |tail| == padding || (data == [] && |tail| < padding)
  }

  lemma MacDecides(h: Half, typ: octet, version: octets, x: octets, padding: nat, good: bool, data: octets)
    requires h.mac.Mac? && LawfulMac(h.mac) && |version| == 2 && Advance(h).Some?
    ensures var d := CheckMac(h, typ, version, x, padding, good);
            && (Accepted(d, typ, data) <==>
                  good && exists tail :: Authentic(h, typ, version, data, tail, x) && PaddingBehind(data, tail, padding))
            && (d == Rejected(BadRecordMAC, h) || (d.Delivered? && d.typ == typ))
  {
    hide LengthBytes, Increment;
    var size := h.mac.size;
    var d := CheckMac(h, typ, version, x, padding, good);
    if Accepted(d, typ, data) {
      var n := |data|;
      assert x == x[..n] + x[n..n + size] + x[n + size..];
      assert Authentic(h, typ, version, data, x[n + size..], x) && PaddingBehind(data, x[n + size..], padding);
    }
    if good && exists tail :: Authentic(h, typ, version, data, tail, x) && PaddingBehind(data, tail, padding) {
      var tail :| Authentic(h, typ, version, data, tail, x) && PaddingBehind(data, tail, padding);
      var n := |data|;
      assert x[..n] == data && x[n..n + size] == h.mac.tag(h.seqNum, RecordHeader(typ, version, n), data);
    }
  }

  /** x is the payload with every byte passed through the stream cipher, each at its own position. */
  predicate Deciphered(k: StreamKey, pos: nat, payload: octets, x: octets) {
    |x| == |payload| && forall i :: 0 <= i < |x| ==> x[i] == k.apply(pos + i, payload[i])
  }

  /**
   * Under a stream cipher a record is delivered if and only if it deciphers to the data followed by its MAC, and nothing
   * more; every other record is refused with bad_record_mac.
   */
  lemma StreamDelivers(h: Half, record: octets, data: octets)
    requires h.Lawful() && h.cipher.Stream? && |record| >= RECORD_HEADER_LEN && Advance(h).Some?
    ensures var d := DecryptRecord(h, record);
            && (Accepted(d, record[0], data) <==>
                  Deciphered(h.cipher.stream, h.cipher.pos, record[RECORD_HEADER_LEN..],
                             data + h.mac.tag(h.seqNum, RecordHeader(record[0], record[1..3], |data|), data)))
            && ((d.Rejected? && d.alert == BadRecordMAC) || (d.Delivered? && d.typ == record[0]))
  {
    hide LengthBytes, Increment, CheckMac;
    var k, pos, payload := h.cipher.stream, h.cipher.pos, record[RECORD_HEADER_LEN..];
    var h' := h.(cipher := Stream(k, pos + |payload|));
    var x := ApplyStream(k, pos, payload);
    MacDecides(h', record[0], record[1..3], x, 0, true, data);
    var text := data + h.mac.tag(h.seqNum, RecordHeader(record[0], record[1..3], |data|), data);
    assert Deciphered(k, pos, payload, text) <==> x == text;
    assert text + [] == text;
    if x == text {
      assert Authentic(h', record[0], record[1..3], data, [], x);
    }
  }

  /**
   * The padding of a CBC record: as many bytes as the last one says, plus one, all like it. They follow the MAC, except
   * that a record without data is also accepted when they begin inside the MAC.
   */
  predicate Padded(x: octets, data: octets, tail: octets) {
    && x != [] && var p := ByteValue(x[|x| - 1]) + 1;
    && p <= |x| && (forall i :: |x| - p <= i < |x| ==> x[i] == x[|x| - 1])
    && PaddingBehind(data, tail, p)
  }

  lemma WellPaddedMeans(x: octets)
    ensures WellPadded(x) <==>
              && x != [] && var p := ByteValue(x[|x| - 1]) + 1;
              && p <= |x| && (forall i :: |x| - p <= i < |x| ==> x[i] == x[|x| - 1])
  {
    hide ByteValue;
    if x != [] {
      var b, p := x[|x| - 1], ByteValue(x[|x| - 1]) + 1;
      if WellPadded(x) {
        forall i | |x| - p <= i < |x|
          ensures x[i] == b
        {
          assert FromEnd(x, |x| - 1 - i) == b;
        }
      }
    }
  }

  /** What a CBC record deciphers to. */
  function CbcText(h: Half, payload: octets): octets
    requires h.cipher.Cbc? && |payload| >= h.ExplicitNonceLen()
  {
    var e := h.ExplicitNonceLen();
    h.cipher.cbc.dec(if e > 0 then payload[..e] else h.cipher.iv, payload[e..])
  }

  /**
   * Under a CBC cipher a record is delivered if and only if it is whole blocks that decipher to the data, its MAC and
   * good padding; every other record is refused with bad_record_mac.
   */
  lemma CbcDelivers(h: Half, record: octets, data: octets)
    requires h.Lawful() && h.cipher.Cbc? && |record| >= RECORD_HEADER_LEN && Advance(h).Some?
    ensures var d, payload := DecryptRecord(h, record), record[RECORD_HEADER_LEN..];
            && (Accepted(d, record[0], data) <==>
                  && |payload| % h.cipher.cbc.blockSize == 0 && |payload| >= h.ExplicitNonceLen()
                  && exists tail :: Authentic(h, record[0], record[1..3], data, tail, CbcText(h, payload))
                       && tail != [] && Padded(CbcText(h, payload), data, tail))
            && ((d.Rejected? && d.alert == BadRecordMAC) || (d.Delivered? && d.typ == record[0]))
  {
    hide LengthBytes, Increment, CheckMac, WellPadded, PaddingToRemove, ByteValue, DecryptRecord, CbcText, Advance, Number;
    var payload := record[RECORD_HEADER_LEN..];
    var h' := DecryptsCbc(h, record);
    if |payload| % h.cipher.cbc.blockSize == 0 && |payload| >= h.ExplicitNonceLen() {
      var x := CbcText(h, payload);
      CbcTextLength(h, payload);
      WellPaddedMeans(x);
      if x != [] {
        MacDecides(h', record[0], record[1..3], x, PaddingToRemove(x), WellPadded(x), data);
        ToRemove(x);
        forall tail: octets
          ensures Authentic(h, record[0], record[1..3], data, tail, x) ==> |x| == |data| + h.mac.size + |tail|
          ensures Authentic(h', record[0], record[1..3], data, tail, x) == Authentic(h, record[0], record[1..3], data, tail, x)
        {
        }
      }
    }
  }

  /** Decrypting a record of whole blocks comes down to its MAC and its padding; only the IV changes before that. */
  lemma DecryptsCbc(h: Half, record: octets) returns (h': Half)
    requires h.Lawful() && h.cipher.Cbc? && |record| >= RECORD_HEADER_LEN && Advance(h).Some?
    ensures h'.mac == h.mac && h'.seqNum == h.seqNum && Advance(h').Some?
    ensures var d, payload := DecryptRecord(h, record), record[RECORD_HEADER_LEN..];
            if |payload| % h.cipher.cbc.blockSize != 0 || |payload| < h.ExplicitNonceLen() + h.mac.size + 1
            then d.Rejected? && d.alert == BadRecordMAC
            else
              var x := CbcText(h, payload);
              x != [] && d == CheckMac(h', record[0], record[1..3], x, PaddingToRemove(x), WellPadded(x))
  {
    hide LengthBytes, Increment, CheckMac, WellPadded, PaddingToRemove, RoundUp, NextIv, ByteValue, LawfulCbc, LawfulMac, Number;
    var k, e, payload := h.cipher.cbc, h.ExplicitNonceLen(), record[RECORD_HEADER_LEN..];
    h' := h;
    if |payload| % k.blockSize == 0 && |payload| >= e {
      CbcTextLength(h, payload);
      MinimumPayload(h, |payload|);
      var iv' := if e > 0 then payload[..e] else h.cipher.iv;
      h' := h.(cipher := Cbc(k, NextIv(k, iv', payload[e..])));
    }
  }

  lemma ToRemove(x: octets)
    requires x != []
    ensures WellPadded(x) ==> PaddingToRemove(x) == ByteValue(x[|x| - 1]) + 1
  {
  }

  lemma CbcTextLength(h: Half, payload: octets)
    requires h.Lawful() && h.cipher.Cbc? && |payload| >= h.ExplicitNonceLen() && |payload| % h.cipher.cbc.blockSize == 0
    ensures |CbcText(h, payload)| == |payload| - h.ExplicitNonceLen()
  {
    var b := h.cipher.cbc.blockSize;
    if h.ExplicitNonceLen() > 0 {
      OneBlockLess(|payload|, b);
    }
  }

  lemma OneBlockLess(n: nat, b: nat)
    requires b > 0 && n % b == 0 && n >= b
    ensures (n - b) % b == 0
  {
    MultipleRemainder(n / b - 1, b);
    assert n == (n / b) * b;
    assert (n / b - 1) * b == n - b;
  }

  /** A payload that holds a MAC and one more byte is as long as is asked for. */
  lemma MinimumPayload(h: Half, n: nat)
    requires h.Valid() && h.cipher.Cbc? && n % h.cipher.cbc.blockSize == 0 && n >= h.ExplicitNonceLen()
    ensures n >= h.ExplicitNonceLen() + RoundUp(h.mac.size + 1, h.cipher.cbc.blockSize)
       <==> n >= h.ExplicitNonceLen() + h.mac.size + 1
  {
    hide RoundUp;
    var b, e := h.cipher.cbc.blockSize, h.ExplicitNonceLen();
    if e > 0 {
      OneBlockLess(n, b);
    }
    var m := (n - e) / b;
    assert n - e == m * b;
    RoundUpIsLeastMultiple(h.mac.size + 1, b, m);
  }

  /** With data in the record the padding is always the one that encrypt writes, of any length up to 256. */
  lemma CbcDeliversData(h: Half, record: octets, data: octets)
    requires h.Lawful() && h.cipher.Cbc? && |record| >= RECORD_HEADER_LEN && Advance(h).Some? && data != []
    ensures var payload := record[RECORD_HEADER_LEN..];
            Accepted(DecryptRecord(h, record), record[0], data) <==>
              && |payload| % h.cipher.cbc.blockSize == 0 && |payload| >= h.ExplicitNonceLen()
              && exists n :: 1 <= n <= 256
                   && Authentic(h, record[0], record[1..3], data, PadBytes(n), CbcText(h, payload))
  {
    hide LengthBytes, Increment, DecryptRecord, PadBytes, CbcText, Authentic, Padded, Accepted, LawfulCbc, LawfulMac;
    var payload := record[RECORD_HEADER_LEN..];
    CbcDelivers(h, record, data);
    if |payload| % h.cipher.cbc.blockSize == 0 && |payload| >= h.ExplicitNonceLen() {
      PaddingIsWritten(h, record[0], record[1..3], data, CbcText(h, payload));
    }
  }

  lemma PaddingIsWritten(h: Half, typ: octet, version: octets, data: octets, x: octets)
    requires h.mac.Mac? && |version| == 2 && data != []
    ensures (exists tail :: Authentic(h, typ, version, data, tail, x) && tail != [] && Padded(x, data, tail))
       <==> (exists n :: 1 <= n <= 256 && Authentic(h, typ, version, data, PadBytes(n), x))
  {
    hide *;
    if tail :| Authentic(h, typ, version, data, tail, x) && tail != [] && Padded(x, data, tail) {
      OnlyWrittenPadding(h, typ, version, data, tail, x);
      assert Authentic(h, typ, version, data, PadBytes(|tail|), x);
    }
    if n :| 1 <= n <= 256 && Authentic(h, typ, version, data, PadBytes(n), x) {
      WrittenPadding(h, typ, version, data, n, x);
    }
  }

  lemma OnlyWrittenPadding(h: Half, typ: octet, version: octets, data: octets, tail: octets, x: octets)
    requires h.mac.Mac? && |version| == 2 && Authentic(h, typ, version, data, tail, x) && data != [] && tail != []
    requires Padded(x, data, tail)
    ensures |tail| <= 256 && tail == PadBytes(|tail|)
  {
    hide LengthBytes, Byte, ByteValue;
    var p := |tail|;
    ByteTruncates(p - 1);
    SameByte(x[|x| - 1], Byte(p - 1));
    forall i | 0 <= i < p
      ensures tail[i] == Byte(p - 1)
    {
      assert tail[i] == x[|x| - p + i];
    }
  }

  lemma WrittenPadding(h: Half, typ: octet, version: octets, data: octets, n: nat, x: octets)
    requires h.mac.Mac? && |version| == 2 && 1 <= n <= 256 && Authentic(h, typ, version, data, PadBytes(n), x)
    ensures PadBytes(n) != [] && Padded(x, data, PadBytes(n))
  {
    hide LengthBytes, Byte, ByteValue;
    var p := PadBytes(n);
    ByteTruncates(n - 1);
    assert x[|x| - 1] == p[n - 1];
    forall i | |x| - n <= i < |x|
      ensures x[i] == x[|x| - 1]
    {
      assert x[i] == p[i - (|x| - n)];
    }
  }

  /**
   * Without data it need not be: a record whose padding says two bytes, and has one of its own, is delivered when the
   * last byte of the MAC happens to look like padding too.
   */
  lemma PaddingInsideMac()
    ensures var h := Half(VERSION_TLS11, Cbc(CbcKey((iv, x) => x, (iv, x) => x, 2), [0, 0]), Mac(1, (s, header, p) => [1]),
                          Nulls(8), [0, 0, 0, 0, 0, 0, 0]);
            && h.Lawful()
            && Accepted(DecryptRecord(h, [APPLICATION_DATA, 3, 2, 0, 4, 0, 0, 1, 1]), APPLICATION_DATA, [])
  {
    hide LengthBytes, Increment, DecryptRecord, LawfulCbc, LawfulMac, Number, Advance;
    var k, mac := CbcKey((iv, x) => x, (iv, x) => x, 2), Mac(1, (s, header, p) => [1]);
    var h := Half(VERSION_TLS11, Cbc(k, [0, 0]), mac, Nulls(8), [0, 0, 0, 0, 0, 0, 0]);
    LawfulExample(k, mac);
    NumberOfNulls(8);
    AdvanceCounts(h);
    var record: octets := [APPLICATION_DATA, 3, 2, 0, 4, 0, 0, 1, 1];
    var payload := record[RECORD_HEADER_LEN..];
    assert payload == [0, 0, 1, 1];
    CbcDelivers(h, record, []);
    var x := CbcText(h, payload);
    assert x == [1, 1];
    OneIsOne();
    assert Authentic(h, record[0], record[1..3], [], [1], x);
    assert Padded(x, [], [1]);
  }

  lemma LawfulExample(k: CbcKey, mac: Mac)
    requires k == CbcKey((iv, x) => x, (iv, x) => x, 2) && mac == Mac(1, (s, header, p) => [1])
    ensures LawfulCbc(k) && LawfulMac(mac)
  {
  }

  lemma OneIsOne()
    ensures ByteValue(1) == 1
  {
  }

  // ---------- Records without a MAC ----------

  /** Before there is a cipher every record is delivered as it is. */
  lemma PlainDelivers(h: Half, record: octets)
    requires h.Valid() && h.cipher.NoCipher? && |record| >= RECORD_HEADER_LEN && Advance(h).Some?
    ensures Accepted(DecryptRecord(h, record), record[0], record[RECORD_HEADER_LEN..])
  {
    hide Increment;
  }

  /**
   * Under a TLS 1.2 AEAD a record is delivered if and only if what follows the explicit nonce opens to the data, with
   * the sequence number, type, version and the length of the data as additional data.
   */
  lemma AeadDelivers12(h: Half, record: octets, data: octets)
    requires h.Valid() && h.cipher.Aead? && h.version != VERSION_TLS13 && |record| >= RECORD_HEADER_LEN && Advance(h).Some?
    ensures var d, payload, k := DecryptRecord(h, record), record[RECORD_HEADER_LEN..], h.cipher.aead;
            && (Accepted(d, record[0], data) <==>
                  && |payload| >= k.explicitNonceLen
                  && var nonce := if k.explicitNonceLen == 0 then h.seqNum else payload[..k.explicitNonceLen];
                     k.open(nonce, payload[k.explicitNonceLen..],
                            h.seqNum + [record[0]] + record[1..3] + LengthBytes(|payload| - k.explicitNonceLen - k.overhead))
                     == Some(data))
            && ((d.Rejected? && d.alert == BadRecordMAC) || (d.Delivered? && d.typ == record[0]))
  {
    hide Increment, LengthBytes;
    assert record[..3] == [record[0]] + record[1..3];
    assert h.seqNum + record[..3] == h.seqNum + [record[0]] + record[1..3];
  }

  /** text is data, its type, which is not zero, and any number of zeros; nothing at all is empty application data. */
  predicate Wraps(text: octets, data: octets, typ: octet) {
    || (text == [] && data == [] && typ == APPLICATION_DATA)
    || (typ != 0 && data + [typ] <= text && forall i :: |data| < i < |text| ==> text[i] == 0)
  }

  lemma {:induction false} LastNonZeroWraps(text: octets, data: octets, typ: octet)
    requires text != []
    ensures Wraps(text, data, typ) <==>
              LastNonZero(text) == Some(|data|) && data == text[..|data|] && typ == text[|data|]
    ensures LastNonZero(text).None? <==> forall i :: 0 <= i < |text| ==> text[i] == 0
    decreases |text|
  {
    hide Wraps;
    var n := |text| - 1;
    var front := text[..n];
    assert text == front + [text[n]];
    if text[n] != 0 {
      WrapsAtEnd(front, text[n], data, typ);
    } else {
      WrapsOneZero(front, data, typ);
      if n > 0 {
        LastNonZeroWraps(front, data, typ);
        assert forall i :: 0 <= i < n ==> text[i] == front[i];
      }
    }
  }

  lemma WrapsAtEnd(front: octets, last: octet, data: octets, typ: octet)
    requires last != 0
    ensures Wraps(front + [last], data, typ) <==> data == front && typ == last
  {
    var text := front + [last];
    assert text[|front|] == last;
    if Wraps(text, data, typ) {
      assert (data + [typ])[|data|] == text[|data|];
      assert |data| == |front|;
      assert data == text[..|data|];
    } else {
      assert front + [last] == text;
    }
  }

  lemma WrapsOneZero(front: octets, data: octets, typ: octet)
    ensures Wraps(front + [0], data, typ) <==> front != [] && Wraps(front, data, typ)
  {
    var text := front + [0];
    if Wraps(text, data, typ) {
      assert (data + [typ])[|data|] == text[|data|];
      assert |data| < |front|;
      assert data + [typ] == text[..|data| + 1] == front[..|data| + 1];
      assert forall i :: 0 <= i < |front| ==> front[i] == text[i];
    }
    if front != [] && Wraps(front, data, typ) {
      assert forall i :: 0 <= i < |text| ==> text[i] == if i < |front| then front[i] else 0;
    }
  }

  /**
   * Under a TLS 1.3 AEAD a record is delivered if and only if it is an outer application data record that opens, with
   * its header as additional data, to a short enough text that wraps the data; or a change_cipher_spec, as it is.
   */
  lemma AeadDelivers13(h: Half, record: octets, data: octets, typ: octet)
    requires h.Valid() && h.cipher.Aead? && h.version == VERSION_TLS13 && |record| >= RECORD_HEADER_LEN && Advance(h).Some?
    ensures var d, payload := DecryptRecord(h, record), record[RECORD_HEADER_LEN..];
            var text := h.cipher.aead.open(h.seqNum, payload, record[..RECORD_HEADER_LEN]);
            if record[0] == CHANGE_CIPHER_SPEC then d == Delivered(payload, CHANGE_CIPHER_SPEC, h)
            else
              && (Accepted(d, typ, data) <==>
                    && record[0] == APPLICATION_DATA && text.Some? && |text.value| <= MAX_PLAINTEXT + 1
                    && Wraps(text.value, data, typ))
              && (text.None? ==> d == Rejected(BadRecordMAC, h))
              && (text.Some? && record[0] != APPLICATION_DATA ==> d == Rejected(UnexpectedMessage, h))
              && (text.Some? && record[0] == APPLICATION_DATA && |text.value| > MAX_PLAINTEXT + 1 ==>
                    d == Rejected(RecordOverflow, h))
              && ((text.Some? && record[0] == APPLICATION_DATA && 0 < |text.value| <= MAX_PLAINTEXT + 1
                   && forall i :: 0 <= i < |text.value| ==> text.value[i] == 0)
                  ==> d == Rejected(UnexpectedMessage, h))
  {
    hide Increment, LengthBytes, LastNonZero, Wraps;
    var payload := record[RECORD_HEADER_LEN..];
    assert payload[0..] == payload;
    var text := h.cipher.aead.open(h.seqNum, payload, record[..RECORD_HEADER_LEN]);
    if record[0] == APPLICATION_DATA && text.Some? {
      WrapsNothing(data, typ);
      if text.value != [] {
        LastNonZeroWraps(text.value, data, typ);
      }
    }
  }

  lemma WrapsNothing(data: octets, typ: octet)
    ensures Wraps([], data, typ) <==> data == [] && typ == APPLICATION_DATA
  {
  }

  // ---------- What encrypt sends ----------

  /** The bytes of every record that is not shaped: its header with the length of what follows, and the protected fragment. */
  lemma SentBytes(h: Half, header: octets, payload: octets, random: Option<octets>)
    requires h.Valid() && |header| == RECORD_HEADER_LEN && !Shaped(h, header[0])
    ensures var e := EncryptRecord(h, header, payload, random);
            e.Sent? && !h.cipher.NoCipher? ==>
              && |e.record| >= RECORD_HEADER_LEN
              && e.record[..RECORD_HEADER_LEN] == RecordHeader(if h.version == VERSION_TLS13 then APPLICATION_DATA else header[0],
                                                               header[1..3], |e.record| - RECORD_HEADER_LEN)
              && var fragment := e.record[RECORD_HEADER_LEN..];
                 match h.cipher
                 case NoCipher => true
                 case Stream(k, pos) => Deciphered(k, pos, payload + h.mac.tag(h.seqNum, header, payload), fragment)
                 case Aead(k) =>
                   if h.version == VERSION_TLS13
                   then var inner := payload + [header[0]];
                        fragment == k.seal(h.seqNum, inner, RecordHeader(APPLICATION_DATA, header[1..3], |inner| + k.overhead))
                   else var explicit: octets := if k.explicitNonceLen == 0 then [] else h.seqNum;
                        fragment == explicit + k.seal(h.seqNum, payload, h.seqNum + header)
                 case Cbc(k, iv) =>
                   var text := payload + h.mac.tag(h.seqNum, header, payload);
                   var n := k.blockSize - |text| % k.blockSize;
                   && (h.ExplicitNonceLen() > 0 ==> random.Some?)
                   && var explicit := if h.ExplicitNonceLen() > 0 then random.value else [];
                      fragment == explicit + k.enc(if explicit == [] then iv else explicit, text + PadBytes(n))
  {
    hide LengthBytes, Increment, PadBytes, NextIv;
  }
}
