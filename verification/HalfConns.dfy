/** The halfConn of conn.go as the object it is: encrypt and decrypt rewrite the record buffer and their own state. */
module HalfConns {
  import opened BigEndian
  import opened Ghash
  import opened Nonces
  import opened Padding
  import opened Records
  import opened Wrappers

  /** encrypt's three ways to end; Panicked is a Go panic. */
  datatype Written = Wrote(record: octets) | Failed | Panicked

  datatype Read = Got(data: octets, typ: octet) | Alerted(alert: Alert) | ReadPanic

  /** record[3] = byte(n >> 8); record[4] = byte(n). */
  function SetLength(record: octets, n: nat): (r: octets)
    requires |record| >= RECORD_HEADER_LEN
    ensures |r| == |record|
  {
    record[3 := LengthBytes(n)[0]][4 := LengthBytes(n)[1]]
  }

  lemma SetLengthParts(record: octets, n: nat)
    requires |record| >= RECORD_HEADER_LEN
    ensures SetLength(record, n) == [record[0]] + record[1..3] + LengthBytes(n) + record[RECORD_HEADER_LEN..]
  {
    hide LengthBytes;
  }

  method AppendPadding(text: octets, paddingLen: nat) returns (dst: octets)
    requires 0 < paddingLen <= 256
    ensures dst == text + PadBytes(paddingLen)
  {
    hide Byte;
    dst := text;
    ghost var pad := PadBytes(paddingLen);
    for i := 0 to paddingLen
      invariant dst == text + pad[..i]
    {
      dst := dst + [Byte(paddingLen - 1)];
      assert pad[..i + 1] == pad[..i] + [pad[i]];
    }
    assert pad[..paddingLen] == pad;
  }

  lemma SplitHeader(header: octets, fragment: octets)
    requires |header| == RECORD_HEADER_LEN
    ensures var r := header + fragment;
            r[0] == header[0] && r[1..3] == header[1..3] && r[RECORD_HEADER_LEN..] == fragment
  {
  }

  class HalfConn {
    var version: nat
    var cipher: Cipher
    var mac: Mac
    const seqNum: array<octet>
    const handshakeLen: array<nat>
    var nextCipher: Cipher
    var nextMac: Mac

    predicate Sized() {
      seqNum.Length == 8 && handshakeLen.Length == 7
    }

    function State(): Half
      requires Sized()
      reads this, seqNum, handshakeLen
    {
      Half(version, cipher, mac, seqNum[..], handshakeLen[..])
    }

    ghost predicate Valid()
      reads this, seqNum, handshakeLen
    {
      Sized() && State().Valid()
    }

    method ResetSeq()
      requires Sized()
      modifies seqNum
      ensures seqNum[..] == Nulls(8)
    {
      for i := 0 to 8
        invariant seqNum[..i] == Nulls(8)[..i]
      {
        seqNum[i] := 0;
      }
    }

    method PrepareCipherSpec(newVersion: nat, newCipher: Cipher, newMac: Mac)
      modifies this
      ensures version == newVersion && nextCipher == newCipher && nextMac == newMac
      ensures unchanged(`cipher) && unchanged(`mac)
    {
      version, nextCipher, nextMac := newVersion, newCipher, newMac;
    }

    /** Takes the prepared keys, once; never in TLS 1.3. */
    method ChangeCipherSpec() returns (ok: bool)
      requires Sized()
      modifies this, seqNum
      ensures ok <==> !old(nextCipher).NoCipher? && version != VERSION_TLS13
      ensures ok ==> State() == Rekeyed(old(State()), version, old(nextCipher), old(nextMac))
      ensures ok ==> nextCipher == NoCipher && nextMac == NoMac
      ensures !ok ==> State() == old(State()) && unchanged(`nextCipher) && unchanged(`nextMac)
      ensures version == old(version)
    {
      if nextCipher.NoCipher? || version == VERSION_TLS13 {
        return false;
      }
      cipher, mac := nextCipher, nextMac;
      nextCipher, nextMac := NoCipher, NoMac;
      ResetSeq();
      return true;
    }

    method SetTrafficSecret(aead: AeadKey)
      requires Sized()
      modifies this, seqNum
      ensures State() == Rekeyed(old(State()), version, Aead(aead), mac)
      ensures version == old(version) && mac == old(mac)
    {
      cipher := Aead(aead);
      ResetSeq();
    }

    method XORKeyStream(x: octets) returns (y: octets)
      requires Sized() && cipher.Stream?
      modifies `cipher
      ensures y == ApplyStream(old(cipher).stream, old(cipher).pos, x)
      ensures cipher == Stream(old(cipher).stream, old(cipher).pos + |x|)
    {
      y := [];
      for i := 0 to |x|
        invariant cipher == Stream(old(cipher).stream, old(cipher).pos + i)
        invariant |y| == i && forall k :: 0 <= k < i ==> y[k] == old(cipher).stream.apply(old(cipher).pos + k, x[k])
      {
        y := y + [cipher.stream.apply(cipher.pos, x[i])];
        cipher := Stream(cipher.stream, cipher.pos + 1);
      }
    }

    method CryptBlocks(x: octets, encrypting: bool) returns (y: octets)
      requires Sized() && cipher.Cbc?
      modifies `cipher
      ensures y == if encrypting then old(cipher).cbc.enc(old(cipher).iv, x) else old(cipher).cbc.dec(old(cipher).iv, x)
      ensures cipher == Cbc(old(cipher).cbc, NextIv(old(cipher).cbc, old(cipher).iv, if encrypting then y else x))
    {
      y := if encrypting then cipher.cbc.enc(cipher.iv, x) else cipher.cbc.dec(cipher.iv, x);
      cipher := Cbc(cipher.cbc, NextIv(cipher.cbc, cipher.iv, if encrypting then y else x));
    }

    method EncryptStream(header: octets, payload: octets) returns (record: octets)
      requires Valid() && cipher.Stream? && |header| == RECORD_HEADER_LEN
      modifies `cipher
      ensures var text := payload + mac.tag(seqNum[..], header, payload);
              && record == header + ApplyStream(old(cipher).stream, old(cipher).pos, text)
              && cipher == Stream(old(cipher).stream, old(cipher).pos + |text|)
    {
      var tag := mac.tag(seqNum[..], header, payload);
      var first := XORKeyStream(payload);
      var second := XORKeyStream(tag);
      record := header + first + second;
    }

    method EncryptCbc(header: octets, payload: octets, explicit: octets) returns (record: octets)
      requires Valid() && cipher.Cbc? && |header| == RECORD_HEADER_LEN
      modifies `cipher
      ensures var k := old(cipher).cbc;
              var text := payload + mac.tag(seqNum[..], header, payload);
              var iv := if explicit == [] then old(cipher).iv else explicit;
              var ciphertext := k.enc(iv, text + PadBytes(CbcPadding(k, |text|)));
              && record == header + explicit + ciphertext
              && cipher == Cbc(k, NextIv(k, iv, ciphertext))
    {
      hide NextIv, PadBytes;
      var tag := mac.tag(seqNum[..], header, payload);
      var plaintextLen := |payload| + |tag|;
      var paddingLen := CbcPadding(cipher.cbc, plaintextLen);
      var dst := AppendPadding(payload + tag, paddingLen);
      if |explicit| > 0 {
        cipher := Cbc(cipher.cbc, explicit);
      }
      var ciphertext := CryptBlocks(dst, true);
      record := header + explicit + ciphertext;
    }

    /** The shaping of one handshake record: the length it must reach, taken from handshakeLen. */
    method TakeTarget(first: octet) returns (target: nat)
      requires Sized()
      modifies handshakeLen
      ensures var stage := Stage(first);
              && target == (if stage.Some? then old(handshakeLen[stage.value]) else 0)
              && handshakeLen[..] == if stage.Some? then old(handshakeLen[..])[stage.value := 0] else old(handshakeLen[..])
    {
      target := 0;
      if first == 8 {
        target := handshakeLen[2];
        handshakeLen[2] := 0;
      } else if first == 11 {
        target := handshakeLen[3];
        handshakeLen[3] := 0;
      } else if first == 15 {
        target := handshakeLen[4];
        handshakeLen[4] := 0;
      } else if first == 20 {
        target := handshakeLen[5];
        handshakeLen[5] := 0;
      } else if first == 4 {
        target := handshakeLen[6];
        handshakeLen[6] := 0;
      }
    }

    /** The record with its inner plaintext: content type and, for a shaped record, the zeros that it needs. */
    method ShapeRecord(header: octets, payload: octets, overhead: nat) returns (w: Written)
      requires Sized() && |header| == RECORD_HEADER_LEN
      modifies handshakeLen
      ensures match InnerPlaintext(old(State()), header[0], payload, overhead)
              case Bug => w == Panicked
              case TooLong(shape) => w == Failed && State() == old(State()).(shape := shape)
              case Inner(bytes, shape) => w == Wrote(header + bytes) && State() == old(State()).(shape := shape)
    {
      hide Stage;
      ghost var bytes := payload + [header[0]];
      var record := header + payload;
      record := record + [record[0]];
      assert record == header + bytes;
      if record[0] == HANDSHAKE && handshakeLen[1] != 0 {
        if payload == [] {
          return Panicked;
        }
        var target := TakeTarget(payload[0]);
        if payload[0] == 4 {
          record := record[5 := APPLICATION_DATA][6 := 0];
          bytes := Disguised(bytes);
          assert record == header + bytes;
        }
        StageOfTicket(payload[0]);
        var padding := target - (|record| + overhead);
        if padding < 0 {
          return Failed;
        }
        if padding > EMPTY_SIZE {
          return Panicked;
        }
        assert record + Nulls(padding) == header + (bytes + Nulls(padding));
        record := record + Nulls(padding);
      }
      w := Wrote(record);
    }

    method EncryptAead13(header: octets, payload: octets) returns (w: Written)
      requires Valid() && cipher.Aead? && |header| == RECORD_HEADER_LEN
      modifies handshakeLen
      ensures var k := cipher.aead;
              match InnerPlaintext(old(State()), header[0], payload, k.overhead)
              case Bug => w == Panicked
              case TooLong(shape) => w == Failed && State() == old(State()).(shape := shape)
              case Inner(bytes, shape) =>
                var outer := RecordHeader(APPLICATION_DATA, header[1..3], |bytes| + k.overhead);
                w == Wrote(outer + k.seal(seqNum[..], bytes, outer)) && State() == old(State()).(shape := shape)
    {
      hide LengthBytes, SetLength, InnerPlaintext;
      var k := cipher.aead;
      var shaped := ShapeRecord(header, payload, k.overhead);
      if !shaped.Wrote? {
        return shaped;
      }
      var record := shaped.record;
      ghost var bytes := record[5..];
      assert record[..5] == header;
      record := record[0 := APPLICATION_DATA];
      var n := |record| + k.overhead - RECORD_HEADER_LEN;
      assert record[1..3] == header[1..3] && record[5..] == bytes;
      SetLengthParts(record, n);
      record := SetLength(record, n);
      ghost var outer := RecordHeader(APPLICATION_DATA, header[1..3], |bytes| + k.overhead);
      assert record == outer + bytes;
      assert record[..5] == outer && record[5..] == bytes;
      w := Wrote(record[..5] + k.seal(seqNum[..], record[5..], record[..5]));
    }

    method AdvanceSeq() returns (ok: bool)
      requires Sized()
      modifies seqNum
      ensures ok <==> Advance(old(State())).Some?
      ensures ok ==> State() == Advance(old(State())).value
    {
      hide Increment;
      ok := IncSeq(seqNum);
    }

    /** Rewrites the length, counts the record and returns it. */
    method FinishRecord(buffer: octets, ghost typ: octet, ghost recordVersion: octets, ghost fragment: octets)
      returns (w: Written)
      requires Valid() && |buffer| >= RECORD_HEADER_LEN
      requires typ == buffer[0] && recordVersion == buffer[1..3] && fragment == buffer[RECORD_HEADER_LEN..]
      modifies seqNum
      ensures match Finish(old(State()), typ, recordVersion, fragment)
              case Crashed => w == Panicked
              case Refused(_) => false
              case Sent(record, next) => w == Wrote(record) && State() == next
    {
      hide LengthBytes, SetLength, Advance;
      var n := |buffer| - RECORD_HEADER_LEN;
      SetLengthParts(buffer, n);
      var record := SetLength(buffer, n);
      var ok := AdvanceSeq();
      w := if ok then Wrote(record) else Panicked;
    }

    method SendStream(header: octets, payload: octets) returns (w: Written)
      requires Valid() && |header| == RECORD_HEADER_LEN && cipher.Stream?
      modifies `cipher, seqNum
      ensures Matches(w, EncryptWith(old(State()), header, payload, []))
    {
      hide LengthBytes, Advance, ApplyStream;
      ghost var text := payload + mac.tag(seqNum[..], header, payload);
      ghost var fragment := ApplyStream(cipher.stream, cipher.pos, text);
      var record := EncryptStream(header, payload);
      SplitHeader(header, fragment);
      w := FinishRecord(record, header[0], header[1..3], fragment);
    }

    method SendAead(header: octets, payload: octets, explicit: octets) returns (w: Written)
      requires Valid() && |header| == RECORD_HEADER_LEN && cipher.Aead?
      requires version == VERSION_TLS13 ==> explicit == []
      modifies `cipher, seqNum, handshakeLen
      ensures Matches(w, EncryptWith(old(State()), header, payload, explicit))
    {
      hide LengthBytes, Advance, InnerPlaintext;
      var k := cipher.aead;
      if version == VERSION_TLS13 {
        ghost var inner := InnerPlaintext(State(), header[0], payload, k.overhead);
        var sealed := EncryptAead13(header, payload);
        if !sealed.Wrote? {
          return sealed;
        }
        ghost var outer := RecordHeader(APPLICATION_DATA, header[1..3], |inner.bytes| + k.overhead);
        ghost var fragment := k.seal(seqNum[..], inner.bytes, outer);
        HeaderParts(APPLICATION_DATA, header[1..3], |inner.bytes| + k.overhead, fragment);
        w := FinishRecord(sealed.record, APPLICATION_DATA, header[1..3], fragment);
      } else {
        var nonce := if explicit == [] then seqNum[..] else explicit;
        ghost var fragment := explicit + k.seal(nonce, payload, seqNum[..] + header);
        SplitHeader(header, fragment);
        w := FinishRecord(header + explicit + k.seal(nonce, payload, seqNum[..] + header), header[0], header[1..3], fragment);
      }
    }

    method SendCbc(header: octets, payload: octets, explicit: octets) returns (w: Written)
      requires Valid() && |header| == RECORD_HEADER_LEN && cipher.Cbc?
      modifies `cipher, seqNum
      ensures Matches(w, EncryptWith(old(State()), header, payload, explicit))
    {
      hide LengthBytes, Advance, NextIv, CbcPadding, PadBytes;
      ghost var h := State();
      var record := EncryptCbc(header, payload, explicit);
      ghost var fragment := record[RECORD_HEADER_LEN..];
      SplitHeader(header, fragment);
      CbcSends(h, header, payload, explicit);
      w := FinishRecord(record, header[0], header[1..3], fragment);
    }

    ghost predicate Matches(w: Written, e: Encrypted)
      requires Sized()
      reads this, seqNum, handshakeLen
    {
      match e
      case Crashed => w == Panicked
      case Refused(next) => w == Failed && State() == next
      case Sent(record, next) => w == Wrote(record) && State() == next
    }

    /** encrypt: seals the payload behind its header, under the current state. */
    method Encrypt(header: octets, payload: octets, random: Option<octets>) returns (w: Written)
      requires Valid() && |header| == RECORD_HEADER_LEN
      modifies `cipher, seqNum, handshakeLen
      ensures Matches(w, EncryptRecord(old(State()), header, payload, random))
    {
      hide EncryptWith;
      if cipher.NoCipher? {
        PlainSends(State(), header, payload);
        return Wrote(header + payload);
      }
      var explicit := [];
      if State().ExplicitNonceLen() > 0 {
        if !cipher.Cbc? {
          explicit := seqNum[..];
        } else {
          if random.None? {
            return Failed;
          }
          explicit := random.value;
        }
      }
      match cipher {
        case Stream(_, _) => w := SendStream(header, payload);
        case Aead(_) => w := SendAead(header, payload, explicit);
        case Cbc(_, _) => w := SendCbc(header, payload, explicit);
      }
    }

    // ---------- decrypt ----------

    ghost predicate MatchesRead(r: Read, d: Decrypted)
      requires Sized()
      reads this, seqNum, handshakeLen
    {
      match d
      case Panic => r == ReadPanic
      case Rejected(alert, next) => r == Alerted(alert) && State() == next
      case Delivered(data, typ, next) => r == Got(data, typ) && State() == next
    }

    method FinishRead(data: octets, typ: octet) returns (r: Read)
      requires Sized()
      modifies seqNum
      ensures MatchesRead(r, Deliver(old(State()), data, typ))
    {
      hide Advance;
      var ok := AdvanceSeq();
      r := if ok then Got(data, typ) else ReadPanic;
    }

    /** Removes the zeros and the content type of a TLS 1.3 plaintext, scanning from the end. */
    method UnwrapPlaintext(outer: octet, text: octets) returns (r: Read)
      requires Sized()
      modifies seqNum
      ensures MatchesRead(r, Unwrap(old(State()), outer, text))
    {
      hide Deliver;
      if outer != APPLICATION_DATA {
        return Alerted(UnexpectedMessage);
      }
      if |text| > MAX_PLAINTEXT + 1 {
        return Alerted(RecordOverflow);
      }
      var typ, plaintext := outer, text;
      var i := |text| - 1;
      assert text[..i + 1] == text;
      while i >= 0
        modifies {}
        invariant -1 <= i < |text| && typ == outer && plaintext == text
        invariant i == -1 ==> text == []
        invariant LastNonZero(text) == LastNonZero(text[..i + 1])
      {
        assert text[..i + 1][..i] == text[..i];
        if text[i] != 0 {
          typ := text[i];
          plaintext := text[..i];
          break;
        }
        if i == 0 {
          return Alerted(UnexpectedMessage);
        }
        i := i - 1;
      }
      r := FinishRead(plaintext, typ);
    }

    /** The MAC check shared by stream and CBC ciphers. */
    method VerifyMac(buffer: octets, payload: octets, paddingLen: nat, paddingGood: octet) returns (r: Read)
      requires Valid() && mac.Mac? && |buffer| >= RECORD_HEADER_LEN
      modifies seqNum
      ensures MatchesRead(r, CheckMac(old(State()), buffer[0], buffer[1..3], payload, paddingLen, paddingGood == 0xFF))
    {
      hide Deliver, LengthBytes, SetLength;
      var macSize := mac.size;
      if |payload| < macSize {
        return Alerted(BadRecordMAC);
      }
      var n := |payload| - macSize - paddingLen;
      if n < 0 {
        n := 0;
      }
      SetLengthParts(buffer, n);
      var record := SetLength(buffer, n);
      assert record[..RECORD_HEADER_LEN] == [buffer[0]] + buffer[1..3] + LengthBytes(n);
      var remoteMAC := payload[n..n + macSize];
      var localMAC := mac.tag(seqNum[..], record[..RECORD_HEADER_LEN], payload[..n]);
      if !(localMAC == remoteMAC && paddingGood == 0xFF) {
        return Alerted(BadRecordMAC);
      }
      r := FinishRead(payload[..n], buffer[0]);
    }

    method OpenAead(record: octets) returns (r: Read)
      requires Valid() && cipher.Aead? && |record| >= RECORD_HEADER_LEN
      requires !(version == VERSION_TLS13 && record[0] == CHANGE_CIPHER_SPEC)
      modifies seqNum
      ensures MatchesRead(r, DecryptRecord(old(State()), record))
    {
      hide Unwrap, Deliver, LengthBytes;
      var k, payload := cipher.aead, record[RECORD_HEADER_LEN..];
      var explicitNonceLen := State().ExplicitNonceLen();
      if |payload| < explicitNonceLen {
        return Alerted(BadRecordMAC);
      }
      var nonce := payload[..explicitNonceLen];
      if |nonce| == 0 {
        nonce := seqNum[..];
      }
      payload := payload[explicitNonceLen..];
      var additionalData;
      if version == VERSION_TLS13 {
        additionalData := record[..RECORD_HEADER_LEN];
      } else {
        additionalData := seqNum[..] + record[..3] + LengthBytes(|payload| - k.overhead);
      }
      var plaintext := k.open(nonce, payload, additionalData);
      if plaintext.None? {
        return Alerted(BadRecordMAC);
      }
      if version == VERSION_TLS13 {
        r := UnwrapPlaintext(record[0], plaintext.value);
      } else {
        r := FinishRead(plaintext.value, record[0]);
      }
    }

    method OpenCbc(record: octets) returns (r: Read)
      requires Sized() && State().Lawful() && cipher.Cbc? && RECORD_HEADER_LEN <= |record| <= MAX_INT31
      modifies `cipher, seqNum
      ensures MatchesRead(r, DecryptRecord(old(State()), record))
    {
      hide Deliver, CheckMac, NextIv, LengthBytes, WellPadded, PaddingToRemove, RoundUp;
      var k, payload := cipher.cbc, record[RECORD_HEADER_LEN..];
      var explicitNonceLen := State().ExplicitNonceLen();
      var minPayload := explicitNonceLen + RoundUp(mac.size + 1, k.blockSize);
      if |payload| % k.blockSize != 0 || |payload| < minPayload {
        return Alerted(BadRecordMAC);
      }
      ghost var whole := payload;
      if explicitNonceLen > 0 {
        cipher := Cbc(k, payload[..explicitNonceLen]);
        payload := payload[explicitNonceLen..];
      }
      assert payload == whole[explicitNonceLen..];
      WholeBlocksAfterIv(|whole|, explicitNonceLen, k.blockSize);
      var plain := CryptBlocks(payload, false);
      var paddingLen, paddingGood := ExtractPadding(plain);
      BadPaddingRejected(State(), record[0], record[1..3], plain, paddingLen);
      r := VerifyMac(record, plain, paddingLen, paddingGood);
    }

    method OpenStream(record: octets) returns (r: Read)
      requires Valid() && cipher.Stream? && |record| >= RECORD_HEADER_LEN
      modifies `cipher, seqNum
      ensures MatchesRead(r, DecryptRecord(old(State()), record))
    {
      hide Deliver, CheckMac, ApplyStream;
      var payload := XORKeyStream(record[RECORD_HEADER_LEN..]);
      r := VerifyMac(record, payload, 0, 0xFF);
    }

    /** decrypt: authenticates and opens a record, if protection is active. */
    method Decrypt(record: octets) returns (r: Read)
      requires Sized() && State().Lawful() && RECORD_HEADER_LEN <= |record| <= MAX_INT31
      modifies `cipher, seqNum
      ensures MatchesRead(r, DecryptRecord(old(State()), record))
    {
      hide Deliver, CheckMac, NextIv, LengthBytes, WellPadded, PaddingToRemove, RoundUp, Unwrap;
      var typ := record[0];
      if version == VERSION_TLS13 && typ == CHANGE_CIPHER_SPEC {
        return Got(record[RECORD_HEADER_LEN..], typ);
      }
      match cipher {
        case NoCipher => r := FinishRead(record[RECORD_HEADER_LEN..], typ);
        case Stream(_, _) => r := OpenStream(record);
        case Aead(_) => r := OpenAead(record);
        case Cbc(_, _) => r := OpenCbc(record);
      }
    }
  }

  lemma WholeBlocksAfterIv(n: nat, e: nat, b: nat)
    requires b > 0 && n % b == 0 && (e == 0 || e == b) && e <= n
    ensures (n - e) % b == 0
  {
    if e == b {
      MultipleRemainder(n / b - 1, b);
      assert n == (n / b) * b;
      assert (n / b - 1) * b == n - b;
    }
  }

  lemma BadPaddingRejected(h: Half, typ: octet, version: octets, payload: octets, padding: nat)
    requires h.mac.Mac?
    ensures CheckMac(h, typ, version, payload, padding, false) == Rejected(BadRecordMAC, h)
  {
  }

  lemma PlainSends(h: Half, header: octets, payload: octets)
    requires h.Valid() && h.cipher.NoCipher? && |header| == RECORD_HEADER_LEN
    ensures EncryptWith(h, header, payload, []) == Sent(header + payload, h)
  {
  }

  lemma StageOfTicket(first: octet)
    ensures Stage(first) == Some(6) <==> first == 4
  {
  }
}
