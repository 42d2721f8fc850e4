/**
 * One direction of the record layer: halfConn.encrypt and halfConn.decrypt of conn.go, over every cipher family
 * and version, with the length shaping that REALITY adds to TLS 1.3 handshake records.
 */
module Records {
  import opened BigEndian
  import Gcm
  import opened Ghash
  import opened Nonces
  import opened Padding
  import opened Wrappers

  type octets = seq<octet>

  const VERSION_TLS11 := 0x0302
  const VERSION_TLS13 := 0x0304
  const RECORD_HEADER_LEN := 5
  const MAX_PLAINTEXT := 16384
  const EMPTY_SIZE := 8192

  const CHANGE_CIPHER_SPEC: octet := 20
  const ALERT: octet := 21
  const HANDSHAKE: octet := 22
  const APPLICATION_DATA: octet := 23

  // ---------- Ciphers and MACs, by what they do to bytes ----------

  /** A stream cipher: what it does to the byte at each position. */
  datatype StreamKey = StreamKey(apply: (nat, octet) -> octet)

  /** seal and open take the nonce, the text and the additional data. */
  datatype AeadKey = AeadKey(
    seal: (octets, octets, octets) -> octets,
    open: (octets, octets, octets) -> Option<octets>,
    overhead: nat,
    explicitNonceLen: nat)

  /** enc and dec take the IV and whole blocks. */
  datatype CbcKey = CbcKey(enc: (octets, octets) -> octets, dec: (octets, octets) -> octets, blockSize: nat)

  datatype Cipher =
    | NoCipher
    | Stream(stream: StreamKey, pos: nat)
    | Aead(aead: AeadKey)
    | Cbc(cbc: CbcKey, iv: octets)

  /** tag takes the sequence number, the record header and the payload. */
  datatype Mac = NoMac | Mac(size: nat, tag: (octets, octets, octets) -> octets)

  ghost predicate LawfulStream(k: StreamKey) {
    forall p: nat, b: octet :: k.apply(p, k.apply(p, b)) == b
  }

  ghost predicate LawfulAead(k: AeadKey) {
    forall n: octets, p: octets, a: octets :: |n| == 8 ==>
      |k.seal(n, p, a)| == |p| + k.overhead && k.open(n, k.seal(n, p, a), a) == Some(p)
  }

  ghost predicate LawfulCbc(k: CbcKey) {
    && k.blockSize > 0
    && forall iv: octets, x: octets :: |iv| == k.blockSize && |x| % k.blockSize == 0 ==>
         |k.enc(iv, x)| == |x| == |k.dec(iv, x)| && k.dec(iv, k.enc(iv, x)) == x
  }

  ghost predicate LawfulMac(m: Mac)
    requires m.Mac?
  {
    forall s: octets, h: octets, p: octets :: |m.tag(s, h, p)| == m.size
  }

  // ---------- The state of a half connection ----------

  /** shape is handshakeLen: the record lengths still to be imitated, by handshake stage. */
  datatype Half = Half(version: nat, cipher: Cipher, mac: Mac, seqNum: octets8, shape: seq<nat>)
  {
    /** Only stream and CBC ciphers come with a MAC, and TLS 1.3 has neither. */
    ghost predicate Valid() {
      && |shape| == 7
      && (mac.Mac? <==> cipher.Stream? || cipher.Cbc?)
      && (version == VERSION_TLS13 ==> cipher.NoCipher? || cipher.Aead?)
      && (cipher.Aead? ==> cipher.aead.explicitNonceLen == 0 || cipher.aead.explicitNonceLen == 8)
      && (cipher.Aead? && version == VERSION_TLS13 ==> cipher.aead.explicitNonceLen == 0)
      && (cipher.Cbc? ==> 0 < cipher.cbc.blockSize <= 256)
    }

    ghost predicate Lawful() {
      && Valid()
      && (mac.Mac? ==> LawfulMac(mac))
      && match cipher
         case NoCipher => true
         case Stream(k, _) => LawfulStream(k)
         case Aead(k) => LawfulAead(k)
         case Cbc(k, iv) => LawfulCbc(k) && |iv| == k.blockSize
    }

    function ExplicitNonceLen(): nat {
      match cipher
      case NoCipher => 0
      case Stream(_, _) => 0
      case Aead(k) => k.explicitNonceLen
      case Cbc(k, _) => if version >= VERSION_TLS11 then k.blockSize else 0
    }
  }

  // ---------- Pieces of a record ----------

  /** byte(n>>8), byte(n). */
  function LengthBytes(n: int): (b: octets)
    ensures |b| == 2
  {
    [Byte(n / 256 % 256), Byte(n % 256)]
  }

  function LengthOf(hi: octet, lo: octet): (n: nat)
    ensures n < 65536
  {
    ByteValue(hi) * 256 + ByteValue(lo)
  }

  lemma LengthRoundTrip(n: nat)
    requires n < 65536
    ensures LengthOf(LengthBytes(n)[0], LengthBytes(n)[1]) == n
  {
    hide ByteValue, Byte;
    ByteTruncates(n / 256);
    ByteTruncates(n % 256);
  }

  /** The length field is the big-endian 16-bit number. */
  lemma LengthIsBigEndian(n: nat)
    requires n < 65536
    ensures LengthBytes(n) == BigEndianBytes(n, 2)
  {
    hide ByteValue, Byte;
    ByteTruncates(n);
    ByteTruncates(n % 256);
    SameByte(Byte(n), Byte(n % 256));
    assert BigEndianBytes(n / 256, 1) == BigEndianBytes(n / 256 / 256, 0) + [Byte(n / 256)];
  }

  lemma LengthOfIsNumber(hi: octet, lo: octet)
    ensures LengthOf(hi, lo) == Number([hi, lo])
  {
    assert [hi, lo][..1] == [hi] && [hi][..0] == [];
    assert Number([hi]) == Number([]) * 256 + hi as nat;
    assert ByteValue(hi) == hi as nat && ByteValue(lo) == lo as nat;
  }

  function ApplyStream(k: StreamKey, pos: nat, x: octets): (y: octets)
    ensures |y| == |x|
  {
    seq(|x|, i requires 0 <= i < |x| => k.apply(pos + i, x[i]))
  }

  /** The IV that CBC carries to the next record: the last ciphertext block. */
  function NextIv(k: CbcKey, iv: octets, ciphertext: octets): octets {
    if |ciphertext| < k.blockSize then iv else ciphertext[|ciphertext| - k.blockSize..]
  }

  // ---------- The inner plaintext of TLS 1.3 ----------

  /** The stage whose length a handshake record imitates, by its first byte. */
  function Stage(first: octet): (s: Option<nat>)
    ensures s.Some? ==> 2 <= s.value <= 6
    ensures s == Some(6) <==> first == 4
  {
    if first == 8 then Some(2)
    else if first == 11 then Some(3)
    else if first == 15 then Some(4)
    else if first == 20 then Some(5)
    else if first == 4 then Some(6)
    else None
  }

  predicate Shaped(h: Half, typ: octet)
    requires |h.shape| == 7
  {
    typ == HANDSHAKE && h.shape[1] != 0
  }

  /** What a shaped new_session_ticket turns its first two bytes into. */
  function Disguised(inner: octets): (d: octets)
    requires |inner| >= 2
    ensures |d| == |inner|
  {
    [APPLICATION_DATA, 0] + inner[2..]
  }

  datatype Inner = Inner(bytes: octets, shape: seq<nat>) | TooLong(shape: seq<nat>) | Bug

  /** Payload and content type, with the zeros that give a shaped record its length. */
  function InnerPlaintext(h: Half, typ: octet, payload: octets, overhead: nat): Inner
    requires |h.shape| == 7
  {
    var bare := payload + [typ];
    if !Shaped(h, typ) then Inner(bare, h.shape)
    else if payload == [] then Bug
    else
      var stage := Stage(payload[0]);
      var target := if stage.Some? then h.shape[stage.value] else 0;
      var shape := if stage.Some? then h.shape[stage.value := 0] else h.shape;
      var padding := target - (RECORD_HEADER_LEN + |bare| + overhead);
      if padding < 0 then TooLong(shape)
      else if padding > EMPTY_SIZE then Bug
      else Inner((if stage == Some(6) then Disguised(bare) else bare) + Nulls(padding), shape)
  }

  /** Where the last non-zero byte is. */
  function LastNonZero(p: octets): (i: Option<nat>)
    ensures i.Some? ==> i.value < |p| && p[i.value] != 0
  {
    if p == [] then None
    else if p[|p| - 1] != 0 then Some(|p| - 1)
    else LastNonZero(p[..|p| - 1])
  }

  // ---------- encrypt ----------

  /** Crashed stands for a panic of the original. */
  datatype Encrypted = Sent(record: octets, next: Half) | Refused(next: Half) | Crashed

  function Advance(h: Half): Option<Half> {
    match Increment(h.seqNum)
    case None => None
    case Some(s) => Some(h.(seqNum := s))
  }

  /** A record: content type, version and length, then the fragment; the sequence number moves on. */
  function Finish(h: Half, typ: octet, version: octets, fragment: octets): Encrypted
    requires |version| == 2
  {
    match Advance(h)
    case None => Crashed
    case Some(next) => Sent([typ] + version + LengthBytes(|fragment|) + fragment, next)
  }

  /** The explicit nonce or IV: the sequence number for an AEAD, random bytes for CBC. */
  function ExplicitNonce(h: Half, random: Option<octets>): Option<octets> {
    if h.ExplicitNonceLen() == 0 then Some([])
    else if h.cipher.Aead? then Some(h.seqNum)
    else random
  }

  /** random is what the random source gives when an IV is drawn, or None for its error. */
  ghost predicate Draws(h: Half, random: Option<octets>) {
    random.Some? ==> |random.value| == h.ExplicitNonceLen()
  }

  function EncryptRecord(h: Half, header: octets, payload: octets, random: Option<octets>): Encrypted
    requires h.Valid() && |header| == RECORD_HEADER_LEN
  {
    var explicit := ExplicitNonce(h, random);
    if explicit.None? then Refused(h)
    else EncryptWith(h, header, payload, explicit.value)
  }

  function CbcPadding(k: CbcKey, n: nat): nat
    requires k.blockSize > 0
  {
    k.blockSize - n % k.blockSize
  }

  function EncryptWith(h: Half, header: octets, payload: octets, explicit: octets): Encrypted
    requires h.Valid() && |header| == RECORD_HEADER_LEN
  {
    var typ, version := header[0], header[1..3];
    match h.cipher
    case NoCipher => Sent(header + payload, h)
    case Stream(k, pos) =>
      var text := payload + h.mac.tag(h.seqNum, header, payload);
      Finish(h.(cipher := Stream(k, pos + |text|)), typ, version, ApplyStream(k, pos, text))
    case Aead(k) =>
      var nonce := if explicit == [] then h.seqNum else explicit;
      if h.version == VERSION_TLS13 then
        match InnerPlaintext(h, typ, payload, k.overhead)
        case Bug => Crashed
        case TooLong(shape) => Refused(h.(shape := shape))
        case Inner(bytes, shape) =>
          var outer := [APPLICATION_DATA] + version + LengthBytes(|bytes| + k.overhead);
          Finish(h.(shape := shape), APPLICATION_DATA, version, k.seal(nonce, bytes, outer))
      else
        Finish(h, typ, version, explicit + k.seal(nonce, payload, h.seqNum + header))
    case Cbc(k, iv) =>
      var text := payload + h.mac.tag(h.seqNum, header, payload);
      var padded := text + PadBytes(CbcPadding(k, |text|));
      var iv' := if explicit == [] then iv else explicit;
      var ciphertext := k.enc(iv', padded);
      Finish(h.(cipher := Cbc(k, NextIv(k, iv', ciphertext))), typ, version, explicit + ciphertext)
  }

  // ---------- decrypt ----------

  datatype Alert = UnexpectedMessage | BadRecordMAC | RecordOverflow

  datatype Decrypted = Delivered(data: octets, typ: octet, next: Half) | Rejected(alert: Alert, next: Half) | Panic

  function Deliver(h: Half, data: octets, typ: octet): Decrypted {
    match Advance(h)
    case None => Panic
    case Some(next) => Delivered(data, typ, next)
  }

  /** TLS 1.3: strip the zeros and the content type before them. */
  function Unwrap(h: Half, typ: octet, plaintext: octets): Decrypted {
    if typ != APPLICATION_DATA then Rejected(UnexpectedMessage, h)
    else if |plaintext| > MAX_PLAINTEXT + 1 then Rejected(RecordOverflow, h)
    else if plaintext == [] then Deliver(h, [], typ)
    else
      match LastNonZero(plaintext)
      case None => Rejected(UnexpectedMessage, h)
      case Some(i) => Deliver(h, plaintext[..i], plaintext[i])
  }

  /** Checks the MAC that follows the first n bytes of the decrypted payload, given the padding after it. */
  function CheckMac(h: Half, typ: octet, version: octets, payload: octets, padding: nat, good: bool): Decrypted
    requires h.mac.Mac?
  {
    if |payload| < h.mac.size then Rejected(BadRecordMAC, h)
    else
      var n := if |payload| < h.mac.size + padding then 0 else |payload| - h.mac.size - padding;
      var header := [typ] + version + LengthBytes(n);
      if good && h.mac.tag(h.seqNum, header, payload[..n]) == payload[n..n + h.mac.size] then Deliver(h, payload[..n], typ)
      else Rejected(BadRecordMAC, h)
  }

  function DecryptRecord(h: Half, record: octets): Decrypted
    requires h.Valid() && |record| >= RECORD_HEADER_LEN
  {
    var typ, version, payload := record[0], record[1..3], record[RECORD_HEADER_LEN..];
    if h.version == VERSION_TLS13 && typ == CHANGE_CIPHER_SPEC then Delivered(payload, typ, h)
    else
      match h.cipher
      case NoCipher => Deliver(h, payload, typ)
      case Stream(k, pos) =>
        CheckMac(h.(cipher := Stream(k, pos + |payload|)), typ, version, ApplyStream(k, pos, payload), 0, true)
      case Aead(k) =>
        if |payload| < k.explicitNonceLen then Rejected(BadRecordMAC, h)
        else
          var nonce := if k.explicitNonceLen == 0 then h.seqNum else payload[..k.explicitNonceLen];
          var sealed := payload[k.explicitNonceLen..];
          var data := if h.version == VERSION_TLS13 then record[..RECORD_HEADER_LEN]
                      else h.seqNum + record[..3] + LengthBytes(|sealed| - k.overhead);
          (match k.open(nonce, sealed, data)
           case None => Rejected(BadRecordMAC, h)
           case Some(p) => if h.version == VERSION_TLS13 then Unwrap(h, typ, p) else Deliver(h, p, typ))
      case Cbc(k, iv) =>
        var e := h.ExplicitNonceLen();
        if |payload| % k.blockSize != 0 || |payload| < e + RoundUp(h.mac.size + 1, k.blockSize) then Rejected(BadRecordMAC, h)
        else
          var iv' := if e > 0 then payload[..e] else iv;
          var plain := k.dec(iv', payload[e..]);
          var h' := h.(cipher := Cbc(k, NextIv(k, iv', payload[e..])));
          if plain == [] then Rejected(BadRecordMAC, h')
          else CheckMac(h', typ, version, plain, PaddingToRemove(plain), WellPadded(plain))
  }

  // ---------- The round trip, one cipher family at a time ----------

  /** A reading half that mirrors a writing half. Without a cipher only the reader counts records. */
  ghost predicate InSync(w: Half, r: Half)
  {
    w.version == r.version && w.cipher == r.cipher && w.mac == r.mac && (w.cipher.NoCipher? || w.seqNum == r.seqNum)
  }

  function RecordHeader(typ: octet, version: octets, n: nat): (h: octets)
    requires |version| == 2
    ensures |h| == 5
  {
    [typ] + version + LengthBytes(n)
  }

  lemma HeaderParts(typ: octet, version: octets, n: nat, rest: octets)
    requires |version| == 2
    ensures var r := RecordHeader(typ, version, n) + rest;
            && r[0] == typ && r[1..3] == version && r[..3] == [typ] + version
            && r[..5] == RecordHeader(typ, version, n) && r[5..] == rest
            && RecordHeader(typ, version, n)[0] == typ && RecordHeader(typ, version, n)[1..3] == version
  {
    hide LengthBytes;
  }

  lemma StreamTwice(k: StreamKey, pos: nat, x: octets)
    requires LawfulStream(k)
    ensures ApplyStream(k, pos, ApplyStream(k, pos, x)) == x
  {
    forall i | 0 <= i < |x|
      ensures ApplyStream(k, pos, ApplyStream(k, pos, x))[i] == x[i]
    {
    }
  }

  lemma CheckMacAccepts(h: Half, typ: octet, version: octets, data: octets, pad: octets, padding: nat, good: bool)
    requires h.mac.Mac? && LawfulMac(h.mac) && |version| == 2 && padding == |pad| && good
    ensures var tag := h.mac.tag(h.seqNum, RecordHeader(typ, version, |data|), data);
            CheckMac(h, typ, version, data + tag + pad, padding, good) == Deliver(h, data, typ)
  {
    hide LengthBytes, Deliver;
    var tag := h.mac.tag(h.seqNum, RecordHeader(typ, version, |data|), data);
    var payload := data + tag + pad;
    assert |payload| - h.mac.size - padding == |data|;
    assert payload[..|data|] == data && payload[|data|..|data| + h.mac.size] == tag;
  }

  /** The reader makes this of the record, and mirrors the writer again. */
  ghost predicate ReadsAs(record: octets, next: Half, r: Half, typ: octet, data: octets)
    requires r.Valid()
  {
    && |record| >= RECORD_HEADER_LEN
    && var d := DecryptRecord(r, record);
       d.Delivered? && d.data == data && d.typ == typ && InSync(next, d.next) && next.Lawful() && d.next.Valid()
  }

  lemma StreamRoundTrip(w: Half, r: Half, typ: octet, version: octets, payload: octets, random: Option<octets>)
    requires w.Lawful() && r.Valid() && InSync(w, r) && w.cipher.Stream? && |version| == 2
    ensures match EncryptRecord(w, RecordHeader(typ, version, |payload|), payload, random)
            case Crashed => Advance(w).None?
            case Refused(_) => false
            case Sent(record, next) => ReadsAs(record, next, r, typ, payload)
  {
    hide LengthBytes, Increment;
    var header := RecordHeader(typ, version, |payload|);
    var tag := w.mac.tag(w.seqNum, header, payload);
    var k, pos := w.cipher.stream, w.cipher.pos;
    var text := payload + tag;
    var fragment := ApplyStream(k, pos, text);
    HeaderParts(typ, version, |payload|, []);
    HeaderParts(typ, version, |fragment|, fragment);
    StreamTwice(k, pos, text);
    var r' := r.(cipher := Stream(k, pos + |text|));
    CheckMacAccepts(r', typ, version, payload, [], 0, true);
    assert payload + tag + [] == text;
  }

  lemma CbcLengths(k: CbcKey, n: nat, size: nat, e: nat)
    requires 0 < k.blockSize && size <= n && (e == 0 || e == k.blockSize)
    ensures 0 < CbcPadding(k, n) <= k.blockSize
    ensures (n + CbcPadding(k, n)) % k.blockSize == 0
    ensures (e + n + CbcPadding(k, n)) % k.blockSize == 0
    ensures e + n + CbcPadding(k, n) >= e + RoundUp(size + 1, k.blockSize)
  {
    var b := k.blockSize;
    var q := n / b;
    assert n == q * b + n % b;
    var m := q + 1;
    assert n + CbcPadding(k, n) == m * b;
    MultipleRemainder(m, b);
    MultipleRemainder(m + 1, b);
    assert b + m * b == (m + 1) * b;
    RoundUpIsLeastMultiple(size + 1, b, m);
  }

  lemma MultipleRemainder(m: nat, b: nat)
    requires b > 0
    ensures (m * b) % b == 0
  {
    var q, r := (m * b) / b, (m * b) % b;
    assert m * b == q * b + r;
    if q < m {
      TimesMonotone(q + 1, m, b);
    } else {
      TimesMonotone(m, q, b);
    }
  }

  /** What the CBC branch of encrypt sends, in one expression. */
  lemma CbcSends(w: Half, header: octets, payload: octets, explicit: octets)
    requires w.Valid() && w.cipher.Cbc? && |header| == RECORD_HEADER_LEN
    ensures var k := w.cipher.cbc;
            var text := payload + w.mac.tag(w.seqNum, header, payload);
            var iv := if explicit == [] then w.cipher.iv else explicit;
            var ciphertext := k.enc(iv, text + PadBytes(CbcPadding(k, |text|)));
            EncryptWith(w, header, payload, explicit)
            == Finish(w.(cipher := Cbc(k, NextIv(k, iv, ciphertext))), header[0], header[1..3], explicit + ciphertext)
  {
    hide Finish, PadBytes, CbcPadding, NextIv;
  }

  lemma CbcReads(r: Half, typ: octet, version: octets, explicit: octets, iv: octets, text: octets, pad: octets)
    requires r.Valid() && r.cipher.Cbc? && LawfulCbc(r.cipher.cbc) && |version| == 2
    requires |explicit| == r.ExplicitNonceLen() && iv == (if explicit == [] then r.cipher.iv else explicit)
    requires |iv| == r.cipher.cbc.blockSize && |text| >= r.mac.size
    requires |pad| == CbcPadding(r.cipher.cbc, |text|) && pad == PadBytes(|pad|)
    ensures var k := r.cipher.cbc;
            var fragment := explicit + k.enc(iv, text + pad);
            DecryptRecord(r, RecordHeader(typ, version, |fragment|) + fragment)
            == CheckMac(r.(cipher := Cbc(k, NextIv(k, iv, k.enc(iv, text + pad)))), typ, version, text + pad, |pad|, true)
  {
    hide LengthBytes, WellPadded, PaddingToRemove, PadBytes, RoundUp, CbcPadding, CheckMac, NextIv;
    var k, e := r.cipher.cbc, r.ExplicitNonceLen();
    CbcLengths(k, |text|, r.mac.size, e);
    var ciphertext := k.enc(iv, text + pad);
    var fragment := explicit + ciphertext;
    HeaderParts(typ, version, |fragment|, fragment);
    assert fragment[..e] == explicit && fragment[e..] == ciphertext;
    PaddingRecognised(text, |pad|);
  }

  lemma CbcRoundTrip(w: Half, r: Half, typ: octet, version: octets, payload: octets, random: Option<octets>)
    requires w.Lawful() && r.Valid() && InSync(w, r) && w.cipher.Cbc? && |version| == 2 && Draws(w, random)
    ensures match EncryptRecord(w, RecordHeader(typ, version, |payload|), payload, random)
            case Crashed => Advance(w).None?
            case Refused(_) => random.None? && w.ExplicitNonceLen() > 0
            case Sent(record, next) => ReadsAs(record, next, r, typ, payload)
  {
    hide LengthBytes, Increment, PadBytes, CbcPadding, CheckMac, EncryptWith, DecryptRecord;
    var header := RecordHeader(typ, version, |payload|);
    var k, e := w.cipher.cbc, w.ExplicitNonceLen();
    if e > 0 && random.None? {
      return;
    }
    var explicit := if e == 0 then [] else random.value;
    var iv := if e == 0 then w.cipher.iv else explicit;
    var text := payload + w.mac.tag(w.seqNum, header, payload);
    CbcLengths(k, |text|, w.mac.size, e);
    var pad := PadBytes(CbcPadding(k, |text|));
    var ciphertext := k.enc(iv, text + pad);
    HeaderParts(typ, version, |payload|, []);
    CbcSends(w, header, payload, explicit);
    CbcReads(r, typ, version, explicit, iv, text, pad);
    CheckMacAccepts(r.(cipher := Cbc(k, NextIv(k, iv, ciphertext))), typ, version, payload, pad, |pad|, true);
  }

  lemma Aead12RoundTrip(w: Half, r: Half, typ: octet, version: octets, payload: octets, random: Option<octets>)
    requires w.Lawful() && r.Valid() && InSync(w, r) && w.cipher.Aead? && w.version != VERSION_TLS13 && |version| == 2
    ensures match EncryptRecord(w, RecordHeader(typ, version, |payload|), payload, random)
            case Crashed => Advance(w).None?
            case Refused(_) => false
            case Sent(record, next) => ReadsAs(record, next, r, typ, payload)
  {
    hide LengthBytes, Increment;
    var header := RecordHeader(typ, version, |payload|);
    var k := w.cipher.aead;
    var e := k.explicitNonceLen;
    var explicit := if e == 0 then [] else w.seqNum;
    var sealed := k.seal(w.seqNum, payload, w.seqNum + header);
    var fragment := explicit + sealed;
    HeaderParts(typ, version, |payload|, []);
    HeaderParts(typ, version, |fragment|, fragment);
    assert fragment[..e] == explicit && fragment[e..] == sealed;
    assert w.seqNum + header == w.seqNum + ([typ] + version) + LengthBytes(|sealed| - k.overhead);
  }

  // ---------- TLS 1.3 ----------

  lemma {:induction false} LastNonZeroBeforeNulls(x: octets, t: octet, n: nat)
    requires t != 0
    ensures LastNonZero(x + [t] + Nulls(n)) == Some(|x|)
    decreases n
  {
    var p := x + [t] + Nulls(n);
    if n > 0 {
      assert p[..|p| - 1] == x + [t] + Nulls(n - 1);
      LastNonZeroBeforeNulls(x, t, n - 1);
    }
  }

  ghost predicate ShapeBounded(h: Half) {
    forall i :: 0 <= i < |h.shape| ==> h.shape[i] <= EMPTY_SIZE
  }

  /** The one kind of record that is not meant to be read back: a length-shaped new_session_ticket. */
  predicate IsFiller(h: Half, typ: octet, payload: octets)
    requires h.Valid()
  {
    h.version == VERSION_TLS13 && h.cipher.Aead? && Shaped(h, typ) && payload != [] && payload[0] == 4
  }

  /** The content of a record and its type, as the inner plaintext carries them. */
  function Carried(h: Half, typ: octet, payload: octets): octets
    requires h.Valid()
  {
    if IsFiller(h, typ, payload) then Disguised(payload + [typ]) else payload + [typ]
  }

  /** The padding fits the 8192 zeros there are, and the whole record has exactly the length it imitates. */
  lemma InnerLength(h: Half, typ: octet, payload: octets)
    requires h.Valid() && h.version == VERSION_TLS13 && h.cipher.Aead? && ShapeBounded(h)
    ensures var overhead := h.cipher.aead.overhead;
            match InnerPlaintext(h, typ, payload, overhead)
            case Bug => Shaped(h, typ) && payload == []
            case TooLong(shape) => Shaped(h, typ) && |shape| == 7
            case Inner(bytes, shape) =>
              && |shape| == 7
              && (exists n: nat :: bytes == Carried(h, typ, payload) + Nulls(n))
              && (if Shaped(h, typ)
                  then payload != [] && Stage(payload[0]).Some?
                       && RECORD_HEADER_LEN + |bytes| + overhead == h.shape[Stage(payload[0]).value]
                       && shape == h.shape[Stage(payload[0]).value := 0]
                  else |bytes| == |payload| + 1 && shape == h.shape)
  {
    hide Stage, Nulls;
    var overhead := h.cipher.aead.overhead;
    var result := InnerPlaintext(h, typ, payload, overhead);
    if result.Inner? {
      var n := |result.bytes| - (|payload| + 1);
      assert Nulls(0) == [];
      assert result.bytes == Carried(h, typ, payload) + Nulls(n);
      if Shaped(h, typ) {
        assert Stage(payload[0]).Some?;
      }
    }
  }

  lemma Sends13(w: Half, typ: octet, version: octets, payload: octets, random: Option<octets>)
    requires w.Valid() && w.version == VERSION_TLS13 && w.cipher.Aead? && |version| == 2
    ensures var k := w.cipher.aead;
            EncryptRecord(w, RecordHeader(typ, version, |payload|), payload, random)
            == match InnerPlaintext(w, typ, payload, k.overhead)
               case Bug => Crashed
               case TooLong(shape) => Refused(w.(shape := shape))
               case Inner(bytes, shape) =>
                 Finish(w.(shape := shape), APPLICATION_DATA, version,
                        k.seal(w.seqNum, bytes, RecordHeader(APPLICATION_DATA, version, |bytes| + k.overhead)))
  {
    hide InnerPlaintext, Finish, LengthBytes;
    HeaderParts(typ, version, |payload|, []);
  }

  lemma Reads13(r: Half, version: octets, bytes: octets)
    requires r.Valid() && r.version == VERSION_TLS13 && r.cipher.Aead? && LawfulAead(r.cipher.aead) && |version| == 2
    ensures var k := r.cipher.aead;
            var fragment := k.seal(r.seqNum, bytes, RecordHeader(APPLICATION_DATA, version, |bytes| + k.overhead));
            DecryptRecord(r, RecordHeader(APPLICATION_DATA, version, |fragment|) + fragment) == Unwrap(r, APPLICATION_DATA, bytes)
  {
    hide Unwrap, LengthBytes;
    var k := r.cipher.aead;
    var fragment := k.seal(r.seqNum, bytes, RecordHeader(APPLICATION_DATA, version, |bytes| + k.overhead));
    HeaderParts(APPLICATION_DATA, version, |fragment|, fragment);
    assert fragment[0..] == fragment;
  }

  /** What is left of a carried text once the zeros and the type are gone. */
  lemma UnwrapsCarried(r: Half, carried: octets, n: nat)
    requires |carried| > 0 && carried[|carried| - 1] != 0 && |carried| + n <= MAX_PLAINTEXT + 1
    ensures Unwrap(r, APPLICATION_DATA, carried + Nulls(n)) == Deliver(r, carried[..|carried| - 1], carried[|carried| - 1])
  {
    hide Deliver, LastNonZero;
    var data, t := carried[..|carried| - 1], carried[|carried| - 1];
    LastNonZeroBeforeNulls(data, t, n);
    assert carried + Nulls(n) == data + [t] + Nulls(n);
    assert (carried + Nulls(n))[..|data|] == data;
  }

  /** A filler of one byte becomes empty application data; a longer one comes back altered. */
  lemma UnwrapsFiller(r: Half, payload: octets, n: nat)
    requires payload != [] && payload[0] == 4 && |payload| + 1 + n <= MAX_PLAINTEXT + 1
    ensures Unwrap(r, APPLICATION_DATA, Disguised(payload + [HANDSHAKE]) + Nulls(n))
         == if |payload| == 1 then Deliver(r, [], APPLICATION_DATA)
            else Deliver(r, [APPLICATION_DATA, 0] + payload[2..], HANDSHAKE)
  {
    hide Deliver, LastNonZero, Unwrap;
    if |payload| == 1 {
      assert Disguised(payload + [HANDSHAKE]) + Nulls(n) == [APPLICATION_DATA] + Nulls(n + 1);
      UnwrapsCarried(r, [APPLICATION_DATA], n + 1);
    } else {
      var carried := [APPLICATION_DATA, 0] + payload[2..] + [HANDSHAKE];
      assert Disguised(payload + [HANDSHAKE]) == carried;
      UnwrapsCarried(r, carried, n);
      assert carried[..|carried| - 1] == [APPLICATION_DATA, 0] + payload[2..];
    }
  }

  lemma Aead13RoundTrip(w: Half, r: Half, typ: octet, version: octets, payload: octets, random: Option<octets>)
    requires w.Lawful() && r.Valid() && InSync(w, r) && w.version == VERSION_TLS13 && w.cipher.Aead?
    requires ShapeBounded(w)
    requires |version| == 2 && |payload| <= MAX_PLAINTEXT && typ != 0
    ensures match EncryptRecord(w, RecordHeader(typ, version, |payload|), payload, random)
            case Crashed => Advance(w).None? || (Shaped(w, typ) && payload == [])
            case Refused(_) => Shaped(w, typ)
            case Sent(record, next) =>
              && ShapeBounded(next) && (!Shaped(w, typ) ==> next.shape == w.shape)
              && if !IsFiller(w, typ, payload) then ReadsAs(record, next, r, typ, payload)
                 else if |payload| == 1 then ReadsAs(record, next, r, APPLICATION_DATA, [])
                 else ReadsAs(record, next, r, HANDSHAKE, [APPLICATION_DATA, 0] + payload[2..])
  {
    hide InnerPlaintext, LengthBytes, EncryptRecord, DecryptRecord, Unwrap, Increment, Stage, Nulls, Disguised;
    var k := w.cipher.aead;
    Sends13(w, typ, version, payload, random);
    InnerLength(w, typ, payload);
    match InnerPlaintext(w, typ, payload, k.overhead)
    case Bug =>
    case TooLong(_) =>
    case Inner(bytes, shape) =>
      var carried := Carried(w, typ, payload);
      var n: nat :| bytes == carried + Nulls(n);
      Reads13(r, version, bytes);
      if IsFiller(w, typ, payload) {
        UnwrapsFiller(r, payload, n);
      } else {
        UnwrapsCarried(r, carried, n);
        assert carried[..|carried| - 1] == payload;
      }
  }

  // ---------- Any record, and any run of records ----------

  lemma PlainRoundTrip(w: Half, r: Half, typ: octet, version: octets, payload: octets, random: Option<octets>)
    requires w.Lawful() && r.Valid() && InSync(w, r) && w.cipher.NoCipher? && |version| == 2 && Advance(r).Some?
    ensures match EncryptRecord(w, RecordHeader(typ, version, |payload|), payload, random)
            case Crashed => false
            case Refused(_) => false
            case Sent(record, next) => next == w && ReadsAs(record, next, r, typ, payload)
  {
    hide LengthBytes, Increment;
    HeaderParts(typ, version, |payload|, payload);
  }

  /**
   * The record round trip: whatever encrypt sends, a reader in step delivers with the same content and type,
   * and stays in step. The fillers of a shaped flight are the only exception.
   */
  lemma RecordRoundTrip(w: Half, r: Half, typ: octet, version: octets, payload: octets, random: Option<octets>)
    requires w.Lawful() && r.Valid() && InSync(w, r) && ShapeBounded(w) && Draws(w, random)
    requires |version| == 2 && |payload| <= MAX_PLAINTEXT && typ != 0 && Advance(r).Some?
    ensures match EncryptRecord(w, RecordHeader(typ, version, |payload|), payload, random)
            case Crashed => Shaped(w, typ) && payload == []
            case Refused(_) => (random.None? && w.cipher.Cbc?) || (Shaped(w, typ) && w.version == VERSION_TLS13)
            case Sent(record, next) =>
              && ShapeBounded(next) && (!Shaped(w, typ) ==> next.shape == w.shape)
              && if !IsFiller(w, typ, payload) then ReadsAs(record, next, r, typ, payload)
                 else if |payload| == 1 then ReadsAs(record, next, r, APPLICATION_DATA, [])
                 else ReadsAs(record, next, r, HANDSHAKE, [APPLICATION_DATA, 0] + payload[2..])
  {
    hide EncryptRecord, DecryptRecord, RecordHeader, Increment;
    KeepsShape(w, RecordHeader(typ, version, |payload|), payload, random);
    match w.cipher
    case NoCipher => PlainRoundTrip(w, r, typ, version, payload, random);
    case Stream(_, _) => StreamRoundTrip(w, r, typ, version, payload, random);
    case Cbc(_, _) => CbcRoundTrip(w, r, typ, version, payload, random);
    case Aead(_) =>
      if w.version == VERSION_TLS13 {
        Aead13RoundTrip(w, r, typ, version, payload, random);
      } else {
        Aead12RoundTrip(w, r, typ, version, payload, random);
      }
  }

  lemma KeepsShape(w: Half, header: octets, payload: octets, random: Option<octets>)
    requires w.Valid() && |header| == RECORD_HEADER_LEN
    ensures var e := EncryptRecord(w, header, payload, random);
            e.Sent? && !(w.version == VERSION_TLS13 && w.cipher.Aead?) ==> e.next.shape == w.shape
  {
    hide PadBytes, CbcPadding, LengthBytes, InnerPlaintext;
  }

  /** What a writer is told to do: write a payload, or take new keys (both sides take them at the same point). */
  datatype Event =
    | Write(typ: octet, version: octets, payload: octets, random: Option<octets>)
    | Rekey(newVersion: nat, cipher: Cipher, mac: Mac)

  datatype Wire = Record(bytes: octets) | NewKeys(version: nat, cipher: Cipher, mac: Mac)

  datatype Content = Content(typ: octet, data: octets)

  /** changeCipherSpec and setTrafficSecret: new keys start again at sequence number zero. */
  function Rekeyed(h: Half, version: nat, cipher: Cipher, mac: Mac): Half {
    h.(version := version, cipher := cipher, mac := mac, seqNum := Nulls(8))
  }

  /** A write as writeRecordLocked makes it; typ 0 is no content type. */
  ghost predicate Proper(w: Half, e: Event) {
    match e
    case Write(typ, version, payload, random) => typ != 0 && |version| == 2 && |payload| <= MAX_PLAINTEXT && Draws(w, random)
    case Rekey(version, cipher, mac) => Rekeyed(w, version, cipher, mac).Lawful()
  }

  /** The records of a run of writes, if all of them succeed. */
  ghost function WriteRun(w: Half, events: seq<Event>): Option<seq<Wire>>
    requires w.Lawful()
    decreases |events|
  {
    if events == [] then Some([])
    else if !Proper(w, events[0]) then None
    else
      match events[0]
      case Rekey(version, cipher, mac) =>
        (match WriteRun(Rekeyed(w, version, cipher, mac), events[1..])
         case None => None
         case Some(rest) => Some([NewKeys(version, cipher, mac)] + rest))
      case Write(typ, version, payload, random) =>
        match EncryptRecord(w, RecordHeader(typ, version, |payload|), payload, random)
        case Crashed => None
        case Refused(_) => None
        case Sent(record, next) =>
          if !next.Lawful() then None
          else
            match WriteRun(next, events[1..])
            case None => None
            case Some(rest) => Some([Record(record)] + rest)
  }

  /** What a reader makes of them. */
  ghost function ReadRun(r: Half, wire: seq<Wire>): Option<seq<Content>>
    decreases |wire|
  {
    if wire == [] then Some([])
    else
      match wire[0]
      case NewKeys(version, cipher, mac) => ReadRun(Rekeyed(r, version, cipher, mac), wire[1..])
      case Record(bytes) =>
        if !r.Valid() || |bytes| < RECORD_HEADER_LEN then None
        else
          match DecryptRecord(r, bytes)
          case Panic => None
          case Rejected(_, _) => None
          case Delivered(data, typ, next) =>
            match ReadRun(next, wire[1..])
            case None => None
            case Some(rest) => Some([Content(typ, data)] + rest)
  }

  /** What a record is read as: what was written, unless it is a filler of a shaped flight. */
  function ContentRead(w: Half, typ: octet, payload: octets): Content
    requires w.Valid()
  {
    if !IsFiller(w, typ, payload) then Content(typ, payload)
    else if |payload| == 1 then Content(APPLICATION_DATA, [])
    else Content(HANDSHAKE, [APPLICATION_DATA, 0] + payload[2..])
  }

  /** What the records of a run are read as, in order. */
  ghost function ContentsRead(w: Half, events: seq<Event>): seq<Content>
    requires w.Lawful()
    decreases |events|
  {
    if events == [] || !Proper(w, events[0]) then []
    else
      match events[0]
      case Rekey(version, cipher, mac) => ContentsRead(Rekeyed(w, version, cipher, mac), events[1..])
      case Write(typ, version, payload, random) =>
        var e := EncryptRecord(w, RecordHeader(typ, version, |payload|), payload, random);
        if !e.Sent? || !e.next.Lawful() then []
        else [ContentRead(w, typ, payload)] + ContentsRead(e.next, events[1..])
  }

  /** The payloads of a run, in order. */
  function Contents(events: seq<Event>): seq<Content> {
    if events == [] then []
    else
      match events[0]
      case Rekey(_, _, _) => Contents(events[1..])
      case Write(typ, _, payload, _) => [Content(typ, payload)] + Contents(events[1..])
  }

  lemma AdvanceCounts(h: Half)
    requires Number(h.seqNum) < MAX_UINT64
    ensures Advance(h).Some? && Number(Advance(h).value.seqNum) == Number(h.seqNum) + 1
  {
    hide Number, Increment;
    NumberIncrement(h.seqNum);
    Power256Of8();
  }

  lemma DeliveryAdvances(r: Half, record: octets)
    requires r.Valid() && |record| >= RECORD_HEADER_LEN && DecryptRecord(r, record).Delivered?
    ensures var next := DecryptRecord(r, record).next;
            next.seqNum == r.seqNum || (Advance(r).Some? && next.seqNum == Advance(r).value.seqNum)
  {
    hide LengthBytes, WellPadded, PaddingToRemove, RoundUp, LastNonZero, NextIv, Increment;
  }

  /**
   * Over any run of writes and key changes, length-shaped or not, the reader delivers exactly the payloads written, in
   * order, with their types; only the fillers of a shaped flight are read as something else, and always the same thing.
   */
  lemma {:induction false} RunRoundTrip(w: Half, r: Half, events: seq<Event>)
    requires w.Lawful() && r.Valid() && InSync(w, r) && ShapeBounded(w)
    requires Number(r.seqNum) + |events| <= MAX_UINT64
    ensures WriteRun(w, events).Some? ==> ReadRun(r, WriteRun(w, events).value) == Some(ContentsRead(w, events))
    decreases |events|
  {
    hide EncryptRecord, DecryptRecord, RecordHeader, Number, IsFiller;
    if events == [] {
      return;
    }
    match events[0]
    case Rekey(version, cipher, mac) =>
      if WriteRun(w, events).Some? {
        NumberOfNulls(8);
        RunRoundTrip(Rekeyed(w, version, cipher, mac), Rekeyed(r, version, cipher, mac), events[1..]);
        var rest := WriteRun(Rekeyed(w, version, cipher, mac), events[1..]).value;
        assert ([NewKeys(version, cipher, mac)] + rest)[1..] == rest;
      }
    case Write(typ, version, payload, random) =>
      if WriteRun(w, events).Some? {
        AdvanceCounts(r);
        RecordRoundTrip(w, r, typ, version, payload, random);
        var e := EncryptRecord(w, RecordHeader(typ, version, |payload|), payload, random);
        var d := DecryptRecord(r, e.record);
        DeliveryAdvances(r, e.record);
        RunRoundTrip(e.next, d.next, events[1..]);
        var rest := WriteRun(e.next, events[1..]).value;
        assert ([Record(e.record)] + rest)[1..] == rest;
      }
  }

  /** No message of the run is a filler when the direction is not length-shaped, or no new_session_ticket is written. */
  ghost predicate NoFillers(w: Half, events: seq<Event>) {
    || (|w.shape| == 7 && w.shape[1] == 0)
    || forall i :: 0 <= i < |events| && events[i].Write? && events[i].typ == HANDSHAKE ==>
         events[i].payload == [] || events[i].payload[0] != 4
  }

  /** Then everything that is written is read back as it was. */
  lemma {:induction false} NothingAltered(w: Half, events: seq<Event>)
    requires w.Lawful() && NoFillers(w, events) && WriteRun(w, events).Some?
    ensures ContentsRead(w, events) == Contents(events)
    decreases |events|
  {
    hide EncryptRecord, RecordHeader;
    if events == [] {
      return;
    }
    assert forall i :: 0 <= i < |events[1..]| ==> events[1..][i] == events[i + 1];
    match events[0]
    case Rekey(version, cipher, mac) => NothingAltered(Rekeyed(w, version, cipher, mac), events[1..]);
    case Write(typ, version, payload, random) =>
      var header := RecordHeader(typ, version, |payload|);
      UnshapedStays(w, header, payload, random);
      NothingAltered(EncryptRecord(w, header, payload, random).next, events[1..]);
  }

  lemma UnshapedStays(w: Half, header: octets, payload: octets, random: Option<octets>)
    requires w.Valid() && |header| == RECORD_HEADER_LEN
    ensures var e := EncryptRecord(w, header, payload, random);
            e.Sent? && w.shape[1] == 0 ==> |e.next.shape| == 7 && e.next.shape[1] == 0
  {
    hide EncryptRecord;
    KeepsShape(w, header, payload, random);
    if w.version == VERSION_TLS13 && w.cipher.Aead? && w.shape[1] == 0 {
      UnshapedAead(w, header, payload, random);
    }
  }

  lemma UnshapedAead(w: Half, header: octets, payload: octets, random: Option<octets>)
    requires w.Valid() && |header| == RECORD_HEADER_LEN && w.version == VERSION_TLS13 && w.cipher.Aead? && w.shape[1] == 0
    ensures var e := EncryptRecord(w, header, payload, random); e.Sent? ==> e.next.shape == w.shape
  {
    hide LengthBytes;
  }

  // ---------- The AEADs of this repository are lawful ----------

  /** xorNonceAEAD over AES-GCM (or any block cipher): what Nonces.XorNonceAEAD.Seal computes. */
  ghost function MaskedGcm(E: Gcm.blockCipher, mask: octets12): AeadKey {
    AeadKey(
      (n: octets, p: octets, a: octets) =>
        if |n| != 8 then [] else Gcm.AuthenticatedEncryption(E, 16, MaskedNonce(mask, n), p, a),
      (n: octets, c: octets, a: octets) =>
        if |n| != 8 then None else Gcm.AuthenticatedDecryption(E, 16, MaskedNonce(mask, n), c, a),
      16, 0)
  }

  /** prefixNonceAEAD over AES-GCM. */
  ghost function PrefixedGcm(E: Gcm.blockCipher, prefix: octets): AeadKey
    requires |prefix| == 4
  {
    AeadKey(
      (n: octets, p: octets, a: octets) => Gcm.AuthenticatedEncryption(E, 16, prefix + n, p, a),
      (n: octets, c: octets, a: octets) => Gcm.AuthenticatedDecryption(E, 16, prefix + n, c, a),
      16, 8)
  }

  lemma GcmIsLawful(E: Gcm.blockCipher, mask: octets12, prefix: octets)
    requires |prefix| == 4
    ensures LawfulAead(MaskedGcm(E, mask)) && LawfulAead(PrefixedGcm(E, prefix))
  {
    hide Gcm.AuthenticatedEncryption, Gcm.AuthenticatedDecryption, MaskedNonce;
    var k, k' := MaskedGcm(E, mask), PrefixedGcm(E, prefix);
    forall n: octets, p: octets, a: octets | |n| == 8
      ensures |k.seal(n, p, a)| == |p| + 16 && k.open(n, k.seal(n, p, a), a) == Some(p)
      ensures |k'.seal(n, p, a)| == |p| + 16 && k'.open(n, k'.seal(n, p, a), a) == Some(p)
    {
      Gcm.OpenIffSealed(E, 16, MaskedNonce(mask, n), k.seal(n, p, a), a, p);
      Gcm.OpenIffSealed(E, 16, prefix + n, k'.seal(n, p, a), a, p);
    }
  }
}
