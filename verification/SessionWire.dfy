/** A session state on the wire (ticket.go), byte by byte: exactly what is accepted, and what is written. */
module SessionWire {
  import opened ClientHellos
  import opened Cryptobyte
  import opened HelloBinders
  import opened HelloWire
  import opened Sessions
  import opened Vectors
  import opened Wrappers

  // ---------- Elements of lists ----------

  function Short16(x: bytes): bytes { Vec(2, x) }

  function Short24(x: bytes): bytes { Vec(3, x) }

  function EntryBytes(e: Entry): bytes { Vec(3, e.cert) + Vec(2, e.extensions) }

  /** A verified chain without its leaf. */
  function OthersBytes(others: seq<bytes>): bytes { Vec(3, Flat(Short24, others)) }

  predicate Fits16(x: bytes) { |x| < 0x1_0000 }

  predicate Fits24(x: bytes) { |x| < 0x100_0000 }

  predicate FitsEntry(e: Entry) { |e.cert| < 0x100_0000 && |e.extensions| < 0x1_0000 }

  ghost predicate FitsOthers(others: seq<bytes>) { AllGood(Fits24, others) && |Flat(Short24, others)| < 0x100_0000 }

  lemma Strings16()
    ensures Agreed(WriteString16, ReadPrefix16, Short16, Fits16)
  {
    hide U16, ReadPrefix16, Wide;
    forall x | Fits16(x)
      ensures WriteString16(x) == Some(Short16(x)) && ReadsBack(WriteString16, ReadPrefix16, x)
    {
      WideTwo(|x|);
      String16ReadsBack(x);
    }
    forall s: bytes
      ensures WritesBack(WriteString16, ReadPrefix16, s)
      ensures ReadPrefix16(s).Got? ==> Fits16(ReadPrefix16(s).value)
    {
      if ReadPrefix16(s).Got? {
        In16(s, ReadPrefix16(s).value, ReadPrefix16(s).rest);
        WideTwo(|ReadPrefix16(s).value|);
      }
    }
  }

  lemma Strings24()
    ensures Agreed(WriteString24, ReadPrefix24, Short24, Fits24)
  {
    hide U24, ReadPrefix24, Wide;
    forall x | Fits24(x)
      ensures WriteString24(x) == Some(Short24(x)) && ReadsBack(WriteString24, ReadPrefix24, x)
    {
      WideThree(|x|);
      String24ReadsBack(x);
    }
    forall s: bytes
      ensures WritesBack(WriteString24, ReadPrefix24, s)
      ensures ReadPrefix24(s).Got? ==> Fits24(ReadPrefix24(s).value)
    {
      if ReadPrefix24(s).Got? {
        In24(s, ReadPrefix24(s).value, ReadPrefix24(s).rest);
        WideThree(|ReadPrefix24(s).value|);
      }
    }
  }

  lemma EntriesAgreed()
    ensures Agreed(WriteEntry, ReadEntry, EntryBytes, FitsEntry)
  {
    hide U24, U16, ReadPrefix24, ReadPrefix16, Wide;
    forall e | FitsEntry(e)
      ensures WriteEntry(e) == Some(EntryBytes(e)) && ReadsBack(WriteEntry, ReadEntry, e)
    {
      WideThree(|e.cert|);
      WideTwo(|e.extensions|);
      EntryReadsBack(e);
    }
    forall s: bytes
      ensures WritesBack(WriteEntry, ReadEntry, s)
      ensures ReadEntry(s).Got? ==> FitsEntry(ReadEntry(s).value)
    {
      if ReadEntry(s).Got? {
        var e, mid, rest := ReadEntry(s).value, ReadPrefix24(s).rest, ReadEntry(s).rest;
        In24(s, e.cert, mid);
        In16(mid, e.extensions, rest);
        WideThree(|e.cert|);
        WideTwo(|e.extensions|);
        assert Vec(3, e.cert) + (Vec(2, e.extensions) + rest) == Vec(3, e.cert) + Vec(2, e.extensions) + rest;
      }
    }
  }

  lemma ReadsStrings24(s: bytes, xs: seq<bytes>)
    ensures DecodeAll(ReadPrefix24, s) == Some(xs) <==> AllGood(Fits24, xs) && s == Flat(Short24, xs)
  {
    hide DecodeAll, Agreed, Flat, AllGood;
    Strings24();
    ListReadIff(WriteString24, ReadPrefix24, Short24, Fits24, s, xs);
  }

  lemma ReadsEntries(s: bytes, es: seq<Entry>)
    ensures DecodeAll(ReadEntry, s) == Some(es) <==> AllGood(FitsEntry, es) && s == Flat(EntryBytes, es)
  {
    hide DecodeAll, Agreed, Flat, AllGood;
    EntriesAgreed();
    ListReadIff(WriteEntry, ReadEntry, EntryBytes, FitsEntry, s, es);
  }

  /** WriteOthers for chains that fit, and nothing for others. */
  lemma OthersWritten(others: seq<bytes>)
    requires FitsOthers(others)
    ensures WriteOthers(others) == Some(OthersBytes(others))
  {
    hide U24, Wide, WriteString24, Short24, Agreed;
    Strings24();
    AgreedWrites(WriteString24, ReadPrefix24, Short24, Fits24);
    FlatIsEncoded(WriteString24, Short24, Fits24, others);
    WideThree(|Flat(Short24, others)|);
  }

  lemma AgreedWrites<T(!new)>(write: T -> builder, read: bytes -> Read<T>, wire: T -> bytes, good: T -> bool)
    requires Agreed(write, read, wire, good)
    ensures forall x :: good(x) ==> write(x) == Some(wire(x))
  {
  }

  lemma OthersAgreed()
    ensures Agreed(WriteOthers, ReadChain, OthersBytes, FitsOthers)
  {
    hide WriteOthers, ReadPrefix24, DecodeAll, OthersBytes, FitsOthers, ReadsBack;
    forall others | FitsOthers(others)
      ensures WriteOthers(others) == Some(OthersBytes(others)) && ReadsBack(WriteOthers, ReadChain, others)
    {
      OthersWritten(others);
      OthersReadBack(others);
    }
    forall s: bytes
      ensures WritesBack(WriteOthers, ReadChain, s)
      ensures ReadChain(s).Got? ==> FitsOthers(ReadChain(s).value)
    {
      if ReadChain(s).Got? {
        ChainRead(s);
      }
    }
  }

  lemma ChainRead(s: bytes)
    requires ReadChain(s).Got?
    ensures var others := ReadChain(s).value;
            FitsOthers(others) && WriteOthers(others) == Some(OthersBytes(others)) && s == OthersBytes(others) + ReadChain(s).rest
  {
    hide WriteOthers, ReadPrefix24, DecodeAll, Flat, AllGood, Vec;
    var others, list := ReadChain(s).value, ReadPrefix24(s).value;
    In24(s, list, ReadPrefix24(s).rest);
    ReadsStrings24(list, others);
    OthersWritten(others);
  }

  lemma ReadsChains(s: bytes, chains: seq<seq<bytes>>)
    ensures DecodeAll(ReadChain, s) == Some(chains) <==> AllGood(FitsOthers, chains) && s == Flat(OthersBytes, chains)
  {
    hide DecodeAll, Agreed, Flat, AllGood;
    OthersAgreed();
    ListReadIff(WriteOthers, ReadChain, OthersBytes, FitsOthers, s, chains);
  }

  // ---------- Certificates ----------

  /** A status_request extension (5) brings an OCSP staple. */
  ghost predicate IsStaple(data: bytes, staple: bytes) {
    staple != [] && |staple| < 0x100_0000 && data == [1] + Vec(3, staple)
  }

  /** A signed_certificate_timestamp extension (18) brings timestamps. */
  ghost predicate IsTimestamps(data: bytes, scts: seq<bytes>) {
    scts != [] && AllGood(Fits16, scts) && NoneEmpty(scts) && Is16(data, Flat(Short16, scts))
  }

  /** One extension of the leaf: a staple replaces another, timestamps join those before, anything else is passed over. */
  ghost predicate TakesLeaf(c: Certificate, raw: Raw, c': Certificate) {
    if raw.extType == 5 then exists staple :: IsStaple(raw.data, staple) && c' == c.(ocspStaple := Some(staple))
    else if raw.extType == 18 then
      exists scts :: IsTimestamps(raw.data, scts) && c' == c.(scts := Some((if c.scts.Some? then c.scts.value else []) + scts))
    else c' == c
  }

  lemma ReadsStaple(c: Certificate, raw: Raw, c': Certificate)
    requires raw.extType == 5
    ensures ApplyLeaf(c, raw) == Some(c') <==> TakesLeaf(c, raw, c')
  {
    hide ReadPrefix24, Vec;
    var data := raw.data;
    if ApplyLeaf(c, raw) == Some(c') {
      var staple := ReadPrefix24(data[1..]).value;
      In24(data[1..], staple, []);
      assert Vec(3, staple) + [] == Vec(3, staple);
      assert data == [data[0]] + data[1..];
      assert IsStaple(data, staple);
    }
    if TakesLeaf(c, raw, c') {
      var staple :| IsStaple(data, staple) && c' == c.(ocspStaple := Some(staple));
      assert data[0] == 1 && data[1..] == Vec(3, staple);
      In24(data[1..], staple, []);
      assert Vec(3, staple) + [] == Vec(3, staple);
    }
  }

  lemma ReadsTimestamps(data: bytes, scts: seq<bytes>)
    ensures (ListIn16(ReadPrefix16, data) == Some(scts) && AllNonempty(scts)) <==> IsTimestamps(data, scts)
  {
    hide ListIn16, Flat, Is16, Agreed, AllGood;
    Strings16();
    ReadsList16(WriteString16, ReadPrefix16, Short16, Fits16, data, scts);
    SameEmptiness(scts);
  }

  lemma LeafTaken(c: Certificate, raw: Raw, c': Certificate)
    ensures ApplyLeaf(c, raw) == Some(c') <==> TakesLeaf(c, raw, c')
  {
    hide ListIn16, IsStaple, IsTimestamps, ReadPrefix24, AllNonempty;
    if raw.extType == 5 {
      ReadsStaple(c, raw, c');
    } else if raw.extType == 18 {
      if ListIn16(ReadPrefix16, raw.data).Some? {
        ReadsTimestamps(raw.data, ListIn16(ReadPrefix16, raw.data).value);
      }
      if scts :| IsTimestamps(raw.data, scts) && c' == c.(scts := Some((if c.scts.Some? then c.scts.value else []) + scts)) {
        ReadsTimestamps(raw.data, scts);
      }
    }
  }

  /** The extensions of the leaf, one after the other. */
  ghost predicate TakesLeafAll(c: Certificate, raws: seq<Raw>, c': Certificate)
    decreases |raws|
  {
    if raws == [] then c' == c
    else exists m :: TakesLeaf(c, raws[0], m) && TakesLeafAll(m, raws[1..], c')
  }

  lemma {:induction false} LeafTakenAll(c: Certificate, raws: seq<Raw>, c': Certificate)
    ensures ApplyLeafAll(c, raws) == Some(c') <==> TakesLeafAll(c, raws, c')
    decreases |raws|
  {
    hide ApplyLeaf, TakesLeaf;
    if raws != [] {
      if ApplyLeafAll(c, raws) == Some(c') {
        var m := ApplyLeaf(c, raws[0]).value;
        LeafTaken(c, raws[0], m);
        LeafTakenAll(m, raws[1..], c');
      }
      if TakesLeafAll(c, raws, c') {
        var m :| TakesLeaf(c, raws[0], m) && TakesLeafAll(m, raws[1..], c');
        LeafTaken(c, raws[0], m);
        LeafTakenAll(m, raws[1..], c');
      }
    }
  }

  /** A block of extensions. */
  ghost predicate IsBlock(s: bytes) {
    exists raws :: AllGood(FitsRaw, raws) && s == Flat(RawBytes, raws)
  }

  lemma ReadsBlock(s: bytes, raws: seq<Raw>)
    ensures DecodeAll(ReadRaw, s) == Some(raws) <==> AllGood(FitsRaw, raws) && s == Flat(RawBytes, raws)
  {
    hide DecodeAll, Agreed, Flat, AllGood;
    Raws();
    ListReadIff(WriteRaw, ReadRaw, RawBytes, FitsRaw, s, raws);
  }

  lemma BlockReadable(s: bytes)
    ensures DecodeAll(ReadRaw, s).Some? <==> IsBlock(s)
  {
    hide DecodeAll, Flat, AllGood;
    if DecodeAll(ReadRaw, s).Some? {
      ReadsBlock(s, DecodeAll(ReadRaw, s).value);
    }
    if raws :| AllGood(FitsRaw, raws) && s == Flat(RawBytes, raws) {
      ReadsBlock(s, raws);
    }
  }

  /** The certificates in order, with what the extensions of the first say; those of the others are only parsed. */
  ghost predicate EntriesSay(entries: seq<Entry>, c: Certificate) {
    && c.chain == Certs(entries)
    && (entries == [] ==> c.ocspStaple.None? && c.scts.None?)
    && (forall i :: 1 <= i < |entries| ==> IsBlock(entries[i].extensions))
    && (entries != [] ==>
          exists raws :: AllGood(FitsRaw, raws) && entries[0].extensions == Flat(RawBytes, raws)
                         && TakesLeafAll(Certificate(Certs(entries), None, None), raws, c))
  }

  lemma OthersReadable(entries: seq<Entry>)
    ensures OthersParse(entries) <==> forall i :: 1 <= i < |entries| ==> IsBlock(entries[i].extensions)
  {
    hide DecodeAll, IsBlock;
    forall i | 1 <= i < |entries|
      ensures DecodeAll(ReadRaw, entries[i].extensions).Some? <==> IsBlock(entries[i].extensions)
    {
      BlockReadable(entries[i].extensions);
    }
  }

  lemma {:induction false} LeafKeepsChain(c: Certificate, raws: seq<Raw>, c': Certificate)
    requires TakesLeafAll(c, raws, c')
    ensures c'.chain == c.chain
    decreases |raws|
  {
    hide IsStaple, IsTimestamps;
    if raws != [] {
      var m :| TakesLeaf(c, raws[0], m) && TakesLeafAll(m, raws[1..], c');
      LeafKeepsChain(m, raws[1..], c');
    }
  }

  lemma CertificateIff(entries: seq<Entry>, c: Certificate)
    ensures CertificateOf(entries) == Some(c) <==> EntriesSay(entries, c)
  {
    hide DecodeAll, IsBlock, Flat, AllGood, TakesLeafAll, ApplyLeafAll, OthersParse;
    OthersReadable(entries);
    var bare := Certificate(Certs(entries), None, None);
    if entries != [] {
      if CertificateOf(entries) == Some(c) {
        var raws := DecodeAll(ReadRaw, entries[0].extensions).value;
        ReadsBlock(entries[0].extensions, raws);
        LeafTakenAll(bare, raws, c);
        LeafKeepsChain(bare, raws, c);
      }
      if EntriesSay(entries, c) {
        var raws :| AllGood(FitsRaw, raws) && entries[0].extensions == Flat(RawBytes, raws) && TakesLeafAll(bare, raws, c);
        ReadsBlock(entries[0].extensions, raws);
        LeafTakenAll(bare, raws, c);
      }
    }
  }

  /** A certificate list of entries that say c. */
  ghost predicate CertificateBytes(c: Certificate, list: bytes) {
    exists entries :: AllGood(FitsEntry, entries) && list == Flat(EntryBytes, entries) && EntriesSay(entries, c)
  }

  lemma ReadsCertificate(s: bytes, c: Certificate, rest: bytes)
    ensures ReadCertificate(s) == Got(c, rest) <==>
              exists list :: CertificateBytes(c, list) && |list| < 0x100_0000 && s == Vec(3, list) + rest
  {
    hide DecodeAll, Flat, AllGood, ReadPrefix24, CertificateOf, EntriesSay, Vec;
    if ReadCertificate(s) == Got(c, rest) {
      var list := ReadPrefix24(s).value;
      var entries := DecodeAll(ReadEntry, list).value;
      In24(s, list, rest);
      ReadsEntries(list, entries);
      CertificateIff(entries, c);
      assert CertificateBytes(c, list);
    }
    if list :| CertificateBytes(c, list) && |list| < 0x100_0000 && s == Vec(3, list) + rest {
      var entries :| AllGood(FitsEntry, entries) && list == Flat(EntryBytes, entries) && EntriesSay(entries, c);
      In24(s, list, rest);
      ReadsEntries(list, entries);
      CertificateIff(entries, c);
    }
  }

  // ---------- Sessions ----------

  /** Version, side (1 for a server, 2 for a client), cipher suite and time. */
  function FrontBytes(s: Session): bytes {
    Wide(s.version, 2) + [if s.isClient then 2 else 1] + Wide(s.cipherSuite, 2) + Wide(s.createdAt, 8)
  }

  /** The protocol, with early data; then the curve before TLS 1.3, and in it, for a client, expiry and age. */
  function EndBytes(s: Session): bytes {
    (if s.earlyData then Vec(1, s.alpnProtocol) else [])
    + (if s.version < 0x0304 then Wide(s.curveID, 2)
       else if s.isClient then Wide(s.useBy, 8) + Wide(s.ageAdd, 4)
       else [])
  }

  /** What the end does not mention is empty or zero. */
  predicate EndFits(s: Session) {
    && (if s.earlyData then |s.alpnProtocol| < 0x100 else s.alpnProtocol == [])
    && (s.version >= 0x0304 ==> s.curveID == 0)
    && (s.version < 0x0304 || !s.isClient ==> s.useBy == 0 && s.ageAdd == 0)
  }

  /** Every verified chain is the leaf and the others of one list, all of which are certificates. */
  ghost predicate ChainsFrom(certOk: bytes -> bool, chain: seq<bytes>, verified: seq<seq<bytes>>, others: seq<seq<bytes>>) {
    && |verified| == |others| && (verified != [] ==> chain != [])
    && forall i :: 0 <= i < |verified| ==>
         verified[i] == [chain[0]] + others[i] && forall j :: 0 <= j < |others[i]| ==> certOk(others[i][j])
  }

  /** A session behind certOk certificates, as bytes; anything may follow. */
  ghost predicate SessionBytes(certOk: bytes -> bool, s: Session, data: bytes) {
    && Typed(s) && 0 < |s.secret| < 0x100 && EndFits(s)
    && AllGood(Fits24, s.extra) && |Flat(Short24, s.extra)| < 0x100_0000
    && (forall i :: 0 <= i < |s.certificate.chain| ==> certOk(s.certificate.chain[i]))
    && (s.isClient ==> s.certificate.chain != [])
    && exists list, others, trailing: bytes ::
         && CertificateBytes(s.certificate, list) && |list| < 0x100_0000
         && ChainsFrom(certOk, s.certificate.chain, s.verifiedChains, others)
         && AllGood(FitsOthers, others) && |Flat(OthersBytes, others)| < 0x100_0000
         && data == SessionParts(s, list, others) + trailing
  }

  function SessionParts(s: Session, list: bytes, others: seq<seq<bytes>>): bytes {
    FrontBytes(s) + (Vec(1, s.secret) + (Vec(3, Flat(Short24, s.extra))
    + ([if s.extMasterSecret then 1 else 0, if s.earlyData then 1 else 0]
    + (Vec(3, list) + (Vec(3, Flat(OthersBytes, others)) + EndBytes(s))))))
  }

  lemma FixedIff(data: bytes, f: Fixed, rest: bytes)
    ensures ReadFixed(data) == Got(f, rest) <==>
              && f.version < 0x1_0000 && f.cipherSuite < 0x1_0000 && f.createdAt < 0x1_0000_0000_0000_0000
              && data == Wide(f.version, 2) + [f.sessionType] + Wide(f.cipherSuite, 2) + Wide(f.createdAt, 8) + rest
  {
    hide ReadU16, ReadU64, Wide;
    var r3 := Wide(f.createdAt, 8) + rest;
    var r2 := Wide(f.cipherSuite, 2) + r3;
    var r1 := [f.sessionType] + r2;
    assert Wide(f.version, 2) + [f.sessionType] + Wide(f.cipherSuite, 2) + Wide(f.createdAt, 8) + rest == Wide(f.version, 2) + r1;
    if ReadFixed(data) == Got(f, rest) {
      var s1 := ReadU16(data).rest;
      var s3 := ReadU16(s1[1..]).rest;
      Number16(data, f.version, s1);
      assert s1 == [f.sessionType] + s1[1..];
      Number16(s1[1..], f.cipherSuite, s3);
      Number64(s3, f.createdAt, rest);
    }
    Number16(Wide(f.version, 2) + r1, f.version, r1);
    assert r1[1..] == r2;
    Number16(r2, f.cipherSuite, r3);
    Number64(r3, f.createdAt, rest);
  }

  lemma ChainsIff(certOk: bytes -> bool, chain: seq<bytes>, list: bytes, verified: seq<seq<bytes>>)
    ensures VerifiedChains(certOk, chain, list) == Some(verified) <==>
              exists others :: ChainsFrom(certOk, chain, verified, others)
                               && AllGood(FitsOthers, others) && list == Flat(OthersBytes, others)
  {
    hide DecodeAll, Flat, AllGood;
    if VerifiedChains(certOk, chain, list) == Some(verified) {
      var others := DecodeAll(ReadChain, list).value;
      ReadsChains(list, others);
      forall i | 0 <= i < |verified|
        ensures forall j :: 0 <= j < |others[i]| ==> certOk(others[i][j])
      {
        assert AllParse(certOk, others[i]);
      }
      assert ChainsFrom(certOk, chain, verified, others);
    }
    if others :| ChainsFrom(certOk, chain, verified, others) && AllGood(FitsOthers, others) && list == Flat(OthersBytes, others) {
      ReadsChains(list, others);
      if others != [] {
        assert WithLeaf(chain[0], others) == verified;
      }
    }
  }

  /** What is read at the end, and what is left. */
  ghost predicate EndRead(s: Session, tail: bytes, rest: bytes) {
    var alpn := ReadAlpn(tail, s.earlyData);
    && alpn.Got? && alpn.value == s.alpnProtocol
    && ReadLast(alpn.rest, s.version, s.isClient) == Got(Last(s.useBy, s.ageAdd, s.curveID), rest)
  }

  lemma EndIff(s: Session, tail: bytes, rest: bytes)
    requires Typed(s)
    ensures EndRead(s, tail, rest) <==> EndFits(s) && tail == EndBytes(s) + rest
  {
    hide ReadPrefix8, ReadU16, ReadU32, ReadU64, Wide, Vec;
    var last := if s.version < 0x0304 then Wide(s.curveID, 2)
                else if s.isClient then Wide(s.useBy, 8) + Wide(s.ageAdd, 4)
                else [];
    var mid := last + rest;
    var alpn := if s.earlyData then Vec(1, s.alpnProtocol) else [];
    assert EndBytes(s) + rest == alpn + mid;
    AlpnIff(s, tail, mid);
    LastIff(s, mid, rest);
    var read := ReadAlpn(tail, s.earlyData);
    if read.Got? {
      AlpnIff(s, tail, read.rest);
      LastIff(s, read.rest, rest);
    }
  }

  lemma AlpnIff(s: Session, tail: bytes, mid: bytes)
    ensures ReadAlpn(tail, s.earlyData) == Got(s.alpnProtocol, mid) <==>
              && (if s.earlyData then |s.alpnProtocol| < 0x100 else s.alpnProtocol == [])
              && tail == (if s.earlyData then Vec(1, s.alpnProtocol) else []) + mid
  {
    hide ReadPrefix8, Vec;
    In8(tail, s.alpnProtocol, mid);
    assert [] + mid == mid;
  }

  lemma LastIff(s: Session, mid: bytes, rest: bytes)
    requires Typed(s)
    ensures ReadLast(mid, s.version, s.isClient) == Got(Last(s.useBy, s.ageAdd, s.curveID), rest) <==>
              && (s.version >= 0x0304 ==> s.curveID == 0)
              && (s.version < 0x0304 || !s.isClient ==> s.useBy == 0 && s.ageAdd == 0)
              && mid == (if s.version < 0x0304 then Wide(s.curveID, 2)
                         else if s.isClient then Wide(s.useBy, 8) + Wide(s.ageAdd, 4)
                         else []) + rest
  {
    hide ReadU16, ReadU32, ReadU64, Wide;
    Number16(mid, s.curveID, rest);
    var r := Wide(s.ageAdd, 4) + rest;
    assert Wide(s.useBy, 8) + Wide(s.ageAdd, 4) + rest == Wide(s.useBy, 8) + r;
    Number64(mid, s.useBy, r);
    Number32(r, s.ageAdd, rest);
    if ReadU64(mid).Got? {
      Number64(mid, s.useBy, ReadU64(mid).rest);
      Number32(ReadU64(mid).rest, s.ageAdd, rest);
    }
    assert [] + rest == rest;
  }

  /** The second half of a session: its chains and its end. */
  lemma ParseChainsIff(certOk: bytes -> bool, s: Session, tail: bytes, fixed: Fixed, ems: byte, early: byte)
    requires Typed(s) && fixed == Fixed(s.version, if s.isClient then 2 else 1, s.cipherSuite, s.createdAt)
    requires ems == (if s.extMasterSecret then 1 else 0) && early == (if s.earlyData then 1 else 0)
    ensures ParseChains(certOk, tail, fixed, s.secret, s.extra, ems, early, s.certificate) == Some(s) <==>
              exists others, trailing: bytes ::
                && ChainsFrom(certOk, s.certificate.chain, s.verifiedChains, others) && EndFits(s)
                && AllGood(FitsOthers, others) && |Flat(OthersBytes, others)| < 0x100_0000
                && tail == Vec(3, Flat(OthersBytes, others)) + (EndBytes(s) + trailing)
  {
    hide ReadPrefix24, ReadAlpn, ReadLast, VerifiedChains, ChainsFrom, EndFits, EndBytes, AllGood, Flat, Vec;
    if ParseChains(certOk, tail, fixed, s.secret, s.extra, ems, early, s.certificate) == Some(s) {
      var list, s1 := ReadPrefix24(tail).value, ReadPrefix24(tail).rest;
      var trailing := ReadLast(ReadAlpn(s1, s.earlyData).rest, s.version, s.isClient).rest;
      In24(tail, list, s1);
      ChainsIff(certOk, s.certificate.chain, list, s.verifiedChains);
      EndIff(s, s1, trailing);
    }
    if others, trailing: bytes :|
        && ChainsFrom(certOk, s.certificate.chain, s.verifiedChains, others) && EndFits(s)
        && AllGood(FitsOthers, others) && |Flat(OthersBytes, others)| < 0x100_0000
        && tail == Vec(3, Flat(OthersBytes, others)) + (EndBytes(s) + trailing) {
      var list, s1 := Flat(OthersBytes, others), EndBytes(s) + trailing;
      In24(tail, list, s1);
      ChainsIff(certOk, s.certificate.chain, list, s.verifiedChains);
      EndIff(s, s1, trailing);
    }
  }

  /** What the parts of an accepted session are. */
  lemma ParseParts(certOk: bytes -> bool, data: bytes)
    requires Parse(certOk, data).Some?
    ensures var s := Parse(certOk, data).value;
            var r1 := ReadFixed(data).rest;
            var r2 := ReadPrefix8(r1).rest;
            var r3 := ReadPrefix24(r2).rest;
            var c := ReadCertificate(r3[2..]);
            && ReadPrefix8(r1).Got? && ReadPrefix24(r2).Got?
            && s.secret == ReadPrefix8(r1).value != []
            && DecodeAll(ReadPrefix24, ReadPrefix24(r2).value) == Some(s.extra)
            && ReadFixed(data) == Got(Fixed(s.version, if s.isClient then 2 else 1, s.cipherSuite, s.createdAt), r1)
            && |r3| >= 2 && r3[0] == (if s.extMasterSecret then 1 else 0) && r3[1] == (if s.earlyData then 1 else 0)
            && c == Got(s.certificate, c.rest) && AllParse(certOk, s.certificate.chain)
            && (s.isClient ==> s.certificate.chain != [])
            && ParseChains(certOk, c.rest, ReadFixed(data).value, s.secret, s.extra, r3[0], r3[1], s.certificate) == Some(s)
  {
    hide ReadFixed, ReadPrefix8, ReadPrefix24, ReadCertificate, DecodeAll, AllParse, VerifiedChains, ReadAlpn, ReadLast;
  }

  /** The parts with what follows each of them. */
  lemma PartsNest(s: Session, list: bytes, others: seq<seq<bytes>>, trailing: bytes)
    ensures SessionParts(s, list, others) + trailing ==
              FrontBytes(s) + (Vec(1, s.secret) + (Vec(3, Flat(Short24, s.extra))
              + ([if s.extMasterSecret then 1 else 0, if s.earlyData then 1 else 0]
              + (Vec(3, list) + (Vec(3, Flat(OthersBytes, others)) + (EndBytes(s) + trailing))))))
  {
    hide FrontBytes, EndBytes, Vec, Flat;
    var flags: bytes := [if s.extMasterSecret then 1 else 0, if s.earlyData then 1 else 0];
    SevenParts(FrontBytes(s), Vec(1, s.secret), Vec(3, Flat(Short24, s.extra)), flags, Vec(3, list),
               Vec(3, Flat(OthersBytes, others)), EndBytes(s), trailing);
  }

  lemma SessionTyped(certOk: bytes -> bool, data: bytes)
    requires Parse(certOk, data).Some?
    ensures Typed(Parse(certOk, data).value)
  {
    hide ReadPrefix8, ReadPrefix24, ReadCertificate, DecodeAll, AllParse, VerifiedChains;
  }

  /** What is accepted is on the wire. */
  lemma ParsedBytes(certOk: bytes -> bool, data: bytes)
    requires Parse(certOk, data).Some?
    ensures SessionBytes(certOk, Parse(certOk, data).value, data)
  {
    hide Parse, ReadFixed, ReadPrefix8, ReadPrefix24, ReadCertificate, DecodeAll, ParseChains, Typed, EndFits, CertificateBytes,
         ChainsFrom, AllGood, Flat, Vec, SessionParts, FrontBytes, EndBytes;
    var s := Parse(certOk, data).value;
    SessionTyped(certOk, data);
    ParseParts(certOk, data);
    var fixed, r1 := ReadFixed(data).value, ReadFixed(data).rest;
    var r2 := ReadPrefix8(r1).rest;
    var extra, r3 := ReadPrefix24(r2).value, ReadPrefix24(r2).rest;
    var r4 := r3[2..];
    var r5 := ReadCertificate(r4).rest;
    FrontOf(data, s, r1);
    In8(r1, s.secret, r2);
    In24(r2, extra, r3);
    ReadsStrings24(extra, s.extra);
    assert r3 == [if s.extMasterSecret then 1 else 0, if s.earlyData then 1 else 0] + r4;
    ReadsCertificate(r4, s.certificate, r5);
    var list :| CertificateBytes(s.certificate, list) && |list| < 0x100_0000 && r4 == Vec(3, list) + r5;
    ParseChainsIff(certOk, s, r5, fixed, r3[0], r3[1]);
    var others, trailing: bytes :|
      && ChainsFrom(certOk, s.certificate.chain, s.verifiedChains, others) && EndFits(s)
      && AllGood(FitsOthers, others) && |Flat(OthersBytes, others)| < 0x100_0000
      && r5 == Vec(3, Flat(OthersBytes, others)) + (EndBytes(s) + trailing);
    PartsNest(s, list, others, trailing);
  }

  lemma FrontOf(data: bytes, s: Session, rest: bytes)
    ensures ReadFixed(data) == Got(Fixed(s.version, if s.isClient then 2 else 1, s.cipherSuite, s.createdAt), rest) <==>
              && s.version < 0x1_0000 && s.cipherSuite < 0x1_0000 && s.createdAt < 0x1_0000_0000_0000_0000
              && data == FrontBytes(s) + rest
  {
    hide ReadFixed, Wide;
    FixedIff(data, Fixed(s.version, if s.isClient then 2 else 1, s.cipherSuite, s.createdAt), rest);
  }

  /** And what is on the wire is accepted. */
  lemma BytesParsed(certOk: bytes -> bool, s: Session, data: bytes)
    requires SessionBytes(certOk, s, data)
    ensures Parse(certOk, data) == Some(s)
  {
    hide ReadFixed, ReadPrefix8, ReadPrefix24, ReadCertificate, DecodeAll, ParseChains, EndFits, CertificateBytes, ChainsFrom,
         AllGood, Flat, Vec, SessionParts, FrontBytes, EndBytes;
    var list, others, trailing: bytes :|
      && CertificateBytes(s.certificate, list) && |list| < 0x100_0000
      && ChainsFrom(certOk, s.certificate.chain, s.verifiedChains, others)
      && AllGood(FitsOthers, others) && |Flat(OthersBytes, others)| < 0x100_0000
      && data == SessionParts(s, list, others) + trailing;
    PartsNest(s, list, others, trailing);
    var flags: bytes := [if s.extMasterSecret then 1 else 0, if s.earlyData then 1 else 0];
    var extra := Flat(Short24, s.extra);
    var r5 := Vec(3, Flat(OthersBytes, others)) + (EndBytes(s) + trailing);
    var r4 := Vec(3, list) + r5;
    var r3 := flags + r4;
    var r2 := Vec(3, extra) + r3;
    var r1 := Vec(1, s.secret) + r2;
    FrontOf(data, s, r1);
    In8(r1, s.secret, r2);
    In24(r2, extra, r3);
    ReadsStrings24(extra, s.extra);
    assert r3[..2] == flags && r3[2..] == r4;
    ReadsCertificate(r4, s.certificate, r5);
    ParseChainsIff(certOk, s, r5, ReadFixed(data).value, flags[0], flags[1]);
  }

  /** ParseSessionState accepts exactly the byte strings that hold a session, and gives that session. */
  lemma ParseIff(certOk: bytes -> bool, data: bytes, s: Session)
    ensures Parse(certOk, data) == Some(s) <==> SessionBytes(certOk, s, data)
  {
    hide Parse, SessionBytes;
    if Parse(certOk, data) == Some(s) {
      ParsedBytes(certOk, data);
    }
    if SessionBytes(certOk, s, data) {
      BytesParsed(certOk, s, data);
    }
  }

  /** What Bytes writes for a well-formed session holds that session. */
  lemma BytesWrites(certOk: bytes -> bool, s: Session)
    requires Typed(s) && WellFormed(certOk, s) && Bytes(s).Some?
    ensures SessionBytes(certOk, s, Bytes(s).value)
  {
    hide Parse, SessionBytes, Bytes, WellFormed, Typed;
    RoundTripIff(certOk, s, []);
    assert Bytes(s).value + [] == Bytes(s).value;
    ParseIff(certOk, Bytes(s).value, s);
  }

  // ---------- When a session can be written ----------

  /** Strings, each behind a length of w bytes. */
  function StringsLength(w: nat, xs: seq<bytes>): nat {
    if xs == [] then 0 else w + |xs[0]| + StringsLength(w, xs[1..])
  }

  /** Chains without their leaves. */
  function ChainsLength(chains: seq<seq<bytes>>): nat
    requires forall i :: 0 <= i < |chains| ==> chains[i] != []
  {
    if chains == [] then 0 else 3 + StringsLength(3, chains[0][1..]) + ChainsLength(chains[1..])
  }

  lemma {:induction false} Strings24Size(xs: seq<bytes>)
    ensures StringsLength(3, xs) < 0x100_0000 ==> EncodeAll(WriteString24, xs).Some?
    ensures EncodeAll(WriteString24, xs).Some? ==> |EncodeAll(WriteString24, xs).value| == StringsLength(3, xs)
    decreases |xs|
  {
    hide U24;
    if xs != [] {
      Strings24Size(xs[1..]);
    }
  }

  lemma {:induction false} Strings16Size(xs: seq<bytes>)
    ensures StringsLength(2, xs) < 0x1_0000 ==> EncodeAll(WriteString16, xs).Some?
    ensures EncodeAll(WriteString16, xs).Some? ==> |EncodeAll(WriteString16, xs).value| == StringsLength(2, xs)
    decreases |xs|
  {
    hide U16;
    if xs != [] {
      Strings16Size(xs[1..]);
    }
  }

  ghost predicate NoneEmptyChain(chains: seq<seq<bytes>>) {
    forall i :: 0 <= i < |chains| ==> chains[i] != []
  }

  lemma {:induction false} ChainsSize(chains: seq<seq<bytes>>)
    ensures EncodeAll(WriteChain, chains).Some? ==> NoneEmptyChain(chains)
    ensures NoneEmptyChain(chains) && ChainsLength(chains) < 0x100_0000 ==> EncodeAll(WriteChain, chains).Some?
    ensures EncodeAll(WriteChain, chains).Some? ==> |EncodeAll(WriteChain, chains).value| == ChainsLength(chains)
    decreases |chains|
  {
    hide U24, WriteString24;
    if chains != [] {
      ChainsSize(chains[1..]);
      assert forall i :: 1 <= i < |chains| ==> chains[i] == chains[1..][i - 1];
      if chains[0] != [] {
        Strings24Size(chains[0][1..]);
      }
    }
  }

  /** The extensions of the leaf: a staple takes 8 bytes and itself, timestamps take 6 bytes and themselves. */
  function LeafLength(c: Certificate): nat {
    (if c.ocspStaple.Some? then 8 + |c.ocspStaple.value| else 0)
    + (if c.scts.Some? then 6 + StringsLength(2, c.scts.value) else 0)
  }

  predicate LeafFits(c: Certificate) {
    && (c.ocspStaple.Some? ==> |c.ocspStaple.value| + 4 < 0x1_0000)
    && (c.scts.Some? ==> StringsLength(2, c.scts.value) + 2 < 0x1_0000)
  }

  lemma LeafSize(c: Certificate)
    ensures LeafExtensions(c).Some? <==> LeafFits(c)
    ensures LeafFits(c) ==> |LeafExtensions(c).value| == LeafLength(c)
  {
    hide U16, U24, U8, EncodeAll;
    StapleSize(c.ocspStaple);
    TimestampsSize(c.scts);
  }

  lemma StapleSize(staple: Option<bytes>)
    ensures OcspExtension(staple).Some? <==> (staple.Some? ==> |staple.value| + 4 < 0x1_0000)
    ensures OcspExtension(staple).Some? ==> |OcspExtension(staple).value| == if staple.Some? then 8 + |staple.value| else 0
  {
    hide U16, U24;
  }

  lemma TimestampsSize(scts: Option<seq<bytes>>)
    ensures SctExtension(scts).Some? <==> (scts.Some? ==> StringsLength(2, scts.value) + 2 < 0x1_0000)
    ensures SctExtension(scts).Some? ==>
              |SctExtension(scts).value| == if scts.Some? then 6 + StringsLength(2, scts.value) else 0
  {
    hide U16, EncodeAll;
    if scts.Some? {
      Strings16Size(scts.value);
    }
  }

  lemma {:induction false} UnstapledSize(certs: seq<bytes>)
    ensures StringsLength(5, certs) < 0x100_0000 ==> EncodeAll(WriteEntry, Unstapled(certs)).Some?
    ensures EncodeAll(WriteEntry, Unstapled(certs)).Some? ==>
              |EncodeAll(WriteEntry, Unstapled(certs)).value| == StringsLength(5, certs)
    decreases |certs|
  {
    hide U24, U16;
    if certs != [] {
      UnstapledSize(certs[1..]);
      assert Unstapled(certs)[1..] == Unstapled(certs[1..]);
    }
  }

  /** Each certificate takes five bytes and itself; the staples are written only beside a leaf. */
  function ListedLength(c: Certificate): nat {
    StringsLength(5, c.chain) + (if c.chain == [] then 0 else LeafLength(c))
  }

  lemma CertificateSize(c: Certificate)
    ensures MarshalCertificate(c).Some? <==>
              (c.chain != [] ==> LeafFits(c) && LeafLength(c) < 0x1_0000) && ListedLength(c) < 0x100_0000
  {
    hide U24, U16, LeafExtensions, LeafFits, LeafLength;
    LeafSize(c);
    if c.chain != [] && LeafExtensions(c).Some? {
      UnstapledSize(c.chain[1..]);
      var entries := Entries(c).value;
      assert entries[1..] == Unstapled(c.chain[1..]);
    }
  }

  /** A session is written if and only if no verified chain is empty and everything is short enough for its length. */
  lemma BytesIff(s: Session)
    ensures Bytes(s).Some? <==>
              && |s.secret| < 0x100 && StringsLength(3, s.extra) < 0x100_0000
              && (s.certificate.chain != [] ==> LeafFits(s.certificate) && LeafLength(s.certificate) < 0x1_0000)
              && ListedLength(s.certificate) < 0x100_0000
              && NoneEmptyChain(s.verifiedChains) && ChainsLength(s.verifiedChains) < 0x100_0000
              && (s.earlyData ==> |s.alpnProtocol| < 0x100)
  {
    hide U8, U16, U24, U32, U64, EncodeAll, MarshalCertificate, LeafFits, LeafLength, NoneEmptyChain, ChainsLength, StringsLength,
         ListedLength;
    Strings24Size(s.extra);
    CertificateSize(s.certificate);
    ChainsSize(s.verifiedChains);
  }
}
