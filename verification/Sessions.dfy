/** Session state as it is stored in tickets: SessionState.Bytes and ParseSessionState (ticket.go, handshake_messages.go). */
module Sessions {
  import opened ClientHellos
  import opened Cryptobyte
  import opened Wrappers

  const VERSION_TLS13 := 0x0304
  const EXTENSION_STATUS_REQUEST := 5
  const EXTENSION_SCT := 18

  // ---------- Certificate lists ----------

  /** A chain with the staples of its leaf; None is Go's nil. */
  datatype Certificate = Certificate(chain: seq<bytes>, ocspStaple: Option<bytes>, scts: Option<seq<bytes>>)

  datatype Entry = Entry(cert: bytes, extensions: bytes)

  function WriteEntry(e: Entry): builder { Cat(Prefix24(Some(e.cert)), Prefix16(Some(e.extensions))) }

  function ReadEntry(s: bytes): Read<Entry> {
    match ReadPrefix24(s)
    case Short => Short
    case Got(cert, rest) =>
      match ReadPrefix16(rest)
      case Short => Short
      case Got(extensions, rest') => Got(Entry(cert, extensions), rest')
  }

  function WriteString16(x: bytes): builder { Prefix16(Some(x)) }

  function WriteString24(x: bytes): builder { Prefix24(Some(x)) }

  function OcspExtension(staple: Option<bytes>): builder {
    if staple.None? then Some([])
    else Cat(Some(U16(EXTENSION_STATUS_REQUEST)), Prefix16(Cat(Some(U8(STATUS_TYPE_OCSP)), Prefix24(staple))))
  }

  function SctExtension(scts: Option<seq<bytes>>): builder {
    if scts.None? then Some([])
    else Cat(Some(U16(EXTENSION_SCT)), Prefix16(Prefix16(EncodeAll(WriteString16, scts.value))))
  }

  function LeafExtensions(c: Certificate): builder { Cat(OcspExtension(c.ocspStaple), SctExtension(c.scts)) }

  /** Only the leaf has extensions. */
  function Entries(c: Certificate): Option<seq<Entry>> {
    if c.chain == [] then Some([])
    else
      match LeafExtensions(c)
      case None => None
      case Some(extensions) => Some([Entry(c.chain[0], extensions)] + Unstapled(c.chain[1..]))
  }

  function Unstapled(certs: seq<bytes>): (es: seq<Entry>)
    ensures |es| == |certs| && forall i :: 0 <= i < |es| ==> es[i] == Entry(certs[i], [])
  {
    seq(|certs|, i requires 0 <= i < |certs| => Entry(certs[i], []))
  }

  /** marshalCertificate. */
  function MarshalCertificate(c: Certificate): builder {
    match Entries(c)
    case None => None
    case Some(entries) => Prefix24(EncodeAll(WriteEntry, entries))
  }

  /** Takes one extension of the leaf. */
  function ApplyLeaf(c: Certificate, raw: Raw): Option<Certificate> {
    if raw.extType == EXTENSION_STATUS_REQUEST then
      match ReadU8(raw.data)
      case Short => None
      case Got(statusType, rest) =>
        match ReadPrefix24(rest)
        case Short => None
        case Got(staple, rest') =>
          if statusType != STATUS_TYPE_OCSP || staple == [] || rest' != [] then None else Some(c.(ocspStaple := Some(staple)))
    else if raw.extType == EXTENSION_SCT then
      match ListIn16(ReadPrefix16, raw.data)
      case None => None
      case Some(scts) =>
        if AllNonempty(scts) then Some(c.(scts := Some((if c.scts.Some? then c.scts.value else []) + scts))) else None
    else Some(c)
  }

  function ApplyLeafAll(c: Certificate, raws: seq<Raw>): Option<Certificate>
    decreases |raws|
  {
    if raws == [] then Some(c)
    else
      match ApplyLeaf(c, raws[0])
      case None => None
      case Some(c') => ApplyLeafAll(c', raws[1..])
  }

  function Certs(entries: seq<Entry>): (cs: seq<bytes>)
    ensures |cs| == |entries| && forall i :: 0 <= i < |cs| ==> cs[i] == entries[i].cert
  {
    seq(|entries|, i requires 0 <= i < |entries| => entries[i].cert)
  }

  /** The extensions of the certificates after the leaf are looked at, and ignored. */
  predicate OthersParse(entries: seq<Entry>) {
    forall i :: 1 <= i < |entries| ==> DecodeAll(ReadRaw, entries[i].extensions).Some?
  }

  function CertificateOf(entries: seq<Entry>): Option<Certificate> {
    var bare := Certificate(Certs(entries), None, None);
    if entries == [] then Some(bare)
    else if !OthersParse(entries) then None
    else
      match DecodeAll(ReadRaw, entries[0].extensions)
      case None => None
      case Some(raws) => ApplyLeafAll(bare, raws)
  }

  /** unmarshalCertificate. */
  function ReadCertificate(s: bytes): Read<Certificate> {
    match ReadPrefix24(s)
    case Short => Short
    case Got(list, rest) =>
      match DecodeAll(ReadEntry, list)
      case None => Short
      case Some(entries) =>
        match CertificateOf(entries)
        case None => Short
        case Some(c) => Got(c, rest)
  }

  // ---------- Sessions ----------

  datatype Session = Session(
    version: nat, isClient: bool, cipherSuite: nat, createdAt: nat, secret: bytes, extra: seq<bytes>,
    extMasterSecret: bool, earlyData: bool, certificate: Certificate, verifiedChains: seq<seq<bytes>>,
    alpnProtocol: bytes, useBy: nat, ageAdd: nat, curveID: nat)

  function Flag(b: bool): bytes { [if b then 1 else 0] }

  /** A verified chain, without its leaf. */
  function WriteChain(chain: seq<bytes>): builder {
    if chain == [] then None else Prefix24(EncodeAll(WriteString24, chain[1..]))
  }

  /** What comes after the chains, by flags, version and side. */
  function Tail(s: Session): builder {
    Cat(if s.earlyData then Prefix8(Some(s.alpnProtocol)) else Some([]),
        if s.version < VERSION_TLS13 then Some(U16(s.curveID))
        else if s.isClient then Some(U64(s.useBy) + U32(s.ageAdd))
        else Some([]))
  }

  function Front(s: Session): bytes {
    U16(s.version) + [if s.isClient then 2 else 1] + U16(s.cipherSuite) + U64(s.createdAt)
  }

  /** SessionState.Bytes. */
  function Bytes(s: Session): builder {
    Cat(Some(Front(s)),
    Cat(Prefix8(Some(s.secret)),
    Cat(Prefix24(EncodeAll(WriteString24, s.extra)),
    Cat(Some(Flag(s.extMasterSecret) + Flag(s.earlyData)),
    Cat(MarshalCertificate(s.certificate),
    Cat(Prefix24(EncodeAll(WriteChain, s.verifiedChains)),
        Tail(s)))))))
  }

  /** The numbers at the front: version, type, cipher suite and time. */
  datatype Fixed = Fixed(version: nat, sessionType: byte, cipherSuite: nat, createdAt: nat)

  function ReadFixed(s: bytes): Read<Fixed> {
    match ReadU16(s)
    case Short => Short
    case Got(version, s1) =>
      match ReadU8(s1)
      case Short => Short
      case Got(sessionType, s2) =>
        match ReadU16(s2)
        case Short => Short
        case Got(cipherSuite, s3) =>
          match ReadU64(s3)
          case Short => Short
          case Got(createdAt, s4) => Got(Fixed(version, sessionType, cipherSuite, createdAt), s4)
  }

  /** A chain behind its length, without its leaf. */
  function ReadChain(s: bytes): Read<seq<bytes>> {
    match ReadPrefix24(s)
    case Short => Short
    case Got(list, rest) =>
      match DecodeAll(ReadPrefix24, list)
      case None => Short
      case Some(certs) => Got(certs, rest)
  }

  function WithLeaf(leaf: bytes, chains: seq<seq<bytes>>): (cs: seq<seq<bytes>>)
    ensures |cs| == |chains| && forall i :: 0 <= i < |cs| ==> cs[i] == [leaf] + chains[i]
  {
    seq(|chains|, i requires 0 <= i < |chains| => [leaf] + chains[i])
  }

  predicate AllParse(certOk: bytes -> bool, certs: seq<bytes>) {
    forall i :: 0 <= i < |certs| ==> certOk(certs[i])
  }

  predicate ChainsParse(certOk: bytes -> bool, chains: seq<seq<bytes>>) {
    forall i :: 0 <= i < |chains| ==> AllParse(certOk, chains[i])
  }

  function ReadAlpn(s: bytes, earlyData: bool): Read<bytes> {
    if earlyData then ReadPrefix8(s) else Got([], s)
  }

  /** use_by, age_add and curve_id, as far as version and side have them. */
  datatype Last = Last(useBy: nat, ageAdd: nat, curveID: nat)

  function ReadLast(s: bytes, version: nat, isClient: bool): Read<Last> {
    if version < VERSION_TLS13 then
      match ReadU16(s)
      case Short => Short
      case Got(curveID, rest) => Got(Last(0, 0, curveID), rest)
    else if isClient then
      match ReadU64(s)
      case Short => Short
      case Got(useBy, rest) =>
        match ReadU32(rest)
        case Short => Short
        case Got(ageAdd, rest') => Got(Last(useBy, ageAdd, 0), rest')
    else Got(Last(0, 0, 0), s)
  }

  /** The verified chains of a list, each with the leaf put back in front. */
  function VerifiedChains(certOk: bytes -> bool, chain: seq<bytes>, list: bytes): Option<seq<seq<bytes>>> {
    match DecodeAll(ReadChain, list)
    case None => None
    case Some(chains) =>
      if chains == [] then Some([])
      else if chain == [] || !ChainsParse(certOk, chains) then None
      else Some(WithLeaf(chain[0], chains))
  }

  /** The second half of ParseSessionState, from the chains on. */
  function ParseChains(certOk: bytes -> bool, s: bytes, fixed: Fixed, secret: bytes, extra: seq<bytes>, ems: byte, early: byte,
                       c: Certificate): Option<Session> {
    match ReadPrefix24(s)
    case Short => None
    case Got(list, s1) =>
      match VerifiedChains(certOk, c.chain, list)
      case None => None
      case Some(verified) =>
        match ReadAlpn(s1, early == 1)
        case Short => None
        case Got(alpn, s2) =>
          match ReadLast(s2, fixed.version, fixed.sessionType == 2)
          case Short => None
          case Got(last, _) =>
            Some(Session(fixed.version, fixed.sessionType == 2, fixed.cipherSuite, fixed.createdAt, secret, extra, ems == 1,
                         early == 1, c, verified, alpn, last.useBy, last.ageAdd, last.curveID))
  }

  /** ParseSessionState; certOk says which byte strings are certificates. What follows the encoding is not looked at. */
  function Parse(certOk: bytes -> bool, data: bytes): Option<Session> {
    match ReadFixed(data)
    case Short => None
    case Got(fixed, s1) =>
      match ReadPrefix8(s1)
      case Short => None
      case Got(secret, s2) =>
        match ReadPrefix24(s2)
        case Short => None
        case Got(extraList, s3) =>
          match ReadBytes(s3, 2)
          case Short => None
          case Got(flags, s4) =>
            match ReadCertificate(s4)
            case Short => None
            case Got(c, s5) =>
              match DecodeAll(ReadPrefix24, extraList)
              case None => None
              case Some(extra) =>
                if secret == [] || fixed.sessionType !in {1, 2} || flags[0] > 1 || flags[1] > 1
                   || !AllParse(certOk, c.chain) || (fixed.sessionType == 2 && c.chain == []) then None
                else ParseChains(certOk, s5, fixed, secret, extra, flags[0], flags[1], c)
  }

  // ---------- The round trip ----------

  /** The ranges of the Go fields. */
  predicate Typed(s: Session) {
    && s.version < 0x1_0000 && s.cipherSuite < 0x1_0000 && s.createdAt < 0x1_0000_0000_0000_0000
    && s.useBy < 0x1_0000_0000_0000_0000 && s.ageAdd < 0x1_0000_0000 && s.curveID < 0x1_0000
  }

  /** Staples stand beside a leaf, and are not empty. */
  predicate GoodCertificate(c: Certificate) {
    && (c.chain == [] ==> c.ocspStaple.None? && c.scts.None?)
    && (c.ocspStaple.Some? ==> c.ocspStaple.value != [])
    && (c.scts.Some? ==> c.scts.value != [] && AllNonempty(c.scts.value))
  }

  /** Every verified chain begins with the leaf. */
  predicate GoodChains(certOk: bytes -> bool, chain: seq<bytes>, verified: seq<seq<bytes>>) {
    forall i :: 0 <= i < |verified| ==>
      verified[i] != [] && chain != [] && verified[i][0] == chain[0] && AllParse(certOk, verified[i][1..])
  }

  /** What a session must be for its encoding to say all of it, beyond what Bytes itself checks. */
  predicate WellFormed(certOk: bytes -> bool, s: Session) {
    && s.secret != []
    && GoodCertificate(s.certificate) && AllParse(certOk, s.certificate.chain)
    && (s.isClient ==> s.certificate.chain != [])
    && GoodChains(certOk, s.certificate.chain, s.verifiedChains)
    && (!s.earlyData ==> s.alpnProtocol == [])
    && (s.version >= VERSION_TLS13 ==> s.curveID == 0)
    && (!(s.version >= VERSION_TLS13 && s.isClient) ==> s.useBy == 0 && s.ageAdd == 0)
  }

  // ----- Certificates -----

  lemma EntryReadsBack(e: Entry)
    ensures ReadsBack(WriteEntry, ReadEntry, e)
  {
    hide ReadPrefix24, Prefix24, ReadPrefix16, Prefix16;
    if WriteEntry(e).Some? {
      var cert, extensions := Prefix24(Some(e.cert)).value, Prefix16(Some(e.extensions)).value;
      PrefixNonempty24(e.cert);
      forall rest: bytes
        ensures ReadEntry(WriteEntry(e).value + rest) == Got(e, rest)
      {
        assert cert + extensions + rest == cert + (extensions + rest);
        Prefix24RoundTrip(e.cert, extensions + rest);
        Prefix16RoundTrip(e.extensions, rest);
      }
    }
  }

  lemma PrefixNonempty24(x: bytes)
    ensures Prefix24(Some(x)).Some? ==> Prefix24(Some(x)).value != []
  {
  }

  lemma PrefixNonempty16(x: bytes)
    ensures Prefix16(Some(x)).Some? ==> Prefix16(Some(x)).value != []
  {
  }

  lemma String16ReadsBack(x: bytes)
    ensures ReadsBack(WriteString16, ReadPrefix16, x)
  {
    hide ReadPrefix16, Prefix16;
    if WriteString16(x).Some? {
      PrefixNonempty16(x);
      forall rest: bytes
        ensures ReadPrefix16(WriteString16(x).value + rest) == Got(x, rest)
      {
        Prefix16RoundTrip(x, rest);
      }
    }
  }

  lemma String24ReadsBack(x: bytes)
    ensures ReadsBack(WriteString24, ReadPrefix24, x)
  {
    hide ReadPrefix24, Prefix24;
    if WriteString24(x).Some? {
      PrefixNonempty24(x);
      forall rest: bytes
        ensures ReadPrefix24(WriteString24(x).value + rest) == Got(x, rest)
      {
        Prefix24RoundTrip(x, rest);
      }
    }
  }

  lemma Strings24RoundTrip(xs: seq<bytes>)
    ensures var b := EncodeAll(WriteString24, xs); b.Some? ==> DecodeAll(ReadPrefix24, b.value) == Some(xs)
  {
    hide ReadPrefix24;
    forall i | 0 <= i < |xs|
      ensures ReadsBack(WriteString24, ReadPrefix24, xs[i])
    {
      String24ReadsBack(xs[i]);
    }
    ListRoundTrip(WriteString24, ReadPrefix24, xs);
  }

  lemma Strings16RoundTrip(xs: seq<bytes>)
    requires xs != [] && Prefix16(EncodeAll(WriteString16, xs)).Some?
    ensures ListIn16(ReadPrefix16, Prefix16(EncodeAll(WriteString16, xs)).value) == Some(xs)
  {
    hide ReadPrefix16, Prefix16;
    forall i | 0 <= i < |xs|
      ensures ReadsBack(WriteString16, ReadPrefix16, xs[i])
    {
      String16ReadsBack(xs[i]);
    }
    ListRoundTrip(WriteString16, ReadPrefix16, xs);
    PrefixSome16(EncodeAll(WriteString16, xs));
    Alone16(EncodeAll(WriteString16, xs).value);
    assert ReadsBack(WriteString16, ReadPrefix16, xs[0]);
  }

  function OcspRaws(staple: Option<bytes>): seq<Raw> {
    if staple.None? || Prefix24(staple).None? then []
    else [Raw(EXTENSION_STATUS_REQUEST, U8(STATUS_TYPE_OCSP) + Prefix24(staple).value)]
  }

  function SctRaws(scts: Option<seq<bytes>>): seq<Raw> {
    if scts.None? || Prefix16(EncodeAll(WriteString16, scts.value)).None? then []
    else [Raw(EXTENSION_SCT, Prefix16(EncodeAll(WriteString16, scts.value)).value)]
  }

  lemma ExtensionsAreLeafRaws(c: Certificate)
    requires LeafExtensions(c).Some?
    ensures LeafExtensions(c) == EncodeAll(WriteRaw, OcspRaws(c.ocspStaple) + SctRaws(c.scts))
    ensures DecodeAll(ReadRaw, LeafExtensions(c).value) == Some(OcspRaws(c.ocspStaple) + SctRaws(c.scts))
  {
    hide U8, U16, Prefix16, Prefix24, ReadRaw;
    var ocsp, scts := OcspRaws(c.ocspStaple), SctRaws(c.scts);
    PrefixOfNone();
    OneRaw(ocsp, OcspExtension(c.ocspStaple));
    OneRaw(scts, SctExtension(c.scts));
    if ocsp != [] {
      assert (ocsp + scts)[1..] == scts;
      assert (ocsp + scts)[0] == ocsp[0];
    } else {
      assert ocsp + scts == scts;
    }
    CatEmpty(SctExtension(c.scts));
    CatEmpty(OcspExtension(c.ocspStaple));
    forall i | 0 <= i < |ocsp + scts|
      ensures ReadsBack(WriteRaw, ReadRaw, (ocsp + scts)[i])
    {
      RawReadsBack((ocsp + scts)[i]);
    }
    ListRoundTrip(WriteRaw, ReadRaw, ocsp + scts);
  }

  lemma PrefixOfNone()
    ensures Prefix16(None) == None && Prefix24(None) == None
  {
  }

  lemma OneRaw(raws: seq<Raw>, b: builder)
    requires |raws| <= 1
    requires b == if raws == [] then Some([]) else WriteRaw(raws[0])
    ensures EncodeAll(WriteRaw, raws) == b
  {
    hide WriteRaw;
    CatEmpty(b);
  }

  lemma LeafRoundTrip(c: Certificate)
    requires GoodCertificate(c) && LeafExtensions(c).Some?
    ensures ApplyLeafAll(Certificate(c.chain, None, None), OcspRaws(c.ocspStaple) + SctRaws(c.scts)) == Some(c)
  {
    hide U8, U16, Prefix16, Prefix24, ApplyLeaf, SctRaws;
    var bare := Certificate(c.chain, None, None);
    var ocsp, scts := OcspRaws(c.ocspStaple), SctRaws(c.scts);
    PrefixOfNone();
    var stapled := bare.(ocspStaple := c.ocspStaple);
    SctsReadBack(stapled, c.scts);
    assert stapled.(scts := c.scts) == c;
    if c.ocspStaple.Some? {
      OcspReadsBack(bare, c.ocspStaple.value);
      assert (ocsp + scts)[1..] == scts && (ocsp + scts)[0] == ocsp[0];
    } else {
      assert ocsp + scts == scts;
    }
  }

  lemma SctsReadBack(c: Certificate, scts: Option<seq<bytes>>)
    requires c.scts.None? && SctExtension(scts).Some?
    requires scts.Some? ==> scts.value != [] && AllNonempty(scts.value)
    ensures ApplyLeafAll(c, SctRaws(scts)) == Some(c.(scts := scts))
  {
    hide U16, Prefix16, ReadPrefix16, AllNonempty, WriteString16;
    if scts.Some? {
      PrefixOfNone();
      Strings16RoundTrip(scts.value);
      assert [] + scts.value == scts.value;
      assert SctRaws(scts)[1..] == [];
    }
  }

  lemma OcspReadsBack(bare: Certificate, staple: bytes)
    requires staple != [] && Prefix24(Some(staple)).Some?
    ensures ApplyLeaf(bare, Raw(EXTENSION_STATUS_REQUEST, U8(STATUS_TYPE_OCSP) + Prefix24(Some(staple)).value))
         == Some(bare.(ocspStaple := Some(staple)))
  {
    hide U8, ReadU8, Prefix24, ReadPrefix24;
    U8RoundTrip(STATUS_TYPE_OCSP, Prefix24(Some(staple)).value);
    Prefix24RoundTrip(staple, []);
    assert Prefix24(Some(staple)).value + [] == Prefix24(Some(staple)).value;
  }

  lemma EntriesRoundTrip(c: Certificate)
    requires GoodCertificate(c) && Entries(c).Some?
    ensures CertificateOf(Entries(c).value) == Some(c)
  {
    hide LeafExtensions, ApplyLeafAll, ReadRaw, OcspRaws, SctRaws;
    var entries := Entries(c).value;
    assert Certs(entries) == c.chain;
    if c.chain != [] {
      ExtensionsAreLeafRaws(c);
      LeafRoundTrip(c);
    }
  }

  lemma {:induction false} CertificateRoundTrip(c: Certificate, rest: bytes)
    requires GoodCertificate(c) && MarshalCertificate(c).Some?
    ensures ReadCertificate(MarshalCertificate(c).value + rest) == Got(c, rest)
  {
    hide Prefix24, ReadPrefix24, Entries, WriteEntry, ReadEntry, CertificateOf;
    var entries := Entries(c).value;
    var list := EncodeAll(WriteEntry, entries);
    PrefixSome24(list);
    forall i | 0 <= i < |entries|
      ensures ReadsBack(WriteEntry, ReadEntry, entries[i])
    {
      EntryReadsBack(entries[i]);
    }
    ListRoundTrip(WriteEntry, ReadEntry, entries);
    Prefix24RoundTrip(list.value, rest);
    EntriesRoundTrip(c);
  }

  // ----- Chains -----

  /** A verified chain on the wire, once its leaf is gone. */
  function WriteOthers(others: seq<bytes>): builder { Prefix24(EncodeAll(WriteString24, others)) }

  function Others(chains: seq<seq<bytes>>): (os: seq<seq<bytes>>)
    requires forall i :: 0 <= i < |chains| ==> chains[i] != []
    ensures |os| == |chains| && forall i :: 0 <= i < |os| ==> os[i] == chains[i][1..]
  {
    seq(|chains|, i requires 0 <= i < |chains| => chains[i][1..])
  }

  lemma OthersReadBack(others: seq<bytes>)
    ensures ReadsBack(WriteOthers, ReadChain, others)
  {
    hide Prefix24, ReadPrefix24, WriteString24;
    var list := EncodeAll(WriteString24, others);
    if WriteOthers(others).Some? {
      PrefixSome24(list);
      PrefixNonempty24(list.value);
      Strings24RoundTrip(others);
      forall rest: bytes
        ensures ReadChain(WriteOthers(others).value + rest) == Got(others, rest)
      {
        Prefix24RoundTrip(list.value, rest);
      }
    }
  }

  lemma {:induction false} ChainsWithoutLeaf(chains: seq<seq<bytes>>)
    requires EncodeAll(WriteChain, chains).Some?
    ensures forall i :: 0 <= i < |chains| ==> chains[i] != []
    ensures EncodeAll(WriteChain, chains) == EncodeAll(WriteOthers, Others(chains))
    decreases |chains|
  {
    hide Prefix24, WriteString24;
    if chains != [] {
      ChainsWithoutLeaf(chains[1..]);
      assert chains == [chains[0]] + chains[1..];
      assert Others(chains)[1..] == Others(chains[1..]);
    }
  }

  lemma ChainsRoundTrip(chains: seq<seq<bytes>>)
    requires EncodeAll(WriteChain, chains).Some?
    ensures forall i :: 0 <= i < |chains| ==> chains[i] != []
    ensures DecodeAll(ReadChain, EncodeAll(WriteChain, chains).value) == Some(Others(chains))
  {
    hide WriteChain, WriteOthers, ReadChain;
    ChainsWithoutLeaf(chains);
    forall i | 0 <= i < |Others(chains)|
      ensures ReadsBack(WriteOthers, ReadChain, Others(chains)[i])
    {
      OthersReadBack(Others(chains)[i]);
    }
    ListRoundTrip(WriteOthers, ReadChain, Others(chains));
  }

  /** The leaf is put back where it was exactly in the chains that begin with it. */
  lemma LeafPutBack(certOk: bytes -> bool, chain: seq<bytes>, verified: seq<seq<bytes>>)
    requires verified != [] && chain != []
    requires forall i :: 0 <= i < |verified| ==> verified[i] != []
    ensures ChainsParse(certOk, Others(verified)) && WithLeaf(chain[0], Others(verified)) == verified
        <==> GoodChains(certOk, chain, verified)
  {
    hide AllParse;
    var put := WithLeaf(chain[0], Others(verified));
    forall i | 0 <= i < |verified|
      ensures put[i] == verified[i] <==> verified[i][0] == chain[0]
    {
      assert verified[i] == [verified[i][0]] + verified[i][1..];
    }
    if ChainsParse(certOk, Others(verified)) && put == verified {
      forall i | 0 <= i < |verified|
        ensures verified[i][0] == chain[0] && AllParse(certOk, verified[i][1..])
      {
        assert put[i] == verified[i] && AllParse(certOk, Others(verified)[i]);
      }
    }
  }

  // ----- The whole -----

  lemma FrontRoundTrip(s: Session, rest: bytes)
    requires Typed(s)
    ensures ReadFixed(Front(s) + rest) == Got(Fixed(s.version, if s.isClient then 2 else 1, s.cipherSuite, s.createdAt), rest)
  {
    hide U16, ReadU16, U64, ReadU64;
    var v, t, c, a := U16(s.version), [if s.isClient then 2 else 1], U16(s.cipherSuite), U64(s.createdAt);
    assert Front(s) + rest == v + (t + (c + (a + rest)));
    U16RoundTrip(s.version, t + (c + (a + rest)));
    assert (t + (c + (a + rest)))[1..] == c + (a + rest);
    U16RoundTrip(s.cipherSuite, a + rest);
    U64RoundTrip(s.createdAt, rest);
  }

  /** What the end of the encoding says of a session. */
  lemma TailRoundTrip(s: Session, rest: bytes)
    requires Typed(s) && Tail(s).Some?
    ensures var alpn := ReadAlpn(Tail(s).value + rest, s.earlyData);
            && alpn.Got? && alpn.value == (if s.earlyData then s.alpnProtocol else [])
            && ReadLast(alpn.rest, s.version, s.isClient)
            == Got(if s.version < VERSION_TLS13 then Last(0, 0, s.curveID)
                   else if s.isClient then Last(s.useBy, s.ageAdd, 0)
                   else Last(0, 0, 0), rest)
  {
    hide U16, ReadU16, U64, ReadU64, U32, ReadU32, Prefix8, ReadPrefix8;
    var alpn := if s.earlyData then Prefix8(Some(s.alpnProtocol)).value else [];
    var last := if s.version < VERSION_TLS13 then U16(s.curveID)
                else if s.isClient then U64(s.useBy) + U32(s.ageAdd)
                else [];
    assert Tail(s).value + rest == alpn + (last + rest);
    if s.earlyData {
      Prefix8RoundTrip(s.alpnProtocol, last + rest);
    } else {
      assert alpn + (last + rest) == last + rest;
    }
    if s.version < VERSION_TLS13 {
      U16RoundTrip(s.curveID, rest);
    } else if s.isClient {
      assert last + rest == U64(s.useBy) + (U32(s.ageAdd) + rest);
      U64RoundTrip(s.useBy, U32(s.ageAdd) + rest);
      U32RoundTrip(s.ageAdd, rest);
    } else {
      assert last + rest == rest;
    }
  }

  /** From the chains on, the encoding is that of the chains and the tail. */
  lemma ChainsParsed(certOk: bytes -> bool, s: Session, rest: bytes, early: byte, ems: byte)
    requires Typed(s) && Tail(s).Some? && Prefix24(EncodeAll(WriteChain, s.verifiedChains)).Some?
    requires early == (if s.earlyData then 1 else 0) && ems == (if s.extMasterSecret then 1 else 0)
    ensures var chains := Prefix24(EncodeAll(WriteChain, s.verifiedChains)).value;
            var fixed := Fixed(s.version, if s.isClient then 2 else 1, s.cipherSuite, s.createdAt);
            ParseChains(certOk, chains + (Tail(s).value + rest), fixed, s.secret, s.extra, ems, early, s.certificate) == Some(s)
            <==>
            && GoodChains(certOk, s.certificate.chain, s.verifiedChains)
            && (!s.earlyData ==> s.alpnProtocol == [])
            && (s.version >= VERSION_TLS13 ==> s.curveID == 0)
            && (!(s.version >= VERSION_TLS13 && s.isClient) ==> s.useBy == 0 && s.ageAdd == 0)
  {
    hide Tail, Prefix24, ReadPrefix24, WriteChain, ReadChain, ReadAlpn, ReadLast, GoodChains, ChainsParse, WithLeaf;
    var list := EncodeAll(WriteChain, s.verifiedChains);
    PrefixSome24(list);
    Prefix24RoundTrip(list.value, Tail(s).value + rest);
    ChainsRoundTrip(s.verifiedChains);
    TailRoundTrip(s, rest);
    NoChains(certOk, s.certificate.chain, s.verifiedChains);
    if s.verifiedChains != [] && s.certificate.chain != [] {
      LeafPutBack(certOk, s.certificate.chain, s.verifiedChains);
    }
  }

  lemma NoChains(certOk: bytes -> bool, chain: seq<bytes>, verified: seq<seq<bytes>>)
    ensures verified == [] ==> GoodChains(certOk, chain, verified) && ChainsParse(certOk, [])
    ensures verified != [] && chain == [] ==> !GoodChains(certOk, chain, verified)
  {
    if verified != [] && chain == [] {
      assert verified[0] == verified[0];
    }
  }

  /** What the encoding says before the chains is read back. */
  lemma FrontParsed(certOk: bytes -> bool, s: Session, trailing: bytes)
    requires Typed(s) && Bytes(s).Some? && GoodCertificate(s.certificate)
    ensures Prefix24(EncodeAll(WriteChain, s.verifiedChains)).Some? && Tail(s).Some?
    ensures var chains := Prefix24(EncodeAll(WriteChain, s.verifiedChains)).value;
            var fixed := Fixed(s.version, if s.isClient then 2 else 1, s.cipherSuite, s.createdAt);
            Parse(certOk, Bytes(s).value + trailing)
            == if s.secret == [] || !AllParse(certOk, s.certificate.chain) || (s.isClient && s.certificate.chain == []) then None
               else ParseChains(certOk, chains + (Tail(s).value + trailing), fixed, s.secret, s.extra,
                                if s.extMasterSecret then 1 else 0, if s.earlyData then 1 else 0, s.certificate)
  {
    hide Front, ReadFixed, Prefix8, ReadPrefix8, Prefix24, ReadPrefix24, MarshalCertificate, ReadCertificate, WriteChain,
         WriteString24, Tail, AllParse, ParseChains;
    var front, secret := Front(s), Prefix8(Some(s.secret)).value;
    var extraList := EncodeAll(WriteString24, s.extra);
    PrefixSome24(extraList);
    var extra, flags := Prefix24(extraList).value, Flag(s.extMasterSecret) + Flag(s.earlyData);
    var c, chains := MarshalCertificate(s.certificate).value, Prefix24(EncodeAll(WriteChain, s.verifiedChains)).value;
    var r5 := chains + (Tail(s).value + trailing);
    var r4 := c + r5;
    var r3 := flags + r4;
    var r2 := extra + r3;
    var r1 := secret + r2;
    SevenParts(front, secret, extra, flags, c, chains, Tail(s).value, trailing);
    FrontRoundTrip(s, r1);
    Prefix8RoundTrip(s.secret, r2);
    Prefix24RoundTrip(extraList.value, r3);
    assert r3[..2] == flags && r3[2..] == r4;
    CertificateRoundTrip(s.certificate, r5);
    Strings24RoundTrip(s.extra);
  }

  lemma SevenParts(a: bytes, b: bytes, c: bytes, d: bytes, e: bytes, f: bytes, g: bytes, t: bytes)
    ensures a + (b + (c + (d + (e + (f + g))))) + t == a + (b + (c + (d + (e + (f + (g + t))))))
  {
    assert (f + g) + t == f + (g + t);
    assert (e + (f + g)) + t == e + ((f + g) + t);
    assert (d + (e + (f + g))) + t == d + ((e + (f + g)) + t);
    assert (c + (d + (e + (f + g)))) + t == c + ((d + (e + (f + g))) + t);
    assert (b + (c + (d + (e + (f + g))))) + t == b + ((c + (d + (e + (f + g)))) + t);
    assert (a + (b + (c + (d + (e + (f + g)))))) + t == a + ((b + (c + (d + (e + (f + g))))) + t);
  }

  // ----- What is accepted -----

  lemma {:induction false} AppliedIsGood(c: Certificate, raws: seq<Raw>)
    requires c.chain != [] && GoodCertificate(c) && ApplyLeafAll(c, raws).Some?
    ensures ApplyLeafAll(c, raws).value.chain == c.chain && GoodCertificate(ApplyLeafAll(c, raws).value)
    decreases |raws|
  {
    hide ApplyLeaf, GoodCertificate;
    if raws != [] {
      ApplyKeepsGood(c, raws[0]);
      AppliedIsGood(ApplyLeaf(c, raws[0]).value, raws[1..]);
    }
  }

  lemma ApplyKeepsGood(c: Certificate, raw: Raw)
    requires c.chain != [] && GoodCertificate(c) && ApplyLeaf(c, raw).Some?
    ensures ApplyLeaf(c, raw).value.chain == c.chain && GoodCertificate(ApplyLeaf(c, raw).value)
  {
    hide ReadU8, ReadPrefix24, ReadPrefix16;
    if raw.extType == EXTENSION_SCT {
      ListIsNotEmpty(raw.data);
    }
  }

  lemma ListIsNotEmpty(data: bytes)
    requires ListIn16(ReadPrefix16, data).Some?
    ensures ListIn16(ReadPrefix16, data).value != []
  {
    hide ReadPrefix16;
  }

  lemma AcceptedCertificate(s: bytes)
    requires ReadCertificate(s).Got?
    ensures GoodCertificate(ReadCertificate(s).value)
  {
    hide ReadPrefix24, ReadEntry, ReadRaw, ApplyLeafAll;
    var entries := DecodeAll(ReadEntry, ReadPrefix24(s).value).value;
    if entries != [] {
      AppliedIsGood(Certificate(Certs(entries), None, None), DecodeAll(ReadRaw, entries[0].extensions).value);
    }
  }

  lemma AcceptedSession(certOk: bytes -> bool, data: bytes)
    requires Parse(certOk, data).Some?
    ensures GoodCertificate(Parse(certOk, data).value.certificate)
  {
    hide ReadFixed, ReadPrefix8, ReadPrefix24, ReadCertificate, GoodCertificate, AllParse, ParseChains;
    var s1 := ReadFixed(data).rest;
    var s2 := ReadPrefix8(s1).rest;
    var s3 := ReadPrefix24(s2).rest;
    var s4 := ReadBytes(s3, 2).rest;
    AcceptedCertificate(s4);
    var c := ReadCertificate(s4);
    ChainsKeepCertificate(certOk, c.rest, ReadFixed(data).value, ReadPrefix8(s1).value,
                          DecodeAll(ReadPrefix24, ReadPrefix24(s2).value).value,
                          ReadBytes(s3, 2).value[0], ReadBytes(s3, 2).value[1], c.value);
  }

  lemma ChainsKeepCertificate(certOk: bytes -> bool, s: bytes, fixed: Fixed, secret: bytes, extra: seq<bytes>, ems: byte,
                              early: byte, c: Certificate)
    ensures var r := ParseChains(certOk, s, fixed, secret, extra, ems, early, c); r.Some? ==> r.value.certificate == c
  {
    hide ReadPrefix24, ReadChain, ChainsParse, ReadAlpn, ReadLast, WithLeaf;
  }

  /** An encoded session is read back, whatever follows it, if and only if the session is well-formed. */
  lemma RoundTripIff(certOk: bytes -> bool, s: Session, trailing: bytes)
    requires Typed(s) && Bytes(s).Some?
    ensures Parse(certOk, Bytes(s).value + trailing) == Some(s) <==> WellFormed(certOk, s)
  {
    hide Typed, Bytes, Parse, ParseChains, GoodCertificate, GoodChains, AllParse, Tail, Prefix24;
    if Parse(certOk, Bytes(s).value + trailing) == Some(s) {
      AcceptedSession(certOk, Bytes(s).value + trailing);
    }
    if GoodCertificate(s.certificate) {
      FrontParsed(certOk, s, trailing);
      ChainsParsed(certOk, s, trailing, if s.earlyData then 1 else 0, if s.extMasterSecret then 1 else 0);
    }
  }

  // ---------- The loops ----------

  function IfAllParse(certOk: bytes -> bool, certs: Option<seq<bytes>>): Option<seq<bytes>> {
    if certs.Some? && AllParse(certOk, certs.value) then certs else None
  }

  /** The certificates of one chain, each of which is parsed as it is read. */
  method ReadCerts(certOk: bytes -> bool, list: bytes) returns (certs: Option<seq<bytes>>)
    ensures certs == IfAllParse(certOk, DecodeAll(ReadPrefix24, list))
  {
    hide ReadPrefix24;
    var found: seq<bytes>, rest := [], list;
    OntoEmpty(DecodeAll(ReadPrefix24, list));
    while rest != []
      invariant DecodeAll(ReadPrefix24, list) == Onto(found, DecodeAll(ReadPrefix24, rest))
      invariant AllParse(certOk, found)
      decreases |rest|
    {
      var r := ReadPrefix24(rest);
      if r.Short? {
        return None;
      }
      OntoAssoc(found, r.value, DecodeAll(ReadPrefix24, r.rest));
      found, rest := found + [r.value], r.rest;
      if !certOk(r.value) {
        NotAllParse(certOk, found, DecodeAll(ReadPrefix24, rest));
        return None;
      }
    }
    assert found + [] == found;
    return Some(found);
  }

  lemma NotAllParse(certOk: bytes -> bool, found: seq<bytes>, more: Option<seq<bytes>>)
    requires found != [] && !certOk(found[|found| - 1])
    ensures IfAllParse(certOk, Onto(found, more)) == None
  {
    if more.Some? {
      assert (found + more.value)[|found| - 1] == found[|found| - 1];
    }
  }

  method ReadVerifiedChains(certOk: bytes -> bool, chain: seq<bytes>, list: bytes) returns (verified: Option<seq<seq<bytes>>>)
    ensures verified == VerifiedChains(certOk, chain, list)
  {
    hide ReadPrefix24, AllParse;
    var found: seq<seq<bytes>>, rest := [], list;
    ghost var others: seq<seq<bytes>> := [];
    OntoEmpty(DecodeAll(ReadChain, list));
    while rest != []
      invariant DecodeAll(ReadChain, list) == Onto(others, DecodeAll(ReadChain, rest))
      invariant ChainsParse(certOk, others)
      invariant others != [] ==> chain != []
      invariant found == if others == [] then [] else WithLeaf(chain[0], others)
      decreases |rest|
    {
      var r := ReadPrefix24(rest);
      if r.Short? {
        return None;
      }
      var certs := ReadCerts(certOk, r.value);
      if ReadChain(rest).Got? {
        OntoAssoc(others, ReadChain(rest).value, DecodeAll(ReadChain, r.rest));
        others := others + [ReadChain(rest).value];
      }
      if certs.None? || chain == [] {
        if ReadChain(rest).Got? {
          NotChainsParse(certOk, chain, others, DecodeAll(ReadChain, r.rest));
        }
        return None;
      }
      found, rest := found + [[chain[0]] + certs.value], r.rest;
    }
    assert others + [] == others;
    return Some(found);
  }

  lemma NotChainsParse(certOk: bytes -> bool, chain: seq<bytes>, others: seq<seq<bytes>>, more: Option<seq<seq<bytes>>>)
    requires others != [] && (chain == [] || !AllParse(certOk, others[|others| - 1]))
    ensures var all := Onto(others, more);
            all.Some? ==> all.value != [] && (chain == [] || !ChainsParse(certOk, all.value))
  {
    hide AllParse;
    if more.Some? {
      assert (others + more.value)[|others| - 1] == others[|others| - 1];
    }
  }

  /** An extension of the leaf touches only the staples. */
  lemma ApplyLeafChain(c: Certificate, raw: Raw, chain: seq<bytes>)
    ensures var r, r' := ApplyLeaf(c, raw), ApplyLeaf(c.(chain := chain), raw);
            r'.Some? == r.Some? && (r.Some? ==> r'.value == r.value.(chain := chain))
  {
    hide ReadU8, ReadPrefix24, ReadPrefix16, ListIn16, AllNonempty;
  }

  lemma {:induction false} ApplyLeafAllChain(c: Certificate, raws: seq<Raw>, chain: seq<bytes>)
    ensures var r, r' := ApplyLeafAll(c, raws), ApplyLeafAll(c.(chain := chain), raws);
            r'.Some? == r.Some? && (r.Some? ==> r'.value == r.value.(chain := chain))
    decreases |raws|
  {
    hide ApplyLeaf;
    if raws != [] {
      ApplyLeafChain(c, raws[0], chain);
      if ApplyLeaf(c, raws[0]).Some? {
        ApplyLeafAllChain(ApplyLeaf(c, raws[0]).value, raws[1..], chain);
      }
    }
  }

  /** The leaf's extensions, one at a time. */
  method UnmarshalLeafExtensions(c: Certificate, extensions: bytes) returns (r: Option<Certificate>)
    ensures r == match DecodeAll(ReadRaw, extensions)
                 case None => None
                 case Some(raws) => ApplyLeafAll(c, raws)
  {
    hide ReadRaw, ApplyLeaf;
    var found, rest := c, extensions;
    ghost var all := DecodeAll(ReadRaw, extensions);
    while rest != []
      invariant DecodeAll(ReadRaw, rest).None? ==> all.None? || ApplyLeafAll(c, all.value).None?
      invariant DecodeAll(ReadRaw, rest).Some? ==>
          all.Some? && ApplyLeafAll(c, all.value) == ApplyLeafAll(found, DecodeAll(ReadRaw, rest).value)
      decreases |rest|
    {
      var raw := ReadRaw(rest);
      if raw.Short? || |raw.rest| >= |rest| {
        return None;
      }
      ghost var after := DecodeAll(ReadRaw, raw.rest);
      if after.Some? {
        assert ([raw.value] + after.value)[1..] == after.value;
      }
      match ApplyLeaf(found, raw.value) {
        case None => return None;
        case Some(c') => found := c';
      }
      rest := raw.rest;
    }
    return Some(found);
  }

  /** What one more entry makes of a certificate list. */
  lemma CertificateOfMore(entries: seq<Entry>, e: Entry)
    ensures entries == [] ==>
              CertificateOf([e]) == match DecodeAll(ReadRaw, e.extensions)
                                    case None => None
                                    case Some(raws) => ApplyLeafAll(Certificate([e.cert], None, None), raws)
    ensures entries != [] ==>
              var c, c' := CertificateOf(entries), CertificateOf(entries + [e]);
              if c.None? || DecodeAll(ReadRaw, e.extensions).None? then c' == None
              else c' == Some(c.value.(chain := c.value.chain + [e.cert])) && c.value.chain == Certs(entries)
  {
    hide ReadRaw, ApplyLeafAll, DecodeAll;
    if entries == [] {
      assert Certs([e]) == [e.cert];
    } else {
      var all := entries + [e];
      assert Certs(all) == Certs(entries) + [e.cert] && all[0] == entries[0];
      OthersParseMore(entries, e);
      if DecodeAll(ReadRaw, entries[0].extensions).Some? {
        var raws := DecodeAll(ReadRaw, entries[0].extensions).value;
        ApplyLeafAllChain(Certificate(Certs(entries), None, None), raws, Certs(all));
        ChainKept(Certificate(Certs(entries), None, None), raws);
      }
    }
  }

  lemma OthersParseMore(entries: seq<Entry>, e: Entry)
    requires entries != []
    ensures OthersParse(entries + [e]) <==> OthersParse(entries) && DecodeAll(ReadRaw, e.extensions).Some?
  {
    hide ReadRaw, DecodeAll;
    var all := entries + [e];
    assert all[|entries|] == e && forall i :: 0 <= i < |entries| ==> all[i] == entries[i];
  }

  lemma {:induction false} ChainKept(c: Certificate, raws: seq<Raw>)
    ensures ApplyLeafAll(c, raws).Some? ==> ApplyLeafAll(c, raws).value.chain == c.chain
    decreases |raws|
  {
    hide ReadU8, ReadPrefix24, ReadPrefix16, ListIn16, AllNonempty;
    if raws != [] && ApplyLeaf(c, raws[0]).Some? {
      ChainKept(ApplyLeaf(c, raws[0]).value, raws[1..]);
    }
  }

  /** Once a list of certificates is bad, no more entries make it good. */
  lemma {:induction false} BadStaysBad(entries: seq<Entry>, more: seq<Entry>)
    requires entries != [] && CertificateOf(entries).None?
    ensures CertificateOf(entries + more).None?
    decreases |more|
  {
    hide CertificateOf;
    if more == [] {
      assert entries + more == entries;
    } else {
      CertificateOfMore(entries, more[0]);
      assert entries + more == (entries + [more[0]]) + more[1..];
      BadStaysBad(entries + [more[0]], more[1..]);
    }
  }

  lemma BadList(list: bytes, rest: bytes, entries: seq<Entry>)
    requires DecodeAll(ReadEntry, list) == Onto(entries, DecodeAll(ReadEntry, rest))
    requires entries != [] && CertificateOf(entries).None?
    ensures DecodeAll(ReadEntry, list).Some? ==> CertificateOf(DecodeAll(ReadEntry, list).value).None?
  {
    hide CertificateOf, ReadEntry;
    if DecodeAll(ReadEntry, rest).Some? {
      BadStaysBad(entries, DecodeAll(ReadEntry, rest).value);
    }
  }

  lemma EntryTakes(s: bytes)
    ensures ReadEntry(s).Got? ==> |ReadEntry(s).rest| < |s|
  {
    hide ReadPrefix24, ReadPrefix16;
  }

  /** unmarshalCertificate as it runs: the certificates are collected while the leaf's extensions fill in the staples. */
  method UnmarshalCertificate(s: bytes) returns (r: Read<Certificate>)
    ensures r == ReadCertificate(s)
  {
    hide ReadPrefix24, ReadEntry, ReadRaw, ApplyLeafAll, CertificateOf;
    var list := ReadPrefix24(s);
    if list.Short? {
      return Short;
    }
    var c, rest := Certificate([], None, None), list.value;
    ghost var entries: seq<Entry> := [];
    OntoEmpty(DecodeAll(ReadEntry, list.value));
    NoEntries();
    while rest != []
      invariant DecodeAll(ReadEntry, list.value) == Onto(entries, DecodeAll(ReadEntry, rest))
      invariant CertificateOf(entries) == Some(c)
      invariant c.chain == [] <==> entries == []
      decreases |rest|
    {
      EntryTakes(rest);
      var e := ReadEntry(rest);
      if e.Short? {
        return Short;
      }
      OntoAssoc(entries, e.value, DecodeAll(ReadEntry, e.rest));
      CertificateOfMore(entries, e.value);
      FirstEntry(entries, e.value);
      entries, rest := entries + [e.value], e.rest;
      if c.chain == [] {
        var leaf := UnmarshalLeafExtensions(c.(chain := [e.value.cert]), e.value.extensions);
        if leaf.None? {
          BadList(list.value, rest, entries);
          return Short;
        }
        if DecodeAll(ReadRaw, e.value.extensions).Some? {
          ChainKept(Certificate([e.value.cert], None, None), DecodeAll(ReadRaw, e.value.extensions).value);
        }
        c := leaf.value;
      } else {
        var ignored := ReadAll(ReadRaw, e.value.extensions);
        if ignored.None? {
          BadList(list.value, rest, entries);
          return Short;
        }
        c := c.(chain := c.chain + [e.value.cert]);
      }
    }
    assert entries + [] == entries;
    return Got(c, list.rest);
  }

  lemma NoEntries()
    ensures CertificateOf([]) == Some(Certificate([], None, None))
  {
  }

  lemma FirstEntry(entries: seq<Entry>, e: Entry)
    ensures entries == [] ==> entries + [e] == [e]
  {
  }

  /** The numbers at the front, one after the other. */
  method ParseFixed(data: bytes) returns (r: Read<Fixed>)
    ensures r == ReadFixed(data)
  {
    hide ReadU8, ReadU16, ReadU64;
    var version := ReadU16(data);
    if version.Short? {
      return Short;
    }
    var typ := ReadU8(version.rest);
    if typ.Short? {
      return Short;
    }
    var cipherSuite := ReadU16(typ.rest);
    if cipherSuite.Short? {
      return Short;
    }
    var createdAt := ReadU64(cipherSuite.rest);
    if createdAt.Short? {
      return Short;
    }
    r := Got(Fixed(version.value, typ.value, cipherSuite.value, createdAt.value), createdAt.rest);
  }

  /** ParseSessionState as it runs. */
  method ParseSessionState(certOk: bytes -> bool, data: bytes) returns (ss: Option<Session>)
    ensures ss == Parse(certOk, data)
  {
    hide ReadFixed, ReadPrefix8, ReadPrefix24, ReadCertificate, ReadLast, ReadAlpn, DecodeAll, VerifiedChains;
    var fixed := ParseFixed(data);
    if fixed.Short? {
      return None;
    }
    var secret := ReadPrefix8(fixed.rest);
    if secret.Short? {
      return None;
    }
    var extraList := ReadPrefix24(secret.rest);
    if extraList.Short? {
      return None;
    }
    var flags := ReadBytes(extraList.rest, 2);
    if flags.Short? || secret.value == [] {
      return None;
    }
    var cert := UnmarshalCertificate(flags.rest);
    if cert.Short? {
      return None;
    }
    var extra := ReadAll(ReadPrefix24, extraList.value);
    if extra.None? || fixed.value.sessionType !in {1, 2} || flags.value[0] > 1 || flags.value[1] > 1 {
      return None;
    }
    var isClient, earlyData, chain := fixed.value.sessionType == 2, flags.value[1] == 1, cert.value.chain;
    for i := 0 to |chain|
      invariant forall j :: 0 <= j < i ==> certOk(chain[j])
    {
      if !certOk(chain[i]) {
        return None;
      }
    }
    if isClient && chain == [] {
      return None;
    }
    var chainList := ReadPrefix24(cert.rest);
    if chainList.Short? {
      return None;
    }
    var verified := ReadVerifiedChains(certOk, chain, chainList.value);
    if verified.None? {
      return None;
    }
    var alpn := ReadAlpn(chainList.rest, earlyData);
    if alpn.Short? {
      return None;
    }
    var last := ReadLast(alpn.rest, fixed.value.version, isClient);
    if last.Short? {
      return None;
    }
    ss := Some(Session(fixed.value.version, isClient, fixed.value.cipherSuite, fixed.value.createdAt, secret.value, extra.value,
                       flags.value[0] == 1, earlyData, cert.value, verified.value, alpn.value, last.value.useBy,
                       last.value.ageAdd, last.value.curveID));
  }

  /** The entries of a certificate list as they are written: the index decides whether staples come along. */
  method MarshalEntries(c: Certificate) returns (b: builder)
    ensures Prefix24(b) == MarshalCertificate(c)
  {
    hide Prefix16, Prefix24, LeafExtensions;
    b := Some([]);
    ghost var entries := Entries(c);
    if entries.Some? {
      CatEmpty(EncodeAll(WriteEntry, entries.value));
    }
    for i := 0 to |c.chain|
      invariant i == 0 ==> b == Some([])
      invariant entries.Some? ==> Cat(b, EncodeAll(WriteEntry, entries.value[i..])) == EncodeAll(WriteEntry, entries.value)
      invariant entries.None? && i > 0 ==> b.None?
    {
      var extensions := if i > 0 then Some([]) else LeafExtensions(c);
      var entry := Cat(Prefix24(Some(c.chain[i])), Prefix16(extensions));
      if entries.Some? {
        assert entries.value[i..][1..] == entries.value[i + 1..];
        assert entry == WriteEntry(entries.value[i]);
        CatAssoc(b, entry, EncodeAll(WriteEntry, entries.value[i + 1..]));
      } else {
        PrefixOfNone();
      }
      b := Cat(b, entry);
    }
    CatEmpty(b);
    PrefixOfNone();
  }

  /** SessionState.Bytes as it runs. */
  method MarshalSession(s: Session) returns (b: builder)
    ensures b == Bytes(s)
  {
    hide Front, U16, U32, U64, Prefix8, Prefix24, MarshalCertificate;
    var extra := WriteAll(WriteString24, s.extra);
    var certificate := MarshalEntries(s.certificate);
    var chains := WriteAll(WriteChain, s.verifiedChains);
    b := Some(Front(s));
    b := Cat(b, Prefix8(Some(s.secret)));
    b := Cat(b, Prefix24(extra));
    b := Cat(b, Some(Flag(s.extMasterSecret) + Flag(s.earlyData)));
    b := Cat(b, Prefix24(certificate));
    b := Cat(b, Prefix24(chains));
    b := Cat(b, Tail(s));
    Nested(Some(Front(s)), Prefix8(Some(s.secret)), Prefix24(extra), Some(Flag(s.extMasterSecret) + Flag(s.earlyData)),
           Prefix24(certificate), Prefix24(chains), Tail(s));
  }

  lemma Nested(a: builder, b: builder, c: builder, d: builder, e: builder, f: builder, g: builder)
    ensures Cat(Cat(Cat(Cat(Cat(Cat(a, b), c), d), e), f), g) == Cat(a, Cat(b, Cat(c, Cat(d, Cat(e, Cat(f, g))))))
  {
    hide Cat;
    CatAssoc(Cat(Cat(Cat(Cat(a, b), c), d), e), f, g);
    CatAssoc(Cat(Cat(Cat(a, b), c), d), e, Cat(f, g));
    CatAssoc(Cat(Cat(a, b), c), d, Cat(e, Cat(f, g)));
    CatAssoc(Cat(a, b), c, Cat(d, Cat(e, Cat(f, g))));
    CatAssoc(a, b, Cat(c, Cat(d, Cat(e, Cat(f, g)))));
  }
}
