/** The ClientHello codec of handshake_messages.go, extension by extension. */
module ClientHellos {
  import opened Cryptobyte
  import opened Wrappers

  const TYPE_CLIENT_HELLO := 1
  const SCSV_RENEGOTIATION := 0x00ff
  const STATUS_TYPE_OCSP := 1
  const DOT: byte := 46

  // ---------- Messages ----------

  datatype KeyShare = KeyShare(group: nat, data: bytes)

  datatype PskIdentity = PskIdentity(identity: bytes, obfuscatedTicketAge: nat)

  datatype Name = Name(nameType: byte, name: bytes)

  /** An extension as it stands on the wire. */
  datatype Raw = Raw(extType: nat, data: bytes)

  datatype ClientHello = ClientHello(
    vers: nat, random: bytes, sessionId: bytes, cipherSuites: seq<nat>, compressionMethods: bytes,
    serverName: bytes,
    ocspStapling: bool,
    supportedCurves: seq<nat>,
    supportedPoints: bytes,
    ticketSupported: bool, sessionTicket: bytes,
    signatureAlgorithms: seq<nat>,
    signatureAlgorithmsCert: seq<nat>,
    secureRenegotiationSupported: bool, secureRenegotiation: bytes,
    extendedMasterSecret: bool,
    alpnProtocols: seq<bytes>,
    scts: bool,
    supportedVersions: seq<nat>,
    cookie: bytes,
    keyShares: seq<KeyShare>,
    earlyData: bool,
    pskModes: bytes,
    pskIdentities: seq<PskIdentity>, pskBinders: seq<bytes>,
    quicTransportParameters: Option<bytes>,
    encryptedClientHello: bytes)

  /** The extensions the codec knows, in the order in which they are written. */
  datatype Kind =
    | ServerName | SupportedPoints | SessionTicket | RenegotiationInfo | ExtendedMasterSecret
    | Sct | EarlyData | QuicTransportParameters | EncryptedClientHello
    | StatusRequest | SupportedCurves | SignatureAlgorithms | SignatureAlgorithmsCert | Alpn
    | SupportedVersions | Cookie | KeyShares | PskModes
    | PreSharedKey

  const KINDS := 19

  /** The n-th extension in the order of writing. */
  function KindAt(n: nat): Kind
    requires n < KINDS
  {
    if n == 0 then ServerName
    else if n == 1 then SupportedPoints
    else if n == 2 then SessionTicket
    else if n == 3 then RenegotiationInfo
    else if n == 4 then ExtendedMasterSecret
    else if n == 5 then Sct
    else if n == 6 then EarlyData
    else if n == 7 then QuicTransportParameters
    else if n == 8 then EncryptedClientHello
    else if n == 9 then StatusRequest
    else if n == 10 then SupportedCurves
    else if n == 11 then SignatureAlgorithms
    else if n == 12 then SignatureAlgorithmsCert
    else if n == 13 then Alpn
    else if n == 14 then SupportedVersions
    else if n == 15 then Cookie
    else if n == 16 then KeyShares
    else if n == 17 then PskModes
    else PreSharedKey
  }

  function Index(k: Kind): nat {
    match k
    case ServerName => 0
    case SupportedPoints => 1
    case SessionTicket => 2
    case RenegotiationInfo => 3
    case ExtendedMasterSecret => 4
    case Sct => 5
    case EarlyData => 6
    case QuicTransportParameters => 7
    case EncryptedClientHello => 8
    case StatusRequest => 9
    case SupportedCurves => 10
    case SignatureAlgorithms => 11
    case SignatureAlgorithmsCert => 12
    case Alpn => 13
    case SupportedVersions => 14
    case Cookie => 15
    case KeyShares => 16
    case PskModes => 17
    case PreSharedKey => 18
  }

  lemma IndexOfKindAt(n: nat)
    requires n < KINDS
    ensures Index(KindAt(n)) == n
  {
  }

  /** The extensions from the lo-th on, up to the hi-th. */
  function Range(lo: nat, hi: nat): seq<Kind>
    requires hi <= KINDS
    decreases hi - lo
  {
    if lo >= hi then [] else [KindAt(lo)] + Range(lo + 1, hi)
  }

  const ORDER := Range(0, KINDS)

  function TypeOf(k: Kind): (t: nat)
    ensures t < 0x1_0000
  {
    match k
    case ServerName => 0
    case StatusRequest => 5
    case SupportedCurves => 10
    case SupportedPoints => 11
    case SignatureAlgorithms => 13
    case Alpn => 16
    case Sct => 18
    case ExtendedMasterSecret => 23
    case SessionTicket => 35
    case PreSharedKey => 41
    case EarlyData => 42
    case SupportedVersions => 43
    case Cookie => 44
    case PskModes => 45
    case SignatureAlgorithmsCert => 50
    case KeyShares => 51
    case QuicTransportParameters => 57
    case RenegotiationInfo => 0xff01
    case EncryptedClientHello => 0xfe0d
  }

  function KindOf(extType: nat): (k: Option<Kind>)
    ensures k.Some? ==> TypeOf(k.value) == extType
  {
    if extType == 0 then Some(ServerName)
    else if extType == 5 then Some(StatusRequest)
    else if extType == 10 then Some(SupportedCurves)
    else if extType == 11 then Some(SupportedPoints)
    else if extType == 13 then Some(SignatureAlgorithms)
    else if extType == 16 then Some(Alpn)
    else if extType == 18 then Some(Sct)
    else if extType == 23 then Some(ExtendedMasterSecret)
    else if extType == 35 then Some(SessionTicket)
    else if extType == 41 then Some(PreSharedKey)
    else if extType == 42 then Some(EarlyData)
    else if extType == 43 then Some(SupportedVersions)
    else if extType == 44 then Some(Cookie)
    else if extType == 45 then Some(PskModes)
    else if extType == 50 then Some(SignatureAlgorithmsCert)
    else if extType == 51 then Some(KeyShares)
    else if extType == 57 then Some(QuicTransportParameters)
    else if extType == 0xff01 then Some(RenegotiationInfo)
    else if extType == 0xfe0d then Some(EncryptedClientHello)
    else None
  }

  lemma KindOfTypeOf(k: Kind)
    ensures KindOf(TypeOf(k)) == Some(k)
  {
  }

  // ---------- Elements of lists ----------

  function WriteU16(n: nat): builder { Some(U16(n)) }

  function WriteString8(x: bytes): builder { Prefix8(Some(x)) }

  function WriteName(n: Name): builder { Cat(Some([n.nameType]), Prefix16(Some(n.name))) }

  function WriteKeyShare(k: KeyShare): builder { Cat(Some(U16(k.group)), Prefix16(Some(k.data))) }

  function WriteIdentity(p: PskIdentity): builder { Cat(Prefix16(Some(p.identity)), Some(U32(p.obfuscatedTicketAge))) }

  function WriteRaw(r: Raw): builder { Cat(Some(U16(r.extType)), Prefix16(Some(r.data))) }

  function ReadName(s: bytes): Read<Name> {
    match ReadU8(s)
    case Short => Short
    case Got(t, rest) =>
      match ReadPrefix16(rest)
      case Short => Short
      case Got(name, rest') => Got(Name(t, name), rest')
  }

  function ReadKeyShare(s: bytes): Read<KeyShare> {
    match ReadU16(s)
    case Short => Short
    case Got(group, rest) =>
      match ReadPrefix16(rest)
      case Short => Short
      case Got(data, rest') => Got(KeyShare(group, data), rest')
  }

  function ReadIdentity(s: bytes): Read<PskIdentity> {
    match ReadPrefix16(s)
    case Short => Short
    case Got(identity, rest) =>
      match ReadU32(rest)
      case Short => Short
      case Got(age, rest') => Got(PskIdentity(identity, age), rest')
  }

  function ReadRaw(s: bytes): Read<Raw> {
    match ReadU16(s)
    case Short => Short
    case Got(extType, rest) =>
      match ReadPrefix16(rest)
      case Short => Short
      case Got(data, rest') => Got(Raw(extType, data), rest')
  }

  lemma U16ReadsBack(n: nat)
    requires n < 0x1_0000
    ensures ReadsBack(WriteU16, ReadU16, n)
  {
    forall rest: bytes
      ensures ReadU16(U16(n) + rest) == Got(n, rest)
    {
      U16RoundTrip(n, rest);
    }
  }

  lemma String8ReadsBack(x: bytes)
    ensures ReadsBack(WriteString8, ReadPrefix8, x)
  {
    hide ReadPrefix8;
    if WriteString8(x).Some? {
      forall rest: bytes
        ensures ReadPrefix8(WriteString8(x).value + rest) == Got(x, rest)
      {
        Prefix8RoundTrip(x, rest);
      }
    }
  }

  lemma NameReadsBack(n: Name)
    ensures ReadsBack(WriteName, ReadName, n)
  {
    hide ReadPrefix16, Prefix16;
    if WriteName(n).Some? {
      var name := Prefix16(Some(n.name)).value;
      forall rest: bytes
        ensures ReadName(WriteName(n).value + rest) == Got(n, rest)
      {
        assert [n.nameType] + name + rest == [n.nameType] + (name + rest);
        assert ([n.nameType] + (name + rest))[1..] == name + rest;
        Prefix16RoundTrip(n.name, rest);
      }
    }
  }

  lemma KeyShareReadsBack(k: KeyShare)
    requires k.group < 0x1_0000
    ensures ReadsBack(WriteKeyShare, ReadKeyShare, k)
  {
    hide ReadPrefix16, Prefix16, U16, ReadU16;
    if WriteKeyShare(k).Some? {
      var data := Prefix16(Some(k.data)).value;
      forall rest: bytes
        ensures ReadKeyShare(WriteKeyShare(k).value + rest) == Got(k, rest)
      {
        assert U16(k.group) + data + rest == U16(k.group) + (data + rest);
        U16RoundTrip(k.group, data + rest);
        Prefix16RoundTrip(k.data, rest);
      }
    }
  }

  lemma RawReadsBack(r: Raw)
    requires r.extType < 0x1_0000
    ensures ReadsBack(WriteRaw, ReadRaw, r)
  {
    hide ReadPrefix16, Prefix16, U16, ReadU16;
    if WriteRaw(r).Some? {
      var data := Prefix16(Some(r.data)).value;
      forall rest: bytes
        ensures ReadRaw(WriteRaw(r).value + rest) == Got(r, rest)
      {
        assert U16(r.extType) + data + rest == U16(r.extType) + (data + rest);
        U16RoundTrip(r.extType, data + rest);
        Prefix16RoundTrip(r.data, rest);
      }
    }
  }

  lemma IdentityReadsBack(p: PskIdentity)
    requires p.obfuscatedTicketAge < 0x1_0000_0000
    ensures ReadsBack(WriteIdentity, ReadIdentity, p)
  {
    hide ReadPrefix16, Prefix16, U32, ReadU32;
    if WriteIdentity(p).Some? {
      var identity, age := Prefix16(Some(p.identity)).value, U32(p.obfuscatedTicketAge);
      forall rest: bytes
        ensures ReadIdentity(WriteIdentity(p).value + rest) == Got(p, rest)
      {
        assert identity + age + rest == identity + (age + rest);
        Prefix16RoundTrip(p.identity, age + rest);
        U32RoundTrip(p.obfuscatedTicketAge, rest);
      }
    }
  }

  // ---------- marshal ----------

  function U16s(xs: seq<nat>): builder { EncodeAll(WriteU16, xs) }

  predicate Present(m: ClientHello, k: Kind) {
    match k
    case ServerName => m.serverName != []
    case SupportedPoints => m.supportedPoints != []
    case SessionTicket => m.ticketSupported
    case RenegotiationInfo => m.secureRenegotiationSupported
    case ExtendedMasterSecret => m.extendedMasterSecret
    case Sct => m.scts
    case EarlyData => m.earlyData
    case QuicTransportParameters => m.quicTransportParameters.Some?
    case EncryptedClientHello => m.encryptedClientHello != []
    case StatusRequest => m.ocspStapling
    case SupportedCurves => m.supportedCurves != []
    case SignatureAlgorithms => m.signatureAlgorithms != []
    case SignatureAlgorithmsCert => m.signatureAlgorithmsCert != []
    case Alpn => m.alpnProtocols != []
    case SupportedVersions => m.supportedVersions != []
    case Cookie => m.cookie != []
    case KeyShares => m.keyShares != []
    case PskModes => m.pskModes != []
    case PreSharedKey => m.pskIdentities != []
  }

  function Binders(binders: seq<bytes>): builder { Prefix16(EncodeAll(WriteString8, binders)) }

  /** The extension_data of an extension that is present. */
  function Body(m: ClientHello, k: Kind): builder {
    match k
    case ServerName => Prefix16(WriteName(Name(0, m.serverName)))
    case SupportedPoints => Prefix8(Some(m.supportedPoints))
    case SessionTicket => Some(m.sessionTicket)
    case RenegotiationInfo => Prefix8(Some(m.secureRenegotiation))
    case ExtendedMasterSecret => Some([])
    case Sct => Some([])
    case EarlyData => Some([])
    case QuicTransportParameters => m.quicTransportParameters
    case EncryptedClientHello => Some(m.encryptedClientHello)
    case StatusRequest => Some([1, 0, 0, 0, 0])
    case SupportedCurves => Prefix16(U16s(m.supportedCurves))
    case SignatureAlgorithms => Prefix16(U16s(m.signatureAlgorithms))
    case SignatureAlgorithmsCert => Prefix16(U16s(m.signatureAlgorithmsCert))
    case Alpn => Prefix16(EncodeAll(WriteString8, m.alpnProtocols))
    case SupportedVersions => Prefix8(U16s(m.supportedVersions))
    case Cookie => Prefix16(Some(m.cookie))
    case KeyShares => Prefix16(EncodeAll(WriteKeyShare, m.keyShares))
    case PskModes => Prefix8(Some(m.pskModes))
    case PreSharedKey => Cat(Prefix16(EncodeAll(WriteIdentity, m.pskIdentities)), Binders(m.pskBinders))
  }

  function Extension(m: ClientHello, k: Kind): builder {
    if Present(m, k) then Cat(Some(U16(TypeOf(k))), Prefix16(Body(m, k))) else Some([])
  }

  function Extensions(m: ClientHello, kinds: seq<Kind>): builder {
    if kinds == [] then Some([]) else Cat(Extension(m, kinds[0]), Extensions(m, kinds[1..]))
  }

  /** addBytesWithLength. */
  function Exactly(x: bytes, n: nat): builder { if |x| == n then Some(x) else None }

  /** The part of the body before the extensions. */
  function Head(m: ClientHello, sessionId: bytes): builder {
    Cat(Cat(Cat(Cat(Some(U16(m.vers)), Exactly(m.random, 32)), Prefix8(Some(sessionId))), Prefix16(U16s(m.cipherSuites))),
        Prefix8(Some(m.compressionMethods)))
  }

  /** The whole message around given extensions; without any, not even their length is written. */
  function Message(m: ClientHello, sessionId: bytes, extensions: builder): builder {
    if extensions.None? then None
    else
      Cat(Some(U8(TYPE_CLIENT_HELLO)),
          Prefix24(Cat(Head(m, sessionId), if extensions.value == [] then Some([]) else Prefix16(extensions))))
  }

  function Marshal(m: ClientHello): builder {
    Message(m, m.sessionId, Extensions(m, ORDER))
  }

  // ---------- unmarshal ----------

  predicate AllNonempty(xs: seq<bytes>) {
    forall i :: 0 <= i < |xs| ==> xs[i] != []
  }

  /** The one host name of a server_name list, given what was found before. */
  function HostName(found: bytes, names: seq<Name>): Option<bytes>
    decreases |names|
  {
    if names == [] then Some(found)
    else if names[0].name == [] then None
    else if names[0].nameType != 0 then HostName(found, names[1..])
    else if found != [] || names[0].name[|names[0].name| - 1] == DOT then None
    else HostName(names[0].name, names[1..])
  }

  /** A non-empty list behind a 16-bit length, and nothing after it. */
  function ListIn16<T>(read: bytes -> Read<T>, data: bytes): Option<seq<T>> {
    match ReadPrefix16(data)
    case Short => None
    case Got(list, rest) => if list == [] || rest != [] then None else DecodeAll(read, list)
  }

  function ListIn8<T>(read: bytes -> Read<T>, data: bytes): Option<seq<T>> {
    match ReadPrefix8(data)
    case Short => None
    case Got(list, rest) => if list == [] || rest != [] then None else DecodeAll(read, list)
  }

  /** A string behind an 8-bit length, and nothing after it. */
  function StringIn8(data: bytes): Option<bytes> {
    match ReadPrefix8(data)
    case Short => None
    case Got(x, rest) => if rest != [] then None else Some(x)
  }

  function ParseServerName(m: ClientHello, data: bytes): Option<ClientHello> {
    match ListIn16(ReadName, data)
    case None => None
    case Some(names) =>
      match HostName(m.serverName, names)
      case None => None
      case Some(name) => Some(m.(serverName := name))
  }

  function ParseStatusRequest(m: ClientHello, data: bytes): Option<ClientHello> {
    match ReadU8(data)
    case Short => None
    case Got(statusType, rest) =>
      match ReadPrefix16(rest)
      case Short => None
      case Got(_, rest') =>
        match ReadPrefix16(rest')
        case Short => None
        case Got(_, end) => if end != [] then None else Some(m.(ocspStapling := statusType == STATUS_TYPE_OCSP))
  }

  function ParseKeyShares(m: ClientHello, data: bytes): Option<ClientHello> {
    match ReadPrefix16(data)
    case Short => None
    case Got(list, rest) =>
      match DecodeAll(ReadKeyShare, list)
      case None => None
      case Some(shares) =>
        if rest != [] || exists i :: 0 <= i < |shares| && shares[i].data == [] then None
        else Some(m.(keyShares := m.keyShares + shares))
  }

  /** The identities and the binders of a pre_shared_key extension. */
  function ParsePsks(data: bytes): Option<(seq<PskIdentity>, seq<bytes>)> {
    match ReadPrefix16(data)
    case Short => None
    case Got(list, rest) =>
      match DecodeAll(ReadIdentity, list)
      case None => None
      case Some(identities) =>
        if list == [] || exists i :: 0 <= i < |identities| && identities[i].identity == [] then None
        else
          match ListIn16(ReadPrefix8, rest)
          case None => None
          case Some(binders) => if AllNonempty(binders) then Some((identities, binders)) else None
  }

  function ParsePreSharedKey(m: ClientHello, data: bytes): Option<ClientHello> {
    match ParsePsks(data)
    case None => None
    case Some(psks) =>
      Some(m.(pskIdentities := m.pskIdentities + psks.0, pskBinders := m.pskBinders + psks.1))
  }

  /** Takes the data of one extension of a known kind into the message; last says that no other follows it. */
  function Take(m: ClientHello, kind: Kind, data: bytes, last: bool): Option<ClientHello> {
    match kind
    case ServerName => ParseServerName(m, data)
    case StatusRequest => ParseStatusRequest(m, data)
    case SupportedCurves =>
      (match ListIn16(ReadU16, data) case None => None case Some(xs) => Some(m.(supportedCurves := m.supportedCurves + xs)))
    case SupportedPoints =>
      (match StringIn8(data) case None => None case Some(x) => if x == [] then None else Some(m.(supportedPoints := x)))
    case SessionTicket => Some(m.(ticketSupported := true, sessionTicket := data))
    case SignatureAlgorithms =>
      (match ListIn16(ReadU16, data)
       case None => None
       case Some(xs) => Some(m.(signatureAlgorithms := m.signatureAlgorithms + xs)))
    case SignatureAlgorithmsCert =>
      (match ListIn16(ReadU16, data)
       case None => None
       case Some(xs) => Some(m.(signatureAlgorithmsCert := m.signatureAlgorithmsCert + xs)))
    case RenegotiationInfo =>
      (match StringIn8(data)
       case None => None
       case Some(x) => Some(m.(secureRenegotiationSupported := true, secureRenegotiation := x)))
    case ExtendedMasterSecret => if data == [] then Some(m.(extendedMasterSecret := true)) else None
    case Alpn =>
      (match ListIn16(ReadPrefix8, data)
       case None => None
       case Some(xs) => if AllNonempty(xs) then Some(m.(alpnProtocols := m.alpnProtocols + xs)) else None)
    case Sct => if data == [] then Some(m.(scts := true)) else None
    case SupportedVersions =>
      (match ListIn8(ReadU16, data) case None => None case Some(xs) => Some(m.(supportedVersions := m.supportedVersions + xs)))
    case Cookie =>
      (match ReadPrefix16(data)
       case Short => None
       case Got(x, rest) => if x == [] || rest != [] then None else Some(m.(cookie := x)))
    case KeyShares => ParseKeyShares(m, data)
    case EarlyData => if data == [] then Some(m.(earlyData := true)) else None
    case PskModes => (match StringIn8(data) case None => None case Some(x) => Some(m.(pskModes := x)))
    case QuicTransportParameters => Some(m.(quicTransportParameters := Some(data)))
    case PreSharedKey => if last then ParsePreSharedKey(m, data) else None
    case EncryptedClientHello => Some(m.(encryptedClientHello := data))
  }

  /** Takes one extension into the message; those of other types are passed over. */
  function Apply(m: ClientHello, raw: Raw, last: bool): Option<ClientHello> {
    match KindOf(raw.extType)
    case None => Some(m)
    case Some(kind) => Take(m, kind, raw.data, last)
  }

  function ApplyAll(m: ClientHello, raws: seq<Raw>): Option<ClientHello>
    decreases |raws|
  {
    if raws == [] then Some(m)
    else
      match Apply(m, raws[0], |raws| == 1)
      case None => None
      case Some(m') => ApplyAll(m', raws[1..])
  }

  function Types(raws: seq<Raw>): (ts: seq<nat>)
    ensures |ts| == |raws| && forall i :: 0 <= i < |ts| ==> ts[i] == raws[i].extType
  {
    seq(|raws|, i requires 0 <= i < |raws| => raws[i].extType)
  }

  predicate Distinct(xs: seq<nat>) {
    forall i, j :: 0 <= i < j < |xs| ==> xs[i] != xs[j]
  }

  /** The cipher suites signal secure renegotiation. */
  predicate HasScsv(cipherSuites: seq<nat>) { SCSV_RENEGOTIATION in cipherSuites }

  /** A message without extensions. */
  function Bare(vers: nat, random: bytes, sessionId: bytes, cipherSuites: seq<nat>, compressionMethods: bytes): ClientHello {
    ClientHello(vers, random, sessionId, cipherSuites, compressionMethods,
                [], false, [], [], false, [], [], [], HasScsv(cipherSuites), [], false, [], false, [], [], [],
                false, [], [], [], None, [])
  }

  /** A bare message, and what follows its head. */
  function ReadHead(s: bytes): Read<ClientHello> {
    match ReadU16(s)
    case Short => Short
    case Got(vers, s1) =>
      match ReadBytes(s1, 32)
      case Short => Short
      case Got(random, s2) =>
        match ReadPrefix8(s2)
        case Short => Short
        case Got(sessionId, s3) =>
          match ReadPrefix16(s3)
          case Short => Short
          case Got(suites, s4) =>
            match DecodeAll(ReadU16, suites)
            case None => Short
            case Some(cipherSuites) =>
              match ReadPrefix8(s4)
              case Short => Short
              case Got(compressionMethods, s5) => Got(Bare(vers, random, sessionId, cipherSuites, compressionMethods), s5)
  }

  /** What unmarshal finds: the message, and the types of its extensions in order. */
  datatype Parsed = Parsed(hello: ClientHello, extensions: seq<nat>)

  function ParseExtensions(bare: ClientHello, s: bytes): Option<Parsed> {
    match DecodeAll(ReadRaw, s)
    case None => None
    case Some(raws) =>
      if !Distinct(Types(raws)) then None
      else
        match ApplyAll(bare, raws)
        case None => None
        case Some(m) => Some(Parsed(m, Types(raws)))
  }

  function Unmarshal(data: bytes): Option<Parsed> {
    if |data| < 4 then None
    else
      match ReadHead(data[4..])
      case Short => None
      case Got(bare, s) =>
        if s == [] then Some(Parsed(bare, []))
        else
          match ReadPrefix16(s)
          case Short => None
          case Got(extensions, rest) => if rest != [] then None else ParseExtensions(bare, extensions)
  }

  // ---------- unmarshal as it runs ----------

  /** What is left to do when some extensions have been taken and their types seen. */
  function Continue(m: ClientHello, seen: seq<nat>, rest: bytes): Option<Parsed> {
    match DecodeAll(ReadRaw, rest)
    case None => None
    case Some(raws) =>
      if !Distinct(seen + Types(raws)) then None
      else
        match ApplyAll(m, raws)
        case None => None
        case Some(m') => Some(Parsed(m', seen + Types(raws)))
  }

  lemma ContinueFromStart(m: ClientHello, s: bytes)
    ensures Continue(m, [], s) == ParseExtensions(m, s)
  {
    hide DecodeAll, ApplyAll, Distinct, Types, ReadRaw;
    if DecodeAll(ReadRaw, s).Some? {
      var types := Types(DecodeAll(ReadRaw, s).value);
      assert [] + types == types;
    }
  }

  lemma ContinueAtEnd(m: ClientHello, seen: seq<nat>)
    requires Distinct(seen)
    ensures Continue(m, seen, []) == Some(Parsed(m, seen))
  {
    assert Types([]) == [];
    assert seen + [] == seen;
  }

  lemma ContinueStep(m: ClientHello, seen: seq<nat>, rest: bytes)
    requires rest != [] && ReadRaw(rest).Got? && |ReadRaw(rest).rest| < |rest|
    ensures var raw, rest' := ReadRaw(rest).value, ReadRaw(rest).rest;
            var m' := Apply(m, raw, rest' == []);
            && (raw.extType in seen || m'.None? ==> Continue(m, seen, rest) == None)
            && (m'.Some? ==> Continue(m, seen, rest) == Continue(m'.value, seen + [raw.extType], rest'))
  {
    hide Apply, ReadRaw, Distinct, Types;
    var raw, rest' := ReadRaw(rest).value, ReadRaw(rest).rest;
    if DecodeAll(ReadRaw, rest').Some? {
      var raws := DecodeAll(ReadRaw, rest').value;
      assert ([raw] + raws)[1..] == raws && (|[raw] + raws| == 1 <==> rest' == []);
      SeenAlready(seen, raw, raws);
    }
  }

  lemma SeenAlready(seen: seq<nat>, raw: Raw, raws: seq<Raw>)
    ensures seen + Types([raw] + raws) == seen + [raw.extType] + Types(raws)
    ensures raw.extType in seen ==> !Distinct(seen + Types([raw] + raws))
  {
    var types := seen + Types([raw] + raws);
    assert Types([raw] + raws) == [raw.extType] + Types(raws);
    if raw.extType in seen {
      var i :| 0 <= i < |seen| && seen[i] == raw.extType;
      assert types[i] == types[|seen|];
    }
  }

  lemma RawTakes(s: bytes)
    ensures ReadRaw(s).Got? ==> |ReadRaw(s).rest| < |s|
  {
    hide ReadPrefix16;
  }

  lemma RawShort(s: bytes, m: ClientHello, seen: seq<nat>)
    requires s != [] && ReadRaw(s).Short?
    ensures Continue(m, seen, s) == None
  {
    hide ReadRaw, ApplyAll, Distinct;
  }

  /** The loop over the extensions, with the set of the types that have been seen. */
  method UnmarshalExtensions(bare: ClientHello, s: bytes) returns (p: Option<Parsed>)
    ensures p == ParseExtensions(bare, s)
  {
    hide Continue, ParseExtensions, Apply, ReadRaw;
    var m, extensions, rest := bare, [], s;
    var seenExts: set<nat> := {};
    ContinueFromStart(bare, s);
    while rest != []
      invariant Continue(m, extensions, rest) == ParseExtensions(bare, s)
      invariant Distinct(extensions) && forall t :: t in seenExts <==> t in extensions
      decreases |rest|
    {
      RawTakes(rest);
      var r := ReadRaw(rest);
      if r.Short? {
        RawShort(rest, m, extensions);
        return None;
      }
      ContinueStep(m, extensions, rest);
      if r.value.extType in seenExts {
        return None;
      }
      seenExts := seenExts + {r.value.extType};
      var taken := Apply(m, r.value, r.rest == []);
      if taken.None? {
        return None;
      }
      m, extensions, rest := taken.value, extensions + [r.value.extType], r.rest;
    }
    ContinueAtEnd(m, extensions);
    p := Some(Parsed(m, extensions));
  }

  /** unmarshal, field by field. */
  method UnmarshalMessage(data: bytes) returns (p: Option<Parsed>)
    ensures p == Unmarshal(data)
  {
    hide ReadPrefix8, ReadPrefix16, ReadU16, DecodeAll, ParseExtensions, Bare;
    if |data| < 4 {
      return None;
    }
    var vers := ReadU16(data[4..]);
    if vers.Short? {
      return None;
    }
    var random := ReadBytes(vers.rest, 32);
    if random.Short? {
      return None;
    }
    var sessionId := ReadPrefix8(random.rest);
    if sessionId.Short? {
      return None;
    }
    var suites := ReadPrefix16(sessionId.rest);
    if suites.Short? {
      return None;
    }
    var cipherSuites := ReadAll(ReadU16, suites.value);
    if cipherSuites.None? {
      return None;
    }
    var compressionMethods := ReadPrefix8(suites.rest);
    if compressionMethods.Short? {
      return None;
    }
    var bare := Bare(vers.value, random.value, sessionId.value, cipherSuites.value, compressionMethods.value);
    var s := compressionMethods.rest;
    if s == [] {
      return Some(Parsed(bare, []));
    }
    var extensions := ReadPrefix16(s);
    if extensions.Short? || extensions.rest != [] {
      return None;
    }
    p := UnmarshalExtensions(bare, extensions.value);
  }

  // ---------- marshal as it runs ----------

  /** The body of one extension, with the loops over its lists. */
  method MarshalBody(m: ClientHello, k: Kind) returns (b: builder)
    ensures b == Body(m, k)
  {
    hide EncodeAll;
    match k {
      case SupportedCurves =>
        b := WriteAll(WriteU16, m.supportedCurves);
        b := Prefix16(b);
      case SignatureAlgorithms =>
        b := WriteAll(WriteU16, m.signatureAlgorithms);
        b := Prefix16(b);
      case SignatureAlgorithmsCert =>
        b := WriteAll(WriteU16, m.signatureAlgorithmsCert);
        b := Prefix16(b);
      case Alpn =>
        b := WriteAll(WriteString8, m.alpnProtocols);
        b := Prefix16(b);
      case SupportedVersions =>
        b := WriteAll(WriteU16, m.supportedVersions);
        b := Prefix8(b);
      case KeyShares =>
        b := WriteAll(WriteKeyShare, m.keyShares);
        b := Prefix16(b);
      case PreSharedKey =>
        var identities := WriteAll(WriteIdentity, m.pskIdentities);
        var binders := WriteAll(WriteString8, m.pskBinders);
        b := Cat(Prefix16(identities), Prefix16(binders));
      case _ => b := Body(m, k);
    }
  }

  /** marshalMsg: each extension that the message has is appended in turn. */
  method MarshalMessage(m: ClientHello) returns (b: builder)
    ensures b == Marshal(m)
  {
    hide Present, Body, TypeOf, KindAt, Message;
    var exts: builder := Some([]);
    CatEmpty(Extensions(m, ORDER));
    for n := 0 to KINDS
      invariant Cat(exts, Extensions(m, Range(n, KINDS))) == Extensions(m, ORDER)
    {
      var k := KindAt(n);
      NextInRange(n);
      CatAssoc(exts, Extension(m, k), Extensions(m, Range(n + 1, KINDS)));
      CatEmpty(exts);
      if Present(m, k) {
        var body := MarshalBody(m, k);
        exts := Cat(exts, Cat(Some(U16(TypeOf(k))), Prefix16(body)));
      }
    }
    CatEmpty(exts);
    b := Message(m, m.sessionId, exts);
  }

  lemma NextInRange(n: nat)
    requires n < KINDS
    ensures Range(n, KINDS) != [] && Range(n, KINDS)[0] == KindAt(n) && Range(n, KINDS)[1..] == Range(n + 1, KINDS)
  {
    hide KindAt;
  }
}
