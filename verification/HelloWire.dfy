/** The ClientHello on the wire (section 4.1.2 of RFC 8446), byte by byte: what is written, and exactly what is accepted. */
module HelloWire {
  import opened ClientHellos
  import opened Cryptobyte
  import opened HelloBinders
  import opened HelloRoundTrips
  import opened Vectors
  import opened Wrappers

  // ---------- Elements of lists ----------

  function Two(n: nat): bytes { Wide(n, 2) }

  function Short8(x: bytes): bytes { Vec(1, x) }

  function NameBytes(n: Name): bytes { [n.nameType] + Vec(2, n.name) }

  function ShareBytes(k: KeyShare): bytes { Wide(k.group, 2) + Vec(2, k.data) }

  function IdentityBytes(p: PskIdentity): bytes { Vec(2, p.identity) + Wide(p.obfuscatedTicketAge, 4) }

  function RawBytes(r: Raw): bytes { Wide(r.extType, 2) + Vec(2, r.data) }

  predicate Below16(n: nat) { n < 0x1_0000 }

  predicate Fits8(x: bytes) { |x| < 0x100 }

  predicate FitsName(n: Name) { |n.name| < 0x1_0000 }

  predicate FitsShare(k: KeyShare) { k.group < 0x1_0000 && |k.data| < 0x1_0000 }

  predicate FitsIdentity(p: PskIdentity) { |p.identity| < 0x1_0000 && p.obfuscatedTicketAge < 0x1_0000_0000 }

  predicate FitsRaw(r: Raw) { r.extType < 0x1_0000 && |r.data| < 0x1_0000 }

  lemma Numbers()
    ensures Agreed(WriteU16, ReadU16, Two, Below16)
  {
    hide U16, ReadU16, Wide;
    forall n | Below16(n)
      ensures WriteU16(n) == Some(Two(n)) && ReadsBack(WriteU16, ReadU16, n)
    {
      WideTwo(n);
      U16ReadsBack(n);
    }
    forall s: bytes
      ensures WritesBack(WriteU16, ReadU16, s)
    {
      if ReadU16(s).Got? {
        ReadU16Inverse(s);
      }
    }
  }

  lemma Strings()
    ensures Agreed(WriteString8, ReadPrefix8, Short8, Fits8)
  {
    hide U8, ReadPrefix8, Wide;
    forall x | Fits8(x)
      ensures WriteString8(x) == Some(Short8(x)) && ReadsBack(WriteString8, ReadPrefix8, x)
    {
      WideOne(|x|);
      String8ReadsBack(x);
    }
    forall s: bytes
      ensures WritesBack(WriteString8, ReadPrefix8, s)
      ensures ReadPrefix8(s).Got? ==> Fits8(ReadPrefix8(s).value)
    {
      String8WritesBack(s);
      if ReadPrefix8(s).Got? {
        In8(s, ReadPrefix8(s).value, ReadPrefix8(s).rest);
      }
    }
  }

  lemma Names()
    ensures Agreed(WriteName, ReadName, NameBytes, FitsName)
  {
    hide U16, ReadPrefix16, Wide;
    forall n | FitsName(n)
      ensures WriteName(n) == Some(NameBytes(n)) && ReadsBack(WriteName, ReadName, n)
    {
      WideTwo(|n.name|);
      NameReadsBack(n);
    }
    forall s: bytes
      ensures WritesBack(WriteName, ReadName, s)
      ensures ReadName(s).Got? ==> FitsName(ReadName(s).value)
    {
      if ReadName(s).Got? {
        var n, rest := ReadName(s).value, ReadName(s).rest;
        In16(s[1..], n.name, rest);
        WideTwo(|n.name|);
        assert s == [s[0]] + s[1..];
        assert [s[0]] + (Vec(2, n.name) + rest) == [s[0]] + Vec(2, n.name) + rest;
      }
    }
  }

  lemma Shares()
    ensures Agreed(WriteKeyShare, ReadKeyShare, ShareBytes, FitsShare)
  {
    hide U16, ReadPrefix16, ReadU16, Wide;
    forall k | FitsShare(k)
      ensures WriteKeyShare(k) == Some(ShareBytes(k)) && ReadsBack(WriteKeyShare, ReadKeyShare, k)
    {
      WideTwo(|k.data|);
      WideTwo(k.group);
      KeyShareReadsBack(k);
    }
    forall s: bytes
      ensures WritesBack(WriteKeyShare, ReadKeyShare, s)
      ensures ReadKeyShare(s).Got? ==> FitsShare(ReadKeyShare(s).value)
    {
      if ReadKeyShare(s).Got? {
        var k, rest := ReadKeyShare(s).value, ReadKeyShare(s).rest;
        Number16(s, k.group, ReadU16(s).rest);
        In16(ReadU16(s).rest, k.data, rest);
        WideTwo(|k.data|);
        WideTwo(k.group);
        assert Wide(k.group, 2) + (Vec(2, k.data) + rest) == Wide(k.group, 2) + Vec(2, k.data) + rest;
      }
    }
  }

  lemma Raws()
    ensures Agreed(WriteRaw, ReadRaw, RawBytes, FitsRaw)
  {
    hide U16, ReadPrefix16, ReadU16, Wide;
    forall r | FitsRaw(r)
      ensures WriteRaw(r) == Some(RawBytes(r)) && ReadsBack(WriteRaw, ReadRaw, r)
    {
      WideTwo(|r.data|);
      WideTwo(r.extType);
      RawReadsBack(r);
    }
    forall s: bytes
      ensures WritesBack(WriteRaw, ReadRaw, s)
      ensures ReadRaw(s).Got? ==> FitsRaw(ReadRaw(s).value)
    {
      RawWritesBack(s);
    }
  }

  lemma Identities()
    ensures Agreed(WriteIdentity, ReadIdentity, IdentityBytes, FitsIdentity)
  {
    hide U16, U32, ReadPrefix16, ReadU32, Wide;
    forall p | FitsIdentity(p)
      ensures WriteIdentity(p) == Some(IdentityBytes(p)) && ReadsBack(WriteIdentity, ReadIdentity, p)
    {
      WideTwo(|p.identity|);
      WideFour(p.obfuscatedTicketAge);
      IdentityReadsBack(p);
    }
    forall s: bytes
      ensures WritesBack(WriteIdentity, ReadIdentity, s)
      ensures ReadIdentity(s).Got? ==> FitsIdentity(ReadIdentity(s).value)
    {
      if ReadIdentity(s).Got? {
        var p, mid, rest := ReadIdentity(s).value, ReadPrefix16(s).rest, ReadIdentity(s).rest;
        In16(s, p.identity, mid);
        Number32(mid, p.obfuscatedTicketAge, rest);
        WideTwo(|p.identity|);
        WideFour(p.obfuscatedTicketAge);
        assert Vec(2, p.identity) + (Wide(p.obfuscatedTicketAge, 4) + rest)
            == Vec(2, p.identity) + Wide(p.obfuscatedTicketAge, 4) + rest;
      }
    }
  }

  // ---------- What an extension says ----------

  /** The one host name among the names; there must be no second one, and none may end in a dot. */
  ghost predicate OneHost(names: seq<Name>, host: bytes) {
    && (forall i :: 0 <= i < |names| ==> names[i].name != [])
    && if host == [] then forall i :: 0 <= i < |names| ==> names[i].nameType != 0
       else host[|host| - 1] != 46
            && exists j :: 0 <= j < |names| && names[j] == Name(0, host)
                 && forall i :: 0 <= i < |names| && i != j ==> names[i].nameType != 0
  }

  /** Not even one element is empty. */
  ghost predicate NoneEmpty(xs: seq<bytes>) {
    forall i :: 0 <= i < |xs| ==> xs[i] != []
  }

  /** data is x behind its length in one byte. */
  predicate Is8(data: bytes, x: bytes) { |x| < 0x100 && data == Vec(1, x) }

  /** data is x behind its length in two bytes. */
  predicate Is16(data: bytes, x: bytes) { |x| < 0x1_0000 && data == Vec(2, x) }

  /** A 16-bit list of 16-bit numbers that is not empty. */
  ghost predicate NumberList(xs: seq<nat>, data: bytes) {
    xs != [] && AllGood(Below16, xs) && Is16(data, Flat(Two, xs))
  }

  /** A status request of type t with its two lists. */
  ghost predicate StatusBytes(t: byte, ids: bytes, extensions: bytes, data: bytes) {
    |ids| < 0x1_0000 && |extensions| < 0x1_0000 && data == [t] + Vec(2, ids) + Vec(2, extensions)
  }

  ghost predicate AsksStatus(stapling: bool, data: bytes) {
    exists t, ids, extensions :: StatusBytes(t, ids, extensions, data) && (stapling <==> t == 1)
  }

  /** A list of names that has this one host, or none if it is empty. */
  ghost predicate NamesHost(host: bytes, data: bytes) {
    exists names :: names != [] && AllGood(FitsName, names) && OneHost(names, host) && Is16(data, Flat(NameBytes, names))
  }

  ghost predicate ProtocolList(xs: seq<bytes>, data: bytes) {
    xs != [] && AllGood(Fits8, xs) && NoneEmpty(xs) && Is16(data, Flat(Short8, xs))
  }

  ghost predicate ShareList(xs: seq<KeyShare>, data: bytes) {
    AllGood(FitsShare, xs) && (forall i :: 0 <= i < |xs| ==> xs[i].data != []) && Is16(data, Flat(ShareBytes, xs))
  }

  ghost predicate VersionList(xs: seq<nat>, data: bytes) {
    xs != [] && AllGood(Below16, xs) && Is8(data, Flat(Two, xs))
  }

  /** Identities and binders, as many of each as there may be, and none empty. */
  ghost predicate PskList(ids: seq<PskIdentity>, binders: seq<bytes>, data: bytes) {
    && ids != [] && AllGood(FitsIdentity, ids) && (forall i :: 0 <= i < |ids| ==> ids[i].identity != [])
    && binders != [] && AllGood(Fits8, binders) && NoneEmpty(binders)
    && |Flat(IdentityBytes, ids)| < 0x1_0000 && |Flat(Short8, binders)| < 0x1_0000
    && data == Vec(2, Flat(IdentityBytes, ids)) + Vec(2, Flat(Short8, binders))
  }

  /** The extension_data of an extension of this kind says about the message just what the message holds. */
  ghost predicate Says(m: ClientHello, k: Kind, data: bytes) {
    match k
    case ServerName => NamesHost(m.serverName, data)
    case StatusRequest => AsksStatus(m.ocspStapling, data)
    case SupportedCurves => NumberList(m.supportedCurves, data)
    case SignatureAlgorithms => NumberList(m.signatureAlgorithms, data)
    case SignatureAlgorithmsCert => NumberList(m.signatureAlgorithmsCert, data)
    case SupportedVersions => VersionList(m.supportedVersions, data)
    case SupportedPoints => m.supportedPoints != [] && Is8(data, m.supportedPoints)
    case SessionTicket => m.ticketSupported && data == m.sessionTicket
    case RenegotiationInfo => m.secureRenegotiationSupported && Is8(data, m.secureRenegotiation)
    case ExtendedMasterSecret => m.extendedMasterSecret && data == []
    case Sct => m.scts && data == []
    case EarlyData => m.earlyData && data == []
    case Alpn => ProtocolList(m.alpnProtocols, data)
    case Cookie => m.cookie != [] && Is16(data, m.cookie)
    case KeyShares => ShareList(m.keyShares, data)
    case PskModes => Is8(data, m.pskModes)
    case QuicTransportParameters => m.quicTransportParameters == Some(data)
    case EncryptedClientHello => m.encryptedClientHello == data
    case PreSharedKey => PskList(m.pskIdentities, m.pskBinders, data)
  }

  // ---------- One extension ----------

  lemma ReadsNumbers(xs: seq<nat>, data: bytes)
    ensures ListIn16(ReadU16, data) == Some(xs) <==> NumberList(xs, data)
  {
    hide Flat, DecodeAll, ReadPrefix16, ReadU16, Wide, Agreed;
    Numbers();
    ReadsList16(WriteU16, ReadU16, Two, Below16, data, xs);
  }

  lemma ReadsList16<T(!new)>(write: T -> builder, read: bytes -> Read<T>, wire: T -> bytes, good: T -> bool,
                             data: bytes, xs: seq<T>)
    requires Agreed(write, read, wire, good)
    ensures ListIn16(read, data) == Some(xs) <==>
              xs != [] && AllGood(good, xs) && Is16(data, Flat(wire, xs))
  {
    hide Flat, DecodeAll, ReadPrefix16, Wide, Agreed, Vec;
    var list := Flat(wire, xs);
    if AllGood(good, xs) {
      FlatNonempty(write, read, wire, good, xs);
    }
    ListReadIff(write, read, wire, good, list, xs);
    In16(data, list, []);
    assert Vec(2, list) + [] == Vec(2, list);
    if ReadPrefix16(data).Got? {
      ListReadIff(write, read, wire, good, ReadPrefix16(data).value, xs);
    }
  }

  lemma ReadsList8<T(!new)>(write: T -> builder, read: bytes -> Read<T>, wire: T -> bytes, good: T -> bool,
                            data: bytes, xs: seq<T>)
    requires Agreed(write, read, wire, good)
    ensures ListIn8(read, data) == Some(xs) <==>
              xs != [] && AllGood(good, xs) && Is8(data, Flat(wire, xs))
  {
    hide Flat, DecodeAll, ReadPrefix8, Wide, Agreed, Vec;
    var list := Flat(wire, xs);
    if AllGood(good, xs) {
      FlatNonempty(write, read, wire, good, xs);
    }
    ListReadIff(write, read, wire, good, list, xs);
    In8(data, list, []);
    assert Vec(1, list) + [] == Vec(1, list);
    if ReadPrefix8(data).Got? {
      ListReadIff(write, read, wire, good, ReadPrefix8(data).value, xs);
    }
  }

  lemma ReadsString8(data: bytes, x: bytes)
    ensures StringIn8(data) == Some(x) <==> Is8(data, x)
  {
    hide ReadPrefix8, Vec;
    In8(data, x, []);
    assert Vec(1, x) + [] == Vec(1, x);
  }

  lemma {:induction false} HostOf(found: bytes, names: seq<Name>, host: bytes)
    requires found != [] ==> found[|found| - 1] != 46
    ensures HostName(found, names) == Some(host) <==>
              if found != [] then host == found && NoHost(names) else OneHost(names, host)
    decreases |names|
  {
    hide OneHost, NoHost;
    if names == [] {
      NoNames(host);
    } else {
      var n, rest := names[0], names[1..];
      HostsOf(names, host);
      NoHostOf(names);
      HostOf(found, rest, host);
      if n.name != [] && n.nameType == 0 && found == [] && n.name[|n.name| - 1] != 46 {
        HostOf(n.name, rest, host);
      }
    }
  }

  lemma NoNames(host: bytes)
    ensures NoHost([]) && (OneHost([], host) <==> host == [])
  {
  }

  lemma NoHostOf(names: seq<Name>)
    requires names != []
    ensures NoHost(names) <==> names[0].name != [] && names[0].nameType != 0 && NoHost(names[1..])
  {
    if names[0].name != [] && names[0].nameType != 0 && NoHost(names[1..]) {
      assert forall i :: 1 <= i < |names| ==> names[i] == names[1..][i - 1];
    }
  }

  /** One name more in front. */
  lemma HostsOf(names: seq<Name>, host: bytes)
    requires names != []
    ensures OneHost(names, host) <==>
              && names[0].name != []
              && if names[0].nameType != 0 then OneHost(names[1..], host)
                 else host == names[0].name && host[|host| - 1] != 46 && NoHost(names[1..])
  {
    hide OneHost, NoHost;
    if names[0].name == [] {
      EmptyNameFirst(names, host);
    } else if names[0].nameType != 0 {
      OtherFirst(names, host);
    } else {
      HostFirst(names, host);
    }
  }

  ghost predicate NoHost(names: seq<Name>) {
    forall i :: 0 <= i < |names| ==> names[i].name != [] && names[i].nameType != 0
  }

  lemma EmptyNameFirst(names: seq<Name>, host: bytes)
    requires names != [] && names[0].name == []
    ensures !OneHost(names, host)
  {
  }

  lemma OtherFirst(names: seq<Name>, host: bytes)
    requires names != [] && names[0].name != [] && names[0].nameType != 0
    ensures OneHost(names, host) <==> OneHost(names[1..], host)
  {
    if OneHost(names, host) {
      OtherFirstOf(names, host);
    }
    if OneHost(names[1..], host) {
      OtherBefore(names, host);
    }
  }

  lemma OtherFirstOf(names: seq<Name>, host: bytes)
    requires names != [] && names[0].nameType != 0 && OneHost(names, host)
    ensures OneHost(names[1..], host)
  {
    var rest := names[1..];
    if host != [] {
      var j :| 0 <= j < |names| && names[j] == Name(0, host)
               && forall i :: 0 <= i < |names| && i != j ==> names[i].nameType != 0;
      assert rest[j - 1] == Name(0, host);
    }
  }

  lemma OtherBefore(names: seq<Name>, host: bytes)
    requires names != [] && names[0].name != [] && names[0].nameType != 0 && OneHost(names[1..], host)
    ensures OneHost(names, host)
  {
    var rest := names[1..];
    forall i | 0 <= i < |names|
      ensures names[i] == if i == 0 then names[0] else rest[i - 1]
    {
    }
    if host != [] {
      var j :| 0 <= j < |rest| && rest[j] == Name(0, host) && forall i :: 0 <= i < |rest| && i != j ==> rest[i].nameType != 0;
      assert names[j + 1] == Name(0, host);
    }
  }

  lemma HostFirst(names: seq<Name>, host: bytes)
    requires names != [] && names[0].name != [] && names[0].nameType == 0
    ensures OneHost(names, host) <==> host == names[0].name && host[|host| - 1] != 46 && NoHost(names[1..])
  {
    var rest := names[1..];
    if OneHost(names, host) {
      assert forall i :: 0 <= i < |rest| ==> rest[i] == names[i + 1];
    } else if host == names[0].name && host[|host| - 1] != 46 {
      assert names[0] == Name(0, host);
      var i :| 0 <= i < |names| && (names[i].name == [] || (i != 0 && names[i].nameType == 0));
      assert rest[i - 1] == names[i];
    }
  }

  /** What is accepted changes the fields of its kind only, and to what it says. */
  ghost predicate Taken(base: ClientHello, k: Kind, data: bytes, last: bool) {
    var r := Take(base, k, data, last);
    r.Some? ==> (k == PreSharedKey ==> last) && r.value == Put(base, k, r.value) && Says(r.value, k, data)
  }

  /** What says what m holds is accepted, and brings just that. */
  ghost predicate Brought(base: ClientHello, k: Kind, data: bytes, last: bool, m: ClientHello) {
    Says(m, k, data) && (k == PreSharedKey ==> last) ==> Take(base, k, data, last) == Some(Put(base, k, m))
  }

  lemma FlagsTaken(base: ClientHello, k: Kind, data: bytes, last: bool)
    requires k in {ExtendedMasterSecret, Sct, EarlyData, EncryptedClientHello, SessionTicket, QuicTransportParameters}
    ensures Taken(base, k, data, last)
  {
  }

  lemma FlagsBrought(base: ClientHello, k: Kind, data: bytes, last: bool, m: ClientHello)
    requires k in {ExtendedMasterSecret, Sct, EarlyData, EncryptedClientHello, SessionTicket, QuicTransportParameters}
    ensures Brought(base, k, data, last, m)
  {
  }

  lemma PointsTaken(base: ClientHello, data: bytes, last: bool)
    ensures Taken(base, SupportedPoints, data, last)
  {
    hide StringIn8, Is8;
    if StringIn8(data).Some? {
      ReadsString8(data, StringIn8(data).value);
    }
  }

  lemma PointsBrought(base: ClientHello, data: bytes, last: bool, m: ClientHello)
    ensures Brought(base, SupportedPoints, data, last, m)
  {
    hide StringIn8, Is8;
    ReadsString8(data, m.supportedPoints);
  }

  lemma RenegotiationTaken(base: ClientHello, data: bytes, last: bool)
    ensures Taken(base, RenegotiationInfo, data, last)
  {
    hide StringIn8, Is8;
    if StringIn8(data).Some? {
      ReadsString8(data, StringIn8(data).value);
    }
  }

  lemma RenegotiationBrought(base: ClientHello, data: bytes, last: bool, m: ClientHello)
    ensures Brought(base, RenegotiationInfo, data, last, m)
  {
    hide StringIn8, Is8;
    ReadsString8(data, m.secureRenegotiation);
  }

  lemma ModesTaken(base: ClientHello, data: bytes, last: bool)
    ensures Taken(base, PskModes, data, last)
  {
    hide StringIn8, Is8;
    if StringIn8(data).Some? {
      ReadsString8(data, StringIn8(data).value);
    }
  }

  lemma ModesBrought(base: ClientHello, data: bytes, last: bool, m: ClientHello)
    ensures Brought(base, PskModes, data, last, m)
  {
    hide StringIn8, Is8;
    ReadsString8(data, m.pskModes);
  }

  lemma ReadsString16(data: bytes, x: bytes)
    ensures ReadPrefix16(data) == Got(x, []) <==> Is16(data, x)
  {
    hide ReadPrefix16, Vec;
    In16(data, x, []);
    assert Vec(2, x) + [] == Vec(2, x);
  }

  lemma CookieTaken(base: ClientHello, data: bytes, last: bool)
    ensures Taken(base, Cookie, data, last)
  {
    hide ReadPrefix16, Is16;
    if ReadPrefix16(data).Got? {
      ReadsString16(data, ReadPrefix16(data).value);
    }
  }

  lemma CookieBrought(base: ClientHello, data: bytes, last: bool, m: ClientHello)
    ensures Brought(base, Cookie, data, last, m)
  {
    hide ReadPrefix16, Is16;
    ReadsString16(data, m.cookie);
  }

  lemma ReadsStatus(base: ClientHello, data: bytes, stapling: bool)
    ensures (ParseStatusRequest(base, data).Some? && ParseStatusRequest(base, data).value.ocspStapling == stapling)
       <==> AsksStatus(stapling, data)
  {
    hide ReadPrefix16, Vec;
    if ParseStatusRequest(base, data).Some? {
      var a, b := ReadPrefix16(data[1..]), ReadPrefix16(ReadPrefix16(data[1..]).rest);
      In16(data[1..], a.value, a.rest);
      In16(a.rest, b.value, b.rest);
      assert data == [data[0]] + data[1..];
      assert [data[0]] + (Vec(2, a.value) + (Vec(2, b.value) + [])) == [data[0]] + Vec(2, a.value) + Vec(2, b.value);
      assert StatusBytes(data[0], a.value, b.value, data);
    }
    if AsksStatus(stapling, data) {
      var t, ids, extensions :| StatusBytes(t, ids, extensions, data) && (stapling <==> t == 1);
      assert data[0] == t && data[1..] == Vec(2, ids) + Vec(2, extensions);
      In16(data[1..], ids, Vec(2, extensions));
      assert Vec(2, extensions) + [] == Vec(2, extensions);
      In16(Vec(2, extensions), extensions, []);
    }
  }

  lemma StatusOnly(base: ClientHello, data: bytes)
    ensures var r := ParseStatusRequest(base, data); r.Some? ==> r.value == Put(base, StatusRequest, r.value)
  {
    hide ReadPrefix16;
  }

  lemma SameStatus(base: ClientHello, m: ClientHello, m': ClientHello)
    requires m.ocspStapling == m'.ocspStapling
    ensures Put(base, StatusRequest, m) == Put(base, StatusRequest, m')
  {
  }

  lemma StatusTaken(base: ClientHello, data: bytes, last: bool)
    ensures Taken(base, StatusRequest, data, last)
  {
    hide ParseStatusRequest, AsksStatus, Put;
    StatusOnly(base, data);
    if ParseStatusRequest(base, data).Some? {
      ReadsStatus(base, data, ParseStatusRequest(base, data).value.ocspStapling);
    }
  }

  lemma StatusBrought(base: ClientHello, data: bytes, last: bool, m: ClientHello)
    ensures Brought(base, StatusRequest, data, last, m)
  {
    hide ParseStatusRequest, AsksStatus, Put;
    ReadsStatus(base, data, m.ocspStapling);
    StatusOnly(base, data);
    if Says(m, StatusRequest, data) {
      SameStatus(base, m, ParseStatusRequest(base, data).value);
    }
  }

  lemma CurvesTaken(base: ClientHello, data: bytes, last: bool)
    requires Blank(base, SupportedCurves)
    ensures Taken(base, SupportedCurves, data, last)
  {
    hide ListIn16, NumberList;
    if ListIn16(ReadU16, data).Some? {
      ReadsNumbers(ListIn16(ReadU16, data).value, data);
      OntoNothing(ListIn16(ReadU16, data).value);
    }
  }

  lemma CurvesBrought(base: ClientHello, data: bytes, last: bool, m: ClientHello)
    requires Blank(base, SupportedCurves)
    ensures Brought(base, SupportedCurves, data, last, m)
  {
    hide ListIn16, NumberList;
    ReadsNumbers(m.supportedCurves, data);
    OntoNothing(m.supportedCurves);
  }

  lemma AlgorithmsTaken(base: ClientHello, data: bytes, last: bool)
    requires Blank(base, SignatureAlgorithms)
    ensures Taken(base, SignatureAlgorithms, data, last)
  {
    hide ListIn16, NumberList;
    if ListIn16(ReadU16, data).Some? {
      ReadsNumbers(ListIn16(ReadU16, data).value, data);
      OntoNothing(ListIn16(ReadU16, data).value);
    }
  }

  lemma AlgorithmsBrought(base: ClientHello, data: bytes, last: bool, m: ClientHello)
    requires Blank(base, SignatureAlgorithms)
    ensures Brought(base, SignatureAlgorithms, data, last, m)
  {
    hide ListIn16, NumberList;
    ReadsNumbers(m.signatureAlgorithms, data);
    OntoNothing(m.signatureAlgorithms);
  }

  lemma CertAlgorithmsTaken(base: ClientHello, data: bytes, last: bool)
    requires Blank(base, SignatureAlgorithmsCert)
    ensures Taken(base, SignatureAlgorithmsCert, data, last)
  {
    hide ListIn16, NumberList;
    if ListIn16(ReadU16, data).Some? {
      ReadsNumbers(ListIn16(ReadU16, data).value, data);
      OntoNothing(ListIn16(ReadU16, data).value);
    }
  }

  lemma CertAlgorithmsBrought(base: ClientHello, data: bytes, last: bool, m: ClientHello)
    requires Blank(base, SignatureAlgorithmsCert)
    ensures Brought(base, SignatureAlgorithmsCert, data, last, m)
  {
    hide ListIn16, NumberList;
    ReadsNumbers(m.signatureAlgorithmsCert, data);
    OntoNothing(m.signatureAlgorithmsCert);
  }

  lemma OntoNothing<T>(xs: seq<T>)
    ensures [] + xs == xs
  {
  }

  lemma ReadsVersions(data: bytes, xs: seq<nat>)
    ensures ListIn8(ReadU16, data) == Some(xs) <==> VersionList(xs, data)
  {
    hide ListIn8, Flat, Is8, Agreed;
    Numbers();
    ReadsList8(WriteU16, ReadU16, Two, Below16, data, xs);
  }

  lemma VersionsTaken(base: ClientHello, data: bytes, last: bool)
    requires Blank(base, SupportedVersions)
    ensures Taken(base, SupportedVersions, data, last)
  {
    hide ListIn8, VersionList;
    if ListIn8(ReadU16, data).Some? {
      ReadsVersions(data, ListIn8(ReadU16, data).value);
      OntoNothing(ListIn8(ReadU16, data).value);
    }
  }

  lemma VersionsBrought(base: ClientHello, data: bytes, last: bool, m: ClientHello)
    requires Blank(base, SupportedVersions)
    ensures Brought(base, SupportedVersions, data, last, m)
  {
    hide ListIn8, VersionList;
    ReadsVersions(data, m.supportedVersions);
    OntoNothing(m.supportedVersions);
  }

  lemma SameEmptiness(xs: seq<bytes>)
    ensures AllNonempty(xs) == NoneEmpty(xs)
  {
  }

  lemma ReadsProtocols(data: bytes, xs: seq<bytes>)
    ensures (ListIn16(ReadPrefix8, data) == Some(xs) && AllNonempty(xs)) <==> ProtocolList(xs, data)
  {
    hide ListIn16, Flat, Is16, Agreed;
    Strings();
    ReadsList16(WriteString8, ReadPrefix8, Short8, Fits8, data, xs);
    SameEmptiness(xs);
  }

  lemma AlpnTaken(base: ClientHello, data: bytes, last: bool)
    requires Blank(base, Alpn)
    ensures Taken(base, Alpn, data, last)
  {
    hide ListIn16, ProtocolList, AllNonempty;
    if ListIn16(ReadPrefix8, data).Some? {
      ReadsProtocols(data, ListIn16(ReadPrefix8, data).value);
      OntoNothing(ListIn16(ReadPrefix8, data).value);
    }
  }

  lemma AlpnBrought(base: ClientHello, data: bytes, last: bool, m: ClientHello)
    requires Blank(base, Alpn)
    ensures Brought(base, Alpn, data, last, m)
  {
    hide ListIn16, ProtocolList, AllNonempty;
    ReadsProtocols(data, m.alpnProtocols);
    OntoNothing(m.alpnProtocols);
  }

  lemma ReadsName(data: bytes, host: bytes)
    ensures (ListIn16(ReadName, data).Some? && HostName([], ListIn16(ReadName, data).value) == Some(host))
       <==> NamesHost(host, data)
  {
    hide ListIn16, Flat, Is16, Agreed, HostName, OneHost;
    Names();
    if ListIn16(ReadName, data).Some? {
      var names := ListIn16(ReadName, data).value;
      ReadsList16(WriteName, ReadName, NameBytes, FitsName, data, names);
      HostOf([], names, host);
      if HostName([], names) == Some(host) {
        assert NamesHost(host, data);
      }
    }
    if NamesHost(host, data) {
      var names :| names != [] && AllGood(FitsName, names) && OneHost(names, host) && Is16(data, Flat(NameBytes, names));
      ReadsList16(WriteName, ReadName, NameBytes, FitsName, data, names);
      HostOf([], names, host);
      NamesNonempty(names, host);
    }
  }

  lemma NameTaken(base: ClientHello, data: bytes, last: bool)
    requires Blank(base, ServerName)
    ensures Taken(base, ServerName, data, last)
  {
    hide ListIn16, HostName, NamesHost;
    if ListIn16(ReadName, data).Some? && HostName([], ListIn16(ReadName, data).value).Some? {
      ReadsName(data, HostName([], ListIn16(ReadName, data).value).value);
    }
  }

  lemma NameBrought(base: ClientHello, data: bytes, last: bool, m: ClientHello)
    requires Blank(base, ServerName)
    ensures Brought(base, ServerName, data, last, m)
  {
    hide ListIn16, HostName, NamesHost;
    ReadsName(data, m.serverName);
  }

  lemma NamesNonempty(names: seq<Name>, host: bytes)
    requires OneHost(names, host)
    ensures forall i :: 0 <= i < |names| ==> names[i].name != []
  {
  }

  /** Key shares of which none is empty; the list may be. */
  lemma ReadsShares(base: ClientHello, data: bytes, xs: seq<KeyShare>)
    requires base.keyShares == []
    ensures ParseKeyShares(base, data) == Some(base.(keyShares := xs)) <==> ShareList(xs, data)
  {
    hide DecodeAll, ReadPrefix16, AllGood, Flat, Is16, Agreed;
    Shares();
    if ParseKeyShares(base, data).Some? {
      var list := ReadPrefix16(data).value;
      ListReadIff(WriteKeyShare, ReadKeyShare, ShareBytes, FitsShare, list, DecodeAll(ReadKeyShare, list).value);
      ReadsString16(data, list);
      OntoNothing(DecodeAll(ReadKeyShare, list).value);
    }
    if ShareList(xs, data) {
      var list := Flat(ShareBytes, xs);
      ListReadIff(WriteKeyShare, ReadKeyShare, ShareBytes, FitsShare, list, xs);
      ReadsString16(data, list);
      OntoNothing(xs);
    }
  }

  lemma SharesOnly(base: ClientHello, data: bytes)
    ensures var r := ParseKeyShares(base, data); r.Some? ==> r.value == base.(keyShares := r.value.keyShares)
  {
    hide ReadPrefix16, DecodeAll;
  }

  lemma SharesTaken(base: ClientHello, data: bytes, last: bool)
    requires Blank(base, KeyShares)
    ensures Taken(base, KeyShares, data, last)
  {
    hide ParseKeyShares, ShareList;
    SharesOnly(base, data);
    if ParseKeyShares(base, data).Some? {
      ReadsShares(base, data, ParseKeyShares(base, data).value.keyShares);
    }
  }

  lemma SharesBrought(base: ClientHello, data: bytes, last: bool, m: ClientHello)
    requires Blank(base, KeyShares)
    ensures Brought(base, KeyShares, data, last, m)
  {
    hide ParseKeyShares, ShareList;
    ReadsShares(base, data, m.keyShares);
  }

  lemma ReadsPsks(data: bytes, ids: seq<PskIdentity>, binders: seq<bytes>)
    ensures ParsePsks(data) == Some((ids, binders)) <==> PskList(ids, binders, data)
  {
    hide ReadPrefix16, DecodeAll, Flat, Vec, Agreed, ListIn16;
    Identities();
    Strings();
    if ParsePsks(data) == Some((ids, binders)) {
      var list, rest := ReadPrefix16(data).value, ReadPrefix16(data).rest;
      ListReadIff(WriteIdentity, ReadIdentity, IdentityBytes, FitsIdentity, list, ids);
      FlatNonempty(WriteIdentity, ReadIdentity, IdentityBytes, FitsIdentity, ids);
      In16(data, list, rest);
      ReadsList16(WriteString8, ReadPrefix8, Short8, Fits8, rest, binders);
    }
    if PskList(ids, binders, data) {
      var list, rest := Flat(IdentityBytes, ids), Vec(2, Flat(Short8, binders));
      ListReadIff(WriteIdentity, ReadIdentity, IdentityBytes, FitsIdentity, list, ids);
      FlatNonempty(WriteIdentity, ReadIdentity, IdentityBytes, FitsIdentity, ids);
      In16(data, list, rest);
      ReadsList16(WriteString8, ReadPrefix8, Short8, Fits8, rest, binders);
    }
  }

  lemma PsksTaken(base: ClientHello, data: bytes, last: bool)
    requires Blank(base, PreSharedKey)
    ensures Taken(base, PreSharedKey, data, last)
  {
    hide ParsePsks, PskList;
    if ParsePsks(data).Some? {
      var psks := ParsePsks(data).value;
      ReadsPsks(data, psks.0, psks.1);
      OntoNothing(psks.0);
      OntoNothing(psks.1);
    }
  }

  lemma PsksBrought(base: ClientHello, data: bytes, last: bool, m: ClientHello)
    requires Blank(base, PreSharedKey)
    ensures Brought(base, PreSharedKey, data, last, m)
  {
    hide ParsePsks, PskList;
    ReadsPsks(data, m.pskIdentities, m.pskBinders);
    OntoNothing(m.pskIdentities);
    OntoNothing(m.pskBinders);
  }

  /** What is accepted of an extension of any kind is what it says. */
  lemma EveryKindTaken(base: ClientHello, k: Kind, data: bytes, last: bool)
    requires Blank(base, k)
    ensures Taken(base, k, data, last)
  {
    hide Taken, Blank;
    match k
    case ServerName => NameTaken(base, data, last);
    case StatusRequest => StatusTaken(base, data, last);
    case Alpn => AlpnTaken(base, data, last);
    case KeyShares => SharesTaken(base, data, last);
    case PreSharedKey => PsksTaken(base, data, last);
    case Cookie => CookieTaken(base, data, last);
    case SupportedPoints => PointsTaken(base, data, last);
    case RenegotiationInfo => RenegotiationTaken(base, data, last);
    case PskModes => ModesTaken(base, data, last);
    case SupportedCurves => CurvesTaken(base, data, last);
    case SignatureAlgorithms => AlgorithmsTaken(base, data, last);
    case SignatureAlgorithmsCert => CertAlgorithmsTaken(base, data, last);
    case SupportedVersions => VersionsTaken(base, data, last);
    case _ => FlagsTaken(base, k, data, last);
  }

  /** And an extension of any kind that says what m holds is accepted, and brings just that. */
  lemma EveryKindBrought(base: ClientHello, k: Kind, data: bytes, last: bool, m: ClientHello)
    requires Blank(base, k)
    ensures Brought(base, k, data, last, m)
  {
    hide Brought, Blank;
    match k
    case ServerName => NameBrought(base, data, last, m);
    case StatusRequest => StatusBrought(base, data, last, m);
    case Alpn => AlpnBrought(base, data, last, m);
    case KeyShares => SharesBrought(base, data, last, m);
    case PreSharedKey => PsksBrought(base, data, last, m);
    case Cookie => CookieBrought(base, data, last, m);
    case SupportedPoints => PointsBrought(base, data, last, m);
    case RenegotiationInfo => RenegotiationBrought(base, data, last, m);
    case PskModes => ModesBrought(base, data, last, m);
    case SupportedCurves => CurvesBrought(base, data, last, m);
    case SignatureAlgorithms => AlgorithmsBrought(base, data, last, m);
    case SignatureAlgorithmsCert => CertAlgorithmsBrought(base, data, last, m);
    case SupportedVersions => VersionsBrought(base, data, last, m);
    case _ => FlagsBrought(base, k, data, last, m);
  }

  // ---------- All extensions ----------

  /** The numbers of the extensions, in the order in which they are written. */
  const CODES: seq<nat> := [0, 11, 35, 0xff01, 23, 18, 42, 57, 0xfe0d, 5, 10, 13, 50, 16, 43, 44, 51, 45, 41]

  function Code(k: Kind): nat { CODES[Index(k)] }

  lemma CodesAre(t: nat, k: Kind)
    ensures TypeOf(k) == Code(k)
    ensures KindOf(t) == Some(k) <==> t == Code(k)
  {
    KindOfTypeOf(k);
  }

  /** a and b hold the same in the fields of one kind. */
  predicate SameField(a: ClientHello, b: ClientHello, k: Kind) {
    match k
    case ServerName => a.serverName == b.serverName
    case SupportedPoints => a.supportedPoints == b.supportedPoints
    case SessionTicket => a.ticketSupported == b.ticketSupported && a.sessionTicket == b.sessionTicket
    case RenegotiationInfo =>
      a.secureRenegotiationSupported == b.secureRenegotiationSupported && a.secureRenegotiation == b.secureRenegotiation
    case ExtendedMasterSecret => a.extendedMasterSecret == b.extendedMasterSecret
    case Sct => a.scts == b.scts
    case EarlyData => a.earlyData == b.earlyData
    case QuicTransportParameters => a.quicTransportParameters == b.quicTransportParameters
    case EncryptedClientHello => a.encryptedClientHello == b.encryptedClientHello
    case StatusRequest => a.ocspStapling == b.ocspStapling
    case SupportedCurves => a.supportedCurves == b.supportedCurves
    case SignatureAlgorithms => a.signatureAlgorithms == b.signatureAlgorithms
    case SignatureAlgorithmsCert => a.signatureAlgorithmsCert == b.signatureAlgorithmsCert
    case Alpn => a.alpnProtocols == b.alpnProtocols
    case SupportedVersions => a.supportedVersions == b.supportedVersions
    case Cookie => a.cookie == b.cookie
    case KeyShares => a.keyShares == b.keyShares
    case PskModes => a.pskModes == b.pskModes
    case PreSharedKey => a.pskIdentities == b.pskIdentities && a.pskBinders == b.pskBinders
  }

  predicate SameHead(a: ClientHello, b: ClientHello) {
    && a.vers == b.vers && a.random == b.random && a.sessionId == b.sessionId
    && a.cipherSuites == b.cipherSuites && a.compressionMethods == b.compressionMethods
  }

  lemma PutField(base: ClientHello, k: Kind, m: ClientHello, k': Kind)
    ensures SameHead(Put(base, k, m), base)
    ensures k' != k ==> SameField(Put(base, k, m), base, k')
    ensures (k == RenegotiationInfo ==> m.secureRenegotiationSupported) ==> SameField(Put(base, k, m), m, k)
  {
    hide Put, SameField;
    PutHead(base, k, m);
    PutOwn(base, k, m);
    if k' != k {
      PutOther(base, k, m, k');
    }
  }

  lemma PutHead(base: ClientHello, k: Kind, m: ClientHello)
    ensures SameHead(Put(base, k, m), base)
  {
  }

  lemma PutOwn(base: ClientHello, k: Kind, m: ClientHello)
    ensures (k == RenegotiationInfo ==> m.secureRenegotiationSupported) ==> SameField(Put(base, k, m), m, k)
  {
  }

  lemma PutOther(base: ClientHello, k: Kind, m: ClientHello, k': Kind)
    requires k' != k
    ensures SameField(Put(base, k, m), base, k')
  {
    hide Put, SameField, IsListKind, IsStringKind, IsFlagKind;
    KindGroups(k);
    if IsListKind(k) {
      PutOtherList(base, k, m, k');
    } else if IsStringKind(k) {
      PutOtherString(base, k, m, k');
    } else {
      PutOtherFlag(base, k, m, k');
    }
  }

  lemma PutOtherList(base: ClientHello, k: Kind, m: ClientHello, k': Kind)
    requires k' != k && IsListKind(k)
    ensures SameField(Put(base, k, m), base, k')
  {
  }

  lemma PutOtherString(base: ClientHello, k: Kind, m: ClientHello, k': Kind)
    requires k' != k && IsStringKind(k)
    ensures SameField(Put(base, k, m), base, k')
  {
  }

  lemma PutOtherFlag(base: ClientHello, k: Kind, m: ClientHello, k': Kind)
    requires k' != k && IsFlagKind(k)
    ensures SameField(Put(base, k, m), base, k')
  {
  }

  lemma SaysTheSame(a: ClientHello, b: ClientHello, k: Kind, data: bytes)
    requires SameField(a, b, k)
    ensures Says(a, k, data) == Says(b, k, data) && Blank(a, k) == Blank(b, k)
  {
    hide NumberList, AllGood, Is8, Is16, PskList, AsksStatus, NamesHost, ProtocolList, VersionList;
  }

  lemma SameFieldTrans(a: ClientHello, b: ClientHello, c: ClientHello, k: Kind)
    requires SameField(a, b, k) && SameField(b, c, k)
    ensures SameField(a, c, k)
  {
  }

  lemma AllFieldsSame(a: ClientHello, b: ClientHello)
    requires SameHead(a, b) && forall k :: SameField(a, b, k)
    ensures a == b
  {
    hide SameField;
    FieldsOfStrings(a, b);
    FieldsOfFlags(a, b);
    FieldsOfLists(a, b);
  }

  lemma FieldsOfStrings(a: ClientHello, b: ClientHello)
    requires forall k :: SameField(a, b, k)
    ensures a.supportedPoints == b.supportedPoints && a.secureRenegotiationSupported == b.secureRenegotiationSupported
    ensures a.secureRenegotiation == b.secureRenegotiation && a.pskModes == b.pskModes && a.cookie == b.cookie
    ensures a.serverName == b.serverName && a.quicTransportParameters == b.quicTransportParameters
  {
    assert SameField(a, b, SupportedPoints) && SameField(a, b, RenegotiationInfo) && SameField(a, b, PskModes);
    assert SameField(a, b, Cookie) && SameField(a, b, ServerName) && SameField(a, b, QuicTransportParameters);
  }

  lemma FieldsOfFlags(a: ClientHello, b: ClientHello)
    requires forall k :: SameField(a, b, k)
    ensures a.extendedMasterSecret == b.extendedMasterSecret && a.scts == b.scts && a.earlyData == b.earlyData
    ensures a.ocspStapling == b.ocspStapling && a.encryptedClientHello == b.encryptedClientHello
    ensures a.ticketSupported == b.ticketSupported && a.sessionTicket == b.sessionTicket
  {
    assert SameField(a, b, ExtendedMasterSecret) && SameField(a, b, Sct) && SameField(a, b, EarlyData);
    assert SameField(a, b, StatusRequest) && SameField(a, b, EncryptedClientHello) && SameField(a, b, SessionTicket);
  }

  lemma FieldsOfLists(a: ClientHello, b: ClientHello)
    requires forall k :: SameField(a, b, k)
    ensures a.supportedCurves == b.supportedCurves && a.signatureAlgorithms == b.signatureAlgorithms
    ensures a.signatureAlgorithmsCert == b.signatureAlgorithmsCert && a.supportedVersions == b.supportedVersions
    ensures a.alpnProtocols == b.alpnProtocols && a.keyShares == b.keyShares
    ensures a.pskIdentities == b.pskIdentities && a.pskBinders == b.pskBinders
  {
    assert SameField(a, b, SupportedCurves) && SameField(a, b, SignatureAlgorithms);
    assert SameField(a, b, SignatureAlgorithmsCert) && SameField(a, b, SupportedVersions);
    assert SameField(a, b, Alpn) && SameField(a, b, KeyShares) && SameField(a, b, PreSharedKey);
  }

  /** The message has nothing yet of any kind that is to come. */
  ghost predicate AllBlank(base: ClientHello, raws: seq<Raw>) {
    forall i :: 0 <= i < |raws| ==> KindOf(raws[i].extType).Some? ==> Blank(base, KindOf(raws[i].extType).value)
  }

  lemma FirstDistinct(raws: seq<Raw>)
    requires raws != [] && Distinct(Types(raws))
    ensures Distinct(Types(raws[1..])) && forall i :: 0 <= i < |raws[1..]| ==> raws[1..][i].extType != raws[0].extType
  {
    var ts, rest := Types(raws), Types(raws[1..]);
    forall i | 0 <= i < |rest|
      ensures rest[i] == ts[i + 1]
    {
    }
  }

  lemma StillBlank(base: ClientHello, raws: seq<Raw>, next: ClientHello)
    requires raws != [] && AllBlank(base, raws) && Distinct(Types(raws))
    requires forall k :: KindOf(raws[0].extType) != Some(k) ==> SameField(next, base, k)
    ensures AllBlank(next, raws[1..])
  {
    hide Distinct, Types, KindOf, Blank, SameField;
    FirstDistinct(raws);
    forall i | 0 <= i < |raws[1..]| && KindOf(raws[1..][i].extType).Some?
      ensures Blank(next, KindOf(raws[1..][i].extType).value)
    {
      var k := KindOf(raws[1..][i].extType).value;
      assert raws[1..][i] == raws[i + 1];
      CodesAre(raws[i + 1].extType, k);
      CodesAre(raws[0].extType, k);
      SaysTheSame(next, base, k, []);
    }
  }

  /** The first extension is taken for what it says, and leaves all other kinds alone. */
  lemma FirstTaken(base: ClientHello, raw: Raw, last: bool)
    requires KindOf(raw.extType).Some? ==> Blank(base, KindOf(raw.extType).value)
    requires Apply(base, raw, last).Some?
    ensures var next := Apply(base, raw, last).value;
            && SameHead(next, base)
            && (forall k :: KindOf(raw.extType) != Some(k) ==> SameField(next, base, k))
            && (KindOf(raw.extType).Some? ==>
                  var k := KindOf(raw.extType).value;
                  Says(next, k, raw.data) && (k == PreSharedKey ==> last))
  {
    hide Says, Blank, Put, Take, KindOf, SameField;
    var next := Apply(base, raw, last).value;
    match KindOf(raw.extType)
    case None =>
      UnknownIgnored(base, raw, last);
      forall k
        ensures SameField(base, base, k)
      {
        SameAsItself(base, k);
      }
    case Some(kind) =>
      EveryKindTaken(base, kind, raw.data, last);
      forall k
        ensures k != kind ==> SameField(next, base, k)
      {
        PutField(base, kind, next, k);
      }
      PutField(base, kind, next, kind);
  }

  lemma SameAsItself(m: ClientHello, k: Kind)
    ensures SameField(m, m, k)
  {
  }

  /** What the accepted extensions say, kind by kind. */
  lemma {:induction false} TakenField(base: ClientHello, raws: seq<Raw>, k: Kind)
    requires Distinct(Types(raws)) && AllBlank(base, raws) && ApplyAll(base, raws).Some?
    ensures var m := ApplyAll(base, raws).value;
            && SameHead(m, base)
            && ((forall i :: 0 <= i < |raws| ==> raws[i].extType != Code(k)) ==> SameField(m, base, k))
            && (forall i :: 0 <= i < |raws| && raws[i].extType == Code(k) ==>
                  Says(m, k, raws[i].data) && (k == PreSharedKey ==> i == |raws| - 1))
    decreases |raws|
  {
    hide Says, Blank, Put, Apply, KindOf, SameField, Distinct, Types, Code;
    if raws == [] {
      SameAsItself(base, k);
    } else {
      var m := ApplyAll(base, raws).value;
      var raw, rest := raws[0], raws[1..];
      var next := Apply(base, raw, |raws| == 1).value;
      FirstTaken(base, raw, |raws| == 1);
      StillBlank(base, raws, next);
      FirstDistinct(raws);
      TakenField(next, rest, k);
      CodesAre(raw.extType, k);
      assert forall i :: 1 <= i < |raws| ==> raws[i] == rest[i - 1];
      if raw.extType == Code(k) {
        SaysTheSame(m, next, k, raw.data);
      } else if forall i :: 0 <= i < |raws| ==> raws[i].extType != Code(k) {
        assert forall i :: 0 <= i < |rest| ==> rest[i] == raws[i + 1];
        SameFieldTrans(m, next, base, k);
      }
    }
  }

  /** m put on base, one extension after the other. */
  function PutAll(base: ClientHello, raws: seq<Raw>, m: ClientHello): ClientHello
    decreases |raws|
  {
    if raws == [] then base
    else
      match KindOf(raws[0].extType)
      case None => PutAll(base, raws[1..], m)
      case Some(k) => PutAll(Put(base, k, m), raws[1..], m)
  }

  /** Every extension says what m holds. */
  ghost predicate AllSay(m: ClientHello, raws: seq<Raw>) {
    forall i :: 0 <= i < |raws| ==> KindOf(raws[i].extType).Some? ==>
      var k := KindOf(raws[i].extType).value; Says(m, k, raws[i].data) && (k == PreSharedKey ==> i == |raws| - 1)
  }

  lemma RestSay(m: ClientHello, raws: seq<Raw>)
    requires raws != [] && AllSay(m, raws)
    ensures AllSay(m, raws[1..])
  {
    hide Says, KindOf;
    assert forall i :: 0 <= i < |raws[1..]| ==> raws[1..][i] == raws[i + 1];
  }

  lemma {:induction false} AllBrought(base: ClientHello, raws: seq<Raw>, m: ClientHello)
    requires Distinct(Types(raws)) && AllBlank(base, raws) && AllSay(m, raws)
    ensures ApplyAll(base, raws) == Some(PutAll(base, raws, m))
    decreases |raws|
  {
    hide Says, Blank, Put, Take, KindOf, SameField, Distinct, Types;
    if raws != [] {
      var raw, last := raws[0], |raws| == 1;
      RestSay(m, raws);
      FirstDistinct(raws);
      match KindOf(raw.extType)
      case None =>
        UnknownIgnored(base, raw, last);
        assert forall i :: 0 <= i < |raws[1..]| ==> raws[1..][i] == raws[i + 1];
        AllBrought(base, raws[1..], m);
      case Some(kind) =>
        EveryKindBrought(base, kind, raw.data, last, m);
        var next := Put(base, kind, m);
        forall k
          ensures k != kind ==> SameField(next, base, k)
        {
          PutField(base, kind, m, k);
        }
        StillBlank(base, raws, next);
        AllBrought(next, raws[1..], m);
    }
  }

  lemma {:induction false} BroughtField(base: ClientHello, raws: seq<Raw>, m: ClientHello, k: Kind)
    requires AllSay(m, raws)
    ensures var r := PutAll(base, raws, m);
            && SameHead(r, base)
            && ((exists i :: 0 <= i < |raws| && raws[i].extType == Code(k)) || SameField(base, m, k) ==> SameField(r, m, k))
    decreases |raws|
  {
    hide Says, Put, KindOf, SameField, Code;
    if raws != [] {
      var raw := raws[0];
      RestSay(m, raws);
      CodesAre(raw.extType, k);
      assert forall i :: 1 <= i < |raws| ==> raws[i] == raws[1..][i - 1];
      match KindOf(raw.extType)
      case None => BroughtField(base, raws[1..], m, k);
      case Some(kind) =>
        var next := Put(base, kind, m);
        PutField(base, kind, m, k);
        RenegotiationSays(m, raw.data);
        if SameField(base, m, k) && k != kind {
          SameFieldTrans(next, base, m, k);
        }
        BroughtField(next, raws[1..], m, k);
    }
  }

  lemma RenegotiationSays(m: ClientHello, data: bytes)
    ensures Says(m, RenegotiationInfo, data) ==> m.secureRenegotiationSupported
  {
  }

  // ---------- The whole message ----------

  /** The part before the extensions. */
  function HeadBytes(m: ClientHello): bytes {
    Wide(m.vers, 2) + m.random + Vec(1, m.sessionId) + Vec(2, Flat(Two, m.cipherSuites)) + Vec(1, m.compressionMethods)
  }

  ghost predicate FitsHead(m: ClientHello) {
    && m.vers < 0x1_0000 && |m.random| == 32 && |m.sessionId| < 0x100 && |m.compressionMethods| < 0x100
    && AllGood(Below16, m.cipherSuites) && |Flat(Two, m.cipherSuites)| < 0x1_0000
  }

  /** The message has none of this kind; the cipher suite 00ff stands for an empty renegotiation_info. */
  predicate Silent(m: ClientHello, k: Kind) {
    match k
    case ServerName => m.serverName == []
    case SupportedPoints => m.supportedPoints == []
    case SessionTicket => !m.ticketSupported && m.sessionTicket == []
    case RenegotiationInfo => m.secureRenegotiation == [] && (m.secureRenegotiationSupported <==> 0x00ff in m.cipherSuites)
    case ExtendedMasterSecret => !m.extendedMasterSecret
    case Sct => !m.scts
    case EarlyData => !m.earlyData
    case QuicTransportParameters => m.quicTransportParameters == None
    case EncryptedClientHello => m.encryptedClientHello == []
    case StatusRequest => !m.ocspStapling
    case SupportedCurves => m.supportedCurves == []
    case SignatureAlgorithms => m.signatureAlgorithms == []
    case SignatureAlgorithmsCert => m.signatureAlgorithmsCert == []
    case Alpn => m.alpnProtocols == []
    case SupportedVersions => m.supportedVersions == []
    case Cookie => m.cookie == []
    case KeyShares => m.keyShares == []
    case PskModes => m.pskModes == []
    case PreSharedKey => m.pskIdentities == [] && m.pskBinders == []
  }

  /** The extensions say what m holds of a kind; pre_shared_key comes last, and what is not mentioned m does not have. */
  ghost predicate Shown(m: ClientHello, raws: seq<Raw>, k: Kind) {
    && (forall i :: 0 <= i < |raws| && raws[i].extType == Code(k) ==>
          Says(m, k, raws[i].data) && (k == PreSharedKey ==> i == |raws| - 1))
    && ((forall i :: 0 <= i < |raws| ==> raws[i].extType != Code(k)) ==> Silent(m, k))
  }

  /** The bytes behind the head: the extensions behind their length, which may be missing when there are none. */
  ghost predicate BlockOf(raws: seq<Raw>, block: bytes) {
    && AllGood(FitsRaw, raws) && |Flat(RawBytes, raws)| < 0x1_0000
    && (block == Vec(2, Flat(RawBytes, raws)) || (raws == [] && block == []))
  }

  /** The message stands in data, behind four bytes that do not matter: its head, and extensions of different types. */
  ghost predicate OnTheWire(data: bytes, p: Parsed) {
    exists raws: seq<Raw>, block: bytes ::
      && |data| >= 4 && data[4..] == HeadBytes(p.hello) + block && FitsHead(p.hello)
      && BlockOf(raws, block) && Distinct(Types(raws)) && p.extensions == Types(raws)
      && forall k :: Shown(p.hello, raws, k)
  }

  function BareOf(m: ClientHello): ClientHello {
    Bare(m.vers, m.random, m.sessionId, m.cipherSuites, m.compressionMethods)
  }

  lemma ReadsSuites(s: bytes, xs: seq<nat>)
    ensures DecodeAll(ReadU16, s) == Some(xs) <==> AllGood(Below16, xs) && s == Flat(Two, xs)
  {
    hide DecodeAll, Agreed, Flat, AllGood;
    Numbers();
    ListReadIff(WriteU16, ReadU16, Two, Below16, s, xs);
  }

  lemma FiveParts(a: bytes, b: bytes, c: bytes, d: bytes, e: bytes, f: bytes)
    ensures a + b + c + d + e + f == a + (b + (c + (d + (e + f))))
  {
  }

  lemma HeadRead(s: bytes, rest: bytes)
    requires ReadHead(s).Got? && ReadHead(s).rest == rest
    ensures var b := ReadHead(s).value; FitsHead(b) && s == HeadBytes(b) + rest && b == BareOf(b)
  {
    hide ReadU16, ReadPrefix8, ReadPrefix16, DecodeAll, Flat, AllGood, Vec, Wide, HasScsv;
    var b := ReadHead(s).value;
    var s1 := ReadU16(s).rest;
    var s2 := ReadBytes(s1, 32).rest;
    var s3 := ReadPrefix8(s2).rest;
    var suites, s4 := ReadPrefix16(s3).value, ReadPrefix16(s3).rest;
    Number16(s, b.vers, s1);
    assert s1 == b.random + s2;
    In8(s2, b.sessionId, s3);
    In16(s3, suites, s4);
    ReadsSuites(suites, b.cipherSuites);
    In8(s4, b.compressionMethods, rest);
    FiveParts(Wide(b.vers, 2), b.random, Vec(1, b.sessionId), Vec(2, suites), Vec(1, b.compressionMethods), rest);
  }

  lemma HeadReads(m: ClientHello, rest: bytes)
    requires FitsHead(m)
    ensures ReadHead(HeadBytes(m) + rest) == Got(BareOf(m), rest)
  {
    hide ReadU16, ReadPrefix8, ReadPrefix16, DecodeAll, Flat, AllGood, Vec, Wide, HasScsv, Bare;
    var suites := Flat(Two, m.cipherSuites);
    var s4 := Vec(1, m.compressionMethods) + rest;
    var s3 := Vec(2, suites) + s4;
    var s2 := Vec(1, m.sessionId) + s3;
    var s1 := m.random + s2;
    FiveParts(Wide(m.vers, 2), m.random, Vec(1, m.sessionId), Vec(2, suites), Vec(1, m.compressionMethods), rest);
    Number16(HeadBytes(m) + rest, m.vers, s1);
    assert s1[..32] == m.random && s1[32..] == s2;
    In8(s2, m.sessionId, s3);
    In16(s3, suites, s4);
    ReadsSuites(suites, m.cipherSuites);
    In8(s4, m.compressionMethods, rest);
  }

  lemma BareIsSilent(m: ClientHello, k: Kind)
    ensures Blank(BareOf(m), k) && Silent(BareOf(m), k) && SameHead(BareOf(m), m)
    ensures forall r :: SameHead(r, m) ==> (Silent(r, k) <==> SameField(r, BareOf(m), k))
  {
  }

  lemma BareBlank(m: ClientHello, raws: seq<Raw>)
    ensures AllBlank(BareOf(m), raws)
  {
    hide KindOf, Blank, Bare;
    forall i | 0 <= i < |raws| && KindOf(raws[i].extType).Some?
      ensures Blank(BareOf(m), KindOf(raws[i].extType).value)
    {
      BareIsSilent(m, KindOf(raws[i].extType).value);
    }
  }

  lemma ExtensionsRead(b: ClientHello, raws: seq<Raw>)
    requires b == BareOf(b) && Distinct(Types(raws)) && ApplyAll(b, raws).Some?
    ensures var m := ApplyAll(b, raws).value; SameHead(m, b) && forall k :: Shown(m, raws, k)
  {
    hide ApplyAll, Distinct, Types, Says, SameField, Bare, Code, Silent;
    BareBlank(b, raws);
    var m := ApplyAll(b, raws).value;
    forall k
      ensures SameHead(m, b) && Shown(m, raws, k)
    {
      TakenField(b, raws, k);
      BareIsSilent(b, k);
    }
    TakenField(b, raws, ServerName);
  }

  lemma ExtensionsReads(m: ClientHello, raws: seq<Raw>)
    requires Distinct(Types(raws)) && forall k :: Shown(m, raws, k)
    ensures ApplyAll(BareOf(m), raws) == Some(m)
  {
    hide ApplyAll, Distinct, Types, Says, SameField, Bare, Code, Silent, PutAll, KindOf;
    var b := BareOf(m);
    BareBlank(m, raws);
    forall i | 0 <= i < |raws| && KindOf(raws[i].extType).Some?
      ensures var k := KindOf(raws[i].extType).value; Says(m, k, raws[i].data) && (k == PreSharedKey ==> i == |raws| - 1)
    {
      CodesAre(raws[i].extType, KindOf(raws[i].extType).value);
      assert Shown(m, raws, KindOf(raws[i].extType).value);
    }
    AllBrought(b, raws, m);
    var r := PutAll(b, raws, m);
    forall k
      ensures SameField(r, m, k)
    {
      assert Shown(m, raws, k);
      BareIsSilent(m, k);
      BroughtField(b, raws, m, k);
      SameFieldBack(m, b, k);
    }
    BroughtField(b, raws, m, ServerName);
    BareIsSilent(m, ServerName);
    AllFieldsSame(r, m);
  }

  lemma SameFieldBack(a: ClientHello, b: ClientHello, k: Kind)
    ensures SameField(a, b, k) == SameField(b, a, k)
  {
  }

  lemma BlockReads(raws: seq<Raw>, block: bytes, bare: ClientHello)
    requires BlockOf(raws, block)
    ensures if block == [] then raws == []
            else ReadPrefix16(block) == Got(Flat(RawBytes, raws), []) && DecodeAll(ReadRaw, Flat(RawBytes, raws)) == Some(raws)
  {
    hide ReadPrefix16, DecodeAll, Agreed, Flat, AllGood;
    Raws();
    var list := Flat(RawBytes, raws);
    ListReadIff(WriteRaw, ReadRaw, RawBytes, FitsRaw, list, raws);
    In16(Vec(2, list), list, []);
    assert Vec(2, list) + [] == Vec(2, list);
  }

  lemma BlockRead(block: bytes)
    requires ReadPrefix16(block).Got? && ReadPrefix16(block).rest == [] && DecodeAll(ReadRaw, ReadPrefix16(block).value).Some?
    ensures BlockOf(DecodeAll(ReadRaw, ReadPrefix16(block).value).value, block)
  {
    hide ReadPrefix16, DecodeAll, Agreed, Flat, AllGood;
    Raws();
    var list := ReadPrefix16(block).value;
    ListReadIff(WriteRaw, ReadRaw, RawBytes, FitsRaw, list, DecodeAll(ReadRaw, list).value);
    In16(block, list, []);
    assert Vec(2, list) + [] == Vec(2, list);
  }

  /** What unmarshal accepts is on the wire. */
  lemma AcceptedOnTheWire(data: bytes)
    requires Unmarshal(data).Some?
    ensures OnTheWire(data, Unmarshal(data).value)
  {
    hide ReadHead, ReadPrefix16, DecodeAll, ApplyAll, Distinct, Types, FitsHead, HeadBytes, BlockOf, Shown, Bare, SameHead;
    var p := Unmarshal(data).value;
    var b, block := ReadHead(data[4..]).value, ReadHead(data[4..]).rest;
    HeadRead(data[4..], block);
    var raws: seq<Raw> := [];
    if block == [] {
      NoExtensions(b);
    } else {
      raws := DecodeAll(ReadRaw, ReadPrefix16(block).value).value;
      BlockRead(block);
    }
    ExtensionsRead(b, raws);
    SameHeadBytes(p.hello, b);
  }

  lemma NoExtensions(b: ClientHello)
    ensures BlockOf([], []) && Distinct(Types([])) && Types([]) == [] && ApplyAll(b, []) == Some(b)
  {
  }

  lemma SameHeadBytes(m: ClientHello, b: ClientHello)
    requires SameHead(m, b)
    ensures HeadBytes(m) == HeadBytes(b) && FitsHead(m) == FitsHead(b)
  {
  }

  /** What is on the wire is accepted. */
  lemma OnTheWireAccepted(data: bytes, p: Parsed)
    requires OnTheWire(data, p)
    ensures Unmarshal(data) == Some(p)
  {
    hide ReadHead, ReadPrefix16, DecodeAll, ApplyAll, Distinct, Types, FitsHead, HeadBytes, BlockOf, Shown, Bare;
    var raws: seq<Raw>, block: bytes :|
      && |data| >= 4 && data[4..] == HeadBytes(p.hello) + block && FitsHead(p.hello)
      && BlockOf(raws, block) && Distinct(Types(raws)) && p.extensions == Types(raws)
      && forall k :: Shown(p.hello, raws, k);
    HeadReads(p.hello, block);
    BlockReads(raws, block, BareOf(p.hello));
    ExtensionsReads(p.hello, raws);
    NoExtensions(BareOf(p.hello));
  }

  /** unmarshal accepts exactly the hellos that are on the wire, and finds in them exactly what they say. */
  lemma UnmarshalIff(data: bytes, p: Parsed)
    ensures Unmarshal(data) == Some(p) <==> OnTheWire(data, p)
  {
    hide Unmarshal, OnTheWire;
    if Unmarshal(data) == Some(p) {
      AcceptedOnTheWire(data);
    }
    if OnTheWire(data, p) {
      OnTheWireAccepted(data, p);
    }
  }

  // ---------- What is written ----------

  /** The numbers of the extensions a message is written with, from the lo-th on, up to the hi-th. */
  function Mentioned(m: ClientHello, lo: nat, hi: nat): seq<nat>
    requires hi <= KINDS
    decreases hi - lo
  {
    if lo >= hi then [] else (if Present(m, KindAt(lo)) then [CODES[lo]] else []) + Mentioned(m, lo + 1, hi)
  }

  lemma {:induction false} TypesMentioned(m: ClientHello, lo: nat, hi: nat)
    requires hi <= KINDS && Extensions(m, Range(lo, hi)).Some?
    ensures Types(RawsOf(m, Range(lo, hi))) == Mentioned(m, lo, hi)
    decreases hi - lo
  {
    hide Present, Body, KindAt, TypeOf, Prefix16, Code, CODES, Index, Types, RawsOf, U16;
    if lo < hi {
      var k, kinds := KindAt(lo), Range(lo + 1, hi);
      assert Range(lo, hi) == [k] + kinds && ([k] + kinds)[1..] == kinds;
      TypesMentioned(m, lo + 1, hi);
      CodesAre(0, k);
      CodeAt(lo);
      if Present(m, k) {
        PrefixSome16(Body(m, k));
      }
      TypesOfOneMore(m, k, kinds);
    } else {
      NoTypes(m);
    }
  }

  lemma NoTypes(m: ClientHello)
    ensures Types(RawsOf(m, [])) == []
  {
  }

  lemma TypesOfOneMore(m: ClientHello, k: Kind, kinds: seq<Kind>)
    requires Present(m, k) ==> Body(m, k).Some?
    ensures Types(RawsOf(m, [k] + kinds)) == (if Present(m, k) then [TypeOf(k)] else []) + Types(RawsOf(m, kinds))
  {
    hide Present, Body, TypeOf;
    assert ([k] + kinds)[1..] == kinds;
  }

  lemma CodeAt(n: nat)
    requires n < KINDS
    ensures Code(KindAt(n)) == CODES[n]
  {
  }

  /** Behind its type (1) and its length in three bytes, a written message says what it holds, in the order of the codes. */
  lemma MarshalWrites(m: ClientHello)
    requires WellFormed(m) && Marshal(m).Some?
    ensures var data := Marshal(m).value;
            && data == [1] + Wide(|data| - 4, 3) + data[4..]
            && OnTheWire(data, Parsed(m, Mentioned(m, 0, KINDS)))
  {
    hide Extensions, WellFormed, Unmarshal, OnTheWire, Head, Prefix16, Mentioned, Message, U24, Wide, Types, RawsOf, Range;
    var block := MessageParts(m, m.sessionId, Extensions(m, ORDER));
    UnmarshalMarshal(m);
    TypesMentioned(m, 0, KINDS);
    UnmarshalIff(Marshal(m).value, Parsed(m, TypesOf(m)));
    FrontOfMessage(Head(m, m.sessionId).value + block);
  }

  lemma FrontOfMessage(body: bytes)
    requires Prefix24(Some(body)).Some?
    ensures var data := Cat(Some(U8(TYPE_CLIENT_HELLO)), Prefix24(Some(body))).value;
            data == [1] + Wide(|data| - 4, 3) + data[4..]
  {
    hide U24, Wide;
    WideThree(|body|);
    var data := Cat(Some(U8(TYPE_CLIENT_HELLO)), Prefix24(Some(body))).value;
    assert data == [1] + (Wide(|body|, 3) + body);
    assert data[4..] == body;
  }

  // ---------- When a message can be written ----------

  function SharesLength(xs: seq<KeyShare>): nat {
    if xs == [] then 0 else 4 + |xs[0].data| + SharesLength(xs[1..])
  }

  function IdentitiesLength(xs: seq<PskIdentity>): nat {
    if xs == [] then 0 else 6 + |xs[0].identity| + IdentitiesLength(xs[1..])
  }

  /** How many bytes an extension's data takes. */
  function SizeOf(m: ClientHello, k: Kind): nat {
    match k
    case ServerName => 5 + |m.serverName|
    case SupportedPoints => 1 + |m.supportedPoints|
    case SessionTicket => |m.sessionTicket|
    case RenegotiationInfo => 1 + |m.secureRenegotiation|
    case ExtendedMasterSecret => 0
    case Sct => 0
    case EarlyData => 0
    case QuicTransportParameters => if m.quicTransportParameters.Some? then |m.quicTransportParameters.value| else 0
    case EncryptedClientHello => |m.encryptedClientHello|
    case StatusRequest => 5
    case SupportedCurves => 2 + 2 * |m.supportedCurves|
    case SignatureAlgorithms => 2 + 2 * |m.signatureAlgorithms|
    case SignatureAlgorithmsCert => 2 + 2 * |m.signatureAlgorithmsCert|
    case Alpn => 2 + ListLength(m.alpnProtocols)
    case SupportedVersions => 1 + 2 * |m.supportedVersions|
    case Cookie => 2 + |m.cookie|
    case KeyShares => 2 + SharesLength(m.keyShares)
    case PskModes => 1 + |m.pskModes|
    case PreSharedKey => 4 + IdentitiesLength(m.pskIdentities) + ListLength(m.pskBinders)
  }

  /** All its parts are short enough for the lengths in front of them. */
  ghost predicate FitsInside(m: ClientHello, k: Kind) {
    && SizeOf(m, k) < 0x1_0000
    && match k
       case SupportedPoints => |m.supportedPoints| < 0x100
       case RenegotiationInfo => |m.secureRenegotiation| < 0x100
       case PskModes => |m.pskModes| < 0x100
       case SupportedVersions => 2 * |m.supportedVersions| < 0x100
       case Alpn => forall i :: 0 <= i < |m.alpnProtocols| ==> |m.alpnProtocols[i]| < 0x100
       case PreSharedKey => forall i :: 0 <= i < |m.pskBinders| ==> |m.pskBinders[i]| < 0x100
       case _ => true
  }

  lemma {:induction false} U16sSize(xs: seq<nat>)
    ensures U16s(xs).Some? && |U16s(xs).value| == 2 * |xs|
    decreases |xs|
  {
    if xs != [] {
      U16sSize(xs[1..]);
    }
  }

  lemma {:induction false} StringsSize(xs: seq<bytes>)
    ensures EncodeAll(WriteString8, xs).Some? <==> forall i :: 0 <= i < |xs| ==> |xs[i]| < 0x100
    ensures EncodeAll(WriteString8, xs).Some? ==> |EncodeAll(WriteString8, xs).value| == ListLength(xs)
    decreases |xs|
  {
    if xs != [] {
      StringsSize(xs[1..]);
      assert forall i :: 1 <= i < |xs| ==> xs[i] == xs[1..][i - 1];
      assert forall i :: 0 <= i < |xs[1..]| ==> xs[1..][i] == xs[i + 1];
    }
  }

  lemma {:induction false} SharesSize(xs: seq<KeyShare>)
    ensures SharesLength(xs) < 0x1_0000 ==> EncodeAll(WriteKeyShare, xs).Some?
    ensures EncodeAll(WriteKeyShare, xs).Some? ==> |EncodeAll(WriteKeyShare, xs).value| == SharesLength(xs)
    decreases |xs|
  {
    hide U16;
    if xs != [] {
      SharesSize(xs[1..]);
    }
  }

  lemma {:induction false} IdentitiesSize(xs: seq<PskIdentity>)
    ensures IdentitiesLength(xs) < 0x1_0000 ==> EncodeAll(WriteIdentity, xs).Some?
    ensures EncodeAll(WriteIdentity, xs).Some? ==> |EncodeAll(WriteIdentity, xs).value| == IdentitiesLength(xs)
    decreases |xs|
  {
    hide U16, U32;
    if xs != [] {
      IdentitiesSize(xs[1..]);
    }
  }

  /** The data of an extension can be written, behind its length, when it fits. */
  lemma BodyFits(m: ClientHello, k: Kind)
    requires Present(m, k)
    ensures Prefix16(Body(m, k)).Some? <==> FitsInside(m, k)
    ensures FitsInside(m, k) ==> |Prefix16(Body(m, k)).value| == 2 + SizeOf(m, k)
  {
    hide U16, EncodeAll, U16s, ListLength, SharesLength, IdentitiesLength;
    match k
    case SupportedCurves => U16sSize(m.supportedCurves);
    case SignatureAlgorithms => U16sSize(m.signatureAlgorithms);
    case SignatureAlgorithmsCert => U16sSize(m.signatureAlgorithmsCert);
    case SupportedVersions => U16sSize(m.supportedVersions);
    case Alpn => StringsSize(m.alpnProtocols);
    case KeyShares => SharesSize(m.keyShares);
    case PreSharedKey => StringsSize(m.pskBinders); IdentitiesSize(m.pskIdentities);
    case _ =>
  }

  /** All extensions from the n-th on, with type and length. */
  function SizeFrom(m: ClientHello, n: nat): nat
    requires n <= KINDS
    decreases KINDS - n
  {
    if n == KINDS then 0 else (if Present(m, KindAt(n)) then 4 + SizeOf(m, KindAt(n)) else 0) + SizeFrom(m, n + 1)
  }

  lemma {:induction false} ExtensionsFit(m: ClientHello, n: nat)
    requires n <= KINDS
    ensures Extensions(m, Range(n, KINDS)).Some? <==>
              forall i :: n <= i < KINDS && Present(m, KindAt(i)) ==> FitsInside(m, KindAt(i))
    ensures Extensions(m, Range(n, KINDS)).Some? ==> |Extensions(m, Range(n, KINDS)).value| == SizeFrom(m, n)
    decreases KINDS - n
  {
    hide Present, Body, KindAt, TypeOf, Prefix16, U16, FitsInside, SizeOf;
    if n < KINDS {
      NextInRange(n);
      ExtensionsFit(m, n + 1);
      if Present(m, KindAt(n)) {
        BodyFits(m, KindAt(n));
      }
    }
  }

  /**
   * A message is written if and only if its random is of 32 bytes, and all strings, lists, extensions, and the
   * extensions together, are short enough for the lengths in front of them.
   */
  lemma MarshalIff(m: ClientHello)
    ensures Marshal(m).Some? <==>
              && |m.random| == 32 && |m.sessionId| < 0x100 && 2 * |m.cipherSuites| < 0x1_0000 && |m.compressionMethods| < 0x100
              && (forall i :: 0 <= i < KINDS && Present(m, KindAt(i)) ==> FitsInside(m, KindAt(i)))
              && SizeFrom(m, 0) < 0x1_0000
  {
    hide Present, KindAt, FitsInside, SizeFrom, U16, U24, U16s, Extensions, Range;
    ExtensionsFit(m, 0);
    U16sSize(m.cipherSuites);
    HeadFits(m);
    if Extensions(m, ORDER).Some? && Extensions(m, ORDER).value == [] {
      assert SizeFrom(m, 0) == 0;
    }
  }

  lemma HeadFits(m: ClientHello)
    ensures Head(m, m.sessionId).Some? <==>
              |m.random| == 32 && |m.sessionId| < 0x100 && 2 * |m.cipherSuites| < 0x1_0000 && |m.compressionMethods| < 0x100
    ensures Head(m, m.sessionId).Some? ==> |Head(m, m.sessionId).value| < 0x1_0400
  {
    hide U16, U16s;
    U16sSize(m.cipherSuites);
  }
}
