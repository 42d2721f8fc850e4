/** Encoding a ClientHello and decoding it again: when that gives the same message, and what decoding accepts. */
module HelloRoundTrips {
  import opened ClientHellos
  import opened Cryptobyte
  import opened Wrappers

  // ---------- The round trip ----------

  ghost predicate AllU16(xs: seq<nat>) {
    forall i :: 0 <= i < |xs| ==> xs[i] < 0x1_0000
  }

  ghost predicate GoodShares(xs: seq<KeyShare>) {
    forall i :: 0 <= i < |xs| ==> xs[i].group < 0x1_0000 && xs[i].data != []
  }

  ghost predicate GoodIdentities(xs: seq<PskIdentity>) {
    forall i :: 0 <= i < |xs| ==> xs[i].identity != [] && xs[i].obfuscatedTicketAge < 0x1_0000_0000
  }

  /** What a message must be for its encoding to say all of it, beyond what marshal itself checks. */
  ghost predicate WellFormed(m: ClientHello) {
    && m.vers < 0x1_0000 && AllU16(m.cipherSuites)
    && (m.serverName != [] ==> m.serverName[|m.serverName| - 1] != DOT)
    && AllU16(m.supportedCurves) && AllU16(m.signatureAlgorithms) && AllU16(m.signatureAlgorithmsCert)
    && AllU16(m.supportedVersions)
    && (m.sessionTicket != [] ==> m.ticketSupported)
    && (m.secureRenegotiation != [] || HasScsv(m.cipherSuites) ==> m.secureRenegotiationSupported)
    && AllNonempty(m.alpnProtocols)
    && GoodShares(m.keyShares) && GoodIdentities(m.pskIdentities)
    && AllNonempty(m.pskBinders) && (m.pskBinders == [] <==> m.pskIdentities == [])
  }

  lemma U16sRoundTrip(xs: seq<nat>)
    requires AllU16(xs)
    ensures U16s(xs).Some? ==> DecodeAll(ReadU16, U16s(xs).value) == Some(xs)
    ensures xs != [] && U16s(xs).Some? ==> U16s(xs).value != []
  {
    hide U16, ReadU16;
    forall i | 0 <= i < |xs|
      ensures ReadsBack(WriteU16, ReadU16, xs[i])
    {
      U16ReadsBack(xs[i]);
    }
    ListRoundTrip(WriteU16, ReadU16, xs);
  }

  lemma Strings8RoundTrip(xs: seq<bytes>)
    ensures var b := EncodeAll(WriteString8, xs);
            b.Some? ==> DecodeAll(ReadPrefix8, b.value) == Some(xs) && (xs != [] ==> b.value != [])
  {
    hide ReadPrefix8;
    forall i | 0 <= i < |xs|
      ensures ReadsBack(WriteString8, ReadPrefix8, xs[i])
    {
      String8ReadsBack(xs[i]);
    }
    ListRoundTrip(WriteString8, ReadPrefix8, xs);
  }

  /** base with the fields of one extension taken from m. */
  function Put(base: ClientHello, k: Kind, m: ClientHello): ClientHello {
    match k
    case ServerName => base.(serverName := m.serverName)
    case SupportedPoints => base.(supportedPoints := m.supportedPoints)
    case SessionTicket => base.(ticketSupported := m.ticketSupported, sessionTicket := m.sessionTicket)
    case RenegotiationInfo =>
      base.(secureRenegotiationSupported := base.secureRenegotiationSupported || m.secureRenegotiationSupported,
            secureRenegotiation := m.secureRenegotiation)
    case ExtendedMasterSecret => base.(extendedMasterSecret := m.extendedMasterSecret)
    case Sct => base.(scts := m.scts)
    case EarlyData => base.(earlyData := m.earlyData)
    case QuicTransportParameters => base.(quicTransportParameters := m.quicTransportParameters)
    case EncryptedClientHello => base.(encryptedClientHello := m.encryptedClientHello)
    case StatusRequest => base.(ocspStapling := m.ocspStapling)
    case SupportedCurves => base.(supportedCurves := m.supportedCurves)
    case SignatureAlgorithms => base.(signatureAlgorithms := m.signatureAlgorithms)
    case SignatureAlgorithmsCert => base.(signatureAlgorithmsCert := m.signatureAlgorithmsCert)
    case Alpn => base.(alpnProtocols := m.alpnProtocols)
    case SupportedVersions => base.(supportedVersions := m.supportedVersions)
    case Cookie => base.(cookie := m.cookie)
    case KeyShares => base.(keyShares := m.keyShares)
    case PskModes => base.(pskModes := m.pskModes)
    case PreSharedKey => base.(pskIdentities := m.pskIdentities, pskBinders := m.pskBinders)
  }

  /** base has nothing yet in the fields that the extension adds to. */
  predicate Blank(base: ClientHello, k: Kind) {
    match k
    case ServerName => base.serverName == []
    case SupportedCurves => base.supportedCurves == []
    case SignatureAlgorithms => base.signatureAlgorithms == []
    case SignatureAlgorithmsCert => base.signatureAlgorithmsCert == []
    case Alpn => base.alpnProtocols == []
    case SupportedVersions => base.supportedVersions == []
    case KeyShares => base.keyShares == []
    case PreSharedKey => base.pskIdentities == [] && base.pskBinders == []
    case _ => true
  }

  /** The extension of one kind in m brings its fields, and no others, into a message that lacks them. */
  ghost predicate Carries(base: ClientHello, m: ClientHello, k: Kind, last: bool) {
    Body(m, k).Some? ==> Apply(base, Raw(TypeOf(k), Body(m, k).value), last) == Some(Put(base, k, m))
  }

  lemma CarriesServerName(base: ClientHello, m: ClientHello, last: bool)
    requires WellFormed(m) && m.serverName != [] && Blank(base, ServerName) && Body(m, ServerName).Some?
    ensures Carries(base, m, ServerName, last)
  {
    hide ReadPrefix16, Prefix16, ReadName, WriteName, DecodeAll;
    var n := Name(0, m.serverName);
    PrefixSome16(WriteName(n));
    var list := WriteName(n).value;
    NameReadsBack(n);
    ListOfOne(WriteName, ReadName, n);
    Alone16(list);
    OneHostName(m.serverName);
  }

  lemma ListOfOne<T>(write: T -> builder, read: bytes -> Read<T>, x: T)
    requires ReadsBack(write, read, x) && write(x).Some?
    ensures DecodeAll(read, write(x).value) == Some([x]) && write(x).value != []
  {
    var b := write(x).value;
    assert b + [] == b;
    assert read(b + []) == Got(x, []);
    assert [x] + [] == [x];
  }

  lemma OneHostName(name: bytes)
    requires name != [] && name[|name| - 1] != DOT
    ensures HostName([], [Name(0, name)]) == Some(name)
  {
    assert [Name(0, name)][1..] == [];
    assert HostName(name, []) == Some(name);
  }

  lemma CarriesFlags(base: ClientHello, m: ClientHello, k: Kind, last: bool)
    requires k in {ExtendedMasterSecret, Sct, EarlyData, EncryptedClientHello, SessionTicket, QuicTransportParameters}
    requires WellFormed(m) && Present(m, k) && Blank(base, k) && Body(m, k).Some?
    ensures Carries(base, m, k, last)
  {
  }

  lemma CarriesStrings(base: ClientHello, m: ClientHello, k: Kind, last: bool)
    requires k in {SupportedPoints, RenegotiationInfo, PskModes, Cookie}
    requires WellFormed(m) && Present(m, k) && Blank(base, k) && Body(m, k).Some?
    ensures Carries(base, m, k, last)
  {
    hide ReadPrefix16, Prefix16, ReadPrefix8, Prefix8;
    match k
    case SupportedPoints => Alone8(m.supportedPoints);
    case RenegotiationInfo => Alone8(m.secureRenegotiation);
    case PskModes => Alone8(m.pskModes);
    case Cookie => Alone16(m.cookie);
  }

  lemma CarriesStatusRequest(base: ClientHello, m: ClientHello, last: bool)
    requires WellFormed(m) && m.ocspStapling && Blank(base, StatusRequest)
    ensures Carries(base, m, StatusRequest, last)
  {
    var data: bytes := [1, 0, 0, 0, 0];
    assert data[1..] == [0, 0, 0, 0] && data[1..][2..] == [0, 0];
    assert ReadPrefix16(data[1..]) == Got([], [0, 0]);
    assert ReadPrefix16([0, 0]) == Got([], []);
  }

  lemma CarriesU16s(base: ClientHello, m: ClientHello, k: Kind, last: bool)
    requires k in {SupportedCurves, SignatureAlgorithms, SignatureAlgorithmsCert, SupportedVersions}
    requires WellFormed(m) && Present(m, k) && Blank(base, k) && Body(m, k).Some?
    ensures Carries(base, m, k, last)
  {
    hide ReadPrefix16, Prefix16, ReadPrefix8, Prefix8, U16s, ReadU16, DecodeAll;
    match k
    case SupportedCurves => CarriedIn16(m.supportedCurves);
    case SignatureAlgorithms => CarriedIn16(m.signatureAlgorithms);
    case SignatureAlgorithmsCert => CarriedIn16(m.signatureAlgorithmsCert);
    case SupportedVersions =>
      PrefixSome8(U16s(m.supportedVersions));
      U16sRoundTrip(m.supportedVersions);
      Alone8(U16s(m.supportedVersions).value);
      assert [] + m.supportedVersions == m.supportedVersions;
  }

  lemma CarriedIn16(xs: seq<nat>)
    requires AllU16(xs) && xs != [] && Prefix16(U16s(xs)).Some?
    ensures ListIn16(ReadU16, Prefix16(U16s(xs)).value) == Some(xs) && [] + xs == xs
  {
    hide ReadPrefix16, Prefix16, U16s, ReadU16, DecodeAll;
    PrefixSome16(U16s(xs));
    U16sRoundTrip(xs);
    Alone16(U16s(xs).value);
  }

  lemma CarriedStrings(xs: seq<bytes>)
    requires AllNonempty(xs) && xs != [] && Prefix16(EncodeAll(WriteString8, xs)).Some?
    ensures ListIn16(ReadPrefix8, Prefix16(EncodeAll(WriteString8, xs)).value) == Some(xs) && [] + xs == xs
  {
    hide ReadPrefix16, Prefix16, EncodeAll, ReadPrefix8, DecodeAll;
    PrefixSome16(EncodeAll(WriteString8, xs));
    Strings8RoundTrip(xs);
    Alone16(EncodeAll(WriteString8, xs).value);
  }

  lemma CarriesAlpn(base: ClientHello, m: ClientHello, last: bool)
    requires WellFormed(m) && m.alpnProtocols != [] && Blank(base, Alpn) && Body(m, Alpn).Some?
    ensures Carries(base, m, Alpn, last)
  {
    hide ReadPrefix16, Prefix16, EncodeAll, ReadPrefix8, DecodeAll;
    CarriedStrings(m.alpnProtocols);
  }

  lemma CarriesKeyShares(base: ClientHello, m: ClientHello, last: bool)
    requires WellFormed(m) && m.keyShares != [] && Blank(base, KeyShares) && Body(m, KeyShares).Some?
    ensures Carries(base, m, KeyShares, last)
  {
    hide ReadPrefix16, Prefix16, EncodeAll, ReadKeyShare, DecodeAll;
    var list := EncodeAll(WriteKeyShare, m.keyShares);
    PrefixSome16(list);
    forall i | 0 <= i < |m.keyShares|
      ensures ReadsBack(WriteKeyShare, ReadKeyShare, m.keyShares[i])
    {
      KeyShareReadsBack(m.keyShares[i]);
    }
    ListRoundTrip(WriteKeyShare, ReadKeyShare, m.keyShares);
    Alone16(list.value);
    assert [] + m.keyShares == m.keyShares;
  }

  lemma CarriesPreSharedKey(base: ClientHello, m: ClientHello)
    requires WellFormed(m) && m.pskIdentities != [] && Blank(base, PreSharedKey) && Body(m, PreSharedKey).Some?
    ensures Carries(base, m, PreSharedKey, true)
  {
    hide ReadPrefix16, Prefix16, EncodeAll, ReadIdentity, ReadPrefix8, DecodeAll;
    var list := EncodeAll(WriteIdentity, m.pskIdentities);
    var binders := Binders(m.pskBinders);
    PrefixSome16(list);
    forall i | 0 <= i < |m.pskIdentities|
      ensures ReadsBack(WriteIdentity, ReadIdentity, m.pskIdentities[i])
    {
      IdentityReadsBack(m.pskIdentities[i]);
    }
    ListRoundTrip(WriteIdentity, ReadIdentity, m.pskIdentities);
    Prefix16RoundTrip(list.value, binders.value);
    IdentitiesNonempty(m.pskIdentities);
    CarriedStrings(m.pskBinders);
    assert [] + m.pskIdentities == m.pskIdentities;
  }

  lemma IdentitiesNonempty(xs: seq<PskIdentity>)
    requires xs != [] && EncodeAll(WriteIdentity, xs).Some?
    ensures EncodeAll(WriteIdentity, xs).value != []
  {
  }

  lemma CarriesOwn(base: ClientHello, m: ClientHello, k: Kind, last: bool)
    requires WellFormed(m) && Present(m, k) && Blank(base, k) && Body(m, k).Some? && (k == PreSharedKey ==> last)
    ensures Carries(base, m, k, last)
  {
    hide Carries, WellFormed, Body, Blank;
    match k
    case ServerName => CarriesServerName(base, m, last);
    case StatusRequest => CarriesStatusRequest(base, m, last);
    case Alpn => CarriesAlpn(base, m, last);
    case KeyShares => CarriesKeyShares(base, m, last);
    case PreSharedKey => CarriesPreSharedKey(base, m);
    case SupportedPoints => CarriesStrings(base, m, k, last);
    case RenegotiationInfo => CarriesStrings(base, m, k, last);
    case PskModes => CarriesStrings(base, m, k, last);
    case Cookie => CarriesStrings(base, m, k, last);
    case SupportedCurves => CarriesU16s(base, m, k, last);
    case SignatureAlgorithms => CarriesU16s(base, m, k, last);
    case SignatureAlgorithmsCert => CarriesU16s(base, m, k, last);
    case SupportedVersions => CarriesU16s(base, m, k, last);
    case _ => CarriesFlags(base, m, k, last);
  }

  // ---------- All extensions together ----------

  /** The extensions of m, for the given kinds, as they stand on the wire. */
  function RawsOf(m: ClientHello, kinds: seq<Kind>): seq<Raw> {
    if kinds == [] then []
    else
      var body := Body(m, kinds[0]);
      (if Present(m, kinds[0]) && body.Some? then [Raw(TypeOf(kinds[0]), body.value)] else []) + RawsOf(m, kinds[1..])
  }

  ghost predicate NoRepeats(kinds: seq<Kind>) {
    forall i, j :: 0 <= i < j < |kinds| ==> kinds[i] != kinds[j]
  }

  lemma {:induction false} ExtensionsAreRaws(m: ClientHello, kinds: seq<Kind>)
    ensures Extensions(m, kinds).Some? ==> Extensions(m, kinds) == EncodeAll(WriteRaw, RawsOf(m, kinds))
    decreases |kinds|
  {
    hide Present, Body, Prefix16, U16;
    if kinds != [] && Extensions(m, kinds).Some? {
      var rest := RawsOf(m, kinds[1..]);
      ExtensionsAreRaws(m, kinds[1..]);
      if Present(m, kinds[0]) {
        PrefixSome16(Body(m, kinds[0]));
        var raw := Raw(TypeOf(kinds[0]), Body(m, kinds[0]).value);
        assert ([raw] + rest)[1..] == rest;
      } else {
        CatEmpty(Extensions(m, kinds[1..]));
        assert [] + rest == rest;
      }
    }
  }

  lemma {:induction false} RawsHaveKinds(m: ClientHello, kinds: seq<Kind>, i: nat) returns (j: nat)
    requires i < |RawsOf(m, kinds)|
    ensures j < |kinds| && RawsOf(m, kinds)[i].extType == TypeOf(kinds[j])
    decreases |kinds|
  {
    hide Present, Body;
    var first := |RawsOf(m, kinds)| - |RawsOf(m, kinds[1..])|;
    if i < first {
      j := 0;
    } else {
      j := RawsHaveKinds(m, kinds[1..], i - first);
      j := j + 1;
    }
  }

  lemma {:induction false} RawsDistinct(m: ClientHello, kinds: seq<Kind>)
    requires NoRepeats(kinds)
    ensures Distinct(Types(RawsOf(m, kinds)))
    decreases |kinds|
  {
    hide Present, Body, TypeOf;
    if kinds != [] {
      var rest := RawsOf(m, kinds[1..]);
      RawsDistinct(m, kinds[1..]);
      var raws := RawsOf(m, kinds);
      if |raws| > |rest| {
        forall j | 1 <= j < |raws|
          ensures raws[0].extType != raws[j].extType
        {
          assert raws[j] == rest[j - 1];
          var n := RawsHaveKinds(m, kinds[1..], j - 1);
          KindOfTypeOf(kinds[0]);
          KindOfTypeOf(kinds[n + 1]);
          assert kinds[1..][n] == kinds[n + 1];
        }
        assert raws == [raws[0]] + rest;
      } else {
        assert raws == rest;
      }
    }
  }

  /** The bare message of m with its first n kinds of extensions. */
  function Partial(m: ClientHello, n: nat): ClientHello {
    ClientHello(
      m.vers, m.random, m.sessionId, m.cipherSuites, m.compressionMethods,
      if n > 0 then m.serverName else [],
      n > 9 && m.ocspStapling,
      if n > 10 then m.supportedCurves else [],
      if n > 1 then m.supportedPoints else [],
      n > 2 && m.ticketSupported, if n > 2 then m.sessionTicket else [],
      if n > 11 then m.signatureAlgorithms else [],
      if n > 12 then m.signatureAlgorithmsCert else [],
      HasScsv(m.cipherSuites) || (n > 3 && m.secureRenegotiationSupported),
      if n > 3 then m.secureRenegotiation else [],
      n > 4 && m.extendedMasterSecret,
      if n > 13 then m.alpnProtocols else [],
      n > 5 && m.scts,
      if n > 14 then m.supportedVersions else [],
      if n > 15 then m.cookie else [],
      if n > 16 then m.keyShares else [],
      n > 6 && m.earlyData,
      if n > 17 then m.pskModes else [],
      if n > 18 then m.pskIdentities else [], if n > 18 then m.pskBinders else [],
      if n > 7 then m.quicTransportParameters else None,
      if n > 8 then m.encryptedClientHello else [])
  }

  lemma PartialBlank(m: ClientHello, k: Kind)
    ensures Blank(Partial(m, Index(k)), k)
  {
  }

  lemma PutPartial(m: ClientHello, k: Kind)
    ensures Put(Partial(m, Index(k)), k, m) == Partial(m, Index(k) + 1)
  {
  }

  lemma AbsentPartial(m: ClientHello, k: Kind)
    requires WellFormed(m) && !Present(m, k)
    ensures Partial(m, Index(k)) == Partial(m, Index(k) + 1)
  {
  }

  lemma PartialWhole(m: ClientHello)
    requires WellFormed(m)
    ensures Partial(m, KINDS) == m
    ensures Partial(m, 0) == Bare(m.vers, m.random, m.sessionId, m.cipherSuites, m.compressionMethods)
  {
  }

  lemma {:induction false} ApplyRaws(m: ClientHello, n: nat)
    requires WellFormed(m) && n <= KINDS && Extensions(m, Range(n, KINDS)).Some?
    ensures ApplyAll(Partial(m, n), RawsOf(m, Range(n, KINDS))) == Some(Partial(m, KINDS))
    decreases KINDS - n
  {
    hide Present, Body, Partial, Apply, WellFormed, KindAt, TypeOf, Prefix16;
    if n < KINDS {
      var k, rest := KindAt(n), Range(n + 1, KINDS);
      assert Range(n, KINDS)[1..] == rest;
      IndexOfKindAt(n);
      ApplyRaws(m, n + 1);
      var raws := RawsOf(m, rest);
      if Present(m, k) {
        PrefixSome16(Body(m, k));
        var raw := Raw(TypeOf(k), Body(m, k).value);
        assert RawsOf(m, Range(n, KINDS)) == [raw] + raws;
        assert ([raw] + raws)[1..] == raws;
        if k == PreSharedKey {
          assert n == KINDS - 1;
          assert rest == [];
        }
        PartialBlank(m, k);
        CarriesOwn(Partial(m, n), m, k, |[raw] + raws| == 1);
        PutPartial(m, k);
      } else {
        assert RawsOf(m, Range(n, KINDS)) == [] + raws == raws;
        AbsentPartial(m, k);
      }
    }
  }

  lemma {:induction false} RangeNoRepeats(lo: nat, hi: nat)
    requires hi <= KINDS
    ensures NoRepeats(Range(lo, hi)) && forall i :: 0 <= i < |Range(lo, hi)| ==> Index(Range(lo, hi)[i]) == lo + i
    decreases hi - lo
  {
    hide KindAt, Index;
    if lo < hi {
      RangeNoRepeats(lo + 1, hi);
      IndexOfKindAt(lo);
      var r, rest := Range(lo, hi), Range(lo + 1, hi);
      forall i | 0 <= i < |r|
        ensures Index(r[i]) == lo + i
      {
        if i > 0 {
          assert r[i] == rest[i - 1];
        }
      }
    }
  }

  lemma HeadRoundTrip(m: ClientHello, sessionId: bytes, rest: bytes)
    requires WellFormed(m) && Head(m, sessionId).Some?
    ensures ReadHead(Head(m, sessionId).value + rest)
         == Got(Bare(m.vers, m.random, sessionId, m.cipherSuites, m.compressionMethods), rest)
  {
    hide U16, ReadU16, Prefix8, Prefix16, ReadPrefix8, ReadPrefix16, U16s, DecodeAll, Bare;
    PrefixSome16(U16s(m.cipherSuites));
    var vers, id := U16(m.vers), Prefix8(Some(sessionId)).value;
    var suites, compression := Prefix16(U16s(m.cipherSuites)).value, Prefix8(Some(m.compressionMethods)).value;
    var s4 := compression + rest;
    var s3 := suites + s4;
    var s2 := id + s3;
    var s1 := m.random + s2;
    assert Head(m, sessionId).value == vers + m.random + id + suites + compression;
    Regroup(vers, m.random, id, suites, compression, rest);
    U16RoundTrip(m.vers, s1);
    assert s1[..32] == m.random && s1[32..] == s2;
    Prefix8RoundTrip(sessionId, s3);
    Prefix16RoundTrip(U16s(m.cipherSuites).value, s4);
    U16sRoundTrip(m.cipherSuites);
    Prefix8RoundTrip(m.compressionMethods, rest);
  }

  lemma Regroup(a: bytes, b: bytes, c: bytes, d: bytes, e: bytes, f: bytes)
    ensures a + b + c + d + e + f == a + (b + (c + (d + (e + f))))
  {
  }

  /** The types of the extensions that m is written with. */
  function TypesOf(m: ClientHello): seq<nat> { Types(RawsOf(m, ORDER)) }

  lemma ExtensionsRoundTrip(m: ClientHello)
    requires WellFormed(m) && Extensions(m, ORDER).Some?
    ensures ParseExtensions(Partial(m, 0), Extensions(m, ORDER).value) == Some(Parsed(m, TypesOf(m)))
  {
    hide Partial, ReadRaw, WriteRaw, RawsOf, Extensions, Types, Distinct, ApplyAll, DecodeAll, EncodeAll, KindAt, TypeOf,
         Index, WellFormed, Range, ParseExtensions, NoRepeats;
    ExtensionsAreRaws(m, ORDER);
    var raws := RawsOf(m, ORDER);
    forall i | 0 <= i < |raws|
      ensures ReadsBack(WriteRaw, ReadRaw, raws[i])
    {
      var j := RawsHaveKinds(m, ORDER, i);
      RawReadsBack(raws[i]);
    }
    ListRoundTrip(WriteRaw, ReadRaw, raws);
    RangeNoRepeats(0, KINDS);
    RawsDistinct(m, ORDER);
    ApplyRaws(m, 0);
    PartialWhole(m);
    ParsedRaws(Partial(m, 0), Extensions(m, ORDER).value, raws, m);
  }

  lemma ParsedRaws(base: ClientHello, s: bytes, raws: seq<Raw>, m: ClientHello)
    requires DecodeAll(ReadRaw, s) == Some(raws) && Distinct(Types(raws)) && ApplyAll(base, raws) == Some(m)
    ensures ParseExtensions(base, s) == Some(Parsed(m, Types(raws)))
  {
    hide DecodeAll, Distinct, ApplyAll, Types;
  }

  /** Unmarshalling what was marshalled gives the message back, for every well-formed message that can be marshalled. */
  lemma UnmarshalMarshal(m: ClientHello)
    requires WellFormed(m) && Marshal(m).Some?
    ensures Unmarshal(Marshal(m).value) == Some(Parsed(m, TypesOf(m)))
  {
    hide Partial, Prefix24, Prefix16, ReadPrefix16, ReadHead, Head, ParseExtensions, Extensions, WellFormed, Bare, U24, Message;
    var extensions := Extensions(m, ORDER);
    var block := MessageParts(m, m.sessionId, extensions);
    var head := Head(m, m.sessionId);
    HeadRoundTrip(m, m.sessionId, block);
    PartialWhole(m);
    ExtensionsRoundTrip(m);
    if extensions.value == [] {
      NothingParsed(Partial(m, 0));
    } else {
      Alone16(extensions.value);
      PrefixNonempty(extensions);
    }
  }

  /** What a whole message consists of. */
  lemma MessageParts(m: ClientHello, sessionId: bytes, extensions: builder) returns (block: bytes)
    requires Message(m, sessionId, extensions).Some?
    ensures extensions.Some? && Head(m, sessionId).Some?
    ensures if extensions.value == [] then block == [] else Prefix16(extensions) == Some(block)
    ensures var data := Message(m, sessionId, extensions).value;
            |data| >= 4 && data[4..] == Head(m, sessionId).value + block
    ensures Message(m, sessionId, extensions)
         == Cat(Some(U8(TYPE_CLIENT_HELLO)), Prefix24(Some(Head(m, sessionId).value + block)))
  {
    hide Prefix16, Head, U24;
    var inner := Cat(Head(m, sessionId), if extensions.value == [] then Some([]) else Prefix16(extensions));
    PrefixSome24(inner);
    block := if extensions.value == [] then [] else Prefix16(extensions).value;
    MessageBody(inner.value);
  }

  lemma MessageBody(body: bytes)
    requires Prefix24(Some(body)).Some?
    ensures Cat(Some(U8(TYPE_CLIENT_HELLO)), Prefix24(Some(body))).value[4..] == body
  {
  }

  lemma NothingParsed(m: ClientHello)
    ensures ParseExtensions(m, []) == Some(Parsed(m, []))
  {
  }

  // ---------- What unmarshal accepts ----------

  lemma DecodedU16s(s: bytes)
    ensures DecodeAll(ReadU16, s).Some? ==> AllU16(DecodeAll(ReadU16, s).value)
  {
    AllDecoded(ReadU16, (n: nat) => n < 0x1_0000, s);
  }

  lemma AppendU16s(xs: seq<nat>, ys: seq<nat>)
    requires AllU16(xs) && AllU16(ys)
    ensures AllU16(xs + ys)
  {
  }

  lemma {:induction false} HostNameHasNoDot(found: bytes, names: seq<Name>)
    requires found != [] ==> found[|found| - 1] != DOT
    ensures var h := HostName(found, names); h.Some? && h.value != [] ==> h.value[|h.value| - 1] != DOT
    decreases |names|
  {
    if names != [] && names[0].name != [] {
      if names[0].nameType != 0 {
        HostNameHasNoDot(found, names[1..]);
      } else if found == [] && names[0].name[|names[0].name| - 1] != DOT {
        HostNameHasNoDot(names[0].name, names[1..]);
      }
    }
  }

  lemma PsksWellFormed(data: bytes)
    ensures ParsePsks(data).Some? ==>
              var psks := ParsePsks(data).value;
              psks.0 != [] && psks.1 != [] && AllNonempty(psks.1) && GoodIdentities(psks.0)
  {
    hide ReadPrefix16, ReadU32, ReadPrefix8;
    if ParsePsks(data).Some? {
      AllDecoded(ReadIdentity, (p: PskIdentity) => p.obfuscatedTicketAge < 0x1_0000_0000, ReadPrefix16(data).value);
      AllDecoded(ReadPrefix8, (x: bytes) => true, ReadPrefix16(ReadPrefix16(data).rest).value);
    }
  }

  predicate IsListKind(k: Kind) {
    k in {ServerName, SupportedCurves, SignatureAlgorithms, SignatureAlgorithmsCert, SupportedVersions, KeyShares,
          PreSharedKey, Alpn}
  }

  lemma ListsKeepWellFormed(m: ClientHello, raw: Raw, last: bool, kind: Kind)
    requires WellFormed(m) && Apply(m, raw, last).Some? && KindOf(raw.extType) == Some(kind) && IsListKind(kind)
    ensures WellFormed(Apply(m, raw, last).value)
  {
    hide ReadPrefix16, ReadPrefix8, ReadU16, DecodeAll, AllU16, AllNonempty, GoodShares, GoodIdentities,
         ParseKeyShares, ParsePreSharedKey, HostName, KindOf;
    match kind
    case ServerName => HostNameHasNoDot(m.serverName, ListIn16(ReadName, raw.data).value);
    case SupportedCurves => ListKeepsU16s(m.supportedCurves, raw.data);
    case SignatureAlgorithms => ListKeepsU16s(m.signatureAlgorithms, raw.data);
    case SignatureAlgorithmsCert => ListKeepsU16s(m.signatureAlgorithmsCert, raw.data);
    case SupportedVersions =>
      DecodedU16s(ReadPrefix8(raw.data).value);
      AppendU16s(m.supportedVersions, ListIn8(ReadU16, raw.data).value);
    case KeyShares => SharesKeepWellFormed(m, raw.data);
    case PreSharedKey => PsksKeepWellFormed(m, raw.data);
    case Alpn => AppendNonempty(m.alpnProtocols, ListIn16(ReadPrefix8, raw.data).value);
  }

  predicate IsStringKind(k: Kind) {
    k in {SupportedPoints, RenegotiationInfo, PskModes, Cookie}
  }

  predicate IsFlagKind(k: Kind) {
    || k.StatusRequest? || k.SessionTicket? || k.ExtendedMasterSecret? || k.Sct? || k.EarlyData?
    || k.QuicTransportParameters? || k.EncryptedClientHello?
  }

  lemma KindGroups(k: Kind)
    ensures IsListKind(k) || IsStringKind(k) || IsFlagKind(k)
  {
  }

  lemma StringsKeepWellFormed(m: ClientHello, raw: Raw, last: bool, kind: Kind)
    requires WellFormed(m) && Apply(m, raw, last).Some? && KindOf(raw.extType) == Some(kind) && IsStringKind(kind)
    ensures WellFormed(Apply(m, raw, last).value)
  {
    hide ReadPrefix16, ReadPrefix8, DecodeAll, AllU16, AllNonempty, GoodShares, GoodIdentities, KindOf, HasScsv,
         ParseStatusRequest, ListIn16, ListIn8, StringIn8;
    match kind
    case SupportedPoints =>
    case RenegotiationInfo =>
    case PskModes =>
    case Cookie =>
  }

  lemma FlagsKeepWellFormed(m: ClientHello, raw: Raw, last: bool, kind: Kind)
    requires WellFormed(m) && Apply(m, raw, last).Some? && KindOf(raw.extType) == Some(kind) && IsFlagKind(kind)
    ensures WellFormed(Apply(m, raw, last).value)
  {
    hide ReadPrefix16, ReadPrefix8, DecodeAll, AllU16, AllNonempty, GoodShares, GoodIdentities, KindOf, HasScsv,
         ParseStatusRequest, ListIn16, ListIn8, StringIn8;
    match kind
    case StatusRequest => StatusKeepsWellFormed(m, raw.data);
    case SessionTicket =>
    case ExtendedMasterSecret =>
    case Sct =>
    case EarlyData =>
    case QuicTransportParameters =>
    case EncryptedClientHello =>
  }

  lemma StatusKeepsWellFormed(m: ClientHello, data: bytes)
    requires WellFormed(m) && ParseStatusRequest(m, data).Some?
    ensures WellFormed(ParseStatusRequest(m, data).value)
  {
    hide ReadPrefix16, AllU16, AllNonempty, GoodShares, GoodIdentities, HasScsv;
  }

  /** Each extension leaves a well-formed message well-formed. */
  lemma ApplyKeepsWellFormed(m: ClientHello, raw: Raw, last: bool)
    requires WellFormed(m) && Apply(m, raw, last).Some?
    ensures WellFormed(Apply(m, raw, last).value)
  {
    hide WellFormed, Apply, KindOf, IsListKind, IsStringKind, IsFlagKind;
    match KindOf(raw.extType)
    case None => UnknownIgnored(m, raw, last);
    case Some(kind) =>
      KindGroups(kind);
      if IsListKind(kind) {
        ListsKeepWellFormed(m, raw, last, kind);
      } else if IsStringKind(kind) {
        StringsKeepWellFormed(m, raw, last, kind);
      } else {
        FlagsKeepWellFormed(m, raw, last, kind);
      }
  }

  lemma UnknownIgnored(m: ClientHello, raw: Raw, last: bool)
    requires KindOf(raw.extType).None?
    ensures Apply(m, raw, last) == Some(m)
  {
    hide KindOf;
  }

  lemma AppendShares(xs: seq<KeyShare>, ys: seq<KeyShare>)
    requires GoodShares(xs) && GoodShares(ys)
    ensures GoodShares(xs + ys)
  {
  }

  lemma AppendNonempty(xs: seq<bytes>, ys: seq<bytes>)
    requires AllNonempty(xs) && AllNonempty(ys)
    ensures AllNonempty(xs + ys)
  {
  }

  lemma ListKeepsU16s(xs: seq<nat>, data: bytes)
    requires AllU16(xs)
    ensures ListIn16(ReadU16, data).Some? ==> AllU16(xs + ListIn16(ReadU16, data).value)
  {
    hide ReadPrefix16, DecodeAll, AllU16, ReadU16;
    if ListIn16(ReadU16, data).Some? {
      DecodedU16s(ReadPrefix16(data).value);
      AppendU16s(xs, ListIn16(ReadU16, data).value);
    }
  }

  predicate GoodShare(k: KeyShare) { k.group < 0x1_0000 }

  lemma SharesKeepWellFormed(m: ClientHello, data: bytes)
    requires WellFormed(m) && ParseKeyShares(m, data).Some?
    ensures WellFormed(ParseKeyShares(m, data).value)
  {
    hide ReadPrefix16, DecodeAll, AllU16, AllNonempty, ReadKeyShare;
    var list := ReadPrefix16(data).value;
    var shares := DecodeAll(ReadKeyShare, list).value;
    DecodedShares(list);
    forall i | 0 <= i < |shares|
      ensures shares[i].group < 0x1_0000 && shares[i].data != []
    {
      assert GoodShare(shares[i]);
    }
    AppendShares(m.keyShares, shares);
  }

  lemma DecodedShares(list: bytes)
    requires DecodeAll(ReadKeyShare, list).Some?
    ensures forall i :: 0 <= i < |DecodeAll(ReadKeyShare, list).value| ==> GoodShare(DecodeAll(ReadKeyShare, list).value[i])
  {
    AllDecoded(ReadKeyShare, GoodShare, list);
  }

  lemma PsksKeepWellFormed(m: ClientHello, data: bytes)
    requires WellFormed(m) && ParsePreSharedKey(m, data).Some?
    ensures WellFormed(ParsePreSharedKey(m, data).value)
  {
    hide ParsePsks, AllU16, AllNonempty, GoodIdentities, GoodShares;
    PsksWellFormed(data);
    var psks := ParsePsks(data).value;
    AppendNonempty(m.pskBinders, psks.1);
    AppendIdentities(m.pskIdentities, psks.0);
  }

  lemma AppendIdentities(xs: seq<PskIdentity>, ys: seq<PskIdentity>)
    requires GoodIdentities(xs) && GoodIdentities(ys)
    ensures GoodIdentities(xs + ys)
  {
  }

  lemma {:induction false} ApplyAllKeepsWellFormed(m: ClientHello, raws: seq<Raw>)
    requires WellFormed(m) && ApplyAll(m, raws).Some?
    ensures WellFormed(ApplyAll(m, raws).value)
    decreases |raws|
  {
    hide WellFormed, Apply;
    if raws != [] {
      ApplyKeepsWellFormed(m, raws[0], |raws| == 1);
      ApplyAllKeepsWellFormed(Apply(m, raws[0], |raws| == 1).value, raws[1..]);
    }
  }

  lemma BareWellFormed(s: bytes)
    ensures ReadHead(s).Got? ==> WellFormed(ReadHead(s).value)
  {
    hide ReadPrefix16, ReadPrefix8, DecodeAll, AllU16;
    if ReadHead(s).Got? {
      DecodedU16s(ReadPrefix16(ReadPrefix8(ReadBytes(ReadU16(s).rest, 32).rest).rest).value);
      NoU16s();
    }
  }

  lemma NoU16s()
    ensures AllU16([])
  {
  }

  /** Every hello that unmarshal accepts is well-formed. */
  lemma AcceptedIsWellFormed(data: bytes)
    requires Unmarshal(data).Some?
    ensures WellFormed(Unmarshal(data).value.hello)
  {
    hide ReadHead, WellFormed, ReadPrefix16, DecodeAll, ApplyAll;
    BareWellFormed(data[4..]);
    var bare, s := ReadHead(data[4..]).value, ReadHead(data[4..]).rest;
    if s != [] {
      ApplyAllKeepsWellFormed(bare, DecodeAll(ReadRaw, ReadPrefix16(s).value).value);
    }
  }

  /** The round trip holds exactly for the well-formed messages. */
  lemma RoundTripIff(m: ClientHello)
    requires Marshal(m).Some?
    ensures Unmarshal(Marshal(m).value) == Some(Parsed(m, TypesOf(m))) <==> WellFormed(m)
  {
    hide Marshal, Unmarshal, WellFormed, TypesOf;
    var data := Marshal(m).value;
    if WellFormed(m) {
      UnmarshalMarshal(m);
    }
    if Unmarshal(data).Some? {
      AcceptedIsWellFormed(data);
    }
  }
}
