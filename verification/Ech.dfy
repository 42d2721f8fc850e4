/** Compression of an inner ClientHello against an outer one, and its reconstruction (ech.go). */
module Ech {
  import opened ClientHellos
  import opened Cryptobyte
  import opened HelloRoundTrips
  import opened Wrappers

  const ECH_OUTER_EXTENSIONS := 0xfd00
  const INNER_ECH_EXT: byte := 1
  const VERSION_TLS13 := 0x0304

  // The inner hello writes the first extension, skips four that it cannot have, writes four more, refers to the outer
  // hello for nine, and ends with pre_shared_key.

  const FIRST := Range(0, 1)
  const DROPPED := Range(1, 5)
  const MIDDLE := Range(5, 9)
  const COMPRESSIBLE := Range(9, 18)
  const LAST := Range(18, 19)

  // ---------- Encoding ----------

  /** The types of the extensions that m has among the given kinds. */
  function PresentTypes(m: ClientHello, kinds: seq<Kind>): seq<nat> {
    if kinds == [] then []
    else (if Present(m, kinds[0]) then [TypeOf(kinds[0])] else []) + PresentTypes(m, kinds[1..])
  }

  /** The extension that stands for those taken from the outer hello. */
  function OuterExtensions(types: seq<nat>): builder {
    if types == [] then Some([]) else Cat(Some(U16(ECH_OUTER_EXTENSIONS)), Prefix16(Prefix8(U16s(types))))
  }

  function InnerExtensions(m: ClientHello): builder {
    Cat(Cat(Cat(Extensions(m, FIRST), Extensions(m, MIDDLE)), OuterExtensions(PresentTypes(m, COMPRESSIBLE))),
        Extensions(m, LAST))
  }

  /** marshalMsg with echInner set. */
  function MarshalInner(m: ClientHello): builder {
    Message(m, [], InnerExtensions(m))
  }

  function ZeroBytes(n: nat): (z: bytes)
    ensures |z| == n && forall i :: 0 <= i < n ==> z[i] == 0
  {
    seq(n, _ => 0)
  }

  /** encodeInnerClientHello: without the four bytes in front, and padded. */
  function EncodeInner(m: ClientHello, padding: nat): builder {
    match MarshalInner(m)
    case None => None
    case Some(h) => if |h| < 4 then None else Some(h[4..] + ZeroBytes(padding))
  }

  // ---------- Decoding ----------

  /** The first extension of the given type from index i on. */
  function FindFrom(raws: seq<Raw>, extType: nat, i: nat): (j: Option<nat>)
    requires i <= |raws|
    ensures j.Some? ==> i <= j.value < |raws| && raws[j.value].extType == extType
    ensures j.Some? ==> forall k :: i <= k < j.value ==> raws[k].extType != extType
    ensures j.None? ==> forall k :: i <= k < |raws| ==> raws[k].extType != extType
    decreases |raws| - i
  {
    if i == |raws| then None
    else if raws[i].extType == extType then Some(i)
    else FindFrom(raws, extType, i + 1)
  }

  /** The outer extensions that a list of types refers to; the search never goes back. */
  function Expand(types: seq<nat>, outer: seq<Raw>, i: nat): Option<seq<Raw>>
    requires i <= |outer|
    decreases |types|
  {
    if types == [] then Some([])
    else if types[0] == TypeOf(EncryptedClientHello) then None
    else
      match FindFrom(outer, types[0], i)
      case None => None
      case Some(j) =>
        match Expand(types[1..], outer, j)
        case None => None
        case Some(raws) => Some([outer[j]] + raws)
  }

  /** An outer_extensions extension becomes the extensions it refers to; any other stays. */
  function Rebuild(raw: Raw, outer: seq<Raw>): builder {
    if raw.extType != ECH_OUTER_EXTENSIONS then WriteRaw(raw)
    else
      match ReadPrefix8(raw.data)
      case Short => None
      case Got(list, _) =>
        match DecodeAll(ReadU16, list)
        case None => None
        case Some(types) =>
          match Expand(types, outer, 0)
          case None => None
          case Some(raws) => EncodeAll(WriteRaw, raws)
  }

  function RebuildAll(raws: seq<Raw>, outer: seq<Raw>): builder {
    if raws == [] then Some([]) else Cat(Rebuild(raws[0], outer), RebuildAll(raws[1..], outer))
  }

  function RebuildExtensions(s: bytes, outer: seq<Raw>): builder {
    match DecodeAll(ReadRaw, s)
    case None => None
    case Some(raws) => RebuildAll(raws, outer)
  }

  /** extractRawExtensions. */
  function RawExtensions(original: bytes): Option<seq<Raw>> {
    match ReadBytes(original, 4 + 2 + 32)
    case Short => None
    case Got(_, s1) =>
      match ReadPrefix8(s1)
      case Short => None
      case Got(_, s2) =>
        match ReadPrefix16(s2)
        case Short => None
        case Got(_, s3) =>
          match ReadPrefix8(s3)
          case Short => None
          case Got(_, s4) =>
            match ReadPrefix16(s4)
            case Short => None
            case Got(extensions, _) => DecodeAll(ReadRaw, extensions)
  }

  /** The parts of an encoded inner hello. */
  datatype Encoded = Encoded(versionAndRandom: bytes, cipherSuites: bytes, compressionMethods: bytes, extensions: bytes)

  predicate AllZero(s: bytes) {
    forall i :: 0 <= i < |s| ==> s[i] == 0
  }

  function ReadEncoded(s: bytes): Option<Encoded> {
    match ReadBytes(s, 2 + 32)
    case Short => None
    case Got(versionAndRandom, s1) =>
      match ReadPrefix8(s1)
      case Short => None
      case Got(sessionId, s2) =>
        match ReadPrefix16(s2)
        case Short => None
        case Got(cipherSuites, s3) =>
          match ReadPrefix8(s3)
          case Short => None
          case Got(compressionMethods, s4) =>
            match ReadPrefix16(s4)
            case Short => None
            case Got(extensions, s5) =>
              if sessionId != [] || !AllZero(s5) then None
              else Some(Encoded(versionAndRandom, cipherSuites, compressionMethods, extensions))
  }

  /** The reconstructed message: the inner hello with the outer session ID and its extensions in full. */
  function Reconstruct(original: bytes, sessionId: bytes, encoded: bytes): builder {
    match ReadEncoded(encoded)
    case None => None
    case Some(e) =>
      match RawExtensions(original)
      case None => None
      case Some(outer) =>
        Cat(Some(U8(TYPE_CLIENT_HELLO)),
            Prefix24(Cat(Cat(Cat(Cat(Some(e.versionAndRandom), Prefix8(Some(sessionId))), Prefix16(Some(e.cipherSuites))),
                             Prefix8(Some(e.compressionMethods))),
                         Prefix16(RebuildExtensions(e.extensions, outer)))))
  }

  /** A reserved value of the form 0x?A0A, repeated. */
  predicate Grease(v: nat) {
    v % 16 == 10 && v / 256 % 16 == 10 && v % 256 == v / 256
  }

  /** No version below TLS 1.3 is offered, and TLS 1.3 is. */
  predicate OffersTls13(versions: seq<nat>) {
    && VERSION_TLS13 in versions
    && forall i :: 0 <= i < |versions| ==> Grease(versions[i]) || versions[i] >= VERSION_TLS13
  }

  function DecodeInner(original: bytes, sessionId: bytes, encoded: bytes): Option<Parsed> {
    match Reconstruct(original, sessionId, encoded)
    case None => None
    case Some(data) =>
      match Unmarshal(data)
      case None => None
      case Some(p) =>
        if p.hello.encryptedClientHello == [INNER_ECH_EXT] && OffersTls13(p.hello.supportedVersions) then Some(p) else None
  }

  // ---------- The search runs in outer order ----------

  /** What a list of types expands to stands in the outer hello in the same order, without going back. */
  lemma {:induction false} ExpandsInOrder(types: seq<nat>, outer: seq<Raw>, i: nat) returns (js: seq<nat>)
    requires i <= |outer| && Expand(types, outer, i).Some?
    ensures |js| == |types| == |Expand(types, outer, i).value|
    ensures forall k :: 0 <= k < |js| ==>
              && i <= js[k] < |outer|
              && Expand(types, outer, i).value[k] == outer[js[k]]
              && outer[js[k]].extType == types[k]
    ensures forall k, l :: 0 <= k <= l < |js| ==> js[k] <= js[l]
    decreases |types|
  {
    if types == [] {
      js := [];
    } else {
      var j := FindFrom(outer, types[0], i).value;
      var rest := ExpandsInOrder(types[1..], outer, j);
      js := [j] + rest;
      var xs := Expand(types[1..], outer, j).value;
      forall k | 0 <= k < |js|
        ensures j <= js[k] < |outer| && ([outer[j]] + xs)[k] == outer[js[k]] && outer[js[k]].extType == types[k]
      {
        if k > 0 {
          assert js[k] == rest[k - 1] && types[k] == types[1..][k - 1];
        }
      }
    }
  }

  // ---------- Lists of extensions ----------

  lemma {:induction false} RangeSplit(lo: nat, mid: nat, hi: nat)
    requires lo <= mid <= hi <= KINDS
    ensures Range(lo, hi) == Range(lo, mid) + Range(mid, hi)
    decreases mid - lo
  {
    hide KindAt;
    if lo < mid {
      RangeSplit(lo + 1, mid, hi);
    }
  }

  lemma {:induction false} ExtensionsAppend(m: ClientHello, a: seq<Kind>, b: seq<Kind>)
    ensures Extensions(m, a + b) == Cat(Extensions(m, a), Extensions(m, b))
    decreases |a|
  {
    hide Extension;
    if a == [] {
      assert a + b == b;
      CatEmpty(Extensions(m, b));
    } else {
      assert (a + b)[1..] == a[1..] + b;
      ExtensionsAppend(m, a[1..], b);
      CatAssoc(Extension(m, a[0]), Extensions(m, a[1..]), Extensions(m, b));
    }
  }

  lemma {:induction false} RawsAppend(m: ClientHello, a: seq<Kind>, b: seq<Kind>)
    ensures RawsOf(m, a + b) == RawsOf(m, a) + RawsOf(m, b)
    decreases |a|
  {
    hide Present, Body;
    if a == [] {
      assert a + b == b;
    } else {
      assert (a + b)[1..] == a[1..] + b;
      RawsAppend(m, a[1..], b);
    }
  }

  lemma {:induction false} EncodeAllAppend<T>(write: T -> builder, a: seq<T>, b: seq<T>)
    ensures EncodeAll(write, a + b) == Cat(EncodeAll(write, a), EncodeAll(write, b))
    decreases |a|
  {
    if a == [] {
      assert a + b == b;
      CatEmpty(EncodeAll(write, b));
    } else {
      assert (a + b)[1..] == a[1..] + b;
      EncodeAllAppend(write, a[1..], b);
      CatAssoc(write(a[0]), EncodeAll(write, a[1..]), EncodeAll(write, b));
    }
  }

  lemma {:induction false} RebuildAllAppend(a: seq<Raw>, b: seq<Raw>, outer: seq<Raw>)
    ensures RebuildAll(a + b, outer) == Cat(RebuildAll(a, outer), RebuildAll(b, outer))
    decreases |a|
  {
    hide Rebuild;
    if a == [] {
      assert a + b == b;
      CatEmpty(RebuildAll(b, outer));
    } else {
      assert (a + b)[1..] == a[1..] + b;
      RebuildAllAppend(a[1..], b, outer);
      CatAssoc(Rebuild(a[0], outer), RebuildAll(a[1..], outer), RebuildAll(b, outer));
    }
  }

  lemma NotOuterExtensions(k: Kind)
    ensures TypeOf(k) != ECH_OUTER_EXTENSIONS
  {
  }

  /** Extensions of known kinds are left as they are. */
  lemma {:induction false} OwnStay(m: ClientHello, kinds: seq<Kind>, outer: seq<Raw>)
    ensures RebuildAll(RawsOf(m, kinds), outer) == EncodeAll(WriteRaw, RawsOf(m, kinds))
    decreases |kinds|
  {
    hide Present, Body, TypeOf;
    if kinds != [] {
      OwnStay(m, kinds[1..], outer);
      var raws, rest := RawsOf(m, kinds), RawsOf(m, kinds[1..]);
      if |raws| > |rest| {
        NotOuterExtensions(kinds[0]);
        assert raws[1..] == rest;
      } else {
        assert raws == rest;
      }
    }
  }

  // ---------- Finding the outer extensions ----------

  /** inner and outer have the same contents in the compressible extensions that inner has. */
  ghost predicate Agree(inner: ClientHello, outer: ClientHello) {
    forall n :: 9 <= n < 18 && Present(inner, KindAt(n)) ==>
      Present(outer, KindAt(n)) && Body(inner, KindAt(n)) == Body(outer, KindAt(n)) && Body(outer, KindAt(n)).Some?
  }

  /** Where the n-th kind stands among the extensions of m. */
  function Position(m: ClientHello, n: nat): nat
    requires n <= KINDS
  {
    |RawsOf(m, Range(0, n))|
  }

  lemma AtPosition(m: ClientHello, n: nat)
    requires n < KINDS && Present(m, KindAt(n)) && Body(m, KindAt(n)).Some?
    ensures var raws, p := RawsOf(m, ORDER), Position(m, n);
            && p < |raws| && raws[p] == Raw(TypeOf(KindAt(n)), Body(m, KindAt(n)).value)
            && p + 1 == Position(m, n + 1)
            && forall i :: 0 <= i < p ==> raws[i].extType != raws[p].extType
  {
    hide Present, Body, KindAt, TypeOf;
    RangeSplit(0, n, KINDS);
    RangeSplit(n, n + 1, KINDS);
    RangeSplit(0, n, n + 1);
    var one := Range(n, n + 1);
    assert one == [KindAt(n)] + Range(n + 1, n + 1) == [KindAt(n)];
    RawsAppend(m, Range(0, n), Range(n, KINDS));
    RawsAppend(m, one, Range(n + 1, KINDS));
    RawsAppend(m, Range(0, n), one);
    OneRaw(m, KindAt(n));
    RangeNoRepeats(0, KINDS);
    RawsDistinct(m, ORDER);
    var raws, p := RawsOf(m, ORDER), Position(m, n);
    forall i | 0 <= i < p
      ensures raws[i].extType != raws[p].extType
    {
      assert Types(raws)[i] == raws[i].extType && Types(raws)[p] == raws[p].extType;
    }
  }

  lemma OneRaw(m: ClientHello, k: Kind)
    requires Present(m, k) && Body(m, k).Some?
    ensures RawsOf(m, [k]) == [Raw(TypeOf(k), Body(m, k).value)]
  {
    hide Present, Body, TypeOf;
    assert [k][1..] == [];
  }

  lemma FindsAt(raws: seq<Raw>, extType: nat, i: nat, p: nat)
    requires i <= p < |raws| && raws[p].extType == extType && forall j :: 0 <= j < p ==> raws[j].extType != extType
    ensures FindFrom(raws, extType, i) == Some(p)
  {
    hide FindFrom;
    var found := FindFrom(raws, extType, i);
  }

  lemma CompressibleType(n: nat)
    requires 9 <= n < 18
    ensures TypeOf(KindAt(n)) != TypeOf(EncryptedClientHello)
  {
  }

  lemma PositionsGrow(m: ClientHello, n: nat)
    requires n < KINDS
    ensures Position(m, n) <= Position(m, n + 1)
  {
    hide Present, Body, KindAt;
    RangeSplit(0, n, n + 1);
    RawsAppend(m, Range(0, n), Range(n, n + 1));
  }

  /** The list of types written by the inner hello expands, against the outer hello, to the inner's own extensions. */
  lemma {:induction false} ExpandsToOwn(inner: ClientHello, outer: ClientHello, n: nat, i: nat)
    requires Agree(inner, outer) && 9 <= n <= 18 && i <= Position(outer, n) && i <= |RawsOf(outer, ORDER)|
    ensures Expand(PresentTypes(inner, Range(n, 18)), RawsOf(outer, ORDER), i) == Some(RawsOf(inner, Range(n, 18)))
    decreases 18 - n
  {
    hide Present, Body, KindAt, TypeOf, FindFrom, Position;
    if n < 18 {
      var k, rest := KindAt(n), Range(n + 1, 18);
      assert Range(n, 18) == [k] + rest && ([k] + rest)[1..] == rest;
      PositionsGrow(outer, n);
      if Present(inner, k) {
        AtPosition(outer, n);
        var p := Position(outer, n);
        FindsAt(RawsOf(outer, ORDER), TypeOf(k), i, p);
        CompressibleType(n);
        ExpandsToOwn(inner, outer, n + 1, p);
        assert ([TypeOf(k)] + PresentTypes(inner, rest))[1..] == PresentTypes(inner, rest);
      } else {
        ExpandsToOwn(inner, outer, n + 1, i);
        assert [] + PresentTypes(inner, rest) == PresentTypes(inner, rest);
        assert [] + RawsOf(inner, rest) == RawsOf(inner, rest);
      }
    }
  }

  // ---------- The round trip ----------

  lemma Regroup5(a: bytes, b: bytes, c: bytes, d: bytes, e: bytes)
    ensures a + b + c + d + e == a + (b + (c + (d + e)))
  {
  }

  /** The parts of a head, and where they end. */
  lemma HeadParts(m: ClientHello, sessionId: bytes) returns (id: bytes, suites: bytes, compression: bytes)
    requires Head(m, sessionId).Some?
    ensures |m.random| == 32 && U16s(m.cipherSuites).Some?
    ensures Prefix8(Some(sessionId)) == Some(id) && Prefix16(U16s(m.cipherSuites)) == Some(suites)
    ensures Prefix8(Some(m.compressionMethods)) == Some(compression)
    ensures Head(m, sessionId).value == (U16(m.vers) + m.random) + id + suites + compression
  {
    hide U16, Prefix8, Prefix16, U16s;
    PrefixSome16(U16s(m.cipherSuites));
    id := Prefix8(Some(sessionId)).value;
    suites := Prefix16(U16s(m.cipherSuites)).value;
    compression := Prefix8(Some(m.compressionMethods)).value;
  }

  lemma OuterRead(outer: ClientHello)
    requires Marshal(outer).Some? && WellFormed(outer) && Extensions(outer, ORDER).value != []
    ensures RawExtensions(Marshal(outer).value) == Some(RawsOf(outer, ORDER))
  {
    hide U16, Prefix8, Prefix16, ReadPrefix8, ReadPrefix16, U16s, Extensions, RawsOf, DecodeAll, Head, Message, ReadRaw, WellFormed,
         Range, Prefix24, U24;
    var extensions := Extensions(outer, ORDER);
    var block := MessageParts(outer, outer.sessionId, extensions);
    var id, suites, compression := HeadParts(outer, outer.sessionId);
    var data := Marshal(outer).value;
    var front := U16(outer.vers) + outer.random;
    Regroup5(front, id, suites, compression, block);
    var s1 := id + (suites + (compression + block));
    assert data[4..] == front + s1;
    DropBoth(data, front, s1);
    Prefix8RoundTrip(outer.sessionId, suites + (compression + block));
    Prefix16RoundTrip(U16s(outer.cipherSuites).value, compression + block);
    Prefix8RoundTrip(outer.compressionMethods, block);
    Alone16(extensions.value);
    RawsRead(outer);
  }

  lemma DropBoth(data: bytes, front: bytes, s: bytes)
    requires |data| >= 4 && data[4..] == front + s && |front| == 34
    ensures ReadBytes(data, 38) == Got(data[..38], s)
  {
    assert data[38..] == data[4..][34..];
  }

  lemma RawsRead(m: ClientHello)
    requires Extensions(m, ORDER).Some?
    ensures DecodeAll(ReadRaw, Extensions(m, ORDER).value) == Some(RawsOf(m, ORDER))
  {
    hide ReadRaw, WriteRaw, RawsOf, Extensions, DecodeAll, EncodeAll, TypeOf, Range;
    ExtensionsAreRaws(m, ORDER);
    var raws := RawsOf(m, ORDER);
    forall i | 0 <= i < |raws|
      ensures ReadsBack(WriteRaw, ReadRaw, raws[i])
    {
      var j := RawsHaveKinds(m, ORDER, i);
      RawReadsBack(raws[i]);
    }
    ListRoundTrip(WriteRaw, ReadRaw, raws);
  }

  /** The raw extensions of an inner hello as it is encoded. */
  function OuterRaw(types: seq<nat>): seq<Raw> {
    var list := Prefix8(U16s(types));
    if types == [] || list.None? then [] else [Raw(ECH_OUTER_EXTENSIONS, list.value)]
  }

  function InnerRaws(m: ClientHello): seq<Raw> {
    RawsOf(m, FIRST) + RawsOf(m, MIDDLE) + OuterRaw(PresentTypes(m, COMPRESSIBLE)) + RawsOf(m, LAST)
  }

  lemma OuterRawEncoded(types: seq<nat>)
    requires OuterExtensions(types).Some?
    ensures OuterExtensions(types) == EncodeAll(WriteRaw, OuterRaw(types))
    ensures types != [] ==> Prefix8(U16s(types)).Some?
  {
    hide Prefix16, Prefix8, U16s, U16;
    if types != [] {
      PrefixSome16(Prefix8(U16s(types)));
      var raw := Raw(ECH_OUTER_EXTENSIONS, Prefix8(U16s(types)).value);
      assert [raw][1..] == [];
      CatEmpty(WriteRaw(raw));
    }
  }

  lemma InnerRawsEncoded(m: ClientHello)
    requires InnerExtensions(m).Some?
    ensures InnerExtensions(m) == EncodeAll(WriteRaw, InnerRaws(m))
  {
    hide Extensions, RawsOf, OuterExtensions, OuterRaw, PresentTypes, EncodeAll, WriteRaw, Range;
    var types := PresentTypes(m, COMPRESSIBLE);
    ExtensionsAreRaws(m, FIRST);
    ExtensionsAreRaws(m, MIDDLE);
    ExtensionsAreRaws(m, LAST);
    OuterRawEncoded(types);
    EncodeAllAppend(WriteRaw, RawsOf(m, FIRST), RawsOf(m, MIDDLE));
    EncodeAllAppend(WriteRaw, RawsOf(m, FIRST) + RawsOf(m, MIDDLE), OuterRaw(types));
    EncodeAllAppend(WriteRaw, RawsOf(m, FIRST) + RawsOf(m, MIDDLE) + OuterRaw(types), RawsOf(m, LAST));
  }

  lemma InnerRawTypes(m: ClientHello, i: nat)
    requires i < |InnerRaws(m)|
    ensures InnerRaws(m)[i].extType < 0x1_0000
  {
    hide RawsOf, PresentTypes, TypeOf, U16s, Range, Prefix8;
    var a, b, c := |RawsOf(m, FIRST)|, |RawsOf(m, MIDDLE)|, |OuterRaw(PresentTypes(m, COMPRESSIBLE))|;
    if i < a {
      var j := RawsHaveKinds(m, FIRST, i);
    } else if i < a + b {
      var j := RawsHaveKinds(m, MIDDLE, i - a);
    } else if i >= a + b + c {
      var j := RawsHaveKinds(m, LAST, i - a - b - c);
    }
  }

  lemma InnerRawsRead(m: ClientHello)
    requires InnerExtensions(m).Some?
    ensures DecodeAll(ReadRaw, InnerExtensions(m).value) == Some(InnerRaws(m))
  {
    hide InnerExtensions, InnerRaws, ReadRaw, WriteRaw, DecodeAll, EncodeAll;
    InnerRawsEncoded(m);
    var raws := InnerRaws(m);
    forall i | 0 <= i < |raws|
      ensures ReadsBack(WriteRaw, ReadRaw, raws[i])
    {
      InnerRawTypes(m, i);
      RawReadsBack(raws[i]);
    }
    ListRoundTrip(WriteRaw, ReadRaw, raws);
  }

  lemma {:induction false} TypesFit(m: ClientHello, kinds: seq<Kind>)
    ensures AllU16(PresentTypes(m, kinds))
    decreases |kinds|
  {
    hide Present, TypeOf;
    if kinds != [] {
      TypesFit(m, kinds[1..]);
    }
  }

  lemma {:induction false} NoTypesNoRaws(m: ClientHello, kinds: seq<Kind>)
    ensures PresentTypes(m, kinds) == [] ==> RawsOf(m, kinds) == []
    decreases |kinds|
  {
    hide Present, Body, TypeOf;
    if kinds != [] {
      NoTypesNoRaws(m, kinds[1..]);
    }
  }

  /** inner has none of the extensions that an encoded inner hello leaves out. */
  ghost predicate OnlyTls13(inner: ClientHello) {
    inner.supportedPoints == [] && !inner.ticketSupported && !inner.secureRenegotiationSupported && !inner.extendedMasterSecret
  }

  lemma DroppedAbsent(inner: ClientHello)
    requires OnlyTls13(inner)
    ensures Extensions(inner, DROPPED) == Some([])
  {
    hide Body, Prefix16, U16, TypeOf;
    var a, b, c, d := KindAt(1), KindAt(2), KindAt(3), KindAt(4);
    assert Range(4, 5) == [d] + Range(5, 5) == [d];
    assert Range(3, 5) == [c] + [d];
    assert Range(2, 5) == [b] + ([c] + [d]);
    assert Range(1, 5) == [a] + ([b] + ([c] + [d]));
    ExtensionsAppend(inner, [a], [b] + ([c] + [d]));
    ExtensionsAppend(inner, [b], [c] + [d]);
    ExtensionsAppend(inner, [c], [d]);
    AbsentAlone(inner, a);
    AbsentAlone(inner, b);
    AbsentAlone(inner, c);
    AbsentAlone(inner, d);
    CatEmpty(Some([]));
  }

  lemma AbsentAlone(m: ClientHello, k: Kind)
    requires !Present(m, k)
    ensures Extensions(m, [k]) == Some([])
  {
    hide Present, Body;
    assert [k][1..] == [];
    CatEmpty(Some([]));
  }

  lemma OuterRebuilt(inner: ClientHello, outer: ClientHello)
    requires Agree(inner, outer) && OuterExtensions(PresentTypes(inner, COMPRESSIBLE)).Some?
    ensures RebuildAll(OuterRaw(PresentTypes(inner, COMPRESSIBLE)), RawsOf(outer, ORDER))
         == EncodeAll(WriteRaw, RawsOf(inner, COMPRESSIBLE))
  {
    hide PresentTypes, RawsOf, Expand, U16s, Prefix8, ReadPrefix8, DecodeAll, EncodeAll, Agree, WriteRaw, Range, OuterExtensions;
    var types, raws := PresentTypes(inner, COMPRESSIBLE), RawsOf(outer, ORDER);
    OuterRawEncoded(types);
    if types == [] {
      NoTypesNoRaws(inner, COMPRESSIBLE);
      EncodeNothing();
    } else {
      TypesFit(inner, COMPRESSIBLE);
      PrefixSome8(U16s(types));
      Alone8(U16s(types).value);
      U16sRoundTrip(types);
      ExpandsToOwn(inner, outer, 9, 0);
      var raw := Raw(ECH_OUTER_EXTENSIONS, Prefix8(U16s(types)).value);
      assert [raw][1..] == [];
      CatEmpty(Rebuild(raw, raws));
    }
  }

  lemma EncodeNothing()
    ensures EncodeAll(WriteRaw, []) == Some([])
  {
  }

  lemma OrderSplit(m: ClientHello)
    ensures Extensions(m, ORDER)
         == Cat(Cat(Cat(Cat(Extensions(m, FIRST), Extensions(m, DROPPED)), Extensions(m, MIDDLE)), Extensions(m, COMPRESSIBLE)),
                Extensions(m, LAST))
  {
    hide Extensions, Range;
    RangeSplit(0, 1, 5);
    RangeSplit(0, 5, 9);
    RangeSplit(0, 9, 18);
    RangeSplit(0, 18, 19);
    ExtensionsAppend(m, FIRST, DROPPED);
    ExtensionsAppend(m, Range(0, 5), MIDDLE);
    ExtensionsAppend(m, Range(0, 9), COMPRESSIBLE);
    ExtensionsAppend(m, Range(0, 18), LAST);
  }

  /** The rebuilt extensions are those of the inner hello in full. */
  lemma RebuildsInner(inner: ClientHello, outer: ClientHello)
    requires Agree(inner, outer) && OnlyTls13(inner) && InnerExtensions(inner).Some? && Extensions(inner, ORDER).Some?
    ensures RebuildAll(InnerRaws(inner), RawsOf(outer, ORDER)) == Extensions(inner, ORDER)
  {
    hide Extensions, RawsOf, OuterExtensions, OuterRaw, PresentTypes, EncodeAll, WriteRaw, RebuildAll, Agree, OnlyTls13, Range;
    var raws, types := RawsOf(outer, ORDER), PresentTypes(inner, COMPRESSIBLE);
    OrderSplit(inner);
    DroppedAbsent(inner);
    CatEmpty(Extensions(inner, FIRST));
    ExtensionsAreRaws(inner, FIRST);
    ExtensionsAreRaws(inner, MIDDLE);
    ExtensionsAreRaws(inner, COMPRESSIBLE);
    ExtensionsAreRaws(inner, LAST);
    OwnStay(inner, FIRST, raws);
    OwnStay(inner, MIDDLE, raws);
    OwnStay(inner, LAST, raws);
    OuterRebuilt(inner, outer);
    RebuildAllAppend(RawsOf(inner, FIRST), RawsOf(inner, MIDDLE), raws);
    RebuildAllAppend(RawsOf(inner, FIRST) + RawsOf(inner, MIDDLE), OuterRaw(types), raws);
    RebuildAllAppend(RawsOf(inner, FIRST) + RawsOf(inner, MIDDLE) + OuterRaw(types), RawsOf(inner, LAST), raws);
  }

  lemma {:induction false} SessionIdElsewhere(m: ClientHello, sessionId: bytes, kinds: seq<Kind>)
    ensures Extensions(m.(sessionId := sessionId), kinds) == Extensions(m, kinds)
    decreases |kinds|
  {
    if kinds != [] {
      SessionIdElsewhere(m, sessionId, kinds[1..]);
      SameExtension(m, sessionId, kinds[0]);
    }
  }

  lemma SameExtension(m: ClientHello, sessionId: bytes, k: Kind)
    ensures Extension(m.(sessionId := sessionId), k) == Extension(m, k)
  {
    hide Prefix16, Prefix8, EncodeAll, U16s;
  }

  /** What readers find in an encoded inner hello. */
  lemma EncodedRead(inner: ClientHello, padding: nat)
    requires EncodeInner(inner, padding).Some? && InnerExtensions(inner).Some? && InnerExtensions(inner).value != []
    ensures U16s(inner.cipherSuites).Some? && |inner.random| == 32
    ensures ReadEncoded(EncodeInner(inner, padding).value)
         == Some(Encoded(U16(inner.vers) + inner.random, U16s(inner.cipherSuites).value, inner.compressionMethods,
                         InnerExtensions(inner).value))
  {
    hide U16, Prefix8, Prefix16, ReadPrefix8, ReadPrefix16, U16s, Extensions, OuterExtensions, PresentTypes, Head, Message, Range,
         InnerExtensions;
    var extensions := InnerExtensions(inner);
    var block := MessageParts(inner, [], extensions);
    var id, suites, compression := HeadParts(inner, []);
    var zeros := ZeroBytes(padding);
    var front := U16(inner.vers) + inner.random;
    var encoded := EncodeInner(inner, padding).value;
    var s4 := block + zeros;
    var s3 := compression + s4;
    var s2 := suites + s3;
    var s1 := id + s2;
    assert encoded == front + id + suites + compression + block + zeros;
    Regroup(front, id, suites, compression, block, zeros);
    assert encoded[..34] == front && encoded[34..] == s1;
    Prefix8RoundTrip([], s2);
    Prefix16RoundTrip(U16s(inner.cipherSuites).value, s3);
    Prefix8RoundTrip(inner.compressionMethods, s4);
    Prefix16RoundTrip(extensions.value, zeros);
  }

  /** What the outer hello has, it could encode: so the inner hello can be encoded in full. */
  lemma {:induction false} OuterEncodes(inner: ClientHello, outer: ClientHello, lo: nat)
    requires Agree(inner, outer) && 9 <= lo <= 18 && Extensions(outer, Range(lo, 18)).Some?
    ensures Extensions(inner, Range(lo, 18)).Some?
    decreases 18 - lo
  {
    hide Present, Body, Prefix16, U16, TypeOf, KindAt;
    if lo < 18 {
      OuterEncodes(inner, outer, lo + 1);
      AgreeAt(inner, outer, lo);
    }
  }

  lemma AgreeAt(inner: ClientHello, outer: ClientHello, n: nat)
    requires Agree(inner, outer) && 9 <= n < 18 && Extension(outer, KindAt(n)).Some?
    ensures Extension(inner, KindAt(n)).Some?
  {
    hide Present, Body, Prefix16, U16, TypeOf, KindAt;
  }

  lemma InnerEncodes(inner: ClientHello, outer: ClientHello)
    requires Agree(inner, outer) && OnlyTls13(inner) && InnerExtensions(inner).Some? && Extensions(outer, ORDER).Some?
    ensures Extensions(inner, ORDER).Some?
  {
    hide Extensions, OuterExtensions, PresentTypes, Range, Agree, OnlyTls13;
    OrderSplit(outer);
    OrderSplit(inner);
    DroppedAbsent(inner);
    OuterEncodes(inner, outer, 9);
  }

  /** An inner hello without the four extensions that its encoding leaves out. */
  function Stripped(inner: ClientHello): ClientHello {
    inner.(supportedPoints := [], ticketSupported := false, sessionTicket := [], secureRenegotiationSupported := false,
           secureRenegotiation := [], extendedMasterSecret := false)
  }

  lemma StrippedExtension(m: ClientHello, n: nat)
    requires n < KINDS && !(1 <= n < 5)
    ensures Extension(Stripped(m), KindAt(n)) == Extension(m, KindAt(n))
    ensures Present(Stripped(m), KindAt(n)) == Present(m, KindAt(n)) && Body(Stripped(m), KindAt(n)) == Body(m, KindAt(n))
  {
    hide Prefix16, Prefix8, EncodeAll, U16s, U16;
  }

  lemma {:induction false} StrippedExtensions(m: ClientHello, lo: nat, hi: nat)
    requires hi <= KINDS && (hi <= 1 || lo >= 5)
    ensures Extensions(Stripped(m), Range(lo, hi)) == Extensions(m, Range(lo, hi))
    ensures PresentTypes(Stripped(m), Range(lo, hi)) == PresentTypes(m, Range(lo, hi))
    decreases hi - lo
  {
    hide Extension, Present, KindAt, Stripped, TypeOf;
    if lo < hi {
      StrippedExtension(m, lo);
      StrippedExtensions(m, lo + 1, hi);
    }
  }

  /** So it is encoded in the same way with and without them, and agrees with the same outer hellos. */
  lemma StrippedEncodes(inner: ClientHello, padding: nat)
    ensures EncodeInner(Stripped(inner), padding) == EncodeInner(inner, padding)
  {
    hide Extensions, PresentTypes, OuterExtensions, Range, U16, Prefix8, Prefix16, Prefix24, U16s, ZeroBytes;
    StrippedExtensions(inner, 0, 1);
    StrippedExtensions(inner, 5, 9);
    StrippedExtensions(inner, 9, 18);
    StrippedExtensions(inner, 18, 19);
  }

  lemma StrippedAgrees(inner: ClientHello, outer: ClientHello)
    requires Agree(inner, outer)
    ensures Agree(Stripped(inner), outer)
  {
    hide Present, Body, KindAt, Stripped;
    forall n | 9 <= n < 18 && Present(Stripped(inner), KindAt(n))
      ensures Present(outer, KindAt(n)) && Body(Stripped(inner), KindAt(n)) == Body(outer, KindAt(n)) && Body(outer, KindAt(n)).Some?
    {
      StrippedExtension(inner, n);
    }
  }

  lemma StrippedTls13(inner: ClientHello)
    ensures OnlyTls13(Stripped(inner)) && Stripped(inner).encryptedClientHello == inner.encryptedClientHello
    ensures Stripped(inner).supportedVersions == inner.supportedVersions
    ensures WellFormed(inner) && OnlyTls13(inner) ==> Stripped(inner) == inner
  {
  }

  /**
   * Decompressing a compressed inner hello restores it: when inner and outer agree on the compressible extensions, the
   * reconstruction is byte for byte the inner hello with the outer session ID, less the four extensions that an encoded
   * inner hello leaves out; or it fails exactly when that is too long.
   */
  lemma ReconstructsInner(inner: ClientHello, outer: ClientHello, padding: nat)
    requires Marshal(outer).Some? && WellFormed(outer) && outer.encryptedClientHello != []
    requires EncodeInner(inner, padding).Some? && inner.encryptedClientHello != [] && Agree(inner, outer)
    ensures Reconstruct(Marshal(outer).value, outer.sessionId, EncodeInner(inner, padding).value)
         == Marshal(Stripped(inner).(sessionId := outer.sessionId))
  {
    hide Marshal, Reconstruct, EncodeInner, OnlyTls13, Agree, Stripped, WellFormed;
    StrippedEncodes(inner, padding);
    StrippedAgrees(inner, outer);
    StrippedTls13(inner);
    ReconstructsTls13(Stripped(inner), outer, padding);
  }

  /** An inner hello for TLS 1.3 has none of the four, and is restored in full. */
  lemma ReconstructsTls13(inner: ClientHello, outer: ClientHello, padding: nat)
    requires Marshal(outer).Some? && WellFormed(outer) && outer.encryptedClientHello != []
    requires EncodeInner(inner, padding).Some? && inner.encryptedClientHello != [] && OnlyTls13(inner) && Agree(inner, outer)
    ensures Reconstruct(Marshal(outer).value, outer.sessionId, EncodeInner(inner, padding).value)
         == Marshal(inner.(sessionId := outer.sessionId))
  {
    hide U16, Prefix8, Prefix16, Prefix24, U16s, Extensions, OuterExtensions, PresentTypes, Range, RawsOf, ReadEncoded,
         RawExtensions, RebuildAll, InnerExtensions, InnerRaws, EncodeInner, Agree, OnlyTls13, WellFormed, DecodeAll, ReadRaw, U8;
    var result := inner.(sessionId := outer.sessionId);
    SessionIdElsewhere(inner, outer.sessionId, ORDER);
    InnerSome(inner, padding);
    var outerBlock := MessageParts(outer, outer.sessionId, Extensions(outer, ORDER));
    InnerEncodes(inner, outer);
    EchPresent(outer);
    EchPresentInner(inner);
    OuterRead(outer);
    EncodedRead(inner, padding);
    InnerRawsRead(inner);
    RebuildsInner(inner, outer);
    EchPresent(result);
  }

  lemma InnerSome(inner: ClientHello, padding: nat)
    requires EncodeInner(inner, padding).Some?
    ensures InnerExtensions(inner).Some?
  {
    hide Extensions, OuterExtensions, PresentTypes, Range, Message;
    var block := MessageParts(inner, [], InnerExtensions(inner));
  }

  lemma EchPresent(m: ClientHello)
    requires Extensions(m, ORDER).Some? && m.encryptedClientHello != []
    ensures Extensions(m, ORDER).value != []
  {
    hide Extensions, Range;
    OrderSplit(m);
    MiddleNonempty(m);
  }

  lemma EchPresentInner(m: ClientHello)
    requires InnerExtensions(m).Some? && m.encryptedClientHello != []
    ensures InnerExtensions(m).value != []
  {
    hide Extensions, OuterExtensions, PresentTypes, Range;
    MiddleNonempty(m);
  }

  lemma MiddleNonempty(m: ClientHello)
    requires Extensions(m, MIDDLE).Some? && m.encryptedClientHello != []
    ensures Extensions(m, MIDDLE).value != []
  {
    hide Extensions, Range, Body, Prefix16;
    RangeSplit(5, 8, 9);
    ExtensionsAppend(m, Range(5, 8), Range(8, 9));
    LastOfMiddle(m);
  }

  lemma LastOfMiddle(m: ClientHello)
    requires m.encryptedClientHello != []
    ensures Extensions(m, Range(8, 9)).Some? ==> Extensions(m, Range(8, 9)).value != []
  {
    hide Prefix16, Body;
    var k := KindAt(8);
    assert Range(8, 9) == [k] + Range(9, 9) == [k];
    assert [k][1..] == [];
  }

  /**
   * And what is decoded is that hello, exactly when it is well-formed, not too long, marked as inner, and offers TLS 1.3
   * and nothing older. A well-formed one that is not all of this is refused.
   */
  lemma DecodesInner(inner: ClientHello, outer: ClientHello, padding: nat)
    requires Marshal(outer).Some? && WellFormed(outer) && outer.encryptedClientHello != []
    requires EncodeInner(inner, padding).Some? && inner.encryptedClientHello != [] && Agree(inner, outer)
    ensures var result := Stripped(inner).(sessionId := outer.sessionId);
            var decoded := DecodeInner(Marshal(outer).value, outer.sessionId, EncodeInner(inner, padding).value);
            var fine := Marshal(result).Some? && inner.encryptedClientHello == [INNER_ECH_EXT]
                        && OffersTls13(inner.supportedVersions);
            && (decoded == Some(Parsed(result, TypesOf(result))) <==> WellFormed(result) && fine)
            && (WellFormed(result) && !fine ==> decoded == None)
  {
    hide Marshal, Reconstruct, EncodeInner, Unmarshal, OnlyTls13, Agree, TypesOf, OffersTls13, Stripped, WellFormed;
    var result := Stripped(inner).(sessionId := outer.sessionId);
    ReconstructsInner(inner, outer, padding);
    StrippedTls13(inner);
    if Marshal(result).Some? {
      RoundTripIff(result);
    }
  }

  /** For a well-formed inner hello for TLS 1.3 that is the hello itself, but for its session ID. */
  lemma DecodesTls13(inner: ClientHello, outer: ClientHello, padding: nat)
    requires Marshal(outer).Some? && WellFormed(outer) && outer.encryptedClientHello != []
    requires EncodeInner(inner, padding).Some? && inner.encryptedClientHello != [] && OnlyTls13(inner) && Agree(inner, outer)
    requires WellFormed(inner)
    ensures var result := inner.(sessionId := outer.sessionId);
            DecodeInner(Marshal(outer).value, outer.sessionId, EncodeInner(inner, padding).value)
            == if Marshal(result).Some? && inner.encryptedClientHello == [INNER_ECH_EXT] && OffersTls13(inner.supportedVersions)
               then Some(Parsed(result, TypesOf(result)))
               else None
  {
    hide Marshal, DecodeInner, EncodeInner, Agree, TypesOf, OffersTls13, Stripped;
    StrippedTls13(inner);
    DecodesInner(inner, outer, padding);
    assert WellFormed(inner.(sessionId := outer.sessionId));
  }

  // ---------- The reconstruction as it runs ----------

  /** The expansion of one outer_extensions extension: the index i runs on from one type to the next. */
  method ExpandOuter(list: bytes, outer: seq<Raw>) returns (b: builder)
    ensures b == Expanded(list, outer, 0)
  {
    hide ReadU16, WriteRaw, TypeOf, FindFrom;
    b := Some([]);
    var rest, i := list, 0;
    CatEmpty(Expanded(rest, outer, 0));
    while rest != []
      invariant i <= |outer|
      invariant Cat(b, Expanded(rest, outer, i)) == Expanded(list, outer, 0)
      decreases |rest|
    {
      U16Takes(rest);
      var r := ReadU16(rest);
      if r.Short? {
        return None;
      }
      if r.value == TypeOf(EncryptedClientHello) {
        ExpandedEch(rest, outer, i);
        return None;
      }
      var extType := r.value;
      ghost var start := i;
      while i < |outer| && outer[i].extType != extType
        invariant start <= i <= |outer|
        invariant forall j :: start <= j < i ==> outer[j].extType != extType
      {
        i := i + 1;
      }
      ExpandedStep(rest, outer, start, i);
      if i == |outer| {
        return None;
      }
      CatAssoc(b, WriteRaw(outer[i]), Expanded(r.rest, outer, i));
      b := Cat(b, WriteRaw(outer[i]));
      rest := r.rest;
    }
    CatEmpty(b);
    assert Expanded([], outer, i) == Some([]);
  }

  /** What the rest of a list of types expands to, on the wire. */
  function Expanded(rest: bytes, outer: seq<Raw>, i: nat): builder
    requires i <= |outer|
  {
    match DecodeAll(ReadU16, rest)
    case None => None
    case Some(types) => (match Expand(types, outer, i) case None => None case Some(raws) => EncodeAll(WriteRaw, raws))
  }

  lemma U16Takes(s: bytes)
    ensures ReadU16(s).Got? ==> |ReadU16(s).rest| < |s|
  {
  }

  lemma ExpandedEch(rest: bytes, outer: seq<Raw>, i: nat)
    requires i <= |outer| && rest != [] && ReadU16(rest).Got? && ReadU16(rest).value == TypeOf(EncryptedClientHello)
    ensures Expanded(rest, outer, i) == None
  {
    hide ReadU16, WriteRaw, TypeOf;
  }

  /** One type: found at j, or nowhere. */
  lemma ExpandedStep(rest: bytes, outer: seq<Raw>, i: nat, j: nat)
    requires i <= j <= |outer| && rest != [] && ReadU16(rest).Got? && |ReadU16(rest).rest| < |rest|
    requires ReadU16(rest).value != TypeOf(EncryptedClientHello)
    requires forall k :: i <= k < j ==> outer[k].extType != ReadU16(rest).value
    requires j < |outer| ==> outer[j].extType == ReadU16(rest).value
    ensures j == |outer| ==> Expanded(rest, outer, i) == None
    ensures j < |outer| ==> Expanded(rest, outer, i) == Cat(WriteRaw(outer[j]), Expanded(ReadU16(rest).rest, outer, j))
  {
    hide ReadU16, WriteRaw, TypeOf, FindFrom;
    var extType, rest' := ReadU16(rest).value, ReadU16(rest).rest;
    var found := FindFrom(outer, extType, i);
    FoundAt(outer, extType, i, j);
    if DecodeAll(ReadU16, rest').Some? {
      var types := DecodeAll(ReadU16, rest').value;
      assert ([extType] + types)[1..] == types;
      if j < |outer| && Expand(types, outer, j).Some? {
        var raws := Expand(types, outer, j).value;
        assert ([outer[j]] + raws)[1..] == raws;
      }
    }
  }

  lemma FoundAt(outer: seq<Raw>, extType: nat, i: nat, j: nat)
    requires i <= j <= |outer| && forall k :: i <= k < j ==> outer[k].extType != extType
    requires j < |outer| ==> outer[j].extType == extType
    ensures FindFrom(outer, extType, i) == if j < |outer| then Some(j) else None
  {
    hide FindFrom;
    var found := FindFrom(outer, extType, i);
  }

  /** The loop over the extensions of the encoded inner hello. */
  method RebuildLoop(extensions: bytes, outer: seq<Raw>) returns (b: builder)
    ensures b == RebuildExtensions(extensions, outer)
  {
    hide ReadRaw, Rebuild, Expand, DecodeAll, RebuildAll;
    b := Some([]);
    var rest := extensions;
    CatEmpty(RebuildExtensions(extensions, outer));
    while rest != []
      invariant Cat(b, RebuildExtensions(rest, outer)) == RebuildExtensions(extensions, outer)
      decreases |rest|
    {
      RawTakes(rest);
      RebuildStep(rest, outer);
      var r := ReadRaw(rest);
      if r.Short? {
        return None;
      }
      var piece: builder;
      if r.value.extType == ECH_OUTER_EXTENSIONS {
        var list := ReadPrefix8(r.value.data);
        if list.Short? {
          piece := None;
        } else {
          piece := ExpandOuter(list.value, outer);
        }
      } else {
        piece := WriteRaw(r.value);
      }
      RebuildOf(r.value, outer);
      CatAssoc(b, piece, RebuildExtensions(r.rest, outer));
      b := Cat(b, piece);
      rest := r.rest;
    }
    RebuildNothing(outer);
    CatEmpty(b);
  }

  lemma RebuildOf(raw: Raw, outer: seq<Raw>)
    ensures Rebuild(raw, outer) ==
            if raw.extType != ECH_OUTER_EXTENSIONS then WriteRaw(raw)
            else if ReadPrefix8(raw.data).Short? then None else Expanded(ReadPrefix8(raw.data).value, outer, 0)
  {
    hide ReadPrefix8, Expand, DecodeAll, EncodeAll, WriteRaw;
  }

  lemma RebuildNothing(outer: seq<Raw>)
    ensures RebuildExtensions([], outer) == Some([])
  {
  }

  lemma RebuildStep(rest: bytes, outer: seq<Raw>)
    requires rest != [] && (ReadRaw(rest).Got? ==> |ReadRaw(rest).rest| < |rest|)
    ensures ReadRaw(rest).Short? ==> RebuildExtensions(rest, outer) == None
    ensures ReadRaw(rest).Got? ==>
              RebuildExtensions(rest, outer)
              == Cat(Rebuild(ReadRaw(rest).value, outer), RebuildExtensions(ReadRaw(rest).rest, outer))
  {
    hide ReadRaw, Rebuild;
    if ReadRaw(rest).Got? && DecodeAll(ReadRaw, ReadRaw(rest).rest).Some? {
      var raws := DecodeAll(ReadRaw, ReadRaw(rest).rest).value;
      assert ([ReadRaw(rest).value] + raws)[1..] == raws;
    }
  }
}
