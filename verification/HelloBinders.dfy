/** The PSK binders at the end of a ClientHello: marshalWithoutBinders and updateBinders. */
module HelloBinders {
  import opened ClientHellos
  import opened Cryptobyte
  import opened HelloRoundTrips
  import opened Wrappers

  // ---------- The binders at the end ----------

  function ListLength(binders: seq<bytes>): nat {
    if binders == [] then 0 else 1 + |binders[0]| + ListLength(binders[1..])
  }

  /** The bytes that the binders take up at the end of the message. */
  function BindersLength(binders: seq<bytes>): nat { 2 + ListLength(binders) }

  lemma {:induction false} EncodedListLength(binders: seq<bytes>)
    ensures EncodeAll(WriteString8, binders).Some? ==> |EncodeAll(WriteString8, binders).value| == ListLength(binders)
    decreases |binders|
  {
    if binders != [] {
      EncodedListLength(binders[1..]);
    }
  }

  lemma EncodedBindersLength(binders: seq<bytes>)
    requires Binders(binders).Some?
    ensures |Binders(binders).value| == BindersLength(binders)
  {
    hide EncodeAll;
    EncodedListLength(binders);
  }

  predicate EndsWith(s: bytes, t: bytes) {
    |t| <= |s| && s[|s| - |t|..] == t
  }

  lemma RawWritesBack(s: bytes)
    ensures WritesBack(WriteRaw, ReadRaw, s)
  {
    hide ReadU16, U16, ReadPrefix16, Prefix16;
    if ReadRaw(s).Got? {
      ReadU16Inverse(s);
      var rest := ReadU16(s).rest;
      ReadPrefix16Inverse(rest);
      var raw := ReadRaw(s).value;
      assert U16(raw.extType) + Prefix16(Some(raw.data)).value + ReadRaw(s).rest
          == U16(raw.extType) + (Prefix16(Some(raw.data)).value + ReadRaw(s).rest);
    }
  }

  lemma String8WritesBack(s: bytes)
    ensures WritesBack(WriteString8, ReadPrefix8, s)
  {
    hide ReadPrefix8, Prefix8;
    if ReadPrefix8(s).Got? {
      ReadPrefix8Inverse(s);
    }
  }

  /** Only a last pre_shared_key extension brings binders. */
  lemma {:induction false} PsksComeLast(m: ClientHello, raws: seq<Raw>)
    requires ApplyAll(m, raws).Some? && m.pskIdentities == [] && m.pskBinders == []
    ensures var r := ApplyAll(m, raws).value;
            r.pskIdentities != [] ==> raws != [] && ParsePsks(raws[|raws| - 1].data) == Some((r.pskIdentities, r.pskBinders))
    decreases |raws|
  {
    hide Apply, ParsePsks;
    if raws != [] {
      var m' := Apply(m, raws[0], |raws| == 1).value;
      if |raws| == 1 {
        assert raws[1..] == [];
        ApplyPsks(m, raws[0], true);
      } else {
        ApplyPsks(m, raws[0], false);
        PsksComeLast(m', raws[1..]);
        assert raws[1..][|raws[1..]| - 1] == raws[|raws| - 1];
      }
    }
  }

  lemma ApplyPsks(m: ClientHello, raw: Raw, last: bool)
    requires Apply(m, raw, last).Some? && m.pskIdentities == [] && m.pskBinders == []
    ensures var r := Apply(m, raw, last).value;
            (r.pskIdentities, r.pskBinders) == ([], [])
            || (last && ParsePsks(raw.data) == Some((r.pskIdentities, r.pskBinders)))
  {
    hide ParsePsks, ListIn16, ListIn8, StringIn8, ParseKeyShares, ParseServerName, ParseStatusRequest, ReadPrefix16;
    if KindOf(raw.extType) == Some(PreSharedKey) {
      var psks := ParsePsks(raw.data).value;
      assert [] + psks.0 == psks.0 && [] + psks.1 == psks.1;
    } else {
      OthersKeepPsks(m, raw, last);
    }
  }

  predicate SamePsks(m: ClientHello, r: ClientHello) {
    r.pskIdentities == m.pskIdentities && r.pskBinders == m.pskBinders
  }

  lemma ListsKeepPsks(m: ClientHello, raw: Raw, last: bool, kind: Kind)
    requires Apply(m, raw, last).Some? && KindOf(raw.extType) == Some(kind) && IsListKind(kind) && !kind.PreSharedKey?
    ensures SamePsks(m, Apply(m, raw, last).value)
  {
    hide ParsePsks, ListIn16, ListIn8, StringIn8, ReadPrefix16, KindOf, HostName, DecodeAll;
    match kind
    case ServerName =>
    case SupportedCurves =>
    case SignatureAlgorithms =>
    case SignatureAlgorithmsCert =>
    case SupportedVersions =>
    case KeyShares =>
    case Alpn =>
  }

  lemma StringsKeepPsks(m: ClientHello, raw: Raw, last: bool, kind: Kind)
    requires Apply(m, raw, last).Some? && KindOf(raw.extType) == Some(kind) && IsStringKind(kind)
    ensures SamePsks(m, Apply(m, raw, last).value)
  {
    hide ParsePsks, ListIn16, ListIn8, StringIn8, ReadPrefix16, KindOf, HostName, DecodeAll;
    match kind
    case SupportedPoints =>
    case RenegotiationInfo =>
    case PskModes =>
    case Cookie =>
  }

  lemma FlagsKeepPsks(m: ClientHello, raw: Raw, last: bool, kind: Kind)
    requires Apply(m, raw, last).Some? && KindOf(raw.extType) == Some(kind) && IsFlagKind(kind)
    ensures SamePsks(m, Apply(m, raw, last).value)
  {
    hide ParsePsks, ListIn16, ListIn8, StringIn8, ReadPrefix16, KindOf, HostName, DecodeAll;
    match kind
    case StatusRequest =>
    case SessionTicket =>
    case ExtendedMasterSecret =>
    case Sct =>
    case EarlyData =>
    case QuicTransportParameters =>
    case EncryptedClientHello =>
  }

  lemma OthersKeepPsks(m: ClientHello, raw: Raw, last: bool)
    requires Apply(m, raw, last).Some? && KindOf(raw.extType) != Some(PreSharedKey)
    ensures SamePsks(m, Apply(m, raw, last).value)
  {
    hide Apply, KindOf, IsListKind, IsStringKind, IsFlagKind;
    match KindOf(raw.extType)
    case None => UnknownIgnored(m, raw, last);
    case Some(kind) =>
      KindGroups(kind);
      if IsListKind(kind) {
        ListsKeepPsks(m, raw, last, kind);
      } else if IsStringKind(kind) {
        StringsKeepPsks(m, raw, last, kind);
      } else {
        FlagsKeepPsks(m, raw, last, kind);
      }
  }

  /** marshalWithoutBinders: the message up to the binders. */
  function WithoutBinders(data: bytes, binders: seq<bytes>): Option<bytes> {
    if BindersLength(binders) > |data| then None else Some(data[..|data| - BindersLength(binders)])
  }

  lemma BareHasNoPsks(s: bytes)
    ensures ReadHead(s).Got? ==> ReadHead(s).value.pskIdentities == [] && ReadHead(s).value.pskBinders == []
  {
    hide ReadPrefix16, ReadPrefix8, DecodeAll, ReadU16;
  }

  lemma EndsWithTrans(s: bytes, t: bytes, u: bytes)
    requires EndsWith(s, t) && EndsWith(t, u)
    ensures EndsWith(s, u)
  {
    assert s == s[..|s| - |t|] + t;
  }

  ghost predicate SameLengths(a: seq<bytes>, b: seq<bytes>) {
    |a| == |b| && forall i :: 0 <= i < |a| ==> |a[i]| == |b[i]|
  }

  lemma SameLengthsRest(a: seq<bytes>, b: seq<bytes>)
    requires SameLengths(a, b) && a != []
    ensures |a[0]| == |b[0]| && SameLengths(a[1..], b[1..])
  {
    forall i | 0 <= i < |a[1..]|
      ensures |a[1..][i]| == |b[1..][i]|
    {
      assert a[1..][i] == a[i + 1] && b[1..][i] == b[i + 1];
    }
  }

  lemma {:induction false} SameLengthLists(a: seq<bytes>, b: seq<bytes>)
    requires SameLengths(a, b)
    ensures ListLength(a) == ListLength(b)
    ensures EncodeAll(WriteString8, a).Some? == EncodeAll(WriteString8, b).Some?
    decreases |a|
  {
    if a != [] {
      SameLengthsRest(a, b);
      SameLengthLists(a[1..], b[1..]);
    }
  }

  // ---------- Other binders in the same places ----------

  /** b is a with the end x replaced by y, which is just as long; both fail together. */
  ghost predicate EndReplaced(a: builder, b: builder, x: builder, y: builder) {
    && a.Some? == b.Some?
    && (a.Some? ==>
          && x.Some? && y.Some? && |x.value| == |y.value|
          && |a.value| == |b.value| >= |x.value|
          && a.value == b.value[..|b.value| - |x.value|] + x.value
          && b.value == a.value[..|a.value| - |x.value|] + y.value)
  }

  lemma ReplacedWhole(x: builder, y: builder)
    requires x.Some? == y.Some? && (x.Some? ==> |x.value| == |y.value|)
    ensures EndReplaced(x, y, x, y)
  {
  }

  lemma ReplacedBehind(front: builder, a: builder, b: builder, x: builder, y: builder)
    requires EndReplaced(a, b, x, y)
    ensures EndReplaced(Cat(front, a), Cat(front, b), x, y)
  {
    if front.Some? && a.Some? {
      var n := |x.value|;
      assert (front.value + a.value)[..|front.value + a.value| - n] == front.value + a.value[..|a.value| - n];
      assert (front.value + b.value)[..|front.value + b.value| - n] == front.value + b.value[..|b.value| - n];
    }
  }

  lemma ReplacedIn16(a: builder, b: builder, x: builder, y: builder)
    requires EndReplaced(a, b, x, y)
    ensures EndReplaced(Prefix16(a), Prefix16(b), x, y)
  {
    hide U16, EndReplaced;
    LongTogether(a, b, x, y);
    if a.Some? && |a.value| < 0x1_0000 {
      ReplacedBehind(Some(U16(|a.value|)), a, b, x, y);
    } else {
      BothFail(x, y);
    }
  }

  lemma ReplacedIn24(a: builder, b: builder, x: builder, y: builder)
    requires EndReplaced(a, b, x, y)
    ensures EndReplaced(Prefix24(a), Prefix24(b), x, y)
  {
    hide U24, EndReplaced;
    LongTogether(a, b, x, y);
    if a.Some? && |a.value| < 0x100_0000 {
      ReplacedBehind(Some(U24(|a.value|)), a, b, x, y);
    } else {
      BothFail(x, y);
    }
  }

  lemma LongTogether(a: builder, b: builder, x: builder, y: builder)
    requires EndReplaced(a, b, x, y)
    ensures a.Some? == b.Some? && (a.Some? ==> |a.value| == |b.value|)
  {
  }

  lemma BothFail(x: builder, y: builder)
    ensures EndReplaced(None, None, x, y)
  {
  }

  lemma ReplacedWithin(a: builder, b: builder, c: builder, d: builder, x: builder, y: builder)
    requires EndReplaced(a, b, c, d) && EndReplaced(c, d, x, y)
    ensures EndReplaced(a, b, x, y)
  {
    if a.Some? {
      var front := a.value[..|a.value| - |c.value|];
      assert b.value[..|b.value| - |c.value|] == front;
      ReplacedBehind(Some(front), c, d, x, y);
      assert a.value == front + c.value && b.value == front + d.value;
    }
  }

  lemma BindersReplaced(a: seq<bytes>, b: seq<bytes>)
    requires SameLengths(a, b)
    ensures EndReplaced(Binders(a), Binders(b), Binders(a), Binders(b))
  {
    hide EncodeAll;
    SameLengthLists(a, b);
    EncodedListLength(a);
    EncodedListLength(b);
    ReplacedWhole(Binders(a), Binders(b));
  }

  // ---------- Marshalling with other binders ----------

  lemma OtherKindsSame(m: ClientHello, b: seq<bytes>, k: Kind)
    requires k != PreSharedKey
    ensures Extension(m.(pskBinders := b), k) == Extension(m, k)
  {
    hide Prefix16, Prefix8, EncodeAll, U16s;
  }

  lemma {:induction false} ExtensionsReplaced(m: ClientHello, b: seq<bytes>, n: nat)
    requires m.pskIdentities != [] && SameLengths(m.pskBinders, b) && n < KINDS
    ensures EndReplaced(Extensions(m, Range(n, KINDS)), Extensions(m.(pskBinders := b), Range(n, KINDS)),
                        Binders(m.pskBinders), Binders(b))
    decreases KINDS - n
  {
    hide Prefix16, EncodeAll, Binders, Present, EndReplaced, Extension, KindAt;
    var m' := m.(pskBinders := b);
    NextInRange(n);
    if n + 1 < KINDS {
      ExtensionsReplaced(m, b, n + 1);
      NotLastKind(n);
      OtherKindsSame(m, b, KindAt(n));
      ReplacedBehind(Extension(m, KindAt(n)), Extensions(m, Range(n + 1, KINDS)), Extensions(m', Range(n + 1, KINDS)),
                     Binders(m.pskBinders), Binders(b));
    } else {
      LastKind(n, m, m');
      PskExtensionReplaced(m, b);
      CatEmpty(Extension(m, PreSharedKey));
      CatEmpty(Extension(m', PreSharedKey));
    }
  }

  lemma LastKind(n: nat, m: ClientHello, m': ClientHello)
    requires n + 1 == KINDS
    ensures KindAt(n) == PreSharedKey
    ensures Extensions(m, Range(n + 1, KINDS)) == Some([]) == Extensions(m', Range(n + 1, KINDS))
  {
  }

  lemma NotLastKind(n: nat)
    requires n + 1 < KINDS
    ensures KindAt(n) != PreSharedKey
  {
  }

  lemma PskExtensionReplaced(m: ClientHello, b: seq<bytes>)
    requires m.pskIdentities != [] && SameLengths(m.pskBinders, b)
    ensures EndReplaced(Extension(m, PreSharedKey), Extension(m.(pskBinders := b), PreSharedKey),
                        Binders(m.pskBinders), Binders(b))
  {
    hide Prefix16, EncodeAll, Binders, EndReplaced, U16, TypeOf;
    var x, y := Binders(m.pskBinders), Binders(b);
    var identities := Prefix16(EncodeAll(WriteIdentity, m.pskIdentities));
    BindersReplaced(m.pskBinders, b);
    ReplacedBehind(identities, x, y, x, y);
    ReplacedIn16(Cat(identities, x), Cat(identities, y), x, y);
    ReplacedBehind(Some(U16(TypeOf(PreSharedKey))), Prefix16(Cat(identities, x)), Prefix16(Cat(identities, y)), x, y);
  }

  lemma MessageReplaced(m: ClientHello, b: seq<bytes>)
    requires m.pskIdentities != [] && SameLengths(m.pskBinders, b)
    ensures EndReplaced(Marshal(m), Marshal(m.(pskBinders := b)), Binders(m.pskBinders), Binders(b))
  {
    hide Prefix16, Prefix24, EncodeAll, EndReplaced, Extensions, Binders, U8, Head;
    var m', x, y := m.(pskBinders := b), Binders(m.pskBinders), Binders(b);
    var extensions, extensions' := Extensions(m, ORDER), Extensions(m', ORDER);
    ExtensionsReplaced(m, b, 0);
    LongTogether(extensions, extensions', x, y);
    if extensions.None? {
      BothFail(x, y);
    } else {
      EndsNonempty(extensions, extensions', m.pskBinders, b);
      SameHead(m, b);
      var head := Head(m, m.sessionId);
      ReplacedIn16(extensions, extensions', x, y);
      ReplacedBehind(head, Prefix16(extensions), Prefix16(extensions'), x, y);
      ReplacedIn24(Cat(head, Prefix16(extensions)), Cat(head, Prefix16(extensions')), x, y);
      ReplacedBehind(Some(U8(TYPE_CLIENT_HELLO)), Prefix24(Cat(head, Prefix16(extensions))),
                     Prefix24(Cat(head, Prefix16(extensions'))), x, y);
    }
  }

  lemma EndsNonempty(a: builder, b: builder, binders: seq<bytes>, binders': seq<bytes>)
    requires EndReplaced(a, b, Binders(binders), Binders(binders')) && a.Some?
    ensures b.Some? && a.value != [] && b.value != []
  {
    hide EncodeAll, U16;
    PrefixNonempty(EncodeAll(WriteString8, binders));
  }

  lemma SameHead(m: ClientHello, b: seq<bytes>)
    ensures Head(m.(pskBinders := b), m.sessionId) == Head(m, m.sessionId)
  {
    hide U16, Prefix8, Prefix16, U16s;
  }

  lemma CutAtBinders(a: builder, b: builder, binders: seq<bytes>, binders': seq<bytes>)
    requires EndReplaced(a, b, Binders(binders), Binders(binders')) && a.Some?
    ensures b.Some? && Binders(binders).Some? && Binders(binders').Some?
    ensures var front := WithoutBinders(a.value, binders);
            && front.Some? && WithoutBinders(b.value, binders') == front
            && a.value == front.value + Binders(binders).value && b.value == front.value + Binders(binders').value
  {
    hide Binders, BindersLength;
    EncodedBindersLength(binders);
    EncodedBindersLength(binders');
  }

  /**
   * Other binders of the same lengths change nothing in the encoded message but themselves: the part before them, over
   * which they are computed, stays the same, with all the lengths in it.
   */
  lemma BindersDoNotMatter(m: ClientHello, b: seq<bytes>)
    requires m.pskIdentities != [] && SameLengths(m.pskBinders, b) && Marshal(m).Some?
    ensures Marshal(m.(pskBinders := b)).Some? && Binders(b).Some?
    ensures var front := WithoutBinders(Marshal(m).value, m.pskBinders);
            && front.Some? && WithoutBinders(Marshal(m.(pskBinders := b)).value, b) == front
            && Marshal(m.(pskBinders := b)).value == front.value + Binders(b).value
  {
    hide Marshal, Binders, EndReplaced, WithoutBinders, SameLengths;
    MessageReplaced(m, b);
    CutAtBinders(Marshal(m), Marshal(m.(pskBinders := b)), m.pskBinders, b);
  }

  // ---------- Accepting a message with other binders ----------

  /** What a reader took off s when it left rest. */
  function Before(s: bytes, rest: bytes): bytes
    requires |rest| <= |s|
  {
    s[..|s| - |rest|]
  }

  // A reader finds the same thing in front of any other rest.

  lemma U16Elsewhere(s: bytes, t: bytes)
    requires ReadU16(s).Got?
    ensures EndsWith(s, ReadU16(s).rest)
    ensures ReadU16(Before(s, ReadU16(s).rest) + t) == Got(ReadU16(s).value, t)
  {
  }

  lemma BytesElsewhere(s: bytes, n: nat, t: bytes)
    requires ReadBytes(s, n).Got?
    ensures EndsWith(s, ReadBytes(s, n).rest)
    ensures ReadBytes(Before(s, ReadBytes(s, n).rest) + t, n) == Got(ReadBytes(s, n).value, t)
  {
    var s' := Before(s, ReadBytes(s, n).rest) + t;
    assert s'[..n] == s[..n] && s'[n..] == t;
  }

  lemma Prefix8Elsewhere(s: bytes, t: bytes)
    requires ReadPrefix8(s).Got?
    ensures EndsWith(s, ReadPrefix8(s).rest)
    ensures ReadPrefix8(Before(s, ReadPrefix8(s).rest) + t) == Got(ReadPrefix8(s).value, t)
  {
    hide ReadPrefix8, Prefix8;
    ReadPrefix8Inverse(s);
    var x, rest := ReadPrefix8(s).value, ReadPrefix8(s).rest;
    assert Before(s, rest) == Prefix8(Some(x)).value;
    Prefix8RoundTrip(x, t);
  }

  lemma Prefix16Elsewhere(s: bytes, t: bytes)
    requires ReadPrefix16(s).Got?
    ensures EndsWith(s, ReadPrefix16(s).rest)
    ensures ReadPrefix16(Before(s, ReadPrefix16(s).rest) + t) == Got(ReadPrefix16(s).value, t)
  {
    hide ReadPrefix16, Prefix16;
    ReadPrefix16Inverse(s);
    var x, rest := ReadPrefix16(s).value, ReadPrefix16(s).rest;
    assert Before(s, rest) == Prefix16(Some(x)).value;
    Prefix16RoundTrip(x, t);
  }

  lemma BeforeTwice(s: bytes, mid: bytes, rest: bytes, t: bytes)
    requires EndsWith(s, mid) && EndsWith(mid, rest)
    ensures EndsWith(s, rest) && Before(s, rest) + t == Before(s, mid) + (Before(mid, rest) + t)
  {
    EndsWithTrans(s, mid, rest);
    assert s == Before(s, mid) + mid && mid == Before(mid, rest) + rest;
    assert Before(s, rest) == Before(s, mid) + Before(mid, rest);
  }

  lemma HeadElsewhere(s: bytes, t: bytes)
    requires ReadHead(s).Got?
    ensures EndsWith(s, ReadHead(s).rest)
    ensures ReadHead(Before(s, ReadHead(s).rest) + t) == Got(ReadHead(s).value, t)
  {
    hide ReadU16, ReadBytes, ReadPrefix8, ReadPrefix16, DecodeAll, Bare, Before;
    var s1 := ReadU16(s).rest;
    var s2 := ReadBytes(s1, 32).rest;
    var s3 := ReadPrefix8(s2).rest;
    var s4 := ReadPrefix16(s3).rest;
    var s5 := ReadPrefix8(s4).rest;
    Prefix8Elsewhere(s4, t);
    var t4 := Before(s4, s5) + t;
    Prefix16Elsewhere(s3, t4);
    BeforeTwice(s3, s4, s5, t);
    var t3 := Before(s3, s5) + t;
    Prefix8Elsewhere(s2, t3);
    BeforeTwice(s2, s3, s5, t);
    var t2 := Before(s2, s5) + t;
    BytesElsewhere(s1, 32, t2);
    BeforeTwice(s1, s2, s5, t);
    var t1 := Before(s1, s5) + t;
    U16Elsewhere(s, t1);
    BeforeTwice(s, s1, s5, t);
  }

  /** The contents of a pre_shared_key extension with other binders. */
  function OtherPsks(data: bytes, b: seq<bytes>): builder
    requires ParsePsks(data).Some?
  {
    Cat(Some(Before(data, ReadPrefix16(data).rest)), Binders(b))
  }

  lemma PsksReplaced(data: bytes, b: seq<bytes>)
    requires ParsePsks(data).Some? && SameLengths(ParsePsks(data).value.1, b)
    ensures var psks := ParsePsks(data).value; var data' := OtherPsks(data, b);
            && EndReplaced(Some(data), data', Binders(psks.1), Binders(b)) && data'.Some?
            && ParsePsks(data'.value) == Some((psks.0, b))
  {
    hide ReadPrefix16, Prefix16, ReadPrefix8, ReadIdentity, DecodeAll, EncodeAll, EndReplaced, SameLengths, Binders, ListIn16;
    var psks, rest := ParsePsks(data).value, ReadPrefix16(data).rest;
    ListBehind(rest);
    BindersReplaced(psks.1, b);
    LongTogether(Binders(psks.1), Binders(b), Binders(psks.1), Binders(b));
    Prefix16Elsewhere(data, Binders(b).value);
    ReplacedBehind(Some(Before(data, rest)), Binders(psks.1), Binders(b), Binders(psks.1), Binders(b));
    assert data == Before(data, rest) + rest;
    StillNonempty(psks.1, b);
    CarriedBinders(b);
  }

  /** A list of binders that was read in full is their encoding. */
  lemma ListBehind(s: bytes)
    requires ListIn16(ReadPrefix8, s).Some?
    ensures Binders(ListIn16(ReadPrefix8, s).value) == Some(s) && ListIn16(ReadPrefix8, s).value != []
  {
    hide ReadPrefix16, Prefix16, ReadPrefix8, EncodeAll;
    ReadPrefix16Inverse(s);
    var list := ReadPrefix16(s).value;
    forall t: bytes
      ensures WritesBack(WriteString8, ReadPrefix8, t)
    {
      String8WritesBack(t);
    }
    ListInverse(WriteString8, ReadPrefix8, list);
    assert s == Prefix16(Some(list)).value + [] == Prefix16(Some(list)).value;
  }

  lemma StillNonempty(a: seq<bytes>, b: seq<bytes>)
    requires SameLengths(a, b) && AllNonempty(a)
    ensures AllNonempty(b) && (a != [] ==> b != [])
  {
    forall i | 0 <= i < |b|
      ensures b[i] != []
    {
      assert |a[i]| == |b[i]|;
    }
  }

  lemma CarriedBinders(b: seq<bytes>)
    requires AllNonempty(b) && b != [] && Binders(b).Some?
    ensures ListIn16(ReadPrefix8, Binders(b).value) == Some(b)
  {
    hide ListIn16, Prefix16, EncodeAll, ReadPrefix8;
    CarriedStrings(b);
  }

  /** The last extension with other contents. */
  function WithLast(raws: seq<Raw>, data: bytes): seq<Raw>
    requires raws != []
  {
    raws[..|raws| - 1] + [Raw(raws[|raws| - 1].extType, data)]
  }

  lemma {:induction false} RawsReplaced(raws: seq<Raw>, data': bytes)
    requires raws != [] && |raws[|raws| - 1].data| == |data'|
    ensures EndReplaced(EncodeAll(WriteRaw, raws), EncodeAll(WriteRaw, WithLast(raws, data')),
                        Some(raws[|raws| - 1].data), Some(data'))
    decreases |raws|
  {
    hide U16, Prefix16, EndReplaced;
    var raws', x, y := WithLast(raws, data'), Some(raws[|raws| - 1].data), Some(data');
    if |raws| == 1 {
      ReplacedWhole(x, y);
      ReplacedIn16(x, y, x, y);
      ReplacedBehind(Some(U16(raws[0].extType)), Prefix16(x), Prefix16(y), x, y);
      CatEmpty(WriteRaw(raws[0]));
      CatEmpty(WriteRaw(raws'[0]));
      assert raws[1..] == [] == raws'[1..];
    } else {
      assert raws'[1..] == WithLast(raws[1..], data') && raws'[0] == raws[0];
      RawsReplaced(raws[1..], data');
      ReplacedBehind(WriteRaw(raws[0]), EncodeAll(WriteRaw, raws[1..]), EncodeAll(WriteRaw, raws'[1..]), x, y);
    }
  }

  lemma {:induction false} ApplyReplaced(m: ClientHello, raws: seq<Raw>, data': bytes, b: seq<bytes>)
    requires ApplyAll(m, raws).Some? && m.pskIdentities == [] && m.pskBinders == [] && raws != []
    requires ApplyAll(m, raws).value.pskIdentities != []
    requires ParsePsks(data') == Some((ApplyAll(m, raws).value.pskIdentities, b))
    ensures ApplyAll(m, WithLast(raws, data')) == Some(ApplyAll(m, raws).value.(pskBinders := b))
    decreases |raws|
  {
    hide Apply, ParsePsks;
    var raws' := WithLast(raws, data');
    if |raws| == 1 {
      assert raws[1..] == [] == raws'[1..];
      LastReplaced(m, raws[0], data', b);
    } else {
      ApplyPsks(m, raws[0], false);
      assert raws'[1..] == WithLast(raws[1..], data') && raws'[0] == raws[0];
      ApplyReplaced(Apply(m, raws[0], false).value, raws[1..], data', b);
    }
  }

  lemma LastReplaced(m: ClientHello, raw: Raw, data': bytes, b: seq<bytes>)
    requires Apply(m, raw, true).Some? && m.pskIdentities == [] && m.pskBinders == []
    requires Apply(m, raw, true).value.pskIdentities != []
    requires ParsePsks(data') == Some((Apply(m, raw, true).value.pskIdentities, b))
    ensures Apply(m, Raw(raw.extType, data'), true) == Some(Apply(m, raw, true).value.(pskBinders := b))
  {
    hide ParsePsks, ListIn16, ListIn8, StringIn8, ParseKeyShares, ParseServerName, ParseStatusRequest, ReadPrefix16;
    if KindOf(raw.extType) == Some(PreSharedKey) {
      var psks := ParsePsks(raw.data).value;
      assert [] + psks.0 == psks.0 && [] + b == b;
    } else {
      OthersKeepPsks(m, raw, true);
    }
  }

  predicate GoodType(r: Raw) { r.extType < 0x1_0000 }

  lemma RawTypesFit(s: bytes)
    ensures ReadRaw(s).Got? ==> GoodType(ReadRaw(s).value)
  {
    hide ReadPrefix16;
  }

  lemma RawsReadBack(raws: seq<Raw>)
    requires forall i :: 0 <= i < |raws| ==> GoodType(raws[i])
    ensures var b := EncodeAll(WriteRaw, raws); b.Some? ==> DecodeAll(ReadRaw, b.value) == Some(raws)
  {
    hide ReadRaw, WriteRaw;
    forall i | 0 <= i < |raws|
      ensures ReadsBack(WriteRaw, ReadRaw, raws[i])
    {
      RawReadsBack(raws[i]);
    }
    ListRoundTrip(WriteRaw, ReadRaw, raws);
  }

  /** A block of extensions with other binders at its end: what it is, and what it is read as. */
  lemma BlockReplaced(bare: ClientHello, s: bytes, b: seq<bytes>) returns (s': bytes)
    requires bare.pskIdentities == [] && bare.pskBinders == []
    requires ParseExtensions(bare, s).Some? && ParseExtensions(bare, s).value.hello.pskIdentities != []
    requires SameLengths(ParseExtensions(bare, s).value.hello.pskBinders, b)
    ensures var p := ParseExtensions(bare, s).value;
            && EndReplaced(Some(s), Some(s'), Binders(p.hello.pskBinders), Binders(b))
            && ParseExtensions(bare, s') == Some(Parsed(p.hello.(pskBinders := b), p.extensions))
  {
    hide DecodeAll, ApplyAll, ParsePsks, Distinct, ReadRaw, WriteRaw, EncodeAll, EndReplaced, SameLengths, Binders, OtherPsks;
    var p := ParseExtensions(bare, s).value;
    var raws := DecodeAll(ReadRaw, s).value;
    PsksComeLast(bare, raws);
    var last := raws[|raws| - 1].data;
    PsksReplaced(last, b);
    var last' := OtherPsks(last, b).value;
    LongTogether(Some(last), Some(last'), Binders(p.hello.pskBinders), Binders(b));
    BlockWritten(s);
    RawsReplaced(raws, last');
    LongTogether(EncodeAll(WriteRaw, raws), EncodeAll(WriteRaw, WithLast(raws, last')), Some(last), Some(last'));
    s' := EncodeAll(WriteRaw, WithLast(raws, last')).value;
    ReplacedWithin(Some(s), Some(s'), Some(last), Some(last'), Binders(p.hello.pskBinders), Binders(b));
    RawsReadBack(WithLast(raws, last'));
    ApplyReplaced(bare, raws, last', b);
    assert Types(WithLast(raws, last')) == Types(raws);
  }

  lemma BlockWritten(s: bytes)
    requires DecodeAll(ReadRaw, s).Some?
    ensures EncodeAll(WriteRaw, DecodeAll(ReadRaw, s).value) == Some(s)
    ensures forall i :: 0 <= i < |DecodeAll(ReadRaw, s).value| ==> GoodType(DecodeAll(ReadRaw, s).value[i])
  {
    hide ReadRaw, WriteRaw, GoodType;
    forall t: bytes
      ensures WritesBack(WriteRaw, ReadRaw, t)
    {
      RawWritesBack(t);
    }
    ListInverse(WriteRaw, ReadRaw, s);
    forall t: bytes | ReadRaw(t).Got?
      ensures GoodType(ReadRaw(t).value)
    {
      RawTypesFit(t);
    }
    AllDecoded(ReadRaw, GoodType, s);
  }

  /**
   * And an accepted hello with other binders of the same lengths behind the same front is accepted as the same hello
   * with those binders.
   */
  lemma AcceptedWithOtherBinders(data: bytes, b: seq<bytes>)
    requires Unmarshal(data).Some? && Unmarshal(data).value.hello.pskIdentities != []
    requires SameLengths(Unmarshal(data).value.hello.pskBinders, b)
    ensures var p := Unmarshal(data).value;
            var front := WithoutBinders(data, p.hello.pskBinders);
            && front.Some? && Binders(p.hello.pskBinders).Some? && Binders(b).Some?
            && data == front.value + Binders(p.hello.pskBinders).value
            && Unmarshal(front.value + Binders(b).value) == Some(Parsed(p.hello.(pskBinders := b), p.extensions))
  {
    hide ReadHead, ReadPrefix16, Prefix16, ParseExtensions, EndReplaced, SameLengths, Binders, Before, WithoutBinders;
    var p := Unmarshal(data).value;
    var x, y := Binders(p.hello.pskBinders), Binders(b);
    var head := ReadHead(data[4..]);
    BareHasNoPsks(data[4..]);
    var block := ReadPrefix16(head.rest).value;
    var block' := BlockReplaced(head.value, block, b);
    ReplacedIn16(Some(block), Some(block'), x, y);
    ReadPrefix16Inverse(head.rest);
    CatEmptyBytes(Prefix16(Some(block)).value);
    LongTogether(Prefix16(Some(block)), Prefix16(Some(block')), x, y);
    var rest' := Prefix16(Some(block')).value;
    HeadElsewhere(data[4..], rest');
    Alone16(block');
    var body' := Before(data[4..], head.rest) + rest';
    ReplacedBehind(Some(Before(data[4..], head.rest)), Some(head.rest), Some(rest'), x, y);
    BeforeAndRest(data[4..], head.rest);
    ReplacedBehind(Some(data[..4]), Some(data[4..]), Some(body'), x, y);
    assert data == data[..4] + data[4..];
    CutAtBinders(Some(data), Some(data[..4] + body'), p.hello.pskBinders, b);
    assert (data[..4] + body')[4..] == body';
    PrefixNotEmpty(block');
  }

  lemma CatEmptyBytes(x: bytes)
    ensures x + [] == x
  {
  }

  lemma BeforeAndRest(s: bytes, rest: bytes)
    requires EndsWith(s, rest)
    ensures s == Before(s, rest) + rest
  {
  }

  lemma PrefixNotEmpty(x: bytes)
    ensures Prefix16(Some(x)).Some? ==> Prefix16(Some(x)).value != []
  {
  }

  /** An accepted hello with pre_shared_key is what comes before its binders, followed by exactly their encoding. */
  lemma AcceptedEndsInBinders(data: bytes)
    requires Unmarshal(data).Some? && Unmarshal(data).value.hello.pskIdentities != []
    ensures var binders := Unmarshal(data).value.hello.pskBinders;
            && Binders(binders).Some? && WithoutBinders(data, binders).Some?
            && data == WithoutBinders(data, binders).value + Binders(binders).value
  {
    hide Unmarshal, Binders, WithoutBinders;
    AcceptedWithOtherBinders(data, Unmarshal(data).value.hello.pskBinders);
  }

  // ---------- marshalWithoutBinders and updateBinders as they run ----------

  /** A shortened message, the error of marshalling, or the panic of a slice with a negative bound. */
  datatype Shortened = Shortened(front: bytes) | MarshalError | SlicePanic

  function Shorten(data: bytes, binders: seq<bytes>): Shortened {
    match WithoutBinders(data, binders)
    case None => SlicePanic
    case Some(front) => Shortened(front)
  }

  /**
   * The lengths of the binders added up, and the message cut there: the bytes it was parsed from if there are any
   * (Go's nil is None), and else those it is encoded to.
   */
  method MarshalWithoutBinders(m: ClientHello, original: Option<bytes>) returns (r: Shortened)
    ensures original.Some? ==> r == Shorten(original.value, m.pskBinders)
    ensures original.None? ==> r == if Marshal(m).Some? then Shorten(Marshal(m).value, m.pskBinders) else MarshalError
    ensures original.None? && m.pskIdentities != [] ==> !r.SlicePanic?
  {
    hide Marshal, Binders;
    var bindersLen := 2;
    for i := 0 to |m.pskBinders|
      invariant bindersLen + ListLength(m.pskBinders[i..]) == BindersLength(m.pskBinders)
    {
      assert m.pskBinders[i..][1..] == m.pskBinders[i + 1..];
      bindersLen := bindersLen + 1;
      bindersLen := bindersLen + |m.pskBinders[i]|;
    }
    var fullMessage: bytes;
    if original.Some? {
      fullMessage := original.value;
    } else {
      var b := MarshalMessage(m);
      if b.None? {
        return MarshalError;
      }
      fullMessage := b.value;
      if m.pskIdentities != [] {
        BindersDoNotMatter(m, m.pskBinders);
      }
    }
    if bindersLen > |fullMessage| {
      return SlicePanic;
    }
    return Shortened(fullMessage[..|fullMessage| - bindersLen]);
  }

  /** updateBinders: None when a number or a length differs. */
  method UpdateBinders(m: ClientHello, binders: seq<bytes>) returns (updated: Option<ClientHello>)
    ensures updated.Some? <==> SameLengths(m.pskBinders, binders)
    ensures updated.Some? ==> updated.value == m.(pskBinders := binders)
  {
    if |binders| != |m.pskBinders| {
      return None;
    }
    for i := 0 to |binders|
      invariant forall j :: 0 <= j < i ==> |m.pskBinders[j]| == |binders[j]|
    {
      if |binders[i]| != |m.pskBinders[i]| {
        return None;
      }
    }
    updated := Some(m.(pskBinders := binders));
  }
}
