/** Decoding an inner ClientHello (ech.go), byte by byte: exactly what is accepted, and what it is expanded to. */
module EchWire {
  import opened ClientHellos
  import opened Cryptobyte
  import opened Ech
  import opened HelloRoundTrips
  import opened HelloWire
  import opened Vectors
  import opened Wrappers

  // ---------- Extensions taken from the outer hello ----------

  /** Where the search for the k-th type begins: where the one before was found, for it never goes back. */
  function From(i: nat, js: seq<nat>, k: nat): nat
    requires k <= |js|
  {
    if k == 0 then i else js[k - 1]
  }

  /** x stands in outer at j, and is the first of its type from index i on; 0xfe0d is never taken. */
  ghost predicate FirstOf(t: nat, outer: seq<Raw>, i: nat, j: nat, x: Raw) {
    && t != 0xfe0d
    && i <= j < |outer| && outer[j].extType == t && x == outer[j]
    && forall l :: i <= l < j ==> outer[l].extType != t
  }

  /** The types pick the extensions xs of the outer hello, which stand there at js, from index i on. */
  ghost predicate Picked(types: seq<nat>, outer: seq<Raw>, i: nat, js: seq<nat>, xs: seq<Raw>) {
    && |js| == |types| == |xs|
    && forall k :: 0 <= k < |js| ==> FirstOf(types[k], outer, From(i, js, k), js[k], xs[k])
  }

  lemma FoundFirst(t: nat, outer: seq<Raw>, i: nat, j: nat, x: Raw)
    requires i <= |outer|
    ensures FirstOf(t, outer, i, j, x) <==> t != 0xfe0d && FindFrom(outer, t, i) == Some(j) && x == outer[j]
  {
    hide FindFrom;
    var found := FindFrom(outer, t, i);
    if FirstOf(t, outer, i, j, x) && found.Some? {
      assert outer[found.value].extType == t;
    }
  }

  lemma PickedFirst(types: seq<nat>, outer: seq<Raw>, i: nat, js: seq<nat>, xs: seq<Raw>)
    requires types != [] && i <= |outer| && Picked(types, outer, i, js, xs)
    ensures |js| == |xs| == |types| && js[0] < |outer| && xs[0] == outer[js[0]]
    ensures types[0] != 0xfe0d && FindFrom(outer, types[0], i) == Some(js[0])
    ensures Picked(types[1..], outer, js[0], js[1..], xs[1..])
  {
    hide FindFrom;
    assert FirstOf(types[0], outer, From(i, js, 0), js[0], xs[0]);
    FoundFirst(types[0], outer, i, js[0], xs[0]);
    forall k | 0 <= k < |js[1..]|
      ensures FirstOf(types[1..][k], outer, From(js[0], js[1..], k), js[1..][k], xs[1..][k])
    {
      assert FirstOf(types[k + 1], outer, From(i, js, k + 1), js[k + 1], xs[k + 1]);
    }
  }

  lemma PickOneMore(types: seq<nat>, outer: seq<Raw>, i: nat, j: nat, js: seq<nat>, xs: seq<Raw>)
    requires types != [] && types[0] != 0xfe0d && i <= |outer| && FindFrom(outer, types[0], i) == Some(j)
    requires Picked(types[1..], outer, j, js, xs)
    ensures Picked(types, outer, i, [j] + js, [outer[j]] + xs)
  {
    hide FindFrom, FirstOf;
    FoundFirst(types[0], outer, i, j, outer[j]);
    var all, ys := [j] + js, [outer[j]] + xs;
    forall k | 0 <= k < |all|
      ensures FirstOf(types[k], outer, From(i, all, k), all[k], ys[k])
    {
      if k > 0 {
        assert FirstOf(types[1..][k - 1], outer, From(j, js, k - 1), js[k - 1], xs[k - 1]);
        assert From(j, js, k - 1) == From(i, all, k);
        assert types[1..][k - 1] == types[k] && all[k] == js[k - 1] && ys[k] == xs[k - 1];
      }
    }
  }

  /** A list of types is expanded if and only if its extensions can be picked, and then to those. */
  lemma {:induction false} ExpandIff(types: seq<nat>, outer: seq<Raw>, i: nat, xs: seq<Raw>)
    requires i <= |outer|
    ensures Expand(types, outer, i) == Some(xs) <==> exists js :: Picked(types, outer, i, js, xs)
    decreases |types|
  {
    hide FindFrom, Picked;
    if types == [] {
      NothingPicked(outer, i, xs);
    } else {
      if Expand(types, outer, i) == Some(xs) {
        var j := FindFrom(outer, types[0], i).value;
        var rest := Expand(types[1..], outer, j).value;
        ExpandIff(types[1..], outer, j, rest);
        var js :| Picked(types[1..], outer, j, js, rest);
        PickOneMore(types, outer, i, j, js, rest);
      }
      if js :| Picked(types, outer, i, js, xs) {
        PickedFirst(types, outer, i, js, xs);
        ExpandIff(types[1..], outer, js[0], xs[1..]);
        assert xs == [outer[js[0]]] + xs[1..];
      }
    }
  }

  lemma NothingPicked(outer: seq<Raw>, i: nat, xs: seq<Raw>)
    ensures (exists js :: Picked([], outer, i, js, xs)) <==> xs == []
  {
    if xs == [] {
      assert Picked([], outer, i, [], xs);
    }
  }

  // ---------- Rebuilding the extensions ----------

  /** An outer_extensions extension (0xfd00) is a list of types behind its length, and stands for what they pick. */
  ghost predicate RefersTo(data: bytes, outer: seq<Raw>, xs: seq<Raw>) {
    exists types, more: bytes, js ::
      && AllGood(Below16, types) && |Flat(Two, types)| < 0x100 && data == Vec(1, Flat(Two, types)) + more
      && Picked(types, outer, 0, js, xs)
  }

  ghost predicate StandsFor(raw: Raw, outer: seq<Raw>, xs: seq<Raw>) {
    if raw.extType == 0xfd00 then RefersTo(raw.data, outer, xs) else xs == [raw]
  }

  /** Each of the raws in turn stands for a part of xs. */
  ghost predicate AllStand(raws: seq<Raw>, outer: seq<Raw>, xs: seq<Raw>)
    decreases |raws|
  {
    if raws == [] then xs == []
    else exists n :: 0 <= n <= |xs| && StandsFor(raws[0], outer, xs[..n]) && AllStand(raws[1..], outer, xs[n..])
  }

  lemma ReadsTypes(data: bytes, outer: seq<Raw>, types: seq<nat>, more: bytes)
    ensures (ReadPrefix8(data).Got? && ReadPrefix8(data).rest == more && DecodeAll(ReadU16, ReadPrefix8(data).value) == Some(types))
       <==> AllGood(Below16, types) && |Flat(Two, types)| < 0x100 && data == Vec(1, Flat(Two, types)) + more
  {
    hide ReadPrefix8, DecodeAll, Flat, AllGood, Vec;
    if ReadPrefix8(data).Got? {
      In8(data, ReadPrefix8(data).value, ReadPrefix8(data).rest);
      ReadsSuites(ReadPrefix8(data).value, types);
    }
    In8(data, Flat(Two, types), more);
    ReadsSuites(Flat(Two, types), types);
  }

  lemma PickedFit(types: seq<nat>, outer: seq<Raw>, i: nat, js: seq<nat>, xs: seq<Raw>)
    requires Picked(types, outer, i, js, xs) && AllGood(FitsRaw, outer)
    ensures AllGood(FitsRaw, xs)
  {
    forall k | 0 <= k < |xs|
      ensures FitsRaw(xs[k])
    {
      assert FirstOf(types[k], outer, From(i, js, k), js[k], xs[k]);
    }
  }

  lemma Written(xs: seq<Raw>)
    requires AllGood(FitsRaw, xs)
    ensures EncodeAll(WriteRaw, xs) == Some(Flat(RawBytes, xs))
  {
    hide EncodeAll, WriteRaw, RawBytes;
    Raws();
    FlatIsEncoded(WriteRaw, RawBytes, FitsRaw, xs);
  }

  lemma RebuildIff(raw: Raw, outer: seq<Raw>, b: bytes)
    requires FitsRaw(raw) && AllGood(FitsRaw, outer)
    ensures Rebuild(raw, outer) == Some(b) <==>
              exists xs :: StandsFor(raw, outer, xs) && AllGood(FitsRaw, xs) && b == Flat(RawBytes, xs)
  {
    hide ReadPrefix8, DecodeAll, Flat, AllGood, EncodeAll, Picked, Expand, WriteRaw, FitsRaw, Vec, RawBytes;
    if raw.extType == 0xfd00 {
      if Rebuild(raw, outer) == Some(b) {
        var list, more := ReadPrefix8(raw.data).value, ReadPrefix8(raw.data).rest;
        var types := DecodeAll(ReadU16, list).value;
        var xs := Expand(types, outer, 0).value;
        ReadsTypes(raw.data, outer, types, more);
        ExpandIff(types, outer, 0, xs);
        var js :| Picked(types, outer, 0, js, xs);
        PickedFit(types, outer, 0, js, xs);
        Written(xs);
        assert StandsFor(raw, outer, xs);
      }
      if xs :| StandsFor(raw, outer, xs) && AllGood(FitsRaw, xs) && b == Flat(RawBytes, xs) {
        var types, more: bytes, js :|
          && AllGood(Below16, types) && |Flat(Two, types)| < 0x100 && raw.data == Vec(1, Flat(Two, types)) + more
          && Picked(types, outer, 0, js, xs);
        ReadsTypes(raw.data, outer, types, more);
        ExpandIff(types, outer, 0, xs);
        Written(xs);
      }
    } else {
      OneWritten(raw);
      assert StandsFor(raw, outer, [raw]);
    }
  }

  lemma OneWritten(raw: Raw)
    requires FitsRaw(raw)
    ensures WriteRaw(raw) == Some(Flat(RawBytes, [raw])) && AllGood(FitsRaw, [raw])
  {
    hide WriteRaw, RawBytes;
    Raws();
    assert RawBytes(raw) + [] == RawBytes(raw);
    assert |[raw][1..]| == 0;
  }

  lemma {:induction false} FlatAppend<T>(wire: T -> bytes, a: seq<T>, b: seq<T>)
    ensures Flat(wire, a + b) == Flat(wire, a) + Flat(wire, b)
    decreases |a|
  {
    if a == [] {
      assert a + b == b;
    } else {
      assert (a + b)[1..] == a[1..] + b;
      FlatAppend(wire, a[1..], b);
    }
  }

  lemma GoodParts(xs: seq<Raw>, n: nat)
    requires n <= |xs|
    ensures AllGood(FitsRaw, xs) <==> AllGood(FitsRaw, xs[..n]) && AllGood(FitsRaw, xs[n..])
    ensures Flat(RawBytes, xs) == Flat(RawBytes, xs[..n]) + Flat(RawBytes, xs[n..])
  {
    hide *;
    GoodJoin(FitsRaw, xs[..n], xs[n..]);
    FlatAppend(RawBytes, xs[..n], xs[n..]);
    assert xs == xs[..n] + xs[n..];
  }

  lemma GoodJoin<T>(good: T -> bool, a: seq<T>, b: seq<T>)
    ensures AllGood(good, a + b) <==> AllGood(good, a) && AllGood(good, b)
  {
    if AllGood(good, a + b) {
      assert forall i :: 0 <= i < |a| ==> a[i] == (a + b)[i];
      assert forall i :: 0 <= i < |b| ==> b[i] == (a + b)[|a| + i];
    }
  }

  /** What the extensions of an encoded inner hello are rebuilt to. */
  lemma {:induction false} RebuildAllIff(raws: seq<Raw>, outer: seq<Raw>, b: bytes)
    requires AllGood(FitsRaw, raws) && AllGood(FitsRaw, outer)
    ensures RebuildAll(raws, outer) == Some(b) <==>
              exists xs :: AllStand(raws, outer, xs) && AllGood(FitsRaw, xs) && b == Flat(RawBytes, xs)
    decreases |raws|
  {
    hide Rebuild, StandsFor, RawBytes, FitsRaw;
    if raws == [] {
      assert AllStand(raws, outer, []);
    } else {
      GoodParts(raws, 1);
      assert FitsRaw(raws[0]);
      if RebuildAll(raws, outer) == Some(b) {
        var x, y := Rebuild(raws[0], outer).value, RebuildAll(raws[1..], outer).value;
        RebuildIff(raws[0], outer, x);
        RebuildAllIff(raws[1..], outer, y);
        var xs :| StandsFor(raws[0], outer, xs) && AllGood(FitsRaw, xs) && x == Flat(RawBytes, xs);
        var ys :| AllStand(raws[1..], outer, ys) && AllGood(FitsRaw, ys) && y == Flat(RawBytes, ys);
        var all := xs + ys;
        assert all[..|xs|] == xs && all[|xs|..] == ys;
        GoodParts(all, |xs|);
        assert AllStand(raws, outer, all);
      }
      if xs :| AllStand(raws, outer, xs) && AllGood(FitsRaw, xs) && b == Flat(RawBytes, xs) {
        var n :| 0 <= n <= |xs| && StandsFor(raws[0], outer, xs[..n]) && AllStand(raws[1..], outer, xs[n..]);
        GoodParts(xs, n);
        RebuildIff(raws[0], outer, Flat(RawBytes, xs[..n]));
        RebuildAllIff(raws[1..], outer, Flat(RawBytes, xs[n..]));
      }
    }
  }

  // ---------- The whole ----------

  /** The extensions of the outer hello as it was received: behind 38 bytes and three strings; anything may follow. */
  ghost predicate OuterOf(original: bytes, outer: seq<Raw>) {
    exists front, a, b, c, more: bytes ::
      && |front| == 38 && |a| < 0x100 && |b| < 0x1_0000 && |c| < 0x100
      && AllGood(FitsRaw, outer) && |Flat(RawBytes, outer)| < 0x1_0000
      && original == front + Vec(1, a) + Vec(2, b) + Vec(1, c) + Vec(2, Flat(RawBytes, outer)) + more
  }

  lemma SixParts(a: bytes, b: bytes, c: bytes, d: bytes, e: bytes, f: bytes)
    ensures a + b + c + d + e + f == a + (b + (c + (d + (e + f))))
  {
  }

  lemma OuterIff(original: bytes, outer: seq<Raw>)
    ensures RawExtensions(original) == Some(outer) <==> OuterOf(original, outer)
  {
    hide ReadPrefix8, ReadPrefix16, DecodeAll, Flat, AllGood, Vec, ReadRaw;
    if RawExtensions(original) == Some(outer) {
      OuterRead(original);
    }
    if OuterOf(original, outer) {
      OuterReads(original, outer);
    }
  }

  lemma OuterRead(original: bytes)
    requires RawExtensions(original).Some?
    ensures OuterOf(original, RawExtensions(original).value)
  {
    hide ReadPrefix8, ReadPrefix16, DecodeAll, Flat, AllGood, Vec, ReadRaw;
    var outer := RawExtensions(original).value;
    var s1 := original[38..];
    var a, s2 := ReadPrefix8(s1).value, ReadPrefix8(s1).rest;
    var b, s3 := ReadPrefix16(s2).value, ReadPrefix16(s2).rest;
    var c, s4 := ReadPrefix8(s3).value, ReadPrefix8(s3).rest;
    var list, more := ReadPrefix16(s4).value, ReadPrefix16(s4).rest;
    In8(s1, a, s2);
    In16(s2, b, s3);
    In8(s3, c, s4);
    In16(s4, list, more);
    ReadsRaws(list, outer);
    assert original == original[..38] + s1;
    SixParts(original[..38], Vec(1, a), Vec(2, b), Vec(1, c), Vec(2, list), more);
  }

  lemma ReadsRaws(s: bytes, raws: seq<Raw>)
    ensures DecodeAll(ReadRaw, s) == Some(raws) <==> AllGood(FitsRaw, raws) && s == Flat(RawBytes, raws)
  {
    hide DecodeAll, Agreed, Flat, AllGood;
    Raws();
    ListReadIff(WriteRaw, ReadRaw, RawBytes, FitsRaw, s, raws);
  }

  lemma OuterReads(original: bytes, outer: seq<Raw>)
    requires OuterOf(original, outer)
    ensures RawExtensions(original) == Some(outer)
  {
    hide ReadPrefix8, ReadPrefix16, DecodeAll, Flat, AllGood, Vec, ReadRaw;
    var front, a, b, c, more: bytes :|
      && |front| == 38 && |a| < 0x100 && |b| < 0x1_0000 && |c| < 0x100
      && AllGood(FitsRaw, outer) && |Flat(RawBytes, outer)| < 0x1_0000
      && original == front + Vec(1, a) + Vec(2, b) + Vec(1, c) + Vec(2, Flat(RawBytes, outer)) + more;
    var list := Flat(RawBytes, outer);
    var s4 := Vec(2, list) + more;
    var s3 := Vec(1, c) + s4;
    var s2 := Vec(2, b) + s3;
    var s1 := Vec(1, a) + s2;
    SixParts(front, Vec(1, a), Vec(2, b), Vec(1, c), Vec(2, list), more);
    assert original[38..] == s1;
    In8(s1, a, s2);
    In16(s2, b, s3);
    In8(s3, c, s4);
    In16(s4, list, more);
    ReadsRaws(list, outer);
  }

  /** An encoded inner hello: version and random, no session ID, suites, compression, extensions, and n zero bytes. */
  ghost predicate EncodedAs(encoded: bytes, e: Encoded) {
    exists n ::
      && |e.versionAndRandom| == 34 && |e.cipherSuites| < 0x1_0000 && |e.compressionMethods| < 0x100 && |e.extensions| < 0x1_0000
      && encoded == e.versionAndRandom + [0] + Vec(2, e.cipherSuites) + Vec(1, e.compressionMethods) + Vec(2, e.extensions)
                    + ZeroBytes(n)
  }

  lemma EmptyVec()
    ensures Vec(1, []) == [0]
  {
    WideOne(0);
    assert Wide(0, 1) == [0];
  }

  lemma EncodedIff(encoded: bytes, e: Encoded)
    ensures ReadEncoded(encoded) == Some(e) <==> EncodedAs(encoded, e)
  {
    hide ReadPrefix8, ReadPrefix16, Vec, ZeroBytes;
    if ReadEncoded(encoded) == Some(e) {
      EncodedReadAs(encoded);
    }
    if EncodedAs(encoded, e) {
      EncodedReads(encoded, e);
    }
  }

  lemma EncodedReadAs(encoded: bytes)
    requires ReadEncoded(encoded).Some?
    ensures EncodedAs(encoded, ReadEncoded(encoded).value)
  {
    hide ReadPrefix8, ReadPrefix16, Vec, ZeroBytes;
    var e := ReadEncoded(encoded).value;
    var s1 := encoded[34..];
    var s2 := ReadPrefix8(s1).rest;
    var s3 := ReadPrefix16(s2).rest;
    var s4 := ReadPrefix8(s3).rest;
    var s5 := ReadPrefix16(s4).rest;
    EmptyVec();
    In8(s1, [], s2);
    In16(s2, e.cipherSuites, s3);
    In8(s3, e.compressionMethods, s4);
    In16(s4, e.extensions, s5);
    Zeros(s5);
    assert encoded == encoded[..34] + s1;
    SixParts(e.versionAndRandom, [0], Vec(2, e.cipherSuites), Vec(1, e.compressionMethods), Vec(2, e.extensions), s5);
  }

  lemma Zeros(s: bytes)
    ensures AllZero(s) <==> s == ZeroBytes(|s|)
  {
  }

  lemma EncodedReads(encoded: bytes, e: Encoded)
    requires EncodedAs(encoded, e)
    ensures ReadEncoded(encoded) == Some(e)
  {
    hide ReadPrefix8, ReadPrefix16, Vec, ZeroBytes;
    var n :|
      && |e.versionAndRandom| == 34 && |e.cipherSuites| < 0x1_0000 && |e.compressionMethods| < 0x100 && |e.extensions| < 0x1_0000
      && encoded == e.versionAndRandom + [0] + Vec(2, e.cipherSuites) + Vec(1, e.compressionMethods) + Vec(2, e.extensions)
                    + ZeroBytes(n);
    var s5 := ZeroBytes(n);
    var s4 := Vec(2, e.extensions) + s5;
    var s3 := Vec(1, e.compressionMethods) + s4;
    var s2 := Vec(2, e.cipherSuites) + s3;
    var s1 := [0] + s2;
    SixParts(e.versionAndRandom, [0], Vec(2, e.cipherSuites), Vec(1, e.compressionMethods), Vec(2, e.extensions), s5);
    assert encoded[34..] == s1 && encoded[..34] == e.versionAndRandom;
    EmptyVec();
    In8(s1, [], s2);
    In16(s2, e.cipherSuites, s3);
    In8(s3, e.compressionMethods, s4);
    In16(s4, e.extensions, s5);
    Zeros(s5);
  }

  /** The message put together: the outer session ID in place of the missing one, and the extensions xs. */
  function Assembled(e: Encoded, sessionId: bytes, xs: seq<Raw>): bytes {
    var body := e.versionAndRandom + Vec(1, sessionId) + Vec(2, e.cipherSuites) + Vec(1, e.compressionMethods)
                + Vec(2, Flat(RawBytes, xs));
    [1] + Vec(3, body)
  }

  /** encoded is an inner hello, against an outer one, whose extensions stand for xs. */
  ghost predicate Describes(original: bytes, encoded: bytes, e: Encoded, xs: seq<Raw>) {
    exists outer, raws: seq<Raw> ::
      && EncodedAs(encoded, e) && OuterOf(original, outer)
      && AllGood(FitsRaw, raws) && e.extensions == Flat(RawBytes, raws)
      && AllStand(raws, outer, xs) && AllGood(FitsRaw, xs) && |Flat(RawBytes, xs)| < 0x1_0000
  }

  lemma Assembles(e: Encoded, sessionId: bytes, xs: seq<Raw>)
    requires |sessionId| < 0x100 && |e.cipherSuites| < 0x1_0000 && |e.compressionMethods| < 0x100 && |e.versionAndRandom| == 34
    requires |Flat(RawBytes, xs)| < 0x1_0000
    ensures Cat(Some(U8(TYPE_CLIENT_HELLO)),
                Prefix24(Cat(Cat(Cat(Cat(Some(e.versionAndRandom), Prefix8(Some(sessionId))), Prefix16(Some(e.cipherSuites))),
                                 Prefix8(Some(e.compressionMethods))),
                             Prefix16(Some(Flat(RawBytes, xs)))))) == Some(Assembled(e, sessionId, xs))
  {
    hide U16, U24, Wide, Flat, RawBytes;
    var list := Flat(RawBytes, xs);
    WideOne(|sessionId|);
    WideTwo(|e.cipherSuites|);
    WideOne(|e.compressionMethods|);
    WideTwo(|list|);
    var body := e.versionAndRandom + Vec(1, sessionId) + Vec(2, e.cipherSuites) + Vec(1, e.compressionMethods) + Vec(2, list);
    WideThree(|body|);
  }

  /** What is reconstructed, and when. */
  lemma ReconstructIff(original: bytes, sessionId: bytes, encoded: bytes, data: bytes)
    ensures Reconstruct(original, sessionId, encoded) == Some(data) <==>
              |sessionId| < 0x100
              && exists e, xs: seq<Raw> :: Describes(original, encoded, e, xs) && data == Assembled(e, sessionId, xs)
  {
    hide ReadEncoded, RawExtensions, RebuildAll, DecodeAll, EncodedAs, OuterOf, AllGood, Flat, AllStand, Assembled, Wide, U16, U24,
         ReadRaw;
    if Reconstruct(original, sessionId, encoded) == Some(data) {
      var e, outer := ReadEncoded(encoded).value, RawExtensions(original).value;
      EncodedIff(encoded, e);
      OuterIff(original, outer);
      PrefixParts(e, sessionId, RebuildExtensions(e.extensions, outer));
      var raws := DecodeAll(ReadRaw, e.extensions).value;
      var b := RebuildAll(raws, outer).value;
      ReadsRaws(e.extensions, raws);
      GoodOuter(original, outer);
      RebuildAllIff(raws, outer, b);
      var xs :| AllStand(raws, outer, xs) && AllGood(FitsRaw, xs) && b == Flat(RawBytes, xs);
      SizesOf(encoded, e);
      Assembles(e, sessionId, xs);
      assert Describes(original, encoded, e, xs);
    }
    if |sessionId| < 0x100 {
      if e, xs: seq<Raw> :| Describes(original, encoded, e, xs) && data == Assembled(e, sessionId, xs) {
        var outer, raws: seq<Raw> :|
          && EncodedAs(encoded, e) && OuterOf(original, outer)
          && AllGood(FitsRaw, raws) && e.extensions == Flat(RawBytes, raws)
          && AllStand(raws, outer, xs) && AllGood(FitsRaw, xs) && |Flat(RawBytes, xs)| < 0x1_0000;
        EncodedIff(encoded, e);
        OuterIff(original, outer);
        ReadsRaws(e.extensions, raws);
        GoodOuter(original, outer);
        RebuildAllIff(raws, outer, Flat(RawBytes, xs));
        SizesOf(encoded, e);
        Assembles(e, sessionId, xs);
      }
    }
  }

  lemma GoodOuter(original: bytes, outer: seq<Raw>)
    requires OuterOf(original, outer)
    ensures AllGood(FitsRaw, outer)
  {
  }

  lemma SizesOf(encoded: bytes, e: Encoded)
    requires EncodedAs(encoded, e)
    ensures |e.cipherSuites| < 0x1_0000 && |e.compressionMethods| < 0x100 && |e.versionAndRandom| == 34
  {
  }

  lemma PrefixParts(e: Encoded, sessionId: bytes, b: builder)
    requires Cat(Some(U8(TYPE_CLIENT_HELLO)),
                 Prefix24(Cat(Cat(Cat(Cat(Some(e.versionAndRandom), Prefix8(Some(sessionId))), Prefix16(Some(e.cipherSuites))),
                                  Prefix8(Some(e.compressionMethods))), Prefix16(b)))).Some?
    ensures |sessionId| < 0x100 && b.Some? && |b.value| < 0x1_0000
  {
    hide U16, U24;
  }

  /** GREASE values (of the form 0x?a0a) lie above TLS 1.3 anyway, so skipping them never matters. */
  lemma GreaseIsAbove(versions: seq<nat>)
    ensures OffersTls13(versions) <==> 0x0304 in versions && forall i :: 0 <= i < |versions| ==> versions[i] >= 0x0304
  {
    forall i | 0 <= i < |versions| && Grease(versions[i])
      ensures versions[i] >= 0x0a00
    {
    }
  }

  /**
   * An inner hello is decoded if and only if it describes a message that unmarshal accepts, that is marked as inner, and
   * that offers TLS 1.3 and nothing below it.
   */
  lemma DecodeInnerIff(original: bytes, sessionId: bytes, encoded: bytes, p: Parsed)
    ensures DecodeInner(original, sessionId, encoded) == Some(p) <==>
              && |sessionId| < 0x100 && p.hello.encryptedClientHello == [1]
              && 0x0304 in p.hello.supportedVersions
              && (forall i :: 0 <= i < |p.hello.supportedVersions| ==> p.hello.supportedVersions[i] >= 0x0304)
              && exists e, xs: seq<Raw> ::
                   Describes(original, encoded, e, xs) && OnTheWire(Assembled(e, sessionId, xs), p)
  {
    hide Reconstruct, Unmarshal, OffersTls13, Describes, OnTheWire, Assembled;
    GreaseIsAbove(p.hello.supportedVersions);
    if DecodeInner(original, sessionId, encoded) == Some(p) {
      var data := Reconstruct(original, sessionId, encoded).value;
      ReconstructIff(original, sessionId, encoded, data);
      UnmarshalIff(data, p);
    }
    if |sessionId| < 0x100 {
      if e, xs: seq<Raw> :| Describes(original, encoded, e, xs) && OnTheWire(Assembled(e, sessionId, xs), p) {
        ReconstructIff(original, sessionId, encoded, Assembled(e, sessionId, xs));
        UnmarshalIff(Assembled(e, sessionId, xs), p);
      }
    }
  }

  // ---------- What an inner hello is encoded to ----------

  /** Written in full are the first extension, four more, and pre_shared_key; the nine between are only referred to. */
  ghost predicate Compressed(m: ClientHello, raws: seq<Raw>) {
    var refs := Mentioned(m, 9, 18);
    && Types(raws) == Mentioned(m, 0, 1) + Mentioned(m, 5, 9) + (if refs == [] then [] else [0xfd00]) + Mentioned(m, 18, 19)
    && forall i :: 0 <= i < |raws| && raws[i].extType == 0xfd00 ==> raws[i].data == Vec(1, Flat(Two, refs))
  }

  lemma {:induction false} PresentMentioned(m: ClientHello, lo: nat, hi: nat)
    requires hi <= KINDS
    ensures PresentTypes(m, Range(lo, hi)) == Mentioned(m, lo, hi) && AllGood(Below16, Mentioned(m, lo, hi))
    decreases hi - lo
  {
    hide Present, KindAt, TypeOf, Code, CODES, Index;
    if lo < hi {
      PresentMentioned(m, lo + 1, hi);
      CodesAre(0, KindAt(lo));
      CodeAt(lo);
      assert Range(lo, hi)[1..] == Range(lo + 1, hi);
    }
  }

  lemma NoReference(m: ClientHello, lo: nat, hi: nat, i: nat)
    requires hi <= KINDS && i < |RawsOf(m, Range(lo, hi))|
    ensures RawsOf(m, Range(lo, hi))[i].extType != 0xfd00
  {
    hide RawsOf, Range, TypeOf;
    var j := RawsHaveKinds(m, Range(lo, hi), i);
    NotOuterExtensions(Range(lo, hi)[j]);
  }

  lemma ReferenceIs(refs: seq<nat>)
    requires OuterExtensions(refs).Some? && AllGood(Below16, refs)
    ensures OuterRaw(refs) == if refs == [] then [] else [Raw(0xfd00, Vec(1, Flat(Two, refs)))]
    ensures Types(OuterRaw(refs)) == if refs == [] then [] else [0xfd00]
  {
    hide U16s, Prefix16, U16, Wide, Flat, Agreed, AllGood, U8;
    OuterRawEncoded(refs);
    Numbers();
    AgreedNumbers();
    FlatIsEncoded(WriteU16, Two, Below16, refs);
    U16sFlat(refs);
    WideOne(|Flat(Two, refs)|);
  }

  lemma AgreedNumbers()
    ensures forall n :: Below16(n) ==> WriteU16(n) == Some(Two(n))
  {
    hide U16, Wide;
    forall n | Below16(n)
      ensures WriteU16(n) == Some(Two(n))
    {
      WideTwo(n);
    }
  }

  lemma U16sFlat(xs: seq<nat>)
    requires EncodeAll(WriteU16, xs) == Some(Flat(Two, xs))
    ensures U16s(xs) == Some(Flat(Two, xs))
  {
    hide Flat;
  }

  lemma TypesJoin(a: seq<Raw>, b: seq<Raw>)
    ensures Types(a + b) == Types(a) + Types(b)
  {
  }

  lemma InnerCompressed(m: ClientHello)
    requires InnerExtensions(m).Some?
    ensures Compressed(m, InnerRaws(m))
  {
    hide Extensions, RawsOf, OuterExtensions, OuterRaw, PresentTypes, Range, Mentioned, Vec, Flat;
    var refs := Mentioned(m, 9, 18);
    PresentMentioned(m, 9, 18);
    ReferenceIs(refs);
    TypesMentioned(m, 0, 1);
    TypesMentioned(m, 5, 9);
    TypesMentioned(m, 18, 19);
    var a, b, c, d := RawsOf(m, FIRST), RawsOf(m, MIDDLE), OuterRaw(refs), RawsOf(m, LAST);
    TypesJoin(a, b);
    TypesJoin(a + b, c);
    TypesJoin(a + b + c, d);
    var raws := InnerRaws(m);
    forall i | 0 <= i < |raws| && raws[i].extType == 0xfd00
      ensures raws[i].data == Vec(1, Flat(Two, refs))
    {
      if i < |a| {
        NoReference(m, 0, 1, i);
      } else if i < |a| + |b| {
        NoReference(m, 5, 9, i - |a|);
      } else if i >= |a| + |b| + |c| {
        NoReference(m, 18, 19, i - |a| - |b| - |c|);
      } else {
        assert raws[i] == c[i - |a| - |b|];
      }
    }
  }

  /** The encoding has no session ID, and refers to the outer hello for all that it may. */
  lemma EncodeInnerWrites(inner: ClientHello, padding: nat)
    requires EncodeInner(inner, padding).Some? && InnerExtensions(inner).Some? && InnerExtensions(inner).value != []
    ensures exists e, raws :: EncodedAs(EncodeInner(inner, padding).value, e) && Compressed(inner, raws)
              && AllGood(FitsRaw, raws) && e.extensions == Flat(RawBytes, raws)
              && e.versionAndRandom == Wide(inner.vers, 2) + inner.random && e.compressionMethods == inner.compressionMethods
  {
    hide U16, U16s, EncodeInner, InnerExtensions, InnerRaws, Compressed, ReadEncoded, EncodedAs, AllGood, Flat, Wide, DecodeAll;
    EncodedRead(inner, padding);
    var e := ReadEncoded(EncodeInner(inner, padding).value).value;
    EncodedIff(EncodeInner(inner, padding).value, e);
    InnerRawsRead(inner);
    ReadsRaws(e.extensions, InnerRaws(inner));
    InnerCompressed(inner);
    WideTwo(inner.vers);
  }

  // ---------- The padding of an encoded inner hello ----------

  /** How many zero bytes encodeInnerClientHello adds to an encoding of n bytes. */
  function PaddingLength(n: nat, name: bytes, maxNameLength: nat): nat
    requires n > 0
  {
    var d := NamePadding(name, maxNameLength);
    31 - (n + d - 1) % 32
  }

  /** What would make up for the length of the name. */
  function NamePadding(name: bytes, maxNameLength: nat): nat {
    if name == [] then maxNameLength + 9 else if maxNameLength > |name| then maxNameLength - |name| else 0
  }

  /**
   * The padding for the name is counted but not added: the encoding and it together have a multiple of 32 bytes, the
   * encoding alone only if there is nothing, or a multiple of 32, to make up for.
   */
  lemma PaddingMisses(n: nat, name: bytes, maxNameLength: nat)
    requires n > 0
    ensures var p, d := PaddingLength(n, name, maxNameLength), NamePadding(name, maxNameLength);
            && p < 32 && (n + p + d) % 32 == 0
            && ((n + p) % 32 == 0 <==> d % 32 == 0)
  {
    var d := NamePadding(name, maxNameLength);
    var q := (n + d - 1) / 32;
    assert n + PaddingLength(n, name, maxNameLength) + d == 32 * (q + 1);
  }
}
