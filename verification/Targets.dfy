/** Which byte streams of a target start the handshake, and with which lengths (tls.go), told in bytes. */
module Targets {
  import opened BigEndian
  import opened Ghash
  import opened Records
  import opened Shaping
  import opened Wrappers
  import opened Writers

  // ---------- Records in bytes ----------

  /** A whole record of version 03 03. */
  function Wire(typ: octet, body: octets): octets {
    [typ, 3, 3] + BigEndianBytes(|body|, 2) + body
  }

  /** ServerHello, change_cipher_spec, and then encrypted records. */
  function Type(stage: nat): octet {
    if stage == 0 then 22 else if stage == 1 then 20 else 23
  }

  function Wires(stage: nat, bodies: seq<octets>): octets
    decreases |bodies|
  {
    if bodies == [] then [] else Wire(Type(stage), bodies[0]) + Wires(stage + 1, bodies[1..])
  }

  function RecordLengths(bodies: seq<octets>): (lens: seq<nat>)
    ensures |lens| == |bodies|
  {
    if bodies == [] then [] else [5 + |bodies[0]|] + RecordLengths(bodies[1..])
  }

  /** Bodies that a target may send from the given stage on. */
  predicate Fit(accept: octets -> bool, stage: nat, bodies: seq<octets>)
    decreases |bodies|
  {
    bodies == [] ||
      (&& 5 + |bodies[0]| <= 8192
       && (stage == 0 ==> bodies[0] != [] && bodies[0][0] == 2 && accept(bodies[0]))
       && (stage == 1 ==> bodies[0] == [1])
       && (stage == 2 ==> 5 + |bodies[0]| <= 512)
       && Fit(accept, stage + 1, bodies[1..]))
  }

  function BodySize(s: octets): nat
    requires |s| > 5
  {
    Number(s[3..5])
  }

  /** A record of the right type, version and length begins here; its body may still be under way. */
  predicate Opens(stage: nat, s: octets): (b: bool)
    ensures b ==> |s| > 5
  {
    && |s| > 5 && s[..3] == [Type(stage), 3, 3] && 5 + BodySize(s) <= 8192
    && (stage == 0 ==> s[5] == 2)
    && (stage == 1 ==> s[5] == 1 && BodySize(s) == 1)
  }

  /** The record that begins here can be seen to be wrong. */
  predicate Wrong(accept: octets -> bool, stage: nat, s: octets) {
    && |s| > 5
    && (!Opens(stage, s)
        || (stage == 0 && |s| >= 5 + BodySize(s) && !accept(s[5..5 + BodySize(s)])))
  }

  /** s is fit records from the first stage on, and then rest. */
  predicate Splits(accept: octets -> bool, s: octets, bodies: seq<octets>, rest: octets) {
    s == Wires(0, bodies) + rest && Fit(accept, 0, bodies)
  }

  /**
   * The stream is enough to start with these lengths: six records and nothing or the beginning of a seventh, or, when
   * the third record is longer than 512 bytes, two records and the beginning of that one.
   */
  ghost predicate Starts(accept: octets -> bool, s: octets, lens: seq<nat>, coalesced: bool) {
    exists bodies, rest: octets :: Splits(accept, s, bodies, rest) &&
      if coalesced then |bodies| == 2 && Opens(2, rest) && 5 + BodySize(rest) > 512
                        && lens == RecordLengths(bodies) + [5 + BodySize(rest), 0, 0, 0, 0]
      else |bodies| == 6 && if rest == [] then bodies[5] != [] && lens == RecordLengths(bodies) + [0]
                            else Opens(6, rest) && lens == RecordLengths(bodies) + [5 + BodySize(rest)]
  }

  /** Fit records are followed by a wrong one. */
  ghost predicate Spoilt(accept: octets -> bool, s: octets) {
    exists bodies, rest: octets :: Splits(accept, s, bodies, rest) && |bodies| <= 6 && Wrong(accept, |bodies|, rest)
  }

  // ---------- From bytes to the loop's own terms ----------

  lemma VersionInBytes(hi: octet, lo: octet)
    ensures LengthOf(hi, lo) == VERSION_TLS12 <==> hi == 3 && lo == 3
  {
    assert ByteValue(hi) == hi as nat && ByteValue(lo) == lo as nat;
  }

  lemma HeaderInBytes(stage: nat, s: octets)
    requires |s| > 5
    ensures RecordSize(s) == 5 + BodySize(s)
    ensures Announced(stage, s) <==> Opens(stage, s)
  {
    hide LengthOf, Number;
    VersionInBytes(s[1], s[2]);
    LengthOfIsNumber(s[3], s[4]);
    assert s[3..5] == [s[3], s[4]];
    assert s[..3] == [s[0], s[1], s[2]];
  }

  lemma WireParts(typ: octet, body: octets, more: octets)
    requires |body| <= 8187
    ensures var s := Wire(typ, body) + more;
            && |s| == 5 + |body| + |more|
            && s[..3] == [typ, 3, 3] && Number(s[3..5]) == |body|
            && s[5..5 + |body|] == body && s[5 + |body|..] == more
  {
    hide BigEndianBytes, Number;
    var s := Wire(typ, body) + more;
    assert Power256(2) == 65536 by {
      assert Power256(0) == 1 && Power256(1) == 256;
    }
    BytesNumber(|body|, 2);
    assert s[3..5] == BigEndianBytes(|body|, 2);
  }

  /** Fit records are whole records of the loop. */
  lemma {:induction false} WiresLayout(accept: octets -> bool, stage: nat, bodies: seq<octets>, rest: octets)
    requires Fit(accept, stage, bodies)
    requires bodies == [] || bodies[|bodies| - 1] != [] || rest != []
    ensures Layout(accept, stage, RecordLengths(bodies), Wires(stage, bodies) + rest, rest)
    decreases |bodies|
  {
    hide Announced, RecordSize, Wire, Number;
    if bodies == [] {
      assert Wires(stage, bodies) + rest == rest;
    } else {
      var more := Wires(stage + 1, bodies[1..]) + rest;
      var s := Wire(Type(stage), bodies[0]) + more;
      assert Wires(stage, bodies) + rest == s;
      WireParts(Type(stage), bodies[0], more);
      if bodies[0] == [] {
        MoreFollows(stage, bodies, rest);
      }
      HeaderInBytes(stage, s);
      WiresLayout(accept, stage + 1, bodies[1..], rest);
      assert RecordLengths(bodies)[1..] == RecordLengths(bodies[1..]);
    }
  }

  lemma MoreFollows(stage: nat, bodies: seq<octets>, rest: octets)
    requires bodies != [] && bodies[0] == [] && (bodies[|bodies| - 1] != [] || rest != [])
    ensures Wires(stage + 1, bodies[1..]) + rest != []
  {
    hide BigEndianBytes;
  }

  /** What decides is found behind fit records. */
  lemma {:induction false} FitRecordsFirst(accept: octets -> bool, stage: nat, s: octets) returns (bodies: seq<octets>, rest: octets)
    requires stage <= 6 && !accept([])
    ensures s == Wires(stage, bodies) + rest
    ensures Fit(accept, stage, bodies)
    ensures stage + |bodies| <= 6
    ensures StageOutcome(accept, stage + |bodies|, rest) == Some(Outcome(accept, stage, s))
    ensures bodies != [] ==> bodies[|bodies| - 1] != [] || rest != []
    decreases 6 - stage
  {
    hide Wires, Fit, Wire, StageOutcome, RecordSize;
    NoRecords(accept, stage, s);
    bodies, rest := [], s;
    if StageOutcome(accept, stage, s).None? {
      var body := s[5..RecordSize(s)];
      WholeRecord(accept, stage, s);
      var tail := s[RecordSize(s)..];
      bodies, rest := FitRecordsFirst(accept, stage + 1, tail);
      OneRecordMore(accept, stage, body, bodies, rest);
      if bodies == [] && body == [] {
        WireOfNothing(accept, stage, s);
        NoRecords(accept, stage + 1, rest);
      }
      bodies := [body] + bodies;
    }
  }

  lemma NoRecords(accept: octets -> bool, stage: nat, s: octets)
    ensures s == Wires(stage, []) + s && Fit(accept, stage, [])
  {
  }

  lemma OneRecordMore(accept: octets -> bool, stage: nat, body: octets, bodies: seq<octets>, rest: octets)
    requires Fit(accept, stage, [body]) && Fit(accept, stage + 1, bodies)
    ensures Wire(Type(stage), body) + (Wires(stage + 1, bodies) + rest) == Wires(stage, [body] + bodies) + rest
    ensures Fit(accept, stage, [body] + bodies)
  {
    hide Wire;
    assert ([body] + bodies)[1..] == bodies;
  }

  lemma WireOfNothing(accept: octets -> bool, stage: nat, s: octets)
    requires StageOutcome(accept, stage, s).None? && s[5..RecordSize(s)] == []
    ensures s[RecordSize(s)..] != []
  {
  }

  lemma WholeRecord(accept: octets -> bool, stage: nat, s: octets)
    requires StageOutcome(accept, stage, s).None? && !accept([])
    ensures var body := s[5..RecordSize(s)];
            && s == Wire(Type(stage), body) + s[RecordSize(s)..]
            && Fit(accept, stage, [body])
  {
    hide Number, BigEndianBytes, RecordSize, Announced, LengthOf;
    HeaderInBytes(stage, s);
    var n, body := BodySize(s), s[5..RecordSize(s)];
    NumberBytes(s[3], s[4]);
    assert s[3..5] == [s[3], s[4]];
    assert s == s[..3] + s[3..5] + body + s[RecordSize(s)..];
    var one: seq<octets> := [body];
    assert one[1..] == [];
    if n > 0 {
      assert body[0] == s[5];
    }
    if stage == 1 {
      assert body == [1];
    }
  }

  lemma NumberBytes(hi: octet, lo: octet)
    ensures BigEndianBytes(Number([hi, lo]), 2) == [hi, lo]
  {
    hide Byte, ByteValue, BigEndianBytes, Number;
    var n := Number([hi, lo]);
    LengthOfIsNumber(hi, lo);
    LengthIsBigEndian(n);
    assert n / 256 % 256 == ByteValue(hi) && n % 256 == ByteValue(lo);
    ByteTruncates(n / 256 % 256);
    ByteTruncates(n % 256);
    SameByte(Byte(n % 256), lo);
    SameByte(Byte(n / 256 % 256), hi);
  }

  /** Fit records decide nothing; what follows them does. */
  lemma FitRecordsDecideNothing(accept: octets -> bool, s: octets, bodies: seq<octets>, rest: octets)
    requires Splits(accept, s, bodies, rest) && |bodies| <= 6
    requires bodies == [] || bodies[|bodies| - 1] != [] || rest != []
    ensures Outcome(accept, 0, s) == Outcome(accept, |bodies|, rest)
  {
    hide Wires, Fit, Layout;
    WiresLayout(accept, 0, bodies, rest);
    OutcomeOfStream(accept, 0, RecordLengths(bodies), s, rest);
  }

  // ---------- What every stream leads to ----------

  /**
   * After each read the handshake starts if and only if the stream is enough to start, the target is given up if and
   * only if fit records are followed by a wrong one, and in every other case more is read.
   */
  lemma EveryStream(accept: octets -> bool, s: octets)
    requires !accept([])
    ensures Outcome(accept, 0, s) == Handshake <==> exists lens, coalesced :: Starts(accept, s, lens, coalesced)
    ensures Outcome(accept, 0, s) == GiveUp <==> Spoilt(accept, s)
  {
    hide *;
    OutcomeTold(accept, s);
    if lens, coalesced :| Starts(accept, s, lens, coalesced) {
      StartsDecides(accept, s, lens, coalesced);
    }
    if Spoilt(accept, s) {
      SpoiltDecides(accept, s);
    }
  }

  lemma OutcomeTold(accept: octets -> bool, s: octets)
    requires !accept([])
    ensures Outcome(accept, 0, s) == Handshake ==> exists lens, coalesced :: Starts(accept, s, lens, coalesced)
    ensures Outcome(accept, 0, s) == GiveUp ==> Spoilt(accept, s)
  {
    hide Wires, Fit, Outcome, Opens, Announced, RecordSize, RecordLengths;
    var bodies, rest := FitRecordsFirst(accept, 0, s);
    assert Splits(accept, s, bodies, rest);
    if |rest| > 5 {
      HeaderInBytes(|bodies|, rest);
    }
    if Outcome(accept, 0, s) == Handshake {
      var lens, coalesced := WhatStarts(accept, s, bodies, rest);
      assert Starts(accept, s, lens, coalesced);
    }
  }

  lemma WhatStarts(accept: octets -> bool, s: octets, bodies: seq<octets>, rest: octets) returns (lens: seq<nat>, coalesced: bool)
    requires Splits(accept, s, bodies, rest) && |bodies| <= 6
    requires StageOutcome(accept, |bodies|, rest) == Some(Handshake)
    requires bodies != [] ==> bodies[|bodies| - 1] != [] || rest != []
    ensures Starts(accept, s, lens, coalesced)
  {
    hide Wires, Fit, Outcome, Opens, Announced, RecordSize, RecordLengths;
    if rest == [] {
      lens, coalesced := RecordLengths(bodies) + [0], false;
    } else {
      HeaderInBytes(|bodies|, rest);
      coalesced := |bodies| == 2;
      lens := if coalesced then RecordLengths(bodies) + [5 + BodySize(rest), 0, 0, 0, 0] else RecordLengths(bodies) + [5 + BodySize(rest)];
    }
  }

  lemma StartsDecides(accept: octets -> bool, s: octets, lens: seq<nat>, coalesced: bool)
    requires Starts(accept, s, lens, coalesced)
    ensures Outcome(accept, 0, s) == Handshake
  {
    hide Wires, Fit, Opens, Announced, RecordSize, RecordLengths, Splits;
    var bodies, rest: octets :| Splits(accept, s, bodies, rest) &&
      if coalesced then |bodies| == 2 && Opens(2, rest) && 5 + BodySize(rest) > 512
                        && lens == RecordLengths(bodies) + [5 + BodySize(rest), 0, 0, 0, 0]
      else |bodies| == 6 && if rest == [] then bodies[5] != [] && lens == RecordLengths(bodies) + [0]
                            else Opens(6, rest) && lens == RecordLengths(bodies) + [5 + BodySize(rest)];
    FitRecordsDecideNothing(accept, s, bodies, rest);
    if rest != [] {
      HeaderInBytes(|bodies|, rest);
    }
  }

  lemma SpoiltDecides(accept: octets -> bool, s: octets)
    requires Spoilt(accept, s)
    ensures Outcome(accept, 0, s) == GiveUp
  {
    hide Wires, Fit, Opens, Announced, RecordSize, Splits;
    var bodies, rest: octets :| Splits(accept, s, bodies, rest) && |bodies| <= 6 && Wrong(accept, |bodies|, rest);
    FitRecordsDecideNothing(accept, s, bodies, rest);
    HeaderInBytes(|bodies|, rest);
  }

  /** What is learned is what the bytes say, and the bytes say one thing only. */
  lemma LearnedStarts(accept: octets -> bool, s: octets, lens: seq<nat>, coalesced: bool)
    requires !accept([]) && Learned(accept, lens, coalesced, s) && Outcome(accept, 0, s) == Handshake
    ensures forall ls: seq<nat>, c :: Starts(accept, s, ls, c) <==> ls == lens && c == coalesced
  {
    hide *;
    OutcomeTold(accept, s);
    forall ls: seq<nat>, c
      ensures Starts(accept, s, ls, c) ==> ls == lens && c == coalesced
    {
      if Starts(accept, s, ls, c) {
        LearnedStartsOnce(accept, s, lens, coalesced, ls, c);
      }
    }
  }

  lemma LearnedStartsOnce(accept: octets -> bool, s: octets, lens: seq<nat>, coalesced: bool, ls: seq<nat>, c: bool)
    requires Learned(accept, lens, coalesced, s) && Starts(accept, s, ls, c)
    ensures ls == lens && c == coalesced
  {
    hide *;
    StartsLearned(accept, s, ls, c);
    OnlyOneLearned(accept, lens, coalesced, ls, c, s);
  }

  lemma StartsLearned(accept: octets -> bool, s: octets, lens: seq<nat>, coalesced: bool)
    requires Starts(accept, s, lens, coalesced)
    ensures Learned(accept, lens, coalesced, s)
  {
    hide Wires, Fit, Opens, Announced, RecordSize, RecordLengths, Layout, BodySize;
    var bodies, rest: octets :| Splits(accept, s, bodies, rest) &&
      if coalesced then |bodies| == 2 && Opens(2, rest) && 5 + BodySize(rest) > 512
                        && lens == RecordLengths(bodies) + [5 + BodySize(rest), 0, 0, 0, 0]
      else |bodies| == 6 && if rest == [] then bodies[5] != [] && lens == RecordLengths(bodies) + [0]
                            else Opens(6, rest) && lens == RecordLengths(bodies) + [5 + BodySize(rest)];
    WiresLayout(accept, 0, bodies, rest);
    if rest != [] {
      HeaderInBytes(|bodies|, rest);
    }
    assert lens[..|bodies|] == RecordLengths(bodies);
  }

  lemma OnlyOneLearned(accept: octets -> bool, lens: seq<nat>, coalesced: bool, ls: seq<nat>, c: bool, s: octets)
    requires Learned(accept, lens, coalesced, s) && Learned(accept, ls, c, s)
    ensures ls == lens && c == coalesced
  {
    hide Layout, Announced, RecordSize;
    ChunkingIrrelevant(accept, lens, coalesced, s, ls, c, s);
    ChunkingIrrelevant(accept, ls, c, s, lens, coalesced, s);
    assert lens == lens[..6] + [lens[6]] && ls == ls[..6] + [ls[6]];
  }

  // ---------- Whole runs of the loop ----------

  /** rest is what the loop still keeps of s when all whole records are taken out: nothing, or part of a record. */
  ghost predicate Kept(accept: octets -> bool, s: octets, rest: octets) {
    exists bodies: seq<octets> :: Splits(accept, s, bodies, rest) && |bodies| <= 6
      && (bodies == [] || bodies[|bodies| - 1] != [] || rest != [])
      && (|rest| <= 5 || |rest| < 5 + BodySize(rest))
  }

  /** With what is kept of s, the bytes read next would be more than the 8192 that may pile up. */
  ghost predicate PilesUp(accept: octets -> bool, s: octets, chunk: octets) {
    exists rest :: Kept(accept, s, rest) && |rest| + |chunk| > 8192
  }

  /** After this read nothing is decided yet. */
  ghost predicate GoesOn(accept: octets -> bool, before: octets, chunk: octets) {
    && !PilesUp(accept, before, chunk)
    && !Spoilt(accept, before + chunk)
    && forall lens, coalesced :: !Starts(accept, before + chunk, lens, coalesced)
  }

  /** What a run over some reads came to. */
  ghost predicate Told(accept: octets -> bool, chunks: seq<octets>, used: nat, step: Step, lens: seq<nat>, coalesced: bool) {
    && used <= |chunks| && (step.Wait? ==> used == |chunks|) && (!step.Wait? ==> used > 0)
    && (forall i :: 0 <= i < used - (if step.Wait? then 0 else 1) ==> GoesOn(accept, Concat(chunks[..i]), chunks[i]))
    && (step.Handshake? ==> Starts(accept, Concat(chunks[..used]), lens, coalesced)
                            && !PilesUp(accept, Concat(chunks[..used - 1]), chunks[used - 1]))
    && (step.GiveUp? ==> Spoilt(accept, Concat(chunks[..used]))
                         || PilesUp(accept, Concat(chunks[..used - 1]), chunks[used - 1]))
  }

  /** Two splits that both stop are one. */
  lemma {:induction false} StopsOnce(accept: octets -> bool, stage: nat, lens: seq<nat>, s: octets, rest: octets,
                                     lens': seq<nat>, rest': octets)
    requires Layout(accept, stage, lens, s, rest) && stage + |lens| <= 6 && StageOutcome(accept, stage + |lens|, rest).Some?
    requires Layout(accept, stage, lens', s, rest') && stage + |lens'| <= 6 && StageOutcome(accept, stage + |lens'|, rest').Some?
    ensures rest == rest'
    decreases |lens|
  {
    hide Announced, RecordSize;
    if lens != [] && lens' != [] {
      StopsOnce(accept, stage + 1, lens[1..], s[lens[0]..], rest, lens'[1..], rest');
    }
  }

  /** What the loop has saved is what is kept. */
  lemma SavedIsKept(accept: octets -> bool, lens: seq<nat>, s: octets, saved: octets)
    requires !accept([]) && Layout(accept, 0, lens, s, saved) && |lens| <= 6
    requires StageOutcome(accept, |lens|, saved) == Some(Wait)
    ensures forall rest :: Kept(accept, s, rest) <==> rest == saved
  {
    hide Layout, Wires, Fit, Announced, RecordSize, Splits;
    OutcomeOfStream(accept, 0, lens, s, saved);
    var bodies, r := FitRecordsFirst(accept, 0, s);
    SplitsAre(accept, s, bodies, r);
    WaitKeeps(accept, s, bodies, r);
    forall rest
      ensures Kept(accept, s, rest) ==> rest == saved
    {
      if Kept(accept, s, rest) {
        KeptStops(accept, lens, s, saved, rest);
      }
    }
    KeptStops(accept, lens, s, saved, r);
  }

  lemma SplitsAre(accept: octets -> bool, s: octets, bodies: seq<octets>, rest: octets)
    requires s == Wires(0, bodies) + rest && Fit(accept, 0, bodies)
    ensures Splits(accept, s, bodies, rest)
  {
  }

  lemma WaitKeeps(accept: octets -> bool, s: octets, bodies: seq<octets>, rest: octets)
    requires Splits(accept, s, bodies, rest) && |bodies| <= 6 && StageOutcome(accept, |bodies|, rest) == Some(Wait)
    requires bodies != [] ==> bodies[|bodies| - 1] != [] || rest != []
    ensures Kept(accept, s, rest)
  {
    hide Splits, Announced;
    if |rest| > 5 {
      HeaderInBytes(|bodies|, rest);
    }
  }

  lemma KeptStops(accept: octets -> bool, lens: seq<nat>, s: octets, saved: octets, rest: octets)
    requires Layout(accept, 0, lens, s, saved) && |lens| <= 6 && StageOutcome(accept, |lens|, saved) == Some(Wait)
    requires Kept(accept, s, rest)
    ensures rest == saved
  {
    hide Layout, Wires, Fit, Announced, RecordSize;
    var bodies: seq<octets> :| Splits(accept, s, bodies, rest) && |bodies| <= 6
      && (bodies == [] || bodies[|bodies| - 1] != [] || rest != [])
      && (|rest| <= 5 || |rest| < 5 + BodySize(rest));
    WiresLayout(accept, 0, bodies, rest);
    if |rest| > 5 {
      HeaderInBytes(|bodies|, rest);
    }
    StopsOnce(accept, 0, lens, s, saved, RecordLengths(bodies), rest);
  }

  lemma OneMoreRead(chunks: seq<octets>, i: nat)
    requires i < |chunks|
    ensures Concat(chunks[..i + 1]) == Concat(chunks[..i]) + chunks[i]
  {
    assert chunks[..i + 1][..i] == chunks[..i];
  }

  /** What one more read leads to, told in bytes. */
  lemma ReadDecides(accept: octets -> bool, lens: seq<nat>, before: octets, saved: octets, chunk: octets)
    requires !accept([]) && Layout(accept, 0, lens, before, saved) && |lens| <= 6
    requires StageOutcome(accept, |lens|, saved) == Some(Wait)
    ensures PilesUp(accept, before, chunk) <==> |saved| + |chunk| > SIZE
    ensures |saved| + |chunk| <= SIZE && Outcome(accept, 0, before + chunk) == Wait ==> GoesOn(accept, before, chunk)
    ensures Outcome(accept, 0, before + chunk) == GiveUp ==> Spoilt(accept, before + chunk)
  {
    hide Layout, StageOutcome, Kept, Starts, Spoilt, Outcome;
    SavedIsKept(accept, lens, before, saved);
    EveryStream(accept, before + chunk);
  }

  lemma NothingRead(accept: octets -> bool, lens: seq<nat>, s: octets, saved: octets)
    requires Layout(accept, 0, lens, s, saved) && |lens| <= 6 && StageOutcome(accept, |lens|, saved) == Some(Wait)
    ensures Outcome(accept, 0, s + []) == Wait
  {
    assert s + [] == s;
    OutcomeOfStream(accept, 0, lens, s, saved);
  }

  /** The loop over the reads of the target, from a new connection on. */
  method Learn(l: Learner, chunks: seq<octets>) returns (step: Step, used: nat)
    requires l.Valid() && l.stream == [] && l.filled == 0 && l.s2cSaved == [] && !l.accept([])
    modifies l, l.handshakeLens
    ensures Told(l.accept, chunks, used, step, l.handshakeLens[..], l.coalesced)
  {
    hide Layout, StageOutcome, Outcome, PilesUp, Spoilt, Starts, GoesOn, Learned, Announced, RecordSize, Concat;
    step, used := Wait, 0;
    AtFirst(l.accept);
    while used < |chunks|
      invariant l.Valid() && used <= |chunks| && l.stream == Concat(chunks[..used]) && step.Wait?
      invariant StageOutcome(l.accept, l.filled, l.s2cSaved) == Some(Wait)
      invariant forall i :: 0 <= i < used ==> GoesOn(l.accept, Concat(chunks[..i]), chunks[i])
    {
      OneMoreRead(chunks, used);
      ghost var lens, before, saved := l.handshakeLens[..l.filled], l.stream, l.s2cSaved;
      ReadDecides(l.accept, lens, before, saved, chunks[used]);
      if chunks[used] == [] {
        NothingRead(l.accept, lens, before, saved);
      } else {
        step := l.Feed(chunks[used]);
        if step.Handshake? {
          LearnedStarts(l.accept, l.stream, l.handshakeLens[..], l.coalesced);
        }
      }
      used := used + 1;
      if !step.Wait? {
        return;
      }
    }
  }

  lemma AtFirst(accept: octets -> bool)
    ensures StageOutcome(accept, 0, []) == Some(Wait)
    ensures Concat([]) == []
  {
  }

  // ---------- A target of TLS 1.3 ----------

  /**
   * ServerHello, change_cipher_spec and four encrypted records, with nothing or more records behind them; or, when
   * the first encrypted record is longer than 512 bytes, all that follows from there.
   */
  predicate Target(accept: octets -> bool, bodies: seq<octets>, tail: octets) {
    && Fit(accept, 0, bodies)
    && if |bodies| == 2 then Opens(2, tail) && 5 + BodySize(tail) > 512
       else |bodies| == 6 && if tail == [] then bodies[5] != [] else Opens(6, tail)
  }

  /** Of the first n bytes of records of these lengths, those that are no whole record. */
  function Left(lens: seq<nat>, n: nat): nat
    decreases |lens|
  {
    if lens == [] || n < lens[0] || n <= 5 then n else Left(lens[1..], n - lens[0])
  }

  /** No read of these lets more than 8192 bytes pile up. */
  ghost predicate NeverPilesUp(bodies: seq<octets>, chunks: seq<octets>) {
    forall i :: 0 <= i < |chunks| ==> Left(RecordLengths(bodies), |Concat(chunks[..i])|) + |chunks[i]| <= 8192
  }

  lemma TargetIsEnough(accept: octets -> bool, bodies: seq<octets>, tail: octets) returns (lens: seq<nat>, coalesced: bool)
    requires Target(accept, bodies, tail)
    ensures Starts(accept, Wires(0, bodies) + tail, lens, coalesced)
    ensures coalesced == (|bodies| == 2) && |lens| == STAGES && lens[..|bodies|] == RecordLengths(bodies)
    ensures coalesced ==> lens[2..] == [5 + BodySize(tail), 0, 0, 0, 0]
    ensures !coalesced ==> lens[6] == if tail == [] then 0 else 5 + BodySize(tail)
  {
    hide Opens, Fit, RecordLengths, Wires, BodySize;
    assert Splits(accept, Wires(0, bodies) + tail, bodies, tail);
    coalesced := |bodies| == 2;
    if coalesced {
      lens := RecordLengths(bodies) + [5 + BodySize(tail), 0, 0, 0, 0];
    } else {
      lens := RecordLengths(bodies) + [if tail == [] then 0 else 5 + BodySize(tail)];
    }
  }

  /** What is wrong stays wrong. */
  lemma SpoiltForGood(accept: octets -> bool, s: octets, more: octets)
    requires Spoilt(accept, s)
    ensures Spoilt(accept, s + more)
  {
    hide Wires, Fit;
    var bodies, rest: octets :| Splits(accept, s, bodies, rest) && |bodies| <= 6 && Wrong(accept, |bodies|, rest);
    assert s + more == Wires(0, bodies) + (rest + more);
    assert Splits(accept, s + more, bodies, rest + more);
    WrongForGood(accept, |bodies|, rest, more);
  }

  lemma WrongForGood(accept: octets -> bool, stage: nat, s: octets, more: octets)
    requires Wrong(accept, stage, s)
    ensures Wrong(accept, stage, s + more)
  {
    hide Number;
    assert (s + more)[..3] == s[..3] && (s + more)[3..5] == s[3..5] && (s + more)[5] == s[5];
    var n := BodySize(s);
    if |s| >= 5 + n {
      assert (s + more)[5..5 + n] == s[5..5 + n];
    }
  }

  lemma ConcatSplits(chunks: seq<octets>, n: nat)
    requires n <= |chunks|
    ensures Concat(chunks) == Concat(chunks[..n]) + Concat(chunks[n..])
  {
    hide Concat;
    assert chunks == chunks[..n] + chunks[n..];
    ConcatAppend(chunks[..n], chunks[n..]);
  }

  /** When the whole stream is enough to start, no part of it is wrong, and what was learned on the way is the same. */
  lemma NotWaiting(accept: octets -> bool, chunks: seq<octets>, used: nat, step: Step, lens: seq<nat>, coalesced: bool,
                   full: seq<nat>, c: bool)
    requires !accept([]) && Told(accept, chunks, used, step, lens, coalesced) && Starts(accept, Concat(chunks), full, c)
    ensures !step.Wait? && used > 0
    ensures step.Handshake? <==> !PilesUp(accept, Concat(chunks[..used - 1]), chunks[used - 1])
    ensures step.Handshake? ==> |lens| == |full| == STAGES && coalesced == c && lens[..6] == full[..6]
    ensures step.Handshake? ==> lens[6] == 0 || lens[6] == full[6]
  {
    hide Outcome, Starts, Spoilt, PilesUp, Concat, Learned;
    StartsDecides(accept, Concat(chunks), full, c);
    AtFirst(accept);
    if step.Wait? {
      assert chunks[..used] == chunks;
      if used == 0 {
        assert Concat(chunks) == [];
        NothingStarts(accept);
      } else {
        OneMoreRead(chunks, used - 1);
      }
    }
    ConcatSplits(chunks, used);
    var now, later := Concat(chunks[..used]), Concat(chunks[used..]);
    if Spoilt(accept, now) {
      SpoiltForGood(accept, now, later);
      SpoiltDecides(accept, now + later);
    }
    if step.Handshake? {
      StartsLearned(accept, now, lens, coalesced);
      StartsLearned(accept, now + later, full, c);
      LearnedSize(accept, lens, coalesced, now);
      LearnedSize(accept, full, c, now + later);
      ChunkingIrrelevant(accept, lens, coalesced, now, full, c, now + later);
    }
  }

  lemma NothingStarts(accept: octets -> bool)
    ensures Outcome(accept, 0, []) == Wait
  {
  }

  lemma LearnedSize(accept: octets -> bool, lens: seq<nat>, coalesced: bool, s: octets)
    requires Learned(accept, lens, coalesced, s)
    ensures |lens| == STAGES
  {
  }

  /** Of what is read of a target, the loop keeps what is no whole record. */
  lemma {:induction false} KeptOfTarget(accept: octets -> bool, stage: nat, bodies: seq<octets>, tail: octets,
                                        bs: seq<octets>, rest: octets)
    requires Fit(accept, stage, bodies) && Fit(accept, stage, bs)
    requires Wires(stage, bs) + rest <= Wires(stage, bodies) + tail
    requires bs == [] || bs[|bs| - 1] != [] || rest != []
    requires bodies == [] || bodies[|bodies| - 1] != [] || tail != []
    requires stage + |bs| <= 6
    requires stage + |bodies| == 6 || (stage + |bodies| == 2 && Opens(2, tail) && 5 + BodySize(tail) > 512)
    requires |rest| <= 5 || |rest| < 5 + BodySize(rest)
    ensures |rest| == Left(RecordLengths(bodies), |Wires(stage, bs) + rest|)
    decreases |bs|
  {
    hide Wire, BodySize, Wires, Fit, Opens, Left, RecordLengths;
    if bs == [] {
      NothingTaken(accept, stage, bodies, tail, rest);
    } else {
      var more := Wires(stage + 1, bs[1..]) + rest;
      FirstRecord(accept, stage, bs, rest);
      if bodies == [] {
        NoRecords(accept, stage, tail);
        ThirdIsLonger(Type(stage), bs[0], more, tail);
        assert false;
      }
      FirstRecord(accept, stage, bodies, tail);
      SameRecord(Type(stage), bs[0], more, bodies[0], Wires(stage + 1, bodies[1..]) + tail);
      KeptOfTarget(accept, stage + 1, bodies[1..], tail, bs[1..], rest);
      LeftBehind(bodies, 5 + |bs[0]| + |more|);
    }
  }

  lemma FirstRecord(accept: octets -> bool, stage: nat, bodies: seq<octets>, rest: octets)
    requires Fit(accept, stage, bodies) && bodies != []
    requires bodies[|bodies| - 1] != [] || rest != []
    ensures |bodies[0]| <= 8187 && (stage == 2 ==> |bodies[0]| <= 507) && Fit(accept, stage + 1, bodies[1..])
    ensures var more := Wires(stage + 1, bodies[1..]) + rest;
            && Wires(stage, bodies) + rest == Wire(Type(stage), bodies[0]) + more
            && (bodies[0] != [] || more != [])
            && |Wires(stage, bodies) + rest| == 5 + |bodies[0]| + |more|
  {
    if bodies[0] == [] {
      MoreFollows(stage, bodies, rest);
    }
  }

  lemma NothingTaken(accept: octets -> bool, stage: nat, bodies: seq<octets>, tail: octets, rest: octets)
    requires Fit(accept, stage, bodies) && Wires(stage, []) + rest <= Wires(stage, bodies) + tail
    requires bodies == [] || bodies[|bodies| - 1] != [] || tail != []
    requires |rest| <= 5 || |rest| < 5 + BodySize(rest)
    ensures |rest| == Left(RecordLengths(bodies), |Wires(stage, []) + rest|)
  {
    hide Wire, BodySize, Wires, Fit;
    NoRecords(accept, stage, rest);
    if bodies != [] {
      FirstRecord(accept, stage, bodies, tail);
      WireParts(Type(stage), bodies[0], Wires(stage + 1, bodies[1..]) + tail);
      SameSize(rest, Wires(stage, bodies) + tail, |bodies[0]|);
    }
  }

  lemma LeftBehind(bodies: seq<octets>, n: nat)
    requires bodies != [] && n >= 5 + |bodies[0]| && n > 5
    ensures Left(RecordLengths(bodies), n) == Left(RecordLengths(bodies[1..]), n - 5 - |bodies[0]|)
  {
    assert RecordLengths(bodies)[1..] == RecordLengths(bodies[1..]);
  }

  lemma ThirdIsLonger(typ: octet, b: octets, more: octets, tail: octets)
    requires |b| <= 507 && (b != [] || more != []) && |tail| > 5 && 5 + BodySize(tail) > 512
    ensures !(Wire(typ, b) + more <= tail)
  {
    hide Wire, Number;
    WireParts(typ, b, more);
    if Wire(typ, b) + more <= tail {
      SameSize(Wire(typ, b) + more, tail, BodySize(tail));
    }
  }

  lemma SameSize(p: octets, f: octets, n: nat)
    requires p <= f && (|p| > 5 ==> Number(f[3..5]) == n)
    ensures |p| > 5 ==> BodySize(p) == n
  {
    hide Number;
    if |p| > 5 {
      assert p[3..5] == f[3..5];
    }
  }

  lemma SameRecord(typ: octet, b: octets, more: octets, b': octets, more': octets)
    requires |b| <= 8187 && |b'| <= 8187 && (b != [] || more != [])
    requires Wire(typ, b) + more <= Wire(typ, b') + more'
    ensures b == b' && more <= more'
  {
    hide Number, Wire;
    WireParts(typ, b, more);
    WireParts(typ, b', more');
    var p, f := Wire(typ, b) + more, Wire(typ, b') + more';
    SameSize(p, f, |b'|);
    DropPrefix(p, f, 5 + |b|);
    assert p[5..5 + |b|] == f[5..5 + |b|];
  }

  lemma PileOfTarget(accept: octets -> bool, bodies: seq<octets>, tail: octets, s: octets, chunk: octets)
    requires !accept([]) && Target(accept, bodies, tail) && s <= Wires(0, bodies) + tail && Outcome(accept, 0, s) == Wait
    ensures PilesUp(accept, s, chunk) <==> Left(RecordLengths(bodies), |s|) + |chunk| > 8192
  {
    hide Wires, Fit, RecordLengths, Left, StageOutcome, Outcome, Opens;
    var bs, rest := FitRecordsFirst(accept, 0, s);
    SplitsAre(accept, s, bs, rest);
    WaitKeeps(accept, s, bs, rest);
    forall r | Kept(accept, s, r)
      ensures |r| == Left(RecordLengths(bodies), |s|)
    {
      var b: seq<octets> :| Splits(accept, s, b, r) && |b| <= 6
        && (b == [] || b[|b| - 1] != [] || r != [])
        && (|r| <= 5 || |r| < 5 + BodySize(r));
      KeptOfTarget(accept, 0, bodies, tail, b, r);
    }
  }

  lemma PilesOfTarget(accept: octets -> bool, bodies: seq<octets>, tail: octets, chunks: seq<octets>, used: nat, step: Step,
                      lens: seq<nat>, coalesced: bool)
    requires !accept([]) && Target(accept, bodies, tail) && Concat(chunks) == Wires(0, bodies) + tail
    requires Told(accept, chunks, used, step, lens, coalesced) && !step.Wait? && used > 0
    requires step.Handshake? <==> !PilesUp(accept, Concat(chunks[..used - 1]), chunks[used - 1])
    ensures step.Handshake? <==> NeverPilesUp(bodies, chunks[..used])
  {
    hide Wires, Fit, RecordLengths, Left, Outcome, Opens, Starts, Spoilt, PilesUp, Target, Concat;
    forall i | 0 <= i < used
      ensures chunks[..used][i] == chunks[i] && chunks[..used][..i] == chunks[..i]
      ensures PilesUp(accept, Concat(chunks[..i]), chunks[i]) <==>
              Left(RecordLengths(bodies), |Concat(chunks[..i])|) + |chunks[i]| > 8192
    {
      if i > 0 {
        assert GoesOn(accept, Concat(chunks[..i - 1]), chunks[i - 1]);
        OneMoreRead(chunks, i - 1);
        EveryStream(accept, Concat(chunks[..i]));
      } else {
        AtFirst(accept);
        NothingStarts(accept);
      }
      ConcatSplits(chunks, i);
      PileOfTarget(accept, bodies, tail, Concat(chunks[..i]), chunks[i]);
    }
  }

  /**
   * However the bytes of a target are cut into reads, the handshake starts if no more than 8192 bytes pile up on the
   * way, with exactly the lengths of its records; otherwise the target is given up.
   */
  lemma TargetStarts(accept: octets -> bool, bodies: seq<octets>, tail: octets, chunks: seq<octets>, used: nat, step: Step,
                     lens: seq<nat>, coalesced: bool)
    requires !accept([]) && Target(accept, bodies, tail) && Concat(chunks) == Wires(0, bodies) + tail
    requires Told(accept, chunks, used, step, lens, coalesced)
    ensures step == if NeverPilesUp(bodies, chunks[..used]) then Handshake else GiveUp
    ensures step == Handshake ==> |lens| == STAGES && coalesced == (|bodies| == 2) && lens[..|bodies|] == RecordLengths(bodies)
    ensures step == Handshake && coalesced ==> lens[2..] == [5 + BodySize(tail), 0, 0, 0, 0]
    ensures step == Handshake && !coalesced ==> lens[6] == 0 || (tail != [] && lens[6] == 5 + BodySize(tail))
  {
    hide Wires, Fit, RecordLengths, Opens, BodySize, Starts, Told, NeverPilesUp, Concat, PilesUp;
    var full, c := TargetIsEnough(accept, bodies, tail);
    NotWaiting(accept, chunks, used, step, lens, coalesced, full, c);
    PilesOfTarget(accept, bodies, tail, chunks, used, step, lens, coalesced);
    if step.Handshake? {
      assert lens == lens[..6] + [lens[6]] && full == full[..6] + [full[6]];
      if coalesced {
        assert full[6] == full[2..][4];
        assert lens == full;
      } else {
        assert lens[..|bodies|] == lens[..6] && full[..|bodies|] == full[..6];
      }
    }
  }
}
