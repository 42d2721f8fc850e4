/**
 * REALITY's imitation of a target: the loop of Server (tls.go) that learns the record lengths of the target's
 * first flight, and the server flight (handshake_server_tls13.go) that is sent in records of those lengths.
 */
module Shaping {
  import opened BigEndian
  import opened Ghash
  import opened HalfConns
  import opened Nonces
  import opened Records
  import opened Wrappers
  import opened Writers

  const SIZE := 8192
  const STAGES := 7

  // ---------- The target's flight as a byte stream ----------

  /** Whether the record at the front of s may be that of the given stage. */
  predicate HeaderFits(stage: nat, s: octets) {
    && |s| > RECORD_HEADER_LEN
    && LengthOf(s[1], s[2]) == VERSION_TLS12
    && (stage == 0 ==> s[0] == HANDSHAKE && s[5] == SERVER_HELLO)
    && (stage == 1 ==> s[0] == CHANGE_CIPHER_SPEC && s[5] == 1)
    && (stage > 1 ==> s[0] == APPLICATION_DATA)
  }

  /** The length of the whole record at the front of s, from its header. */
  function RecordSize(s: octets): (n: nat)
    requires |s| > RECORD_HEADER_LEN
    ensures n >= RECORD_HEADER_LEN
  {
    RECORD_HEADER_LEN + LengthOf(s[3], s[4])
  }

  /** A record is announced at the front of s, and fit for its stage. */
  predicate Announced(stage: nat, s: octets): (b: bool)
    ensures b ==> |s| > RECORD_HEADER_LEN
  {
    && HeaderFits(stage, s)
    && RecordSize(s) <= SIZE
    && (stage == 1 ==> RecordSize(s) == 6)
  }

  /** s starts with whole records of the given lengths, for the stages from `stage` on, and rest follows them. */
  ghost predicate Layout(accept: octets -> bool, stage: nat, lens: seq<nat>, s: octets, rest: octets)
    decreases |lens|
  {
    if lens == [] then s == rest
    else
      && Announced(stage, s)
      && lens[0] == RecordSize(s) <= |s|
      && (stage == 0 ==> accept(s[RECORD_HEADER_LEN..lens[0]]))
      && (stage == 2 ==> lens[0] <= 512)
      && Layout(accept, stage + 1, lens[1..], s[lens[0]..], rest)
  }

  function Sum(lens: seq<nat>): nat {
    if lens == [] then 0 else lens[0] + Sum(lens[1..])
  }

  /** Nothing of the stream is lost or counted twice. */
  lemma {:induction false} LayoutSum(accept: octets -> bool, stage: nat, lens: seq<nat>, s: octets, rest: octets)
    requires Layout(accept, stage, lens, s, rest)
    ensures Sum(lens) + |rest| == |s| && s[Sum(lens)..] == rest
    decreases |lens|
  {
    hide Announced, RecordSize;
    if lens != [] {
      LayoutSum(accept, stage + 1, lens[1..], s[lens[0]..], rest);
      assert s[lens[0]..][Sum(lens[1..])..] == s[Sum(lens)..];
    }
  }

  lemma {:induction false} LayoutOneMore(accept: octets -> bool, stage: nat, lens: seq<nat>, s: octets, rest: octets)
    requires Layout(accept, stage, lens, s, rest) && Announced(stage + |lens|, rest) && RecordSize(rest) <= |rest|
    requires stage + |lens| == 0 ==> accept(rest[RECORD_HEADER_LEN..RecordSize(rest)])
    requires stage + |lens| == 2 ==> RecordSize(rest) <= 512
    ensures Layout(accept, stage, lens + [RecordSize(rest)], s, rest[RecordSize(rest)..])
    decreases |lens|
  {
    hide Announced, RecordSize;
    var more := lens + [RecordSize(rest)];
    if lens == [] {
      assert more[1..] == [];
    } else {
      LayoutOneMore(accept, stage + 1, lens[1..], s[lens[0]..], rest);
      assert more[1..] == lens[1..] + [RecordSize(rest)];
    }
  }

  lemma {:induction false} LayoutGrows(accept: octets -> bool, stage: nat, lens: seq<nat>, s: octets, rest: octets, more: octets)
    requires Layout(accept, stage, lens, s, rest)
    ensures Layout(accept, stage, lens, s + more, rest + more)
    decreases |lens|
  {
    if lens != [] {
      assert (s + more)[lens[0]..] == s[lens[0]..] + more;
      assert (s + more)[RECORD_HEADER_LEN..lens[0]] == s[RECORD_HEADER_LEN..lens[0]];
      LayoutGrows(accept, stage + 1, lens[1..], s[lens[0]..], rest, more);
    }
  }

  /** The stream determines the lengths: one layout starts like the other. */
  lemma {:induction false} LayoutUnique(accept: octets -> bool, stage: nat, lens: seq<nat>, s: octets, rest: octets,
                                        lens': seq<nat>, s': octets, rest': octets)
    requires Layout(accept, stage, lens, s, rest) && Layout(accept, stage, lens', s', rest')
    requires s <= s' && |lens| == |lens'|
    ensures lens == lens'
    decreases |lens|
  {
    hide Announced, RecordSize;
    if lens != [] {
      RecordSizeOfPrefix(s, s');
      DropPrefix(s, s', lens[0]);
      LayoutUnique(accept, stage + 1, lens[1..], s[lens[0]..], rest, lens'[1..], s'[lens[0]..], rest');
      assert lens == [lens[0]] + lens[1..] && lens' == [lens'[0]] + lens'[1..];
    }
  }

  lemma RecordSizeOfPrefix(s: octets, s': octets)
    requires |s| > RECORD_HEADER_LEN && s <= s'
    ensures RecordSize(s') == RecordSize(s)
  {
  }

  lemma DropPrefix(s: octets, s': octets, n: nat)
    requires s <= s' && n <= |s|
    ensures s[n..] <= s'[n..]
  {
  }

  // ---------- Learning the lengths ----------

  /** What the loop does after a read: wait for more, start the handshake, or give up. */
  datatype Step = Wait | Handshake | GiveUp

  /**
   * What the saved bytes s decide at a stage; None means that the record of the stage is there in full, and fine. They
   * are given up when a record is announced that does not fit its stage, is too long, or is a refused ServerHello.
   */
  function StageOutcome(accept: octets -> bool, stage: nat, s: octets): (step: Option<Step>)
    ensures step.None? ==> |s| > RECORD_HEADER_LEN && RecordSize(s) <= |s|
    ensures stage == 6 ==> step.Some?
  {
    if stage == 6 && s == [] then Some(Handshake)
    else if |s| <= RECORD_HEADER_LEN then Some(Wait)
    else if !Announced(stage, s) then Some(GiveUp)
    else if stage == 6 || (stage == 2 && RecordSize(s) > 512) then Some(Handshake)
    else if |s| < RecordSize(s) then Some(Wait)
    else if stage == 0 && !accept(s[RECORD_HEADER_LEN..RecordSize(s)]) then Some(GiveUp)
    else None
  }

  /** What the saved bytes s decide from a stage on: that of the first stage that decides anything. */
  function Outcome(accept: octets -> bool, stage: nat, s: octets): Step
    requires stage <= 6
    decreases 6 - stage
  {
    match StageOutcome(accept, stage, s)
    case Some(step) => step
    case None => Outcome(accept, stage + 1, s[RecordSize(s)..])
  }

  /** What was learned when the handshake starts. */
  ghost predicate Learned(accept: octets -> bool, lens: seq<nat>, coalesced: bool, stream: octets) {
    && |lens| == STAGES
    && if coalesced then
         exists rest: octets ::
           && Layout(accept, 0, lens[..2], stream, rest)
           && Announced(2, rest) && lens[2] == RecordSize(rest) > 512
           && lens[3..] == [0, 0, 0, 0]
       else
         exists rest: octets ::
           && Layout(accept, 0, lens[..6], stream, rest)
           && if lens[6] == 0 then rest == [] else Announced(6, rest) && lens[6] == RecordSize(rest)
  }

  /** The state of the loop between two reads of the target. */
  class Learner {
    const accept: octets -> bool
    const handshakeLens: array<nat>
    var s2cSaved: octets
    var handshakeLen: nat
    var coalesced: bool
    ghost var stream: octets
    ghost var filled: nat

    ghost predicate Valid()
      reads this, handshakeLens
    {
      && handshakeLens.Length == STAGES
      && filled < STAGES
      && (forall i :: filled <= i < STAGES ==> handshakeLens[i] == 0)
      && (forall i :: 0 <= i < filled ==> handshakeLens[i] > 0)
      && Layout(accept, 0, handshakeLens[..filled], stream, s2cSaved)
      && |s2cSaved| <= SIZE
      && !coalesced
      && (handshakeLen != 0 ==> Announced(filled, s2cSaved) && handshakeLen == RecordSize(s2cSaved))
    }

    constructor (acceptHello: octets -> bool)
      ensures accept == acceptHello && Valid() && stream == [] && filled == 0
      ensures fresh(handshakeLens)
    {
      accept := acceptHello;
      handshakeLens := new nat[STAGES](_ => 0);
      s2cSaved, handshakeLen, coalesced := [], 0, false;
      stream, filled := [], 0;
    }

    /** Moves a whole record of the current stage out of the saved bytes. */
    method TakeRecord(i: nat)
      requires Valid() && i == filled < 6 && handshakeLen != 0 && |s2cSaved| >= handshakeLen
      requires i == 0 ==> accept(s2cSaved[RECORD_HEADER_LEN..handshakeLen])
      requires i == 2 ==> handshakeLen <= 512
      modifies this, handshakeLens
      ensures Valid() && filled == i + 1 && stream == old(stream)
      ensures s2cSaved == old(s2cSaved[handshakeLen..])
    {
      hide Announced, RecordSize, HeaderFits, Layout;
      ghost var lens := handshakeLens[..filled];
      LayoutOneMore(accept, 0, lens, stream, s2cSaved);
      handshakeLens[i] := handshakeLen;
      assert handshakeLens[..filled + 1] == lens + [handshakeLen];
      s2cSaved := s2cSaved[handshakeLen..];
      handshakeLen := 0;
      filled := filled + 1;
    }

    /** One stage of the loop; None goes on to the next. */
    method TryStage(i: nat) returns (step: Option<Step>)
      requires Valid() && i == filled
      modifies this, handshakeLens
      ensures stream == old(stream) && step == StageOutcome(accept, i, old(s2cSaved))
      ensures step.None? ==> Valid() && filled == i + 1 && s2cSaved == old(s2cSaved)[RecordSize(old(s2cSaved))..]
      ensures step == Some(Wait) ==> Valid() && filled == i && s2cSaved == old(s2cSaved)
      ensures step == Some(Handshake) ==> Learned(accept, handshakeLens[..], coalesced, stream)
    {
      hide Announced, RecordSize, HeaderFits, Layout;
      if |s2cSaved| > RECORD_HEADER_LEN {
        WhatIsAnnounced(i, s2cSaved);
      }
      if i == 6 && |s2cSaved| == 0 {
        return Some(Handshake);
      }
      if handshakeLen == 0 && |s2cSaved| > RECORD_HEADER_LEN {
        if !HeaderFits(i, s2cSaved) {
          return Some(GiveUp);
        }
        handshakeLen := RecordSize(s2cSaved);
      }
      if handshakeLen > SIZE {
        return Some(GiveUp);
      }
      if i == 1 && handshakeLen > 0 && handshakeLen != 6 {
        return Some(GiveUp);
      }
      AnnounceNow(i, s2cSaved, handshakeLen);
      if i == 2 && handshakeLen > 512 {
        handshakeLens[i] := handshakeLen;
        coalesced := true;
        return Some(Handshake);
      }
      if i == 6 && handshakeLen > 0 {
        handshakeLens[i] := handshakeLen;
        return Some(Handshake);
      }
      if handshakeLen == 0 || |s2cSaved| < handshakeLen {
        return Some(Wait);
      }
      if i == 0 && !accept(s2cSaved[RECORD_HEADER_LEN..handshakeLen]) {
        return Some(GiveUp);
      }
      TakeRecord(i);
      return None;
    }

    /** One read of the target: the bytes that came. */
    method Feed(chunk: octets) returns (step: Step)
      requires Valid() && chunk != []
      modifies this, handshakeLens
      ensures stream == old(stream) + chunk
      ensures var saved := old(s2cSaved) + chunk;
              step == if |saved| > SIZE then GiveUp else Outcome(accept, 0, stream)
      ensures step.Wait? ==> Valid() && StageOutcome(accept, filled, s2cSaved) == Some(Wait)
      ensures step.Handshake? ==> Learned(accept, handshakeLens[..], coalesced, stream)
    {
      hide Announced, RecordSize, HeaderFits, Layout, Learned, StageOutcome;
      LayoutGrows(accept, 0, handshakeLens[..filled], stream, s2cSaved, chunk);
      if handshakeLen != 0 {
        AnnouncedGrows(filled, s2cSaved, chunk);
      }
      s2cSaved := s2cSaved + chunk;
      stream := stream + chunk;
      if |s2cSaved| > SIZE {
        return GiveUp;
      }
      OutcomeOfStream(accept, 0, handshakeLens[..filled], stream, s2cSaved);
      for i := 0 to STAGES
        invariant Valid() && i <= filled
        invariant stream == old(stream) + chunk
        invariant Outcome(accept, filled, s2cSaved) == Outcome(accept, 0, stream)
      {
        if handshakeLens[i] != 0 {
          continue;
        }
        var stage := TryStage(i);
        if stage.Some? {
          return stage.value;
        }
      }
      return Handshake;
    }
  }

  /** The records that are already taken do not matter for what is decided: the whole stream decides the same. */
  lemma {:induction false} OutcomeOfStream(accept: octets -> bool, stage: nat, lens: seq<nat>, s: octets, rest: octets)
    requires Layout(accept, stage, lens, s, rest) && stage + |lens| <= 6
    ensures Outcome(accept, stage, s) == Outcome(accept, stage + |lens|, rest)
    decreases |lens|
  {
    hide Announced, RecordSize;
    if lens != [] {
      OutcomeOfStream(accept, stage + 1, lens[1..], s[lens[0]..], rest);
    }
  }

  lemma AnnouncedGrows(stage: nat, s: octets, more: octets)
    requires Announced(stage, s)
    ensures Announced(stage, s + more) && RecordSize(s + more) == RecordSize(s)
  {
  }

  lemma WhatIsAnnounced(stage: nat, s: octets)
    requires |s| > RECORD_HEADER_LEN
    ensures Announced(stage, s) <==> HeaderFits(stage, s) && RecordSize(s) <= SIZE && (stage == 1 ==> RecordSize(s) == 6)
  {
  }

  lemma AnnounceNow(stage: nat, s: octets, n: nat)
    requires n <= SIZE && (stage == 1 && n > 0 ==> n == 6)
    requires n != 0 ==> (Announced(stage, s) && n == RecordSize(s)) || (HeaderFits(stage, s) && n == RecordSize(s))
    ensures n != 0 ==> Announced(stage, s) && n == RecordSize(s)
  {
  }

  // ---------- Chunking does not matter ----------

  /** A layout splits at any stage. */
  lemma {:induction false} LayoutSplit(accept: octets -> bool, stage: nat, lens: seq<nat>, s: octets, rest: octets, k: nat)
    returns (mid: octets)
    requires Layout(accept, stage, lens, s, rest) && k <= |lens|
    ensures Layout(accept, stage, lens[..k], s, mid) && Layout(accept, stage + k, lens[k..], mid, rest)
    decreases k
  {
    hide Announced, RecordSize;
    if k == 0 {
      mid := s;
    } else {
      mid := LayoutSplit(accept, stage + 1, lens[1..], s[lens[0]..], rest, k - 1);
      assert lens[1..][..k - 1] == lens[..k][1..] && lens[1..][k - 1..] == lens[k..];
    }
  }

  /** Lengths that were learned are those of the records the stream starts with, and fit the padding there is. */
  lemma LearnedBounds(accept: octets -> bool, lens: seq<nat>, coalesced: bool, stream: octets)
    requires Learned(accept, lens, coalesced, stream)
    ensures forall i :: 0 <= i < STAGES ==> lens[i] <= SIZE
    ensures lens[1] == 6 && (coalesced <==> lens[2] > 512)
    ensures coalesced ==> lens[6] == 0
    ensures !coalesced ==> forall i :: 0 <= i < 6 ==> lens[i] >= RECORD_HEADER_LEN
  {
    hide Layout;
    if coalesced {
      var rest :| Layout(accept, 0, lens[..2], stream, rest) && Announced(2, rest) && lens[2] == RecordSize(rest) > 512;
      LayoutBounds(accept, 0, lens[..2], stream, rest);
      assert lens[3] == lens[3..][0] && lens[4] == lens[3..][1] && lens[5] == lens[3..][2] && lens[6] == lens[3..][3];
      assert lens[0] == lens[..2][0] && lens[1] == lens[..2][1];
    } else {
      var rest :| Layout(accept, 0, lens[..6], stream, rest)
                  && if lens[6] == 0 then rest == [] else Announced(6, rest) && lens[6] == RecordSize(rest);
      LayoutBounds(accept, 0, lens[..6], stream, rest);
      forall i | 0 <= i < 6
        ensures RECORD_HEADER_LEN <= lens[i] <= SIZE && (i == 1 ==> lens[i] == 6) && (i == 2 ==> lens[i] <= 512)
      {
        assert lens[i] == lens[..6][i];
      }
    }
  }

  lemma {:induction false} LayoutBounds(accept: octets -> bool, stage: nat, lens: seq<nat>, s: octets, rest: octets)
    requires Layout(accept, stage, lens, s, rest)
    ensures forall i :: 0 <= i < |lens| ==>
              RECORD_HEADER_LEN <= lens[i] <= SIZE && (stage + i == 1 ==> lens[i] == 6) && (stage + i == 2 ==> lens[i] <= 512)
    decreases |lens|
  {
    if lens != [] {
      LayoutBounds(accept, stage + 1, lens[1..], s[lens[0]..], rest);
      forall i | 0 <= i < |lens|
        ensures RECORD_HEADER_LEN <= lens[i] <= SIZE && (stage + i == 1 ==> lens[i] == 6) && (stage + i == 2 ==> lens[i] <= 512)
      {
        if i > 0 {
          assert lens[i] == lens[1..][i - 1];
        }
      }
    }
  }

  /** The first k lengths of what was learned, and what the stream has left after them. */
  lemma LearnedPrefix(accept: octets -> bool, lens: seq<nat>, coalesced: bool, stream: octets) returns (mid: octets)
    requires Learned(accept, lens, coalesced, stream)
    ensures Layout(accept, 0, lens[..2], stream, mid) && Announced(2, mid) && lens[2] == RecordSize(mid)
  {
    hide Announced, RecordSize;
    if coalesced {
      mid :| Layout(accept, 0, lens[..2], stream, mid) && Announced(2, mid) && lens[2] == RecordSize(mid) > 512;
    } else {
      var rest :| Layout(accept, 0, lens[..6], stream, rest);
      mid := LayoutSplit(accept, 0, lens[..6], stream, rest, 2);
      assert lens[..6][..2] == lens[..2] && lens[..6][2..][0] == lens[2];
    }
  }

  lemma RestPrefix(accept: octets -> bool, lens: seq<nat>, s: octets, rest: octets, s': octets, rest': octets)
    requires Layout(accept, 0, lens, s, rest) && Layout(accept, 0, lens, s', rest') && s <= s'
    ensures rest <= rest'
  {
    LayoutSum(accept, 0, lens, s, rest);
    LayoutSum(accept, 0, lens, s', rest');
    DropPrefix(s, s', Sum(lens));
  }

  /**
   * Of two ways to cut the target's bytes into reads that both lead to a handshake, both learn the same lengths; only
   * whether the seventh record had begun to arrive can differ. A cut that lets more than 8192 bytes pile up gives up.
   */
  lemma ChunkingIrrelevant(accept: octets -> bool, lens: seq<nat>, coalesced: bool, stream: octets,
                           lens': seq<nat>, coalesced': bool, stream': octets)
    requires Learned(accept, lens, coalesced, stream) && Learned(accept, lens', coalesced', stream')
    requires stream <= stream'
    ensures coalesced == coalesced' && lens[..6] == lens'[..6] && (lens[6] != 0 ==> lens'[6] == lens[6])
  {
    hide Layout, Announced, RecordSize;
    var mid := LearnedPrefix(accept, lens, coalesced, stream);
    var mid' := LearnedPrefix(accept, lens', coalesced', stream');
    LayoutUnique(accept, 0, lens[..2], stream, mid, lens'[..2], stream', mid');
    RestPrefix(accept, lens[..2], stream, mid, stream', mid');
    RecordSizeOfPrefix(mid, mid');
    LearnedBounds(accept, lens, coalesced, stream);
    LearnedBounds(accept, lens', coalesced', stream');
    if coalesced {
      assert lens[..6] == lens[..2] + [lens[2]] + lens[3..][..3] && lens'[..6] == lens'[..2] + [lens'[2]] + lens'[3..][..3];
    } else {
      SixStages(accept, lens, stream, lens', stream');
    }
  }

  lemma SixStages(accept: octets -> bool, lens: seq<nat>, stream: octets, lens': seq<nat>, stream': octets)
    requires Learned(accept, lens, false, stream) && Learned(accept, lens', false, stream') && stream <= stream'
    ensures lens[..6] == lens'[..6] && (lens[6] != 0 ==> lens'[6] == lens[6])
  {
    hide Layout, Announced, RecordSize;
    var rest :| Layout(accept, 0, lens[..6], stream, rest)
                && if lens[6] == 0 then rest == [] else Announced(6, rest) && lens[6] == RecordSize(rest);
    var rest' :| Layout(accept, 0, lens'[..6], stream', rest')
                 && if lens'[6] == 0 then rest' == [] else Announced(6, rest') && lens'[6] == RecordSize(rest');
    LayoutUnique(accept, 0, lens[..6], stream, rest, lens'[..6], stream', rest');
    RestPrefix(accept, lens[..6], stream, rest, stream', rest');
    if lens[6] != 0 {
      RecordSizeOfPrefix(rest, rest');
    }
  }

  // ---------- Sending the flight ----------

  /** A half connection that imitates: TLS 1.3 keys installed, and lengths learned. */
  ghost predicate Imitates(h: Half) {
    && h.Valid() && h.version == VERSION_TLS13 && h.cipher.Aead? && LawfulAead(h.cipher.aead)
    && ShapeBounded(h) && h.shape[1] != 0
  }

  /** The message, sealed, is no longer than the record it has to imitate. */
  predicate Fits(h: Half, data: octets)
    requires h.Valid() && h.cipher.Aead?
  {
    && data != [] && Stage(data[0]).Some?
    && RECORD_HEADER_LEN + |data| + 1 + h.cipher.aead.overhead <= h.shape[Stage(data[0]).value]
  }

  /** The state after a shaped message: its stage is used up, and the record counted. */
  function AfterShaped(h: Half, data: octets): Half
    requires h.Valid() && data != [] && Stage(data[0]).Some? && Advance(h).Some?
  {
    Advance(h).value.(shape := h.shape[Stage(data[0]).value := 0])
  }

  lemma ShapedRecord(h: Half, vers: nat, data: octets, random: Option<octets>)
    requires Imitates(h) && data != [] && Number(h.seqNum) < MAX_UINT64
    ensures match EncryptRecord(h, RecordHeader(HANDSHAKE, VersionBytes(vers), |data|), data, random)
            case Crashed => false
            case Refused(_) => !Fits(h, data)
            case Sent(record, next) =>
              Fits(h, data) && |record| == h.shape[Stage(data[0]).value] && Advance(h).Some? && next == AfterShaped(h, data)
  {
    hide EncryptRecord, LengthBytes, Stage, Number, Increment, RecordHeader;
    var k := h.cipher.aead;
    Sends13(h, HANDSHAKE, VersionBytes(vers), data, random);
    InnerLength(h, HANDSHAKE, data);
    AdvanceCounts(h);
    ShapedInner(h, data);
  }

  lemma ShapedInner(h: Half, data: octets)
    requires Imitates(h) && data != []
    ensures InnerPlaintext(h, HANDSHAKE, data, h.cipher.aead.overhead).Inner? <==> Fits(h, data)
    ensures !InnerPlaintext(h, HANDSHAKE, data, h.cipher.aead.overhead).Bug?
  {
    hide Stage;
    InnerLength(h, HANDSHAKE, data);
  }

  lemma {:induction false} NoFlowAfterFailure(h: Half, typ: octet, vers: nat, chunks: seq<octets>,
                                              random: nat -> Option<octets>, k: nat)
    requires h.Valid() && k <= |chunks| && SendAll(h, typ, vers, chunks[..k], random).None?
    ensures SendAll(h, typ, vers, chunks, random).None?
    decreases |chunks|
  {
    hide EncryptRecord;
    if k == |chunks| {
      assert chunks[..k] == chunks;
    } else {
      assert chunks[..|chunks| - 1][..k] == chunks[..k];
      NoFlowAfterFailure(h, typ, vers, chunks[..|chunks| - 1], random, k);
    }
  }

  lemma SendOne(h: Half, typ: octet, vers: nat, chunk: octets, random: nat -> Option<octets>)
    requires h.Valid()
    ensures var flow := SendAll(h, typ, vers, [chunk], random);
            match EncryptRecord(h, RecordHeader(typ, VersionBytes(vers), |chunk|), chunk, random(0))
            case Crashed => flow.None?
            case Refused(_) => flow.None?
            case Sent(record, next) => flow == Some(Flow(next, [record]))
  {
    hide EncryptRecord, RecordHeader, VersionBytes;
    assert [chunk][..0] == [];
    assert SendAll(h, typ, vers, [], random) == Some(Flow(h, []));
    var e := EncryptRecord(h, RecordHeader(typ, VersionBytes(vers), |chunk|), chunk, random(0));
    if e.Sent? {
      assert [] + [e.record] == [e.record];
    }
  }

  lemma FirstChunk(chunks: seq<octets>, data: octets)
    requires Splits(chunks, data) && data != []
    ensures chunks != [] && chunks[0] <= data && (|chunks| == 1 ==> chunks[0] == data)
    decreases |chunks|
  {
    if |chunks| == 1 {
      assert chunks[..|chunks| - 1] == [];
      assert Concat(chunks) == [] + chunks[0];
    } else if |chunks| > 1 {
      var n := |chunks| - 1;
      var front := Concat(chunks[..n]);
      assert chunks[..n][0] == chunks[0];
      assert Splits(chunks[..n], front);
      ConcatNonempty(chunks[..n]);
      FirstChunk(chunks[..n], front);
    }
  }

  lemma ConcatNonempty(chunks: seq<octets>)
    requires chunks != [] && forall i :: 0 <= i < |chunks| ==> 1 <= |chunks[i]| <= MAX_PLAINTEXT
    ensures Concat(chunks) != []
  {
    assert |chunks[|chunks| - 1]| >= 1;
  }

  /** A shaped handshake message goes out as one record of exactly the learned length, or not at all. */
  lemma ShapedFlow(h: Half, vers: nat, data: octets, chunks: seq<octets>, random: nat -> Option<octets>)
    requires Imitates(h) && data != [] && Number(h.seqNum) < MAX_UINT64
    requires Splits(chunks, data) && FullButLast(chunks)
    ensures match SendAll(h, HANDSHAKE, vers, chunks, random)
            case None => !Fits(h, data)
            case Some(flow) =>
              && Fits(h, data) && Advance(h).Some? && flow.next == AfterShaped(h, data)
              && |flow.records| == 1 && |flow.records[0]| == h.shape[Stage(data[0]).value]
  {
    hide EncryptRecord, RecordHeader, VersionBytes, Stage, Number, Increment, Splits;
    FirstChunk(chunks, data);
    var first := chunks[0];
    assert first != [] && first[0] == data[0] by {
      FirstNonempty(chunks, data);
    }
    ShapedRecord(h, vers, first, random(0));
    SendOne(h, HANDSHAKE, vers, first, random);
    if |chunks| == 1 {
      assert chunks == [first];
    } else {
      assert |first| == MAX_PLAINTEXT;
      assert chunks[..1] == [first];
      NoFlowAfterFailure(h, HANDSHAKE, vers, chunks, random, 1);
    }
  }

  lemma FirstNonempty(chunks: seq<octets>, data: octets)
    requires Splits(chunks, data) && chunks != [] && chunks[0] <= data
    ensures chunks[0] != [] && chunks[0][0] == data[0]
  {
  }

  /**
   * writeHandshakeRecord on a shaped connection: a message by itself, or the whole of a coalesced flight at its
   * Finished, becomes one record of the learned length exactly when it fits.
   */
  method SendShaped(w: Writer, data: octets, random: nat -> Option<octets>)
    returns (status: Status, ghost whole: octets, ghost record: octets)
    requires w.Valid() && Imitates(w.out.State()) && Number(w.out.State().seqNum) < MAX_UINT64
    requires data != [] && data[0] != SERVER_HELLO
    modifies w`packetsSent, w`sendBuf, w`wire, w`bytesSent, w`handshakeBuf, w.out, w.out.seqNum, w.out.handshakeLen
    ensures whole == if old(w.handshakeBuf).Some? then old(w.handshakeBuf).value + data else data
    ensures old(w.handshakeBuf).Some? && data[0] != FINISHED ==>
              && status.Done? && w.handshakeBuf == Some(whole) && w.Valid()
              && w.out.State() == old(w.out.State()) && w.Output() == old(w.Output())
    ensures old(w.handshakeBuf).None? || data[0] == FINISHED ==>
              && w.handshakeBuf == None
              && (status.Done? <==> Fits(old(w.out.State()), whole))
              && (status.Done? ==>
                    && Advance(old(w.out.State())).Some?
                    && w.Valid() && w.out.State() == AfterShaped(old(w.out.State()), whole)
                    && w.Output() == old(w.Output()) + record
                    && |record| == old(w.out.State()).shape[Stage(whole[0]).value])
  {
    hide SendAll, SmallOverheads, Imitates, Fits, AfterShaped, Number, Splits, FullButLast, Stage;
    ghost var start := w.out.State();
    ghost var alone, chunks := w.handshakeBuf.None?, [];
    status, whole, chunks := w.WriteRecord(HANDSHAKE, data, random);
    record := [];
    if alone || data[0] == FINISHED {
      if status.Done? {
        ShapedFlow(start, w.vers, whole, chunks, random);
        ghost var flow := SendAll(start, HANDSHAKE, w.vers, chunks, random).value;
        record := flow.records[0];
        ConcatOne(flow.records);
      } else {
        OneMessageFits(start, w.vers, whole, random);
      }
    }
  }

  lemma OneMessageFits(h: Half, vers: nat, data: octets, random: nat -> Option<octets>)
    requires Imitates(h) && data != [] && Number(h.seqNum) < MAX_UINT64
    requires |data| <= MAX_PLAINTEXT ==> SendAll(h, HANDSHAKE, vers, [data], random).None?
    ensures !Fits(h, data)
  {
    hide EncryptRecord, RecordHeader, VersionBytes, Stage, Number, Increment;
    ShapedRecord(h, vers, data, random(0));
    SendOne(h, HANDSHAKE, vers, data, random);
  }

  /** The handshake messages of a server flight, in the order they are sent. */
  datatype Messages = Messages(extensions: octets, request: Option<octets>, certificate: octets, verify: octets, finished: octets)
  {
    /** Each starts with its type. */
    predicate WellTyped() {
      && extensions != [] && extensions[0] == 8
      && (request.Some? ==> request.value != [] && request.value[0] == 13)
      && certificate != [] && certificate[0] == 11
      && verify != [] && verify[0] == 15
      && finished != [] && finished[0] == FINISHED
    }

    function Whole(): octets {
      extensions + (if request.Some? then request.value else []) + certificate + verify + finished
    }
  }

  function Lengths(records: seq<octets>): (lens: seq<nat>)
    ensures |lens| == |records|
  {
    seq(|records|, i requires 0 <= i < |records| => |records[i]|)
  }

  /** What the learned lengths ask of the flight: one record per message, or one for all of them. */
  function Mirrored(lens: seq<nat>, coalesced: bool): seq<nat>
    requires |lens| == STAGES
  {
    (if coalesced then [lens[2]] else [lens[2], lens[3], lens[4], lens[5]]) + (if lens[6] != 0 then [lens[6]] else [])
  }

  lemma AfterImitates(h: Half, data: octets)
    requires Imitates(h) && data != [] && Stage(data[0]).Some? && Advance(h).Some?
    ensures var next := AfterShaped(h, data);
            && Imitates(next) && Number(next.seqNum) == Number(h.seqNum) + 1
            && next.cipher == h.cipher && next.shape == h.shape[Stage(data[0]).value := 0]
  {
    hide Number, Stage, Increment;
    NumberIncrement(h.seqNum);
    var next := AfterShaped(h, data);
    assert next.shape[1] == h.shape[1];
    forall i | 0 <= i < 7
      ensures next.shape[i] <= EMPTY_SIZE
    {
    }
  }

  lemma FitsAfter(h: Half, data: octets, other: octets)
    requires Imitates(h) && data != [] && Stage(data[0]).Some? && Advance(h).Some?
    requires other == [] || Stage(other[0]) != Stage(data[0])
    ensures Fits(AfterShaped(h, data), other) == Fits(h, other)
    ensures other != [] && Stage(other[0]).Some? ==>
              AfterShaped(h, data).shape[Stage(other[0]).value] == h.shape[Stage(other[0]).value]
  {
    hide Stage, Increment;
  }

  /** sendServerCertificate: the certificate request if there is one, the certificate and its signature. */
  method SendServerCertificate(w: Writer, m: Messages, random: nat -> Option<octets>)
    returns (status: Status, ghost records: seq<octets>)
    requires w.Valid() && Imitates(w.out.State()) && Number(w.out.State().seqNum) < 2 && m.WellTyped()
    modifies w`packetsSent, w`sendBuf, w`wire, w`bytesSent, w`handshakeBuf, w.out, w.out.seqNum, w.out.handshakeLen
    ensures old(w.handshakeBuf).Some? ==>
              && status.Done? && w.Valid() && w.out.State() == old(w.out.State()) && w.Output() == old(w.Output())
              && w.handshakeBuf == Some(old(w.handshakeBuf).value + (if m.request.Some? then m.request.value else [])
                                        + m.certificate + m.verify)
    ensures old(w.handshakeBuf).None? ==>
              && w.handshakeBuf == None
              && var h := old(w.out.State());
                 && (status.Done? <==> m.request.None? && Fits(h, m.certificate) && Fits(h, m.verify))
                 && (status.Done? ==>
                       && w.Valid() && Imitates(w.out.State()) && Number(w.out.State().seqNum) == Number(h.seqNum) + 2
                       && w.out.State().cipher == h.cipher
                       && w.out.State().shape == h.shape[3 := 0][4 := 0]
                       && w.Output() == old(w.Output()) + Concat(records)
                       && Lengths(records) == [h.shape[3], h.shape[4]])
  {
    hide Imitates, Fits, AfterShaped, Number, Concat;
    records := [];
    ghost var h, before, alone := w.out.State(), w.Output(), w.handshakeBuf.None?;
    ghost var whole, record;
    if !alone {
      assert w.handshakeBuf.value + [] == w.handshakeBuf.value;
    }
    if m.request.Some? {
      StageOfRequest(h, m.request.value);
      status, whole, record := SendShaped(w, m.request.value, random);
      if !status.Done? {
        return;
      }
    }
    status, whole, record := SendShaped(w, m.certificate, random);
    if !status.Done? {
      return;
    }
    if alone {
      StagesOf(m);
      AfterImitates(h, m.certificate);
      FitsAfter(h, m.certificate, m.verify);
    }
    ghost var h1, first := w.out.State(), record;
    status, whole, record := SendShaped(w, m.verify, random);
    if alone {
      if status.Done? {
        AfterImitates(h1, m.verify);
        records := [first, record];
        ConcatTwo(first, record);
        assert w.Output() == before + (first + record);
        assert Lengths(records) == [|first|, |record|];
      }
    }
  }

  lemma ConcatTwo(a: octets, b: octets)
    ensures Concat([a, b]) == a + b
  {
    assert [a, b][..1] == [a];
    ConcatOne([a]);
  }

  lemma StageOfRequest(h: Half, request: octets)
    requires Imitates(h) && request != [] && request[0] == 13
    ensures !Fits(h, request) && request[0] != SERVER_HELLO && request[0] != FINISHED
  {
  }

  lemma StagesOf(m: Messages)
    requires m.WellTyped()
    ensures Stage(m.extensions[0]) == Some(2) && Stage(m.certificate[0]) == Some(3)
    ensures Stage(m.verify[0]) == Some(4) && Stage(m.finished[0]) == Some(5)
  {
  }

  /** An application traffic key of a TLS 1.3 suite. */
  ghost predicate SuiteKey(k: AeadKey) {
    LawfulAead(k) && k.explicitNonceLen == 0 && k.overhead <= 255
  }

  function WithAppKey(h: Half, k: AeadKey): Half {
    Rekeyed(h, h.version, Aead(k), h.mac)
  }

  lemma WithAppKeyImitates(h: Half, k: AeadKey)
    requires Imitates(h) && SuiteKey(k)
    ensures Imitates(WithAppKey(h, k)) && SmallOverheads(WithAppKey(h, k)) && Number(WithAppKey(h, k).seqNum) == 0
    ensures WithAppKey(h, k).shape == h.shape
  {
    hide Number;
    NumberOfNulls(8);
  }

  /** sendServerFinished: the last message, and the switch to the application keys. */
  method SendServerFinished(w: Writer, m: Messages, appKey: AeadKey, random: nat -> Option<octets>)
    returns (status: Status, ghost whole: octets, ghost record: octets)
    requires w.Valid() && Imitates(w.out.State()) && Number(w.out.State().seqNum) < 4 && m.WellTyped() && SuiteKey(appKey)
    modifies w`packetsSent, w`sendBuf, w`wire, w`bytesSent, w`handshakeBuf, w.out, w.out.seqNum, w.out.handshakeLen
    ensures whole == if old(w.handshakeBuf).Some? then old(w.handshakeBuf).value + m.finished else m.finished
    ensures w.handshakeBuf == None
    ensures status.Done? <==> Fits(old(w.out.State()), whole)
    ensures status.Done? ==>
              && w.Valid() && Imitates(w.out.State()) && Number(w.out.State().seqNum) == 0
              && w.out.State().cipher == Aead(appKey)
              && w.out.State().shape == old(w.out.State()).shape[Stage(whole[0]).value := 0]
              && w.Output() == old(w.Output()) + record
              && |record| == old(w.out.State()).shape[Stage(whole[0]).value]
  {
    hide Imitates, Fits, AfterShaped, Number, SmallOverheads, SuiteKey, WithAppKey;
    ghost var h := w.out.State();
    status, whole, record := SendShaped(w, m.finished, random);
    if !status.Done? {
      return;
    }
    FitsStage(h, whole);
    AfterImitates(h, whole);
    WithAppKeyImitates(w.out.State(), appKey);
    AppKeyState(w.out.State(), appKey);
    w.out.SetTrafficSecret(appKey);
    ImitatesValid(w.out.State());
  }

  lemma FitsStage(h: Half, data: octets)
    requires Imitates(h) && Fits(h, data)
    ensures data != [] && Stage(data[0]).Some?
  {
    hide Stage;
  }

  lemma AppKeyState(h: Half, k: AeadKey)
    ensures WithAppKey(h, k) == Rekeyed(h, h.version, Aead(k), h.mac)
    ensures WithAppKey(h, k).cipher == Aead(k)
  {
  }

  lemma ImitatesValid(h: Half)
    requires Imitates(h)
    ensures h.Valid()
  {
  }

  /** The one-byte ticket that stands for the target's seventh record. */
  method SendFiller(w: Writer, random: nat -> Option<octets>) returns (status: Status, ghost records: seq<octets>)
    requires w.Valid() && Imitates(w.out.State()) && Number(w.out.State().seqNum) == 0 && w.handshakeBuf.None?
    modifies w`packetsSent, w`sendBuf, w`wire, w`bytesSent, w`handshakeBuf, w.out, w.out.seqNum, w.out.handshakeLen
    ensures var h := old(w.out.State());
            && (status.Done? <==> h.shape[6] == 0 || Fits(h, [4]))
            && (status.Done? ==>
                  && w.Valid() && w.Output() == old(w.Output()) + Concat(records)
                  && Lengths(records) == if h.shape[6] != 0 then [h.shape[6]] else [])
  {
    hide Imitates, Fits, AfterShaped, Number, SmallOverheads;
    records := [];
    status := Done;
    ghost var h := w.out.State();
    ImitatesValid(h);
    if w.out.handshakeLen[6] != 0 {
      ghost var whole, record;
      assert [4 as octet][0] != SERVER_HELLO;
      status, whole, record := SendShaped(w, [4], random);
      records := [record];
      ConcatOne(records);
      assert Lengths(records) == [|record|];
    }
  }

  /** Every message fits the record it has to imitate; sent one by one, no client certificate is asked for. */
  predicate FlightFits(h: Half, m: Messages, appKey: AeadKey, coalesced: bool)
    requires h.Valid() && h.cipher.Aead? && h.version == VERSION_TLS13 && appKey.explicitNonceLen == 0
  {
    && (if coalesced then Fits(h, m.Whole())
        else
          && m.request.None? && Fits(h, m.extensions) && Fits(h, m.certificate) && Fits(h, m.verify) && Fits(h, m.finished))
    && (h.shape[6] == 0 || Fits(WithAppKey(h, appKey), [4]))
  }

  /** In bytes: with header, content type and overhead no message is longer than the record of its stage. */
  lemma FlightFitsInBytes(h: Half, m: Messages, appKey: AeadKey, coalesced: bool)
    requires h.Valid() && h.cipher.Aead? && h.version == VERSION_TLS13 && appKey.explicitNonceLen == 0 && m.WellTyped()
    ensures var n := 5 + 1 + h.cipher.aead.overhead;
            FlightFits(h, m, appKey, coalesced) <==>
              && (if coalesced then |m.Whole()| + n <= h.shape[2]
                  else
                    && m.request.None?
                    && |m.extensions| + n <= h.shape[2] && |m.certificate| + n <= h.shape[3]
                    && |m.verify| + n <= h.shape[4] && |m.finished| + n <= h.shape[5])
              && (h.shape[6] == 0 || 5 + 1 + 1 + appKey.overhead <= h.shape[6])
  {
    hide Stage;
    StagesOf(m);
    assert m.Whole()[0] == m.extensions[0];
    TicketStage();
  }

  lemma TicketStage()
    ensures Stage(4) == Some(6)
  {
  }

  /** The messages of the flight before Finished. */
  method SendUpToFinished(w: Writer, m: Messages, random: nat -> Option<octets>)
    returns (status: Status, ghost records: seq<octets>)
    requires w.Valid() && Imitates(w.out.State()) && Number(w.out.State().seqNum) == 0 && m.WellTyped()
    modifies w`packetsSent, w`sendBuf, w`wire, w`bytesSent, w`handshakeBuf, w.out, w.out.seqNum, w.out.handshakeLen
    ensures old(w.handshakeBuf).Some? ==>
              && status.Done? && w.Valid() && w.out.State() == old(w.out.State()) && w.Output() == old(w.Output())
              && w.handshakeBuf == Some(old(w.handshakeBuf).value + m.extensions
                                        + (if m.request.Some? then m.request.value else []) + m.certificate + m.verify)
    ensures old(w.handshakeBuf).None? ==>
              && w.handshakeBuf == None
              && var h := old(w.out.State());
                 && (status.Done? <==> m.request.None? && Fits(h, m.extensions) && Fits(h, m.certificate) && Fits(h, m.verify))
                 && (status.Done? ==>
                       && w.Valid() && Imitates(w.out.State()) && Number(w.out.State().seqNum) == 3
                       && w.out.State().cipher == h.cipher
                       && w.out.State().shape == h.shape[2 := 0][3 := 0][4 := 0]
                       && w.Output() == old(w.Output()) + Concat(records)
                       && Lengths(records) == [h.shape[2], h.shape[3], h.shape[4]])
  {
    hide Imitates, Fits, AfterShaped, Number, Concat, Stage, Lengths;
    records := [];
    ghost var h, before, alone := w.out.State(), w.Output(), w.handshakeBuf.None?;
    StagesOf(m);
    ghost var whole, first, pair;
    status, whole, first := SendShaped(w, m.extensions, random);
    if !status.Done? {
      return;
    }
    if alone {
      AfterImitates(h, m.extensions);
      FitsAfter(h, m.extensions, m.certificate);
      FitsAfter(h, m.extensions, m.verify);
    }
    status, pair := SendServerCertificate(w, m, random);
    if alone && status.Done? {
      records := [first] + pair;
      Prepend(before, first, pair);
    }
  }

  lemma Prepend(before: octets, first: octets, rest: seq<octets>)
    ensures before + Concat([first] + rest) == before + first + Concat(rest)
    ensures Lengths([first] + rest) == [|first|] + Lengths(rest)
  {
    hide Concat;
    ConcatAppend([first], rest);
    ConcatOne([first]);
  }

  /** The part of the flight before the filler. */
  method SendMessages(w: Writer, m: Messages, appKey: AeadKey, random: nat -> Option<octets>)
    returns (status: Status, ghost records: seq<octets>)
    requires w.Valid() && Imitates(w.out.State()) && Number(w.out.State().seqNum) == 0 && m.WellTyped() && SuiteKey(appKey)
    requires w.handshakeBuf == None || w.handshakeBuf == Some([])
    modifies w`packetsSent, w`sendBuf, w`wire, w`bytesSent, w`handshakeBuf, w.out, w.out.seqNum, w.out.handshakeLen
    ensures var h := old(w.out.State());
            && (status.Done? <==>
                  if old(w.handshakeBuf).Some? then Fits(h, m.Whole())
                  else m.request.None? && Fits(h, m.extensions) && Fits(h, m.certificate) && Fits(h, m.verify)
                       && Fits(h, m.finished))
            && (status.Done? ==>
                  && w.Valid() && Imitates(w.out.State()) && Number(w.out.State().seqNum) == 0 && w.handshakeBuf == None
                  && w.out.State().cipher == Aead(appKey) && w.out.State().shape[6] == h.shape[6]
                  && w.Output() == old(w.Output()) + Concat(records)
                  && Lengths(records) == if old(w.handshakeBuf).Some? then [h.shape[2]]
                                         else [h.shape[2], h.shape[3], h.shape[4], h.shape[5]])
  {
    hide Imitates, Fits, AfterShaped, Number, SmallOverheads, SuiteKey, Concat, Stage, Lengths;
    ghost var h, before, alone := w.out.State(), w.Output(), w.handshakeBuf.None?;
    StagesOf(m);
    ghost var whole, record;
    status, records := SendUpToFinished(w, m, random);
    if !status.Done? {
      return;
    }
    if alone {
      SameFit(h, w.out.State(), m.finished);
    } else {
      NothingBefore(m);
    }
    status, whole, record := SendServerFinished(w, m, appKey, random);
    if status.Done? {
      ghost var earlier := if alone then records else [];
      records := earlier + [record];
      Append(before, earlier, record);
    }
  }

  lemma NothingBefore(m: Messages)
    requires m.WellTyped()
    ensures [] + m.extensions + (if m.request.Some? then m.request.value else []) + m.certificate + m.verify + m.finished
         == m.Whole()
    ensures m.Whole() != [] && m.Whole()[0] == m.extensions[0]
  {
    assert [] + m.extensions == m.extensions;
  }

  lemma Append(before: octets, earlier: seq<octets>, last: octets)
    ensures before + Concat(earlier + [last]) == before + Concat(earlier) + last
    ensures Lengths(earlier + [last]) == Lengths(earlier) + [|last|]
    ensures Concat([]) == [] && Lengths([]) == [] && before + [] == before
  {
    hide Concat;
    ConcatAppend(earlier, [last]);
    ConcatOne([last]);
    NoRecords();
  }

  lemma SameFit(h: Half, h': Half, data: octets)
    requires Imitates(h) && Imitates(h') && h.cipher == h'.cipher && data != [] && Stage(data[0]) == Some(5)
    requires h'.shape[5] == h.shape[5]
    ensures Fits(h', data) == Fits(h, data)
  {
    hide Stage;
  }

  /**
   * The server's encrypted flight mirrors the target: for lengths learned from any stream cut in any way, the
   * flight goes out exactly when it fits them, in records of exactly those lengths.
   */
  method SendFlight(w: Writer, m: Messages, appKey: AeadKey, random: nat -> Option<octets>,
                    ghost accept: octets -> bool, ghost lens: seq<nat>, ghost coalesced: bool, ghost stream: octets)
    returns (status: Status, ghost records: seq<octets>)
    requires Learned(accept, lens, coalesced, stream)
    requires w.Valid() && w.out.State().shape == lens && w.handshakeBuf == (if coalesced then Some([]) else None)
    requires w.vers == w.out.version == VERSION_TLS13 && w.out.cipher.Aead? && LawfulAead(w.out.cipher.aead)
    requires w.out.State().seqNum == Nulls(8) && m.WellTyped() && SuiteKey(appKey)
    modifies w, w.out, w.out.seqNum, w.out.handshakeLen
    ensures status.Done? <==> FlightFits(old(w.out.State()), m, appKey, coalesced)
    ensures status.Done? ==> w.Output() == old(w.Output()) + Concat(records) && Lengths(records) == Mirrored(lens, coalesced)
  {
    hide Imitates, Fits, Number, SmallOverheads, SuiteKey, Concat, Stage, Learned, Lengths;
    ghost var h, before := w.out.State(), w.Output();
    LearnedBounds(accept, lens, coalesced, stream);
    StartImitating(h, lens);
    NumberOfNulls(8);
    w.buffering := true;
    status, records := SendMessages(w, m, appKey, random);
    if !status.Done? {
      return;
    }
    FillerFits(h, w.out.State(), appKey);
    ghost var filler, sent := [], records;
    status, filler := SendFiller(w, random);
    if !status.Done? {
      return;
    }
    records := records + filler;
    AppendRecords(before, sent, filler);
    w.Flush();
  }

  lemma StartImitating(h: Half, lens: seq<nat>)
    requires h.Valid() && h.version == VERSION_TLS13 && h.cipher.Aead? && LawfulAead(h.cipher.aead) && h.shape == lens
    requires (forall i :: 0 <= i < STAGES ==> lens[i] <= SIZE) && lens[1] == 6
    ensures Imitates(h)
  {
  }

  lemma FillerFits(h: Half, h': Half, appKey: AeadKey)
    requires Imitates(h) && Imitates(h') && SuiteKey(appKey) && h'.cipher == Aead(appKey) && h'.shape[6] == h.shape[6]
    ensures Fits(h', [4]) == Fits(WithAppKey(h, appKey), [4])
  {
  }

  lemma AppendRecords(before: octets, a: seq<octets>, b: seq<octets>)
    ensures before + Concat(a + b) == before + Concat(a) + Concat(b)
    ensures Lengths(a + b) == Lengths(a) + Lengths(b)
  {
    hide Concat;
    ConcatAppend(a, b);
  }
}
