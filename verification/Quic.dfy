/**
 * The rendezvous between the application and the handshake goroutine of a QUIC connection (quic.go), as the steps of
 * two threads over two unbuffered channels. Contexts are not cancelled.
 */
module Quic {
  import opened BigEndian
  import opened Wrappers

  type octets = seq<octet>

  // ---------- Events ----------

  /** NoEvent is also what a delivered event leaves in its place. */
  datatype Event = NoEvent | WriteData(level: nat, data: octets) | Other(kind: nat, contents: octets)

  /** The smallest pieces of what is delivered: a byte at a level, or a whole event of another kind. */
  datatype Atom = CryptoByte(level: nat, value: octet) | Whole(event: Event)

  function Bytes(level: nat, data: octets): seq<Atom> {
    if data == [] then [] else [CryptoByte(level, data[0])] + Bytes(level, data[1..])
  }

  function Atoms(e: Event): seq<Atom> {
    match e
    case NoEvent => []
    case WriteData(level, data) => Bytes(level, data)
    case Other(_, _) => [Whole(e)]
  }

  function Flatten(events: seq<Event>): seq<Atom> {
    if events == [] then [] else Flatten(events[..|events| - 1]) + Atoms(events[|events| - 1])
  }

  /** The bytes delivered at one level. */
  function AtLevel(atoms: seq<Atom>, level: nat): octets {
    if atoms == [] then []
    else
      var rest := AtLevel(atoms[..|atoms| - 1], level);
      match atoms[|atoms| - 1]
      case CryptoByte(l, b) => if l == level then rest + [b] else rest
      case Whole(_) => rest
  }

  // ---------- The two threads ----------

  datatype Op = StartOp | HandleOp | NextOp | ParamsOp

  /** The application runs freely, or waits to receive from signalc or from blockedc inside an operation. */
  datatype App = Free | WaitSignal(op: Op) | WaitBlocked(op: Op)

  /**
   * The handshake goroutine runs, waits to send on blockedc or on signalc, has just been woken, or has closed the
   * first or both of the channels.
   */
  datatype Handshake = NotStarted | Running | AtBlocked | AtSignal | Woken | Closing | Exited

  /**
   * The shared state; started says that Start was called, whether or not it launched the goroutine. given, consumed,
   * produced and delivered record the whole history: the bytes accepted by HandleData, those taken out of hand, and what
   * was put into and taken out of the event queue.
   */
  datatype State = State(
    app: App, started: bool, handshake: Handshake, level: nat,
    readbuf: octets, hand: octets, events: seq<Event>, nextEvent: nat, waitingForDrain: bool, params: Option<octets>,
    given: octets, consumed: octets, produced: seq<Atom>, delivered: seq<Atom>)

  const START := State(Free, false, NotStarted, 0, [], [], [], 0, false, None, [], [], [], [])

  /** quicWriteCryptoData appends to the last event if that is data of the same level, and adds an event otherwise. */
  function PutData(s: State, level: nat, data: octets): State {
    var n := |s.events|;
    var s := s.(produced := s.produced + Bytes(level, data));
    if n > 0 && s.events[n - 1].WriteData? && s.events[n - 1].level == level
    then s.(events := s.events[n - 1 := WriteData(level, s.events[n - 1].data + data)])
    else s.(events := s.events + [WriteData(level, data)])
  }

  function PutEvent(s: State, e: Event): State {
    s.(events := s.events + [e], produced := s.produced + Atoms(e))
  }

  /** The end of NextEvent: gives the next event and clears its place, or starts the queue afresh. */
  function TakeEvent(s: State): (State, Event) {
    if s.nextEvent >= |s.events| then (s.(events := [], nextEvent := 0), NoEvent)
    else
      var e := s.events[s.nextEvent];
      (s.(events := s.events[s.nextEvent := NoEvent], nextEvent := s.nextEvent + 1, delivered := s.delivered + Atoms(e)), e)
  }

  /** What an operation does once it has received from blockedc, before it returns to the application. */
  function Return(s: State, op: Op, ok: bool): State {
    var s := s.(app := Free);
    match op
    case StartOp => s
    case ParamsOp => s
    case NextOp => TakeEvent(s).0
    case HandleOp => if ok then s else s.(hand := s.hand + s.readbuf, readbuf := [])
  }

  datatype Action =
    | CallStart(tls13Only: bool)
    | CallHandle(level: nat, data: octets)
    | CallNext
    | CallParams(params: octets)
    | ReceiveSignal
    | ReceiveBlocked
    | TakeInput
    | Read(n: nat)
    | Produce(event: Event)
    | ProduceData(level: nat, data: octets)
    | Resume(event: Event)
    | SetLevel(level: nat)
    | Block
    | CloseBlocked
    | CloseSignal

  /** Who may touch the queue and the input: the goroutine while it runs, the application once it has gone. */
  predicate MayProduce(s: State) {
    || (s.handshake.Running? && !s.waitingForDrain)
    || (s.app.Free? && (s.handshake.Closing? || s.handshake.Exited?))
  }

  /** One step of either thread; None when it cannot be taken. */
  function Step(s: State, a: Action): Option<State> {
    match a
    case CallStart(tls13Only) =>
      if !s.app.Free? then None
      else if s.started then Some(s)
      else if !tls13Only then Some(s.(started := true))
      else Some(s.(started := true, handshake := Running, app := WaitBlocked(StartOp)))
    case CallHandle(level, data) =>
      if !s.app.Free? then None
      else if level != s.level then Some(s)
      else Some(s.(readbuf := data, given := s.given + data, app := WaitSignal(HandleOp)))
    case CallNext =>
      if !s.app.Free? then None
      else if s.nextEvent >= |s.events| && s.waitingForDrain then Some(s.(waitingForDrain := false, app := WaitSignal(NextOp)))
      else Some(TakeEvent(s).0)
    case CallParams(params) =>
      if !s.app.Free? then None
      else
        var s := s.(params := Some(params));
        Some(if !s.started then s else s.(app := WaitSignal(ParamsOp)))
    case ReceiveSignal =>
      if !s.app.WaitSignal? then None
      else if s.handshake.AtSignal? then Some(s.(handshake := Woken, app := WaitBlocked(s.app.op)))
      else if s.handshake.Exited? then Some(s.(app := WaitBlocked(s.app.op)))
      else None
    case ReceiveBlocked =>
      if !s.app.WaitBlocked? then None
      else if s.handshake.AtBlocked? then Some(Return(s.(handshake := AtSignal), s.app.op, true))
      else if s.handshake.Closing? || s.handshake.Exited? then Some(Return(s, s.app.op, false))
      else None
    case TakeInput =>
      if s.handshake.Woken? then Some(s.(handshake := Running, hand := s.hand + s.readbuf, readbuf := [])) else None
    case Read(n) =>
      if MayProduce(s) && n <= |s.hand| then Some(s.(hand := s.hand[n..], consumed := s.consumed + s.hand[..n])) else None
    case Produce(event) => if MayProduce(s) && event.Other? then Some(PutEvent(s, event)) else None
    case ProduceData(level, data) => if MayProduce(s) then Some(PutData(s, level, data)) else None
    case Resume(event) =>
      if s.handshake.Running? && !s.waitingForDrain && event.Other? then Some(PutEvent(s, event).(waitingForDrain := true))
      else None
    case SetLevel(level) => if MayProduce(s) then Some(s.(level := level)) else None
    case Block => if s.handshake.Running? then Some(s.(handshake := AtBlocked)) else None
    case CloseBlocked => if s.handshake.Running? && !s.waitingForDrain then Some(s.(handshake := Closing)) else None
    case CloseSignal => if s.handshake.Closing? then Some(s.(handshake := Exited)) else None
  }

  /** The state after a run of steps, from the start. */
  function Run(actions: seq<Action>): Option<State> {
    if actions == [] then Some(START)
    else
      match Run(actions[..|actions| - 1])
      case None => None
      case Some(s) => Step(s, actions[|actions| - 1])
  }

  // ---------- What every step keeps ----------

  /** While the goroutine runs or hands over, the application waits for it; while the application runs, it does not. */
  ghost predicate Exclusive(s: State) {
    && (!s.started ==> s.handshake.NotStarted?)
    && match s.handshake
       case NotStarted =>
         && !s.waitingForDrain
         && (s.app.Free? || s.app == WaitSignal(HandleOp) || (s.app == WaitSignal(ParamsOp) && s.started))
       case Running => s.app.WaitBlocked?
       case Woken => s.app.WaitBlocked?
       case AtBlocked => s.app.WaitBlocked?
       case AtSignal => !s.app.WaitBlocked?
       case Closing => true
       case Exited => true
  }

  /** Input waits in readbuf only inside a call of HandleData that has not yet handed it over. */
  ghost predicate InputOwned(s: State) {
    s.readbuf != [] ==>
      || s.app == WaitSignal(HandleOp)
      || (s.app == WaitBlocked(HandleOp) && (s.handshake.Woken? || s.handshake.Exited?))
  }

  ghost predicate InputOnce(s: State) {
    s.given == s.consumed + s.hand + s.readbuf
  }

  ghost predicate EventsOnce(s: State) {
    && s.nextEvent <= |s.events|
    && (forall i :: 0 <= i < s.nextEvent ==> s.events[i].NoEvent?)
    && s.produced == s.delivered + Flatten(s.events)
  }

  ghost predicate Inv(s: State) {
    Exclusive(s) && InputOwned(s) && InputOnce(s) && EventsOnce(s)
  }

  lemma ConcatAssoc<T>(a: seq<T>, b: seq<T>, c: seq<T>)
    ensures (a + b) + c == a + (b + c)
  {
  }

  lemma {:induction false} BytesAppend(level: nat, a: octets, b: octets)
    ensures Bytes(level, a + b) == Bytes(level, a) + Bytes(level, b)
    decreases |a|
  {
    if a == [] {
      assert a + b == b;
    } else {
      assert (a + b)[1..] == a[1..] + b;
      BytesAppend(level, a[1..], b);
    }
  }

  lemma {:induction false} FlattenAppend(a: seq<Event>, b: seq<Event>)
    ensures Flatten(a + b) == Flatten(a) + Flatten(b)
    decreases |b|
  {
    if b == [] {
      assert a + b == a;
    } else {
      var n := |b| - 1;
      assert (a + b)[..|a + b| - 1] == a + b[..n];
      FlattenAppend(a, b[..n]);
      ConcatAssoc(Flatten(a), Flatten(b[..n]), Atoms(b[n]));
    }
  }

  lemma {:induction false} FlattenEmpty(events: seq<Event>)
    requires forall i :: 0 <= i < |events| ==> events[i].NoEvent?
    ensures Flatten(events) == []
  {
    if events != [] {
      FlattenEmpty(events[..|events| - 1]);
    }
  }

  lemma FlattenOne(e: Event)
    ensures Flatten([e]) == Atoms(e)
  {
    assert [e][..0] == [];
  }

  lemma ExtendLast(events: seq<Event>, level: nat, data: octets, more: octets)
    ensures Flatten(events + [WriteData(level, data + more)]) == Flatten(events + [WriteData(level, data)]) + Bytes(level, more)
  {
    hide Flatten, Bytes;
    FlattenAppend(events, [WriteData(level, data + more)]);
    FlattenAppend(events, [WriteData(level, data)]);
    FlattenOne(WriteData(level, data + more));
    FlattenOne(WriteData(level, data));
    BytesAppend(level, data, more);
    ConcatAssoc(Flatten(events), Bytes(level, data), Bytes(level, more));
  }

  /** Whether it starts an event or extends the last one, written data joins the end of what is to be delivered. */
  lemma PutDataKeeps(s: State, level: nat, data: octets)
    requires EventsOnce(s)
    ensures EventsOnce(PutData(s, level, data))
  {
    hide Flatten, Bytes;
    var n := |s.events|;
    if n > 0 && s.events[n - 1].WriteData? && s.events[n - 1].level == level {
      var front, last := s.events[..n - 1], s.events[n - 1];
      assert s.events == front + [WriteData(level, last.data)];
      assert PutData(s, level, data).events == front + [WriteData(level, last.data + data)];
      ExtendLast(front, level, last.data, data);
    } else {
      FlattenAppend(s.events, [WriteData(level, data)]);
      FlattenOne(WriteData(level, data));
    }
    ConcatAssoc(s.delivered, Flatten(s.events), Bytes(level, data));
  }

  lemma PutEventKeeps(s: State, e: Event)
    requires EventsOnce(s)
    ensures EventsOnce(PutEvent(s, e))
  {
    FlattenAppend(s.events, [e]);
    FlattenOne(e);
    ConcatAssoc(s.delivered, Flatten(s.events), Atoms(e));
  }

  lemma ClearFirst(front: seq<Event>, e: Event, back: seq<Event>)
    requires forall i :: 0 <= i < |front| ==> front[i].NoEvent?
    ensures Flatten(front + [e] + back) == Atoms(e) + Flatten(front + [NoEvent] + back)
  {
    hide Flatten, Bytes;
    FlattenEmpty(front);
    FlattenOne(e);
    FlattenOne(NoEvent);
    FlattenAppend(front, [e]);
    FlattenAppend(front, [NoEvent]);
    FlattenAppend(front + [e], back);
    FlattenAppend(front + [NoEvent], back);
    assert [] + Atoms(e) == Atoms(e) && [] + Flatten(back) == Flatten(back);
  }

  /** NextEvent hands over the event at the front of what is to be delivered. */
  lemma TakeEventKeeps(s: State)
    requires EventsOnce(s)
    ensures EventsOnce(TakeEvent(s).0)
  {
    hide Flatten, Bytes, Atoms;
    if s.nextEvent >= |s.events| {
      FlattenEmpty(s.events);
      NothingToFlatten();
    } else {
      var n, e := s.nextEvent, s.events[s.nextEvent];
      var t := TakeEvent(s).0;
      var front, back := s.events[..n], s.events[n + 1..];
      assert s.events == front + [e] + back && t.events == front + [NoEvent] + back;
      ClearFirst(front, e, back);
      ConcatAssoc(s.delivered, Atoms(e), Flatten(t.events));
    }
  }

  lemma NothingToFlatten()
    ensures Flatten([]) == []
  {
  }

  // The queue operations touch nothing but the queue.

  lemma PutDataFrame(s: State, level: nat, data: octets)
    ensures var t := PutData(s, level, data); t == s.(events := t.events, produced := t.produced)
  {
  }

  lemma PutEventFrame(s: State, e: Event)
    ensures var t := PutEvent(s, e); t == s.(events := t.events, produced := t.produced)
  {
  }

  lemma TakeEventFrame(s: State)
    ensures var t := TakeEvent(s).0; t == s.(events := t.events, nextEvent := t.nextEvent, delivered := t.delivered)
  {
  }

  lemma ReturnKeeps(s: State, op: Op, ok: bool)
    requires EventsOnce(s) && InputOnce(s)
    requires s.readbuf != [] ==> op.HandleOp? && !ok
    requires s.started && (s.handshake.AtSignal? || s.handshake.Closing? || s.handshake.Exited?)
    ensures Inv(Return(s, op, ok))
  {
    hide TakeEvent, Flatten;
    var free := s.(app := Free);
    TakeEventFrame(free);
    if op.NextOp? {
      TakeEventKeeps(free);
    }
    if op.HandleOp? && !ok {
      ConcatAssoc(s.consumed, s.hand, s.readbuf);
      assert s.consumed + (s.hand + s.readbuf) + [] == s.consumed + (s.hand + s.readbuf);
    }
  }

  lemma StepKeeps(s: State, a: Action)
    requires Inv(s) && Step(s, a).Some?
    ensures Inv(Step(s, a).value)
  {
    hide Flatten, Bytes, Atoms, TakeEvent, PutData, PutEvent, Return;
    var t := Step(s, a).value;
    match a
    case CallNext =>
      TakeEventKeeps(s);
      TakeEventFrame(s);
    case CallHandle(_, data) =>
      assert s.readbuf == [] && s.given == s.consumed + s.hand;
    case ReceiveBlocked =>
      if s.handshake.AtBlocked? {
        ReturnKeeps(s.(handshake := AtSignal), s.app.op, true);
      } else {
        ReturnKeeps(s, s.app.op, false);
      }
    case TakeInput =>
      ConcatAssoc(s.consumed, s.hand, s.readbuf);
      assert s.consumed + (s.hand + s.readbuf) + [] == s.consumed + (s.hand + s.readbuf);
    case Read(n) =>
      ConcatAssoc(s.consumed, s.hand[..n], s.hand[n..]);
      assert s.hand == s.hand[..n] + s.hand[n..];
    case Produce(event) =>
      PutEventKeeps(s, event);
      PutEventFrame(s, event);
    case Resume(event) =>
      PutEventKeeps(s, event);
      PutEventFrame(s, event);
    case ProduceData(level, data) =>
      PutDataKeeps(s, level, data);
      PutDataFrame(s, level, data);
    case _ =>
  }

  // ---------- Whole runs ----------

  lemma {:induction false} RunKeeps(actions: seq<Action>)
    requires Run(actions).Some?
    ensures Inv(Run(actions).value)
    decreases |actions|
  {
    hide Step, Inv;
    if actions == [] {
      StartInv();
    } else {
      var n := |actions| - 1;
      RunKeeps(actions[..n]);
      StepKeeps(Run(actions[..n]).value, actions[n]);
    }
  }

  lemma StartInv()
    ensures Inv(START)
  {
  }

  /** At most one of the two threads runs: the other is parked at a channel, not started, or done with the state. */
  lemma {:induction false} MutualExclusion(actions: seq<Action>)
    requires Run(actions).Some?
    ensures var s := Run(actions).value;
            && (s.app.Free? ==> s.handshake in {NotStarted, AtSignal, Closing, Exited})
            && (s.handshake in {Running, Woken} ==> s.app.WaitBlocked?)
  {
    hide Run, InputOwned, InputOnce, EventsOnce;
    RunKeeps(actions);
  }

  /** Every byte accepted by HandleData enters hand exactly once and in order, by the time the call returns. */
  lemma InputDelivered(actions: seq<Action>)
    requires Run(actions).Some?
    ensures var s := Run(actions).value;
            && s.consumed + s.hand <= s.given
            && (s.app.Free? ==> s.consumed + s.hand == s.given)
  {
    hide Run, Exclusive, EventsOnce;
    RunKeeps(actions);
  }

  lemma {:induction false} AtLevelAppend(a: seq<Atom>, b: seq<Atom>, level: nat)
    ensures AtLevel(a + b, level) == AtLevel(a, level) + AtLevel(b, level)
    decreases |b|
  {
    if b == [] {
      assert a + b == a;
    } else {
      var n := |b| - 1;
      assert (a + b)[..|a + b| - 1] == a + b[..n];
      AtLevelAppend(a, b[..n], level);
    }
  }

  /**
   * What NextEvent has delivered and what it still holds is, piece by piece, what was produced: per level, the bytes
   * are those written, in order, none lost and none repeated.
   */
  lemma EventsDelivered(actions: seq<Action>, level: nat)
    requires Run(actions).Some?
    ensures var s := Run(actions).value;
            && s.produced == s.delivered + Flatten(s.events)
            && AtLevel(s.produced, level) == AtLevel(s.delivered, level) + AtLevel(Flatten(s.events), level)
            && (s.nextEvent == |s.events| ==> AtLevel(s.delivered, level) == AtLevel(s.produced, level))
  {
    hide Run, Exclusive, InputOwned, InputOnce, Flatten, AtLevel;
    RunKeeps(actions);
    var s := Run(actions).value;
    AtLevelAppend(s.delivered, Flatten(s.events), level);
    if s.nextEvent == |s.events| {
      FlattenEmpty(s.events);
      assert s.delivered + [] == s.delivered;
    }
  }

  /** An operation waits although no goroutine was ever launched: Start was not called, or was refused. */
  predicate WaitsForNobody(s: State) {
    s.handshake.NotStarted? && !s.app.Free?
  }

  /** The steps that bring an operation of the application further. */
  ghost predicate CanGoOn(s: State) {
    exists a :: a in {ReceiveSignal, ReceiveBlocked, TakeInput, Block, CloseSignal} && Step(s, a).Some?
  }

  /**
   * An operation of the application waits for ever exactly when no goroutine was ever launched; otherwise it never waits
   * for a goroutine that waits for it in turn, and some step can be taken.
   */
  lemma NeverStuck(actions: seq<Action>)
    requires Run(actions).Some?
    ensures var s := Run(actions).value; !s.app.Free? ==> (CanGoOn(s) <==> !WaitsForNobody(s))
    ensures WaitsForNobody(Run(actions).value) ==> forall a :: Step(Run(actions).value, a).None?
  {
    hide Run, InputOwned, InputOnce, EventsOnce, Step, CanGoOn;
    RunKeeps(actions);
    var s := Run(actions).value;
    if WaitsForNobody(s) {
      NothingToDo(s);
    } else if !s.app.Free? {
      Enabled(s);
    }
  }

  lemma NothingToDo(s: State)
    requires Exclusive(s) && WaitsForNobody(s)
    ensures !CanGoOn(s) && forall a :: Step(s, a).None?
  {
    hide Return, TakeEvent, PutData, PutEvent;
  }

  lemma Enabled(s: State)
    requires Exclusive(s) && !s.app.Free? && !WaitsForNobody(s)
    ensures CanGoOn(s)
  {
    hide Return;
    var a := if s.handshake.Running? then Block
             else if s.handshake.Woken? then TakeInput
             else if s.app.WaitBlocked? then ReceiveBlocked
             else if s.handshake.Closing? then CloseSignal
             else ReceiveSignal;
    assert Step(s, a).Some?;
  }

  /**
   * Which calls those are, as the caller can tell beforehand: without a goroutine, HandleData at the current level, and
   * SetTransportParameters once Start has been called, and refused.
   */
  lemma CallsForNobody(actions: seq<Action>, a: Action)
    requires Run(actions).Some? && Run(actions).value.app.Free? && Step(Run(actions).value, a).Some?
    ensures var s := Run(actions).value;
            WaitsForNobody(Step(s, a).value)
            <==> s.handshake.NotStarted? && ((a.CallHandle? && a.level == s.level) || (a.CallParams? && s.started))
  {
    hide Run, InputOwned, InputOnce, EventsOnce, PutData, PutEvent, TakeEvent, Return;
    RunKeeps(actions);
    var s := Run(actions).value;
    TakeEventFrame(s);
    if a.ProduceData? {
      PutDataFrame(s, a.level, a.data);
    } else if a.Produce? {
      PutEventFrame(s, a.event);
    }
  }

  /** Both do occur: the one before Start, and both after a Start that was refused for its configuration. */
  lemma CallsWithoutGoroutine(data: octets, params: octets)
    ensures var s := Run([CallHandle(START.level, data)]); s.Some? && WaitsForNobody(s.value)
    ensures var s := Run([CallStart(false), CallHandle(START.level, data)]); s.Some? && WaitsForNobody(s.value)
    ensures var s := Run([CallStart(false), CallParams(params)]); s.Some? && WaitsForNobody(s.value)
  {
    assert [CallHandle(START.level, data)][..0] == [];
    assert [CallStart(false)][..0] == [];
    assert [CallStart(false), CallHandle(START.level, data)][..1] == [CallStart(false)];
    assert [CallStart(false), CallParams(params)][..1] == [CallStart(false)];
  }

  /** The handshake goes on after a resumption event only when everything produced before has been delivered. */
  lemma DrainedBeforeResuming(s: State, a: Action)
    requires Inv(s) && Step(s, a).Some? && s.waitingForDrain && !Step(s, a).value.waitingForDrain
    ensures s.delivered == s.produced
  {
    hide Flatten, Return, PutData, PutEvent, TakeEvent;
    TakeEventFrame(s);
    if a.ReceiveBlocked? {
      ReturnFrame(s.(handshake := AtSignal), s.app.op, true);
      ReturnFrame(s, s.app.op, false);
    } else if a.ProduceData? {
      PutDataFrame(s, a.level, a.data);
    } else if a.Produce? {
      PutEventFrame(s, a.event);
    }
    FlattenEmpty(s.events[..s.nextEvent]);
    assert s.nextEvent == |s.events| ==> s.events[..s.nextEvent] == s.events;
    assert s.delivered + [] == s.delivered;
  }

  lemma ReturnFrame(s: State, op: Op, ok: bool)
    ensures Return(s, op, ok).waitingForDrain == s.waitingForDrain
  {
  }

  // ---------- The history, told by the steps alone ----------

  /** The level that was last set. */
  function LevelSet(actions: seq<Action>): nat {
    if actions == [] then 0
    else
      var n := |actions| - 1;
      if actions[n].SetLevel? then actions[n].level else LevelSet(actions[..n])
  }

  /** The data of all calls of HandleData at the level of the time, one after the other. */
  function Given(actions: seq<Action>): octets {
    if actions == [] then []
    else
      var n := |actions| - 1;
      Given(actions[..n])
      + if actions[n].CallHandle? && actions[n].level == LevelSet(actions[..n]) then actions[n].data else []
  }

  /** All that the goroutine, or the application after it, has put into the queue. */
  function Written(actions: seq<Action>): seq<Atom> {
    if actions == [] then []
    else
      var n := |actions| - 1;
      Written(actions[..n])
      + match actions[n]
        case Produce(event) => Atoms(event)
        case ProduceData(level, data) => Bytes(level, data)
        case Resume(event) => Atoms(event)
        case _ => []
  }

  /** What one step adds to the history. */
  lemma StepHistory(s: State, a: Action)
    requires Step(s, a).Some?
    ensures var t := Step(s, a).value;
            && t.level == (if a.SetLevel? then a.level else s.level)
            && (a.Resume? ==> t.waitingForDrain)
            && t.given == s.given + (if a.CallHandle? && a.level == s.level then a.data else [])
            && t.produced == s.produced + match a
                                          case Produce(event) => Atoms(event)
                                          case ProduceData(level, data) => Bytes(level, data)
                                          case Resume(event) => Atoms(event)
                                          case _ => []
  {
    hide Atoms, Bytes, TakeEvent, Return;
    TakeEventFrame(s);
    if a.ReceiveBlocked? && s.app.WaitBlocked? {
      ReturnHistory(s.(handshake := AtSignal), s.app.op, true);
      ReturnHistory(s, s.app.op, false);
    }
    assert s.given + [] == s.given && s.produced + [] == s.produced;
  }

  lemma ReturnHistory(s: State, op: Op, ok: bool)
    ensures var t := Return(s, op, ok); t.level == s.level && t.given == s.given && t.produced == s.produced
  {
    hide Atoms;
  }

  /** What was given and what was produced is what the steps say, in their order. */
  lemma {:induction false} HistoryOfRun(actions: seq<Action>)
    requires Run(actions).Some?
    ensures var s := Run(actions).value;
            s.level == LevelSet(actions) && s.given == Given(actions) && s.produced == Written(actions)
    decreases |actions|
  {
    hide Step, Atoms, Bytes;
    if actions != [] {
      var n := |actions| - 1;
      HistoryOfRun(actions[..n]);
      StepHistory(Run(actions[..n]).value, actions[n]);
    }
  }

  /** The step that ends a call of NextEvent. */
  predicate EndsNext(s: State, a: Action) {
    || (a.CallNext? && !(s.nextEvent >= |s.events| && s.waitingForDrain))
    || (a.ReceiveBlocked? && s.app == WaitBlocked(NextOp))
  }

  /** NextEvent hands over the event at the front of the queue, and no other step takes anything out. */
  lemma NextHandsOver(s: State, a: Action)
    requires Step(s, a).Some?
    ensures Step(s, a).value.delivered == s.delivered +
              if EndsNext(s, a) && s.nextEvent < |s.events| then Atoms(s.events[s.nextEvent]) else []
  {
    hide Atoms, Bytes;
    assert s.delivered + [] == s.delivered;
    if a.ProduceData? {
      PutDataFrame(s, a.level, a.data);
    }
  }

  /** While the goroutine waits for the queue to drain it has not gone. */
  lemma {:induction false} DrainingIsAlive(actions: seq<Action>)
    requires Run(actions).Some?
    ensures var s := Run(actions).value; s.waitingForDrain ==> s.handshake in {Running, AtBlocked, AtSignal, Woken}
    decreases |actions|
  {
    hide Step;
    if actions != [] {
      var n := |actions| - 1;
      DrainingIsAlive(actions[..n]);
      RunKeeps(actions[..n]);
      StepDraining(Run(actions[..n]).value, actions[n]);
    }
  }

  lemma StepDraining(s: State, a: Action)
    requires Inv(s) && Step(s, a).Some? && (s.waitingForDrain ==> s.handshake in {Running, AtBlocked, AtSignal, Woken})
    ensures var t := Step(s, a).value; t.waitingForDrain ==> t.handshake in {Running, AtBlocked, AtSignal, Woken}
  {
    hide Atoms, Bytes, TakeEvent, Flatten, EventsOnce;
    TakeEventFrame(s);
    TakeEventFrame(s.(app := Free));
    TakeEventFrame(s.(app := Free, handshake := AtSignal));
    if a.ProduceData? {
      PutDataFrame(s, a.level, a.data);
    }
  }

  /** After a resumption event nothing is read or produced, and no level set, until the queue has been drained. */
  lemma NothingUntilDrained(actions: seq<Action>, a: Action)
    requires Run(actions).Some? && Run(actions).value.waitingForDrain && Step(Run(actions).value, a).Some?
    ensures var s, t := Run(actions).value, Step(Run(actions).value, a).value;
            t.produced == s.produced && t.consumed == s.consumed && t.level == s.level
  {
    hide Run, Atoms, Bytes, TakeEvent;
    DrainingIsAlive(actions);
    var s := Run(actions).value;
    TakeEventFrame(s);
    TakeEventFrame(s.(app := Free));
    TakeEventFrame(s.(app := Free, handshake := AtSignal));
  }
}
