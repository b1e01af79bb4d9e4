/** The log of the worker tells when a session is open and when its wait started over. */
module SessionLog {
  import opened Bytes
  import opened Codec
  import opened Framing
  import opened KeyEncoding
  import opened Worker
  import opened WorkerInvariants
  import opened Traces

  /** The number of the OPEN_IME that went out last, unless an acknowledgement or a close has come after it. */
  function OpenByLog(trace: seq<Event>): Option<nat> {
    if trace == [] then None
    else
      match trace[|trace| - 1] {
        case Tried(m, ok) =>
          if m.packet.kind == 4 then (if ok then Some(m.n) else None)
          else if m.packet.kind == 6 || m.packet.kind == 9 then None
          else OpenByLog(trace[..|trace| - 1])
        case SessionClosed => None
        case _ => OpenByLog(trace[..|trace| - 1])
      }
  }

  /** Input is taken only under an OPEN_IME that went out and has been neither acknowledged nor closed since. */
  predicate TakenWhileOpen(trace: seq<Event>) {
    trace == []
    || (var before, e := trace[..|trace| - 1], trace[|trace| - 1];
        TakenWhileOpen(before) && (e.TookText? || e.TookKey? ==> OpenByLog(before) == Some(e.n)))
  }

  predicate LogHolds(s: Tsr) {
    TakenWhileOpen(s.traffic.trace)
    && (s.session.imeActive ==> OpenByLog(s.traffic.trace) == Some(s.session.openSequence))
  }

  predicate Waiting(s: Session) {
    s.link == HelloWait || s.imeActive
  }

  /** A HELLO or an OPEN_IME that goes out, and input that is taken, start the wait over. */
  predicate Restarts(e: Event) {
    e.TookText? || e.TookKey?
    || (e.Tried? && e.ok && (e.message.packet.kind == 1 || e.message.packet.kind == 4))
  }

  ghost predicate Restarted(a: seq<Event>, b: seq<Event>) {
    exists i :: |a| <= i < |b| && Restarts(b[i])
  }

  /** What every stage but the last does to the wait: it is zero after a start, and a wait that goes on is untouched. */
  ghost predicate WaitFollows(s: Tsr, t: Tsr) {
    && (s.session.waitTicks == 0 ==> t.session.waitTicks == 0)
    && (Restarted(s.traffic.trace, t.traffic.trace) ==> t.session.waitTicks == 0)
    && (!Restarted(s.traffic.trace, t.traffic.trace) && Waiting(t.session) ==>
          Waiting(s.session) && t.session.waitTicks == s.session.waitTicks)
  }

  ghost predicate Follows(s: Tsr, t: Tsr) {
    s.traffic.trace <= t.traffic.trace && (LogHolds(s) ==> LogHolds(t)) && WaitFollows(s, t)
  }

  lemma FollowsTwice(s: Tsr, t: Tsr, u: Tsr)
    requires Follows(s, t) && Follows(t, u)
    ensures Follows(s, u)
  {
    var a, b, c := s.traffic.trace, t.traffic.trace, u.traffic.trace;
    assert Restarted(a, c) ==> Restarted(a, b) || Restarted(b, c) by {
      if Restarted(a, c) {
        var i :| |a| <= i < |c| && Restarts(c[i]);
        assert i < |b| ==> Restarts(b[i]);
      }
    }
    assert Restarted(a, b) ==> Restarted(a, c) by {
      if Restarted(a, b) {
        var i :| |a| <= i < |b| && Restarts(b[i]);
        assert Restarts(c[i]);
      }
    }
  }

  /** Nothing is logged, no session opens and no wait starts. */
  lemma NothingLogged(s: Tsr, t: Tsr)
    requires t.traffic.trace == s.traffic.trace && t.session.openSequence == s.session.openSequence
    requires t.session.imeActive ==> s.session.imeActive
    requires Waiting(t.session) ==> Waiting(s.session) && t.session.waitTicks == s.session.waitTicks
    requires s.session.waitTicks == 0 ==> t.session.waitTicks == 0
    ensures Follows(s, t)
  {
  }

  lemma LogSnoc(trace: seq<Event>, e: Event)
    ensures (trace + [e])[..|trace|] == trace
    ensures Restarted(trace, trace + [e]) <==> Restarts(e)
  {
    assert (trace + [e])[|trace|] == e;
  }

  /** One event is logged. */
  lemma OneLogged(s: Tsr, t: Tsr, e: Event)
    requires t.traffic.trace == s.traffic.trace + [e]
    requires LogHolds(s) && (e.TookText? || e.TookKey?) ==> s.session.imeActive && e.n == s.session.openSequence
    requires LogHolds(s) && t.session.imeActive ==>
               OpenByLog(t.traffic.trace) == Some(t.session.openSequence)
    requires if Restarts(e) then t.session.waitTicks == 0
             else (s.session.waitTicks == 0 ==> t.session.waitTicks == 0)
                  && (Waiting(t.session) ==> Waiting(s.session) && t.session.waitTicks == s.session.waitTicks)
    ensures Follows(s, t)
  {
    LogSnoc(s.traffic.trace, e);
  }

  // ----- the stages -----

  lemma OpenFollows(s: Tsr)
    ensures Follows(s, SendOpenIme(s))
  {
    var m, ok := SendOpenEffect(s);
    LogSnoc(s.traffic.trace, Tried(m, ok));
    OneLogged(s, SendOpenIme(s), Tried(m, ok));
  }

  lemma StartFollows(s: Tsr)
    requires !s.session.imeActive
    ensures Follows(s, StartLink(s))
  {
    var n := s.session.sequence + 1;
    var m := Message(Packet(HELLO, Wire(n), HELLO_PAYLOAD), n);
    OneLogged(s, StartLink(s), Tried(m, Transmit(s.traffic, true, m).1));
  }

  lemma OpenOrStartFollows(s: Tsr)
    ensures Follows(s, OpenOrStart(s))
  {
    if s.session.openPending && !s.session.imeActive && s.session.link == Ready {
      OpenFollows(s);
    } else if s.session.openPending && !s.session.imeActive && s.session.link == Closed {
      StartFollows(s);
    } else {
      NothingLogged(s, s);
    }
  }

  lemma CloseFollows(s: Tsr)
    ensures Follows(s, CloseIme(s))
  {
    var n := s.session.openSequence;
    var t := if s.session.link == Ready then Send(s, CLOSE_IME, n, []).0 else s;
    if s.session.link == Ready {
      var m := Message(Packet(CLOSE_IME, Wire(n), []), n);
      var ok := Send(s, CLOSE_IME, n, []).1;
      LogSnoc(s.traffic.trace, Tried(m, ok));
      OneLogged(s, t, Tried(m, ok));
    } else {
      NothingLogged(s, t);
    }
    OneLogged(t, CloseIme(s), SessionClosed);
    FollowsTwice(s, t, CloseIme(s));
  }

  lemma ToggleFollows(s: Tsr)
    ensures Follows(s, Toggle(s))
  {
    var t := Log(s, Toggled);
    LogSnoc(s.traffic.trace, Toggled);
    OneLogged(s, t, Toggled);
    if s.session.imeEnabled {
      CloseFollows(t);
      FollowsTwice(s, t, Toggle(s));
    } else {
      NothingLogged(t, Toggle(s));
      FollowsTwice(s, t, Toggle(s));
    }
  }

  lemma HotkeyFollows(s: Tsr, modifier: bool, space: bool)
    ensures Follows(s, ServiceHotkey(s, modifier, space))
  {
    var t := s.(latched := PollHotkey(s.latched, modifier, space).1);
    if modifier && space && HotkeyQueued(s.queue) {
      var u := t.(queue := t.queue[..|t.queue| - 1]);
      NothingLogged(s, u);
      ToggleFollows(u);
      FollowsTwice(s, u, Toggle(u));
    } else {
      NothingLogged(s, t);
    }
  }

  lemma GreetFollows(s: Tsr)
    requires s.session.openPending
    ensures Follows(s, Greeted(s))
  {
    var m, ok := SendOpenEffect(s.(session := s.session.(link := Ready, waitTicks := 0)));
    LogSnoc(s.traffic.trace, Tried(m, ok));
    OneLogged(s, Greeted(s), Tried(m, ok));
  }

  lemma TakeTextFollows(s: Tsr, text: seq<byte>)
    requires s.session.imeActive
    ensures Follows(s, TakeText(s, text))
  {
    var e := TookText(text, s.session.openSequence);
    LogSnoc(s.traffic.trace, e);
    OneLogged(s, TakeText(s, text), e);
  }

  lemma TakeKeyFollows(s: Tsr, word: u16)
    requires s.session.imeActive
    ensures Follows(s, TakeKey(s, word))
  {
    var e := TookKey(word, s.session.openSequence);
    LogSnoc(s.traffic.trace, e);
    OneLogged(s, TakeKey(s, word), e);
  }

  lemma HandlePacketFollows(s: Tsr, p: Packet, mask: byte)
    requires Core(s, mask)
    ensures Follows(s, HandlePacket(s, p))
  {
    NothingLogged(s, s);
    if p.kind == PONG && s.session.link == HelloWait {
      GreetFollows(s);
    } else if p.kind == TEXT && ForSession(s.session, p) && |p.payload| <= MAX_PAYLOAD {
      TakeTextFollows(s, p.payload);
    } else if p.kind == KEY && ForSession(s.session, p) && |p.payload| == 1 {
      if KeyWord(p.payload[0]).Some? {
        TakeKeyFollows(s, KeyWord(p.payload[0]).value);
      }
    } else if p.kind == CLOSE_IME && ForSession(s.session, p) && |p.payload| == 0 {
      CloseFollows(s);
    }
  }

  lemma AcceptByteFollows(s: Tsr, value: byte, mask: byte)
    requires Core(s, mask) && s.session.link != Closed
    ensures Follows(s, AcceptByte(s, value))
  {
    var (rx, frame) := Accept(s.port.rx, value);
    var t := s.(port := s.port.(rx := rx));
    AcceptKeepsSound(s.port.rx, value);
    NothingLogged(s, t);
    if frame.Some? && Accepts(frame.value) {
      var p := Decode(frame.value).packet;
      HandlePacketFollows(t, p, mask);
      FollowsTwice(s, t, HandlePacket(t, p));
    }
  }

  /** One turn of the polling loop. */
  lemma PollTurnFollows(s: Tsr, budget: nat, end: Tsr, mask: byte) returns (u: Tsr)
    requires Core(s, mask) && budget > 0 && NextByte(s.port).Some? && end == Poll(s, budget)
    ensures Follows(s, u) && Core(u, mask) && end == Poll(u, budget - 1)
  {
    var (value, port) := NextByte(s.port).value;
    var t := s.(port := port);
    u := AcceptByte(t, value);
    AcceptByteKeepsCore(t, value, mask);
    NothingLogged(s, t);
    AcceptByteFollows(t, value, mask);
    FollowsTwice(s, t, u);
  }

  lemma {:induction false} PollFollows(s: Tsr, budget: nat, end: Tsr, mask: byte)
    requires Core(s, mask) && end == Poll(s, budget)
    ensures Follows(s, end)
    decreases budget
  {
    if budget == 0 || NextByte(s.port).None? {
      NothingLogged(s, s);
    } else {
      var u := PollTurnFollows(s, budget, end, mask);
      PollFollows(u, budget - 1, end, mask);
      FollowsTwice(s, u, end);
    }
  }

  lemma AcknowledgeFollows(s: Tsr, kind: byte)
    requires kind == 6 || kind == 9
    ensures Follows(s, Acknowledge(s, kind))
  {
    var n := s.staged.sequence;
    var m := Message(Packet(kind, Wire(n), []), n);
    LogSnoc(s.traffic.trace, Tried(m, Send(s, kind, n, []).1));
    OneLogged(s, Acknowledge(s, kind), Tried(m, Send(s, kind, n, []).1));
  }

  lemma PutWordFollows(s: Tsr)
    requires s.staged.offset < |s.staged.text|
    ensures Follows(s, PutWord(s))
  {
    var e := PutText(EncodeKey(s.staged.text, s.staged.offset).0);
    LogSnoc(s.traffic.trace, e);
    OneLogged(s, PutWord(s), e);
  }

  lemma {:induction false} InjectTextFollows(s: Tsr, budget: nat, end: Tsr)
    requires end == InjectText(s, budget)
    ensures Follows(s, end)
    decreases budget
  {
    if s.staged.offset >= |s.staged.text| {
      AcknowledgeFollows(s, TEXT_ACK);
      NothingLogged(Acknowledge(s, TEXT_ACK), end);
      FollowsTwice(s, Acknowledge(s, TEXT_ACK), end);
    } else if budget == 0 || Full(s.queue) {
      NothingLogged(s, s);
    } else {
      PutWordFollows(s);
      InjectTextFollows(PutWord(s), budget - 1, end);
      FollowsTwice(s, PutWord(s), end);
    }
  }

  lemma InjectKeyFollows(s: Tsr)
    ensures Follows(s, InjectKey(s))
  {
    NothingLogged(s, s);
    if !Full(s.queue) {
      var e := PutKey(s.staged.key);
      var t := Log(s.(queue := s.queue + [s.staged.key]), e);
      LogSnoc(s.traffic.trace, e);
      OneLogged(s, t, e);
      AcknowledgeFollows(t, KEY_ACK);
      FollowsTwice(s, t, Acknowledge(t, KEY_ACK));
      NothingLogged(Acknowledge(t, KEY_ACK), InjectKey(s));
      FollowsTwice(s, Acknowledge(t, KEY_ACK), InjectKey(s));
    }
  }

  lemma InjectFollows(s: Tsr)
    ensures Follows(s, Inject(s))
  {
    var t := if s.staged.text != [] then InjectText(s, TEXT_BUDGET) else s;
    NothingLogged(s, s);
    if s.staged.text != [] {
      InjectTextFollows(s, TEXT_BUDGET, t);
    }
    if t.staged.keyActive {
      InjectKeyFollows(t);
      FollowsTwice(s, t, InjectKey(t));
    }
  }

  /** The stages of a worker call before its last. */
  lemma StagesFollow(s: Tsr, modifier: bool, space: bool, mask: byte) returns (t: Tsr)
    requires Core(s, mask)
    ensures Follows(s, t) && Service(s, modifier, space) == Tick(t)
  {
    var a := ServiceHotkey(s, modifier, space);
    var b := PollIfOpen(a);
    HotkeyFollows(s, modifier, space);
    HotkeyKeepsCore(s, modifier, space, mask);
    NothingLogged(a, a);
    PollFollows(a, RX_BUDGET, Poll(a, RX_BUDGET), mask);
    FollowsTwice(s, a, b);
    InjectFollows(b);
    FollowsTwice(s, b, Inject(b));
    OpenOrStartFollows(Inject(b));
    t := OpenOrStart(Inject(b));
    FollowsTwice(s, Inject(b), t);
  }

  // ----- over every run -----

  lemma TickHolds(s: Tsr)
    requires LogHolds(s)
    ensures LogHolds(Tick(s))
  {
    assert Tick(s).traffic == s.traffic && Tick(s).session.openSequence == s.session.openSequence;
  }

  lemma ServiceHolds(s: Tsr, modifier: bool, space: bool, mask: byte)
    requires Core(s, mask) && LogHolds(s)
    ensures LogHolds(Service(s, modifier, space))
  {
    var t := StagesFollow(s, modifier, space, mask);
    TickHolds(t);
  }

  lemma TakeHolds(s: Tsr, step: Step, mask: byte)
    requires AtRest(s, mask) && LogHolds(s)
    ensures LogHolds(Take(s, step))
  {
    match step {
      case WorkerCall(modifier, space) => ServiceHolds(s, modifier, space, mask);
      case ReceiveIrq(modifier, space) =>
        if s.port.capture.on && s.port.uart != [] {
          ServiceHolds(s.(port := StoreByte(s.port)), modifier, space, mask);
        }
      case ReturnedSpace(modifier, space) =>
        ToggleFollows(s.(latched := PollHotkey(s.latched, modifier, space).1));
      case _ =>
    }
  }

  lemma {:induction false} RunHolds(s: Tsr, steps: seq<Step>, mask: byte)
    requires AtRest(s, mask) && LogHolds(s)
    ensures LogHolds(Run(s, steps))
    decreases |steps|
  {
    if steps == [] {
    } else {
      TakeHolds(s, steps[0], mask);
      TakeRests(s, steps[0], mask);
      RunHolds(Take(s, steps[0]), steps[1..], mask);
    }
  }

  /** Over every run input is taken only under an OPEN_IME that went out and has been neither acknowledged nor closed
      since, and a session is open only under such a one. */
  lemma InputOnlyUnderOpen(mask: byte, steps: seq<Step>)
    ensures LogHolds(Run(Initial(mask), steps))
  {
    RunHolds(Initial(mask), steps, mask);
  }

  /** A worker call that starts the wait leaves it at one tick; one that does not makes it one tick longer. */
  lemma CallCountsWait(s: Tsr, modifier: bool, space: bool, mask: byte)
    requires Core(s, mask)
    ensures var t := Service(s, modifier, space);
      Waiting(t.session) ==>
        if Restarted(s.traffic.trace, t.traffic.trace) then t.session.waitTicks == 1
        else Waiting(s.session) && t.session.waitTicks == s.session.waitTicks + 1
  {
    var t := StagesFollow(s, modifier, space, mask);
    assert Tick(t).traffic == t.traffic;
  }
}
