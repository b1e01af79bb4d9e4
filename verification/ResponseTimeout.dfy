/** The bounded response timeout: how many worker calls a session waits for a host that says nothing to it. */
module ResponseTimeout {
  import opened Bytes
  import opened Codec
  import opened Framing
  import opened KeyEncoding
  import opened Worker
  import opened WorkerInvariants
  import opened ByteFlow
  import opened Progress
  import opened SessionLog

  predicate Off(s: Session) {
    s.link == Closed && !s.imeEnabled
  }

  /** The bytes read with a budget. */
  function Batch(unread: seq<byte>, budget: nat): seq<byte> {
    if |unread| < budget then unread else unread[..budget]
  }

  /** The packets that change what the worker does; any other is ignored. */
  predicate Heeds(s: Session, p: Packet) {
    || (p.kind == PONG && s.link == HelloWait)
    || (p.kind == TEXT && ForSession(s, p) && |p.payload| <= MAX_PAYLOAD)
    || (p.kind == KEY && ForSession(s, p) && |p.payload| == 1 && KeyWord(p.payload[0]).Some?)
    || (p.kind == CLOSE_IME && ForSession(s, p) && |p.payload| == 0)
  }

  predicate Ignores(s: Session, packets: seq<Packet>) {
    forall i :: 0 <= i < |packets| ==> !Heeds(s, packets[i])
  }

  /** The packets framed from the bytes that a worker call reads. */
  function Incoming(p: Port, budget: nat): seq<Packet> {
    Parsed(AcceptAll(p.rx, Batch(Unread(p), budget)).1)
  }

  /** More words are left of the staged text than the queue has room for; a key on its own meets a full queue. */
  predicate CannotFinish(t: Staged, queue: seq<u16>) {
    && (t.text != [] ==> |EncodeFrom(t.text, t.offset)| + |queue| > 16)
    && (t.text == [] && t.keyActive ==> |queue| >= 16)
  }

  /** The hotkey is not in the queue, the session ignores every packet read, and staged input does not complete. */
  predicate QuietCall(s: Tsr, modifier: bool, space: bool) {
    && !(modifier && space && HotkeyQueued(s.queue))
    && Ignores(s.session, Incoming(s.port, RX_BUDGET))
    && CannotFinish(s.staged, s.queue)
  }

  predicate RunsWorker(s: Tsr, step: Step) {
    step.WorkerCall? || (step.ReceiveIrq? && s.port.capture.on && s.port.uart != [])
  }

  predicate Quiet(s: Tsr, step: Step) {
    && (RunsWorker(s, step) ==> QuietCall(s, step.modifier, step.space))
    && (step.ReturnedSpace? ==> !step.modifier || !step.space)
  }

  predicate QuietRun(s: Tsr, steps: seq<Step>)
    decreases |steps|
  {
    steps == [] || (Quiet(s, steps[0]) && QuietRun(Take(s, steps[0]), steps[1..]))
  }

  function Calls(s: Tsr, steps: seq<Step>): nat
    decreases |steps|
  {
    if steps == [] then 0 else (if RunsWorker(s, steps[0]) then 1 else 0) + Calls(Take(s, steps[0]), steps[1..])
  }

  lemma IgnoredPacketChangesNothing(s: Tsr, p: Packet)
    requires !Heeds(s.session, p)
    ensures HandlePacket(s, p) == s
  {
  }

  lemma IgnoredFrameChangesNothing(s: Tsr, value: byte)
    requires Ignores(s.session, PacketsOf(Accept(s.port.rx, value).1))
    ensures AcceptByte(s, value) == s.(port := s.port.(rx := Accept(s.port.rx, value).0))
  {
    var (rx, frame) := Accept(s.port.rx, value);
    if frame.Some? && Accepts(frame.value) {
      assert PacketsOf(frame)[0] == Decode(frame.value).packet;
      IgnoredPacketChangesNothing(s.(port := s.port.(rx := rx)), Decode(frame.value).packet);
    }
  }

  lemma IgnoresBoth(s: Session, a: seq<Packet>, b: seq<Packet>)
    requires Ignores(s, a + b)
    ensures Ignores(s, a) && Ignores(s, b)
  {
    assert forall i :: 0 <= i < |a| ==> (a + b)[i] == a[i];
    assert forall i :: 0 <= i < |b| ==> (a + b)[|a| + i] == b[i];
  }

  /** The port after a byte whose packet, if it completes one, is ignored. */
  function PassedOver(p: Port): Port
    requires NextByte(p).Some?
  {
    var (value, port) := NextByte(p).value;
    port.(rx := Accept(p.rx, value).0)
  }

  /** A batch of ignored packets starts with a byte that completes none or an ignored one, and so does the rest. */
  lemma IgnoredSoFar(p: Port, session: Session, budget: nat)
    requires Batch(Unread(p), budget) != [] && p.isOpen && Ignores(session, Incoming(p, budget))
    ensures NextByte(p).Some? && Ignores(session, PacketsOf(Accept(p.rx, NextByte(p).value.0).1))
    ensures PassedOver(p).isOpen && Ignores(session, Incoming(PassedOver(p), budget - 1))
  {
    var data := Batch(Unread(p), budget);
    var (value, port) := NextByte(p).value;
    NextByteIsFirst(p);
    assert data[0] == value && data[1..] == Batch(Unread(port), budget - 1);
    assert Unread(PassedOver(p)) == Unread(port);
    ParsedStep(p.rx, data);
    IgnoresBoth(session, PacketsOf(Accept(p.rx, value).1), Incoming(PassedOver(p), budget - 1));
  }

  lemma PollUnfolds(s: Tsr, budget: nat)
    requires budget > 0 && NextByte(s.port).Some?
    ensures var (value, port) := NextByte(s.port).value;
      Poll(s, budget) == Poll(AcceptByte(s.(port := port), value), budget - 1)
  {
  }

  lemma QuietTurn(s: Tsr, budget: nat)
    requires budget > 0 && NextByte(s.port).Some?
    requires Ignores(s.session, PacketsOf(Accept(s.port.rx, NextByte(s.port).value.0).1))
    ensures Poll(s, budget) == Poll(s.(port := PassedOver(s.port)), budget - 1)
  {
    PollUnfolds(s, budget);
    var (value, port) := NextByte(s.port).value;
    IgnoredFrameChangesNothing(s.(port := port), value);
  }

  lemma {:induction false} QuietPolling(s: Tsr, budget: nat, end: Tsr)
    requires s.port.isOpen && end == Poll(s, budget) && Ignores(s.session, Incoming(s.port, budget))
    ensures end == s.(port := end.port)
    decreases budget
  {
    if Batch(Unread(s.port), budget) != [] {
      IgnoredSoFar(s.port, s.session, budget);
      QuietTurn(s, budget);
      QuietPolling(s.(port := PassedOver(s.port)), budget - 1, end);
    }
  }

  lemma QuietPoll(s: Tsr, budget: nat)
    requires s.port.isOpen && Ignores(s.session, Incoming(s.port, budget))
    ensures Poll(s, budget) == s.(port := Poll(s, budget).port)
  {
    QuietPolling(s, budget, Poll(s, budget));
  }

  /** A text with more words left than there is room for moves on and stays staged; enough budget fills the queue. */
  lemma {:induction false} StaysUnfinished(s: Tsr, budget: nat, end: Tsr)
    requires s.staged.text != [] && |EncodeFrom(s.staged.text, s.staged.offset)| + |s.queue| > QUEUE_SIZE
    requires |s.queue| <= QUEUE_SIZE && end == InjectText(s, budget)
    ensures end.session == s.session && end.staged.text == s.staged.text
    ensures |s.queue| + budget >= QUEUE_SIZE ==> Full(end.queue)
    decreases budget
  {
    if budget > 0 && !Full(s.queue) {
      StaysUnfinished(PutWord(s), budget - 1, end);
    }
  }

  lemma InjectsWithoutEnd(b: Tsr)
    requires CannotFinish(b.staged, b.queue) && |b.queue| <= QUEUE_SIZE
    ensures Inject(b).session == b.session
  {
    if b.staged.text != [] {
      StaysUnfinished(b, TEXT_BUDGET, InjectText(b, TEXT_BUDGET));
    }
  }

  /** The condition is exact: it holds when one injection acknowledges nothing of what is staged. */
  lemma CannotFinishIff(s: Tsr)
    requires Orderly(s)
    ensures CannotFinish(s.staged, s.queue) <==> Due(Inject(s).staged) == Due(s.staged)
  {
    var mid := s;
    if s.staged.text != [] {
      mid := InjectText(s, TEXT_BUDGET);
      TextFinishesIff(s, mid);
      var put := TextMoves(s, mid);
    }
    if mid.staged.keyActive && !Full(mid.queue) {
      AckKeeps(Log(mid.(queue := mid.queue + [mid.staged.key]), PutKey(mid.staged.key)), KEY_ACK);
    }
  }

  /** After a quiet poll nothing is finished or opened, and the wait gets one tick longer. */
  lemma QuietTail(b: Tsr)
    requires b.session.link != Closed && (b.session.link == HelloWait || b.session.imeActive)
    requires !(b.session.imeActive && b.session.openPending) && b.session.waitTicks < TIMEOUT
    requires CannotFinish(b.staged, b.queue) && |b.queue| <= QUEUE_SIZE
    ensures var t, ticks := Tick(OpenOrStart(Inject(b))).session, b.session.waitTicks + 1;
      if ticks < TIMEOUT then t == b.session.(waitTicks := ticks) else Off(t)
  {
    InjectsWithoutEnd(b);
    assert OpenOrStart(Inject(b)) == Inject(b);
  }

  lemma QuietServiceTicks(s: Tsr, modifier: bool, space: bool)
    requires Waiting(s.session) && s.port.isOpen && s.session.link != Closed
    requires !(s.session.imeActive && s.session.openPending) && (s.session.imeActive || s.session.link == HelloWait)
    requires s.session.waitTicks < TIMEOUT && |s.queue| <= QUEUE_SIZE
    requires QuietCall(s, modifier, space)
    ensures var t, ticks := Service(s, modifier, space).session, s.session.waitTicks + 1;
      if ticks < TIMEOUT then t == s.session.(waitTicks := ticks) else Off(t)
  {
    var a := s.(latched := PollHotkey(s.latched, modifier, space).1);
    assert ServiceHotkey(s, modifier, space) == a;
    QuietPoll(a, RX_BUDGET);
    QuietTail(PollIfOpen(a));
  }

  lemma QuietStep(s: Tsr, step: Step, mask: byte)
    requires AtRest(s, mask) && Waiting(s.session) && Quiet(s, step)
    ensures var t, ticks := Take(s, step).session, s.session.waitTicks + if RunsWorker(s, step) then 1 else 0;
      if ticks < TIMEOUT then t == s.session.(waitTicks := ticks) else Off(t)
  {
    match step {
      case WorkerCall(modifier, space) => QuietServiceTicks(s, modifier, space);
      case ReceiveIrq(modifier, space) =>
        if s.port.capture.on && s.port.uart != [] {
          assert Unread(StoreByte(s.port)) == Unread(s.port);
          QuietServiceTicks(s.(port := StoreByte(s.port)), modifier, space);
        }
      case _ =>
    }
  }

  lemma {:induction false} ClosedInjectionStaysOff(s: Tsr, budget: nat)
    requires Off(s.session) && !s.session.imeActive && !s.session.openPending
    ensures InjectText(s, budget).session == s.session
    decreases budget
  {
    if s.staged.offset < |s.staged.text| && budget > 0 && !Full(s.queue) {
      ClosedInjectionStaysOff(PutWord(s), budget - 1);
    }
  }

  lemma OffServiceStaysOff(s: Tsr, modifier: bool, space: bool)
    requires Off(s.session) && !s.session.imeActive && !s.session.openPending && QuietCall(s, modifier, space)
    ensures Service(s, modifier, space).session == s.session
  {
    var a := s.(latched := PollHotkey(s.latched, modifier, space).1);
    assert PollIfOpen(ServiceHotkey(s, modifier, space)) == a;
    if a.staged.text != [] {
      ClosedInjectionStaysOff(a, TEXT_BUDGET);
    }
    assert Inject(a).session == s.session;
  }

  lemma {:induction false} OffStaysOff(s: Tsr, steps: seq<Step>, mask: byte)
    requires AtRest(s, mask) && Off(s.session) && QuietRun(s, steps)
    ensures Off(Run(s, steps).session)
    decreases |steps|
  {
    if steps == [] {
    } else {
      if steps[0].WorkerCall? {
        OffServiceStaysOff(s, steps[0].modifier, steps[0].space);
      }
      assert Off(Take(s, steps[0]).session);
      TakeRests(s, steps[0], mask);
      OffStaysOff(Take(s, steps[0]), steps[1..], mask);
    }
  }

  /** While no packet is heeded, no hotkey pressed and no input completed, a waiting session lasts exactly until its
      tick count reaches FFFFh: with fewer worker calls it is still waiting, its other flags untouched, although ignored
      packets come in and staged text moves on; with that many or more the IME is off, the link closed. */
  lemma {:induction false} TimeoutIsExact(s: Tsr, steps: seq<Step>, mask: byte)
    requires AtRest(s, mask) && Waiting(s.session) && QuietRun(s, steps)
    ensures var end, ticks := Run(s, steps).session, s.session.waitTicks + Calls(s, steps);
      if ticks < 0xffff then end == s.session.(waitTicks := ticks) && Waiting(end) else Off(end)
    decreases |steps|
  {
    if steps == [] {
    } else {
      var t := Take(s, steps[0]);
      QuietStep(s, steps[0], mask);
      TakeRests(s, steps[0], mask);
      if s.session.waitTicks + (if RunsWorker(s, steps[0]) then 1 else 0) < TIMEOUT {
        TimeoutIsExact(t, steps[1..], mask);
      } else {
        OffStaysOff(t, steps[1..], mask);
      }
    }
  }

  /** A worker call that leaves a session or a greeting waiting, and in which its packet went out or input was taken,
      starts the full wait: 65533 further calls find it waiting, the one after them turns it off. */
  lemma FullWait(s: Tsr, modifier: bool, space: bool, steps: seq<Step>, mask: byte)
    requires AtRest(s, mask) && Waiting(Service(s, modifier, space).session)
    requires Restarted(s.traffic.trace, Service(s, modifier, space).traffic.trace)
    requires QuietRun(Service(s, modifier, space), steps)
    ensures var end := Run(Service(s, modifier, space), steps).session;
      if Calls(Service(s, modifier, space), steps) <= 65533 then Waiting(end) else Off(end)
  {
    CallCountsWait(s, modifier, space, mask);
    ServiceRests(s, modifier, space, mask);
    TimeoutIsExact(Service(s, modifier, space), steps, mask);
  }
}
