/** Two runs from start-up, made of whole worker calls, that show both conditions of agreement to be needed: a response
    timeout that leaves a key staged, and a request that reaches the worker 65536 sequence steps late. */
module StaleInput {
  import opened Bytes
  import opened Codec
  import opened Worker
  import opened WorkerInvariants
  import opened HostSession
  import opened Agreement

  const TYPED: u16 := 0x1e61
  const ENTER: byte := 1
  const LEFT: byte := 2

  // ----- runs made of whole calls -----

  predicate IsStage(step: NetStep) {
    step.Hotkey? || step.Handle? || step.Injects? || step.Opens? || step.Ticks?
  }

  /** A whole worker call, or a step of something else. */
  ghost predicate IsWhole(steps: seq<NetStep>) {
    (|steps| == 1 && !IsStage(steps[0])) || (exists modifier, space, k :: steps == WholeCall(modifier, space, k))
  }

  /** On fresh messages; or without an OPEN over staged input. */
  predicate Keeps(net: Net, steps: seq<NetStep>, timely: bool) {
    if timely then FreshRun(net, steps) else CleanRun(net, steps)
  }

  ghost predicate RunTo(calls: seq<seq<NetStep>>, net: Net, timely: bool) {
    && (forall i :: 0 <= i < |calls| ==> IsWhole(calls[i]))
    && Keeps(Start(0), Concat(calls), timely) && Play(Start(0), Concat(calls)) == net
  }

  ghost predicate Reached(net: Net, timely: bool) {
    exists calls :: RunTo(calls, net, timely)
  }

  lemma KeepsCons(net: Net, step: NetStep, rest: seq<NetStep>, timely: bool)
    ensures Keeps(net, [step] + rest, timely) <==>
            (if timely then Fresh(net, step) else !OpensOverInput(net, step)) && Keeps(Move(net, step), rest, timely)
  {
    assert ([step] + rest)[1..] == rest;
  }

  lemma {:induction false} KeepsConcat(net: Net, a: seq<NetStep>, b: seq<NetStep>, timely: bool)
    ensures Keeps(net, a + b, timely) <==> Keeps(net, a, timely) && Keeps(Play(net, a), b, timely)
    decreases |a|
  {
    if a == [] {
      assert a + b == b;
    } else {
      assert (a + b)[1..] == a[1..] + b;
      KeepsConcat(Move(net, a[0]), a[1..], b, timely);
    }
  }

  lemma {:induction false} ConcatSnoc(calls: seq<seq<NetStep>>, call: seq<NetStep>)
    ensures Concat(calls + [call]) == Concat(calls) + call
  {
    if calls == [] {
      assert [call][1..] == [] && [] + [call] == [call];
    } else {
      assert (calls + [call])[1..] == calls[1..] + [call];
      ConcatSnoc(calls[1..], call);
    }
  }

  lemma Extend(net: Net, call: seq<NetStep>, timely: bool)
    requires Reached(net, timely) && IsWhole(call) && Keeps(net, call, timely)
    ensures Reached(Play(net, call), timely)
  {
    var calls :| RunTo(calls, net, timely);
    ConcatSnoc(calls, call);
    KeepsConcat(Start(0), Concat(calls), call, timely);
    PlayConcat(Start(0), Concat(calls), call);
    assert RunTo(calls + [call], Play(net, call), timely);
  }

  lemma Reach(net: Net, step: NetStep, timely: bool) returns (next: Net)
    requires Reached(net, timely) && !IsStage(step)
    ensures next == Move(net, step) && Reached(next, timely)
  {
    next := Move(net, step);
    assert [step] + [] == [step];
    KeepsCons(net, step, [], timely);
    PlayOne(net, step, []);
    Extend(net, [step], timely);
  }

  /** The worker after the first two stages of a call with the hotkey up that finds k packets. */
  function Handled(net: Net, k: nat): Tsr
    requires k <= 1 && k <= |net.toTsr|
  {
    var a := net.tsr.(latched := false);
    if k == 0 || a.session.link == Closed then a else HandlePacket(a, net.toTsr[0].packet)
  }

  /** The last three stages: only the second can send an OPEN. */
  lemma LastStagesKeep(net: Net, timely: bool)
    requires timely || !InputStaged(Inject(net.tsr).staged)
    ensures Keeps(net, [Injects, Opens, Ticks], timely)
  {
    var a := Move(net, Injects);
    assert [Injects, Opens, Ticks] == [Injects] + [Opens, Ticks] && [Opens, Ticks] == [Opens] + [Ticks];
    assert [Ticks] == [Ticks] + [];
    KeepsCons(net, Injects, [Opens, Ticks], timely);
    KeepsCons(a, Opens, [Ticks], timely);
    KeepsCons(Move(a, Opens), Ticks, [], timely);
  }

  lemma CallKeeps(net: Net, k: nat, timely: bool)
    requires k <= 1 && k <= |net.toTsr|
    requires timely && k == 1 ==> net.tsr.session.openSequence < net.toTsr[0].n + 0x1_0000
    requires !timely ==> !InputStaged(net.tsr.staged) && !InputStaged(Inject(Handled(net, k)).staged)
    ensures Keeps(net, WholeCall(false, false, k), timely)
  {
    var last, a := [Injects, Opens, Ticks], Move(net, Hotkey(false, false));
    KeepsCons(net, Hotkey(false, false), Handles(k) + last, timely);
    if k == 0 {
      assert Handles(0) + last == last;
      LastStagesKeep(a, timely);
    } else {
      assert Handles(1) == [Handle] + Handles(0) == [Handle];
      KeepsCons(a, Handle, last, timely);
      LastStagesKeep(TakePacket(a), timely);
    }
  }

  /** A call with the hotkey up that finds at most one packet. */
  lemma ReachCall(net: Net, k: nat, timely: bool) returns (next: Net)
    requires Reached(net, timely) && k <= 1 && k <= |net.toTsr|
    requires timely && k == 1 ==> net.tsr.session.openSequence < net.toTsr[0].n + 0x1_0000
    requires !timely ==> !InputStaged(net.tsr.staged) && !InputStaged(Inject(Handled(net, k)).staged)
    ensures Reached(next, timely)
    ensures next == net.(tsr := Tick(OpenOrStart(Inject(Handled(net, k)))), toTsr := net.toTsr[k..])
  {
    CallKeeps(net, k, timely);
    Extend(net, WholeCall(false, false, k), timely);
    next := Play(net, WholeCall(false, false, k));
    CallIsItsStages(net, false, false, k);
    var a := ServiceHotkey(net.tsr, false, false);
    if k == 1 {
      assert net.toTsr[..1] == [net.toTsr[0]] && PacketsIn([net.toTsr[0]]) == [net.toTsr[0].packet] + [];
      FirstHandled(a, net.toTsr[0].packet, []);
    }
  }

  // ----- opening a session -----

  function Typed(n: nat): seq<u16> {
    seq(n, _ => TYPED)
  }

  function Numbered(kind: byte, n: nat, payload: seq<byte>): Message {
    Message(Packet(kind, Wire(n), payload), n)
  }

  /** The worker in the fields that matter to the runs; the key, if staged, is ENTER's word from session `from`. */
  predicate At(t: Tsr, s: Session, keyActive: bool, from: nat, ready: nat, line: seq<Message>, queue: nat) {
    && t.session == s && t.staged.text == [] && t.staged.keyActive == keyActive
    && (keyActive ==> t.staged.key == 0x1c0d && t.staged.sequence == from && queue == QUEUE_SIZE)
    && t.port.isOpen == (s.link != Closed)
    && |t.traffic.ready| == ready && (forall i :: 0 <= i < ready ==> InTime(t.traffic.ready[i], 522))
    && t.traffic.line == line
    && t.queue == Typed(queue)
  }

  lemma NothingInjected(t: Tsr, s: Session, keyActive: bool, from: nat, ready: nat, line: seq<Message>, queue: nat)
    requires At(t, s, keyActive, from, ready, line, queue)
    ensures Inject(t) == t
  {
  }

  lemma Greets(t: Tsr, n: nat, last: nat, keyActive: bool, from: nat, ready: nat, queue: nat)
    requires At(t, Session(Closed, true, false, true, n, last, 0), keyActive, from, ready, [], queue) && ready > 0
    ensures At(Tick(OpenOrStart(t)), Session(HelloWait, true, false, true, n + 1, last, 1), keyActive, from, ready - 1,
               [Numbered(HELLO, n + 1, HELLO_PAYLOAD)], queue)
  {
    var m := Numbered(HELLO, n + 1, HELLO_PAYLOAD);
    assert [] + [m] == [m];
  }

  /** With the transmitter stuck, the attempt uses up a number and leaves the link closed. */
  lemma Fails(t: Tsr, n: nat, last: nat)
    requires At(t, Session(Closed, true, false, true, n, last, 0), false, 0, 0, [], 0)
    ensures At(Tick(OpenOrStart(t)), Session(Closed, true, false, true, n + 1, last, 0), false, 0, 0, [], 0)
  {
  }

  lemma Opened(t: Tsr, n: nat, last: nat, keyActive: bool, from: nat, ready: nat, queue: nat, p: Packet)
    requires At(t, Session(HelloWait, true, false, true, n, last, 1), keyActive, from, ready, [], queue)
    requires ready > 0 && p.kind == PONG
    ensures At(HandlePacket(t, p), Session(Ready, false, true, true, n + 1, n + 1, 0), keyActive, from,
               ready - 1, [Numbered(OPEN_IME, n + 1, [])], queue)
  {
    var m := Numbered(OPEN_IME, n + 1, []);
    assert [] + [m] == [m];
  }

  /** The later stages leave an open session with nothing to inject as it is, one tick older. */
  lemma Waits(t: Tsr, n: nat, keyActive: bool, from: nat, ready: nat, line: seq<Message>, queue: nat)
    requires At(t, Session(Ready, false, true, true, n, n, 0), keyActive, from, ready, line, queue)
    ensures At(Tick(OpenOrStart(Inject(t))), Session(Ready, false, true, true, n, n, 1), keyActive, from, ready, line,
               queue)
  {
    NothingInjected(t, t.session, keyActive, from, ready, line, queue);
    assert OpenOrStart(t) == t;
  }

  /** The host reads the one packet on the line. */
  lemma HostTakes(net: Net, m: Message)
    requires net.host.connected && net.tsr.traffic.line == [m]
    ensures var next, served := Move(net, HostReads), ServePacket(net.host, m.packet);
      && next.tsr == net.tsr.(traffic := net.tsr.traffic.(line := [])) && next.host == served.0
      && next.asked == net.asked && next.openN == (if m.packet.kind == OPEN_IME then m.n else net.openN)
      && next.toTsr == net.toTsr + (if served.1.Some? then [Message(served.1.value, m.n)] else [])
  {
    assert [m][1..] == [];
  }

  lemma SaysHello(net: Net, n: nat, last: nat, keyActive: bool, from: nat, ready: nat, queue: nat, timely: bool)
    returns (end: Net)
    requires Reached(net, timely) && ready > 0 && (keyActive ==> timely)
    requires At(net.tsr, Session(Closed, true, false, true, n, last, 0), keyActive, from, ready, [], queue)
    ensures Reached(end, timely) && end == net.(tsr := end.tsr)
    ensures At(end.tsr, Session(HelloWait, true, false, true, n + 1, last, 1), keyActive, from, ready - 1,
               [Numbered(HELLO, n + 1, HELLO_PAYLOAD)], queue)
  {
    var a := Handled(net, 0);
    NothingInjected(a, a.session, keyActive, from, ready, [], queue);
    Greets(a, n, last, keyActive, from, ready, queue);
    end := ReachCall(net, 0, timely);
    assert net.toTsr[0..] == net.toTsr;
  }

  /** A greeting that the host reads and answers. */
  lemma Meets(net: Net, n: nat, last: nat, keyActive: bool, from: nat, ready: nat, queue: nat, timely: bool)
    returns (end: Net)
    requires Reached(net, timely) && net.host.connected && ready > 0 && (keyActive ==> timely)
    requires At(net.tsr, Session(Closed, true, false, true, n, last, 0), keyActive, from, ready, [], queue)
    ensures Reached(end, timely) && end.host.connected && end.asked == net.asked && end.openN == net.openN
    ensures end.toTsr == net.toTsr + [Numbered(PONG, n + 1, [])]
    ensures At(end.tsr, Session(HelloWait, true, false, true, n + 1, last, 1), keyActive, from, ready - 1, [], queue)
  {
    var a := SaysHello(net, n, last, keyActive, from, ready, queue, timely);
    HostTakes(a, Numbered(HELLO, n + 1, HELLO_PAYLOAD));
    end := Reach(a, HostReads, timely);
  }

  /** A PONG, which may be an old one, lets an OPEN out. */
  lemma GetsReady(net: Net, n: nat, last: nat, keyActive: bool, from: nat, ready: nat, queue: nat, timely: bool)
    returns (end: Net)
    requires Reached(net, timely) && ready > 0 && (keyActive ==> timely)
    requires net.toTsr != [] && net.toTsr[0].packet.kind == PONG && last < net.toTsr[0].n + 0x1_0000
    requires At(net.tsr, Session(HelloWait, true, false, true, n, last, 1), keyActive, from, ready, [], queue)
    ensures Reached(end, timely) && end == net.(tsr := end.tsr, toTsr := net.toTsr[1..])
    ensures At(end.tsr, Session(Ready, false, true, true, n + 1, n + 1, 1), keyActive, from, ready - 1,
               [Numbered(OPEN_IME, n + 1, [])], queue)
  {
    var a, p := net.tsr.(latched := false), net.toTsr[0].packet;
    Opened(a, n, last, keyActive, from, ready, queue, p);
    var b := HandlePacket(a, p);
    assert b == Handled(net, 1);
    Waits(b, n + 1, keyActive, from, ready - 1, b.traffic.line, queue);
    NothingInjected(b, b.session, keyActive, from, ready - 1, b.traffic.line, queue);
    end := ReachCall(net, 1, timely);
  }

  /** An OPEN that the host reads. */
  lemma Invites(net: Net, n: nat, last: nat, keyActive: bool, from: nat, ready: nat, queue: nat, timely: bool)
    returns (end: Net)
    requires Reached(net, timely) && net.host.connected && ready > 0 && (keyActive ==> timely)
    requires net.toTsr != [] && net.toTsr[0].packet.kind == PONG && last < net.toTsr[0].n + 0x1_0000
    requires At(net.tsr, Session(HelloWait, true, false, true, n, last, 1), keyActive, from, ready, [], queue)
    ensures Reached(end, timely) && end.toTsr == net.toTsr[1..] && end.asked == net.asked
    ensures end.host.connected && end.host.imeReady && end.host.openSequence == Wire(n + 1) && end.openN == n + 1
    ensures At(end.tsr, Session(Ready, false, true, true, n + 1, n + 1, 1), keyActive, from, ready - 1, [], queue)
  {
    var a := GetsReady(net, n, last, keyActive, from, ready, queue, timely);
    HostTakes(a, Numbered(OPEN_IME, n + 1, []));
    end := Reach(a, HostReads, timely);
  }

  function Asked(code: byte, n: nat): Message {
    Numbered(KEY, n, [code])
  }

  lemma AsksKey(net: Net, code: byte, n: nat, timely: bool) returns (end: Net)
    requires Reached(net, timely) && net.host.connected && net.host.imeReady && net.host.openSequence == Wire(n)
    requires net.openN == n
    ensures Reached(end, timely) && end.tsr == net.tsr && end.host.connected && end.openN == n
    ensures end.asked == Some(Asked(code, n)) && end.toTsr == net.toTsr + [Asked(code, n)]
  {
    end := Reach(net, HostAsks(Key(code)), timely);
  }

  lemma TurnsOn(net: Net, n: nat, last: nat, keyActive: bool, from: nat, ready: nat, queue: nat, timely: bool)
    returns (end: Net)
    requires Reached(net, timely)
    requires At(net.tsr, Session(Closed, false, false, false, n, last, 0), keyActive, from, ready, [], queue)
    ensures Reached(end, timely) && end == net.(tsr := end.tsr)
    ensures At(end.tsr, Session(Closed, true, false, true, n, last, 0), keyActive, from, ready, [], queue)
  {
    end := Reach(net, Outside(ReturnedSpace(true, true)), timely);
  }

  function Prompt(n: nat): seq<seq<bool>> {
    seq(n, _ => seq(522, _ => true))
  }

  lemma LineWorks(net: Net, s: Session, n: nat, queue: nat, timely: bool) returns (end: Net)
    requires Reached(net, timely) && At(net.tsr, s, false, 0, 0, [], queue)
    ensures Reached(end, timely) && end == net.(tsr := end.tsr) && At(end.tsr, s, false, 0, n, [], queue)
  {
    end := Reach(net, Outside(Transmitter(Prompt(n))), timely);
  }

  lemma BeginsOn(ready: nat, timely: bool) returns (net: Net)
    ensures Reached(net, timely) && net.host.connected && net.toTsr == [] && net.asked == None
    ensures At(net.tsr, Session(Closed, true, false, true, 0, 0, 0), false, 0, ready, [], 0)
  {
    assert RunTo([], Start(0), timely);
    net := Reach(Start(0), HostConnects, timely);
    net := LineWorks(net, net.tsr.session, ready, 0, timely);
    net := TurnsOn(net, 0, 0, false, 0, ready, 0, timely);
  }

  // ----- the timeout leaves a key staged -----

  /** The worker stands in session n, with ENTER staged for `from` and no room in the keyboard queue. */
  predicate Stuck(net: Net, n: nat, from: nat, ticks: u16, ready: nat) {
    && At(net.tsr, Session(Ready, false, true, true, n, n, ticks), true, from, ready, [], QUEUE_SIZE)
    && net.host.connected
  }

  lemma OpensSession(net: Net, n: nat, last: nat, keyActive: bool, from: nat, ready: nat, queue: nat) returns (end: Net)
    requires Reached(net, true) && net.host.connected && net.toTsr == [] && ready >= 2 && last <= n
    requires At(net.tsr, Session(Closed, true, false, true, n, last, 0), keyActive, from, ready, [], queue)
    ensures Reached(end, true) && end.toTsr == [] && end.asked == net.asked
    ensures end.host.connected && end.host.imeReady && end.host.openSequence == Wire(n + 2) && end.openN == n + 2
    ensures At(end.tsr, Session(Ready, false, true, true, n + 2, n + 2, 1), keyActive, from, ready - 2, [], queue)
  {
    end := Meets(net, n, last, keyActive, from, ready, queue, true);
    end := Invites(end, n + 1, last, keyActive, from, ready - 1, queue, true);
  }

  lemma {:induction false} Types(net: Net, session: Session, ready: nat, queue: nat) returns (end: Net)
    requires Reached(net, true) && queue <= QUEUE_SIZE && At(net.tsr, session, false, 0, ready, [], queue)
    ensures Reached(end, true) && At(end.tsr, session, false, 0, ready, [], QUEUE_SIZE)
    ensures end == net.(tsr := end.tsr)
    decreases QUEUE_SIZE - queue
  {
    end := net;
    if queue < QUEUE_SIZE {
      end := Reach(net, Outside(Keystroke(TYPED)), true);
      assert Typed(queue) + [TYPED] == Typed(queue + 1);
      end := Types(end, session, ready, queue + 1);
    }
  }

  lemma TakesEnter(net: Net, n: nat, ready: nat) returns (end: Net)
    requires Reached(net, true) && net.host.connected && net.toTsr == [Asked(ENTER, n)]
    requires At(net.tsr, Session(Ready, false, true, true, n, n, 1), false, 0, ready, [], QUEUE_SIZE)
    ensures Reached(end, true) && Stuck(end, n, n, 1, ready) && end.toTsr == []
  {
    var a := net.tsr.(latched := false);
    assert Handled(net, 1) == TakeKey(a, 0x1c0d);
    NothingInjected(TakeKey(a, 0x1c0d), a.session.(waitTicks := 0), true, n, ready, [], QUEUE_SIZE);
    end := ReachCall(net, 1, true);
  }

  lemma WaitsOnce(net: Net, n: nat, ticks: u16, ready: nat) returns (end: Net)
    requires Reached(net, true) && Stuck(net, n, n, ticks, ready) && net.toTsr == [] && ticks < TIMEOUT
    ensures Reached(end, true) && end.toTsr == [] && end.host.connected
    ensures if ticks + 1 < TIMEOUT then Stuck(end, n, n, ticks + 1, ready)
            else At(end.tsr, Session(Closed, false, false, false, n, n, 0), true, n, ready, [], QUEUE_SIZE)
  {
    var a := Handled(net, 0);
    NothingInjected(a, a.session, true, n, ready, [], QUEUE_SIZE);
    end := ReachCall(net, 0, true);
  }

  /** The timeout leaves the key staged. */
  lemma {:induction false} WaitsForever(net: Net, n: nat, ticks: u16, ready: nat) returns (end: Net)
    requires Reached(net, true) && Stuck(net, n, n, ticks, ready) && net.toTsr == [] && ticks < TIMEOUT
    ensures Reached(end, true) && end.toTsr == [] && end.host.connected
    ensures At(end.tsr, Session(Closed, false, false, false, n, n, 0), true, n, ready, [], QUEUE_SIZE)
    decreases TIMEOUT - ticks
  {
    end := WaitsOnce(net, n, ticks, ready);
    if ticks + 1 < TIMEOUT {
      end := WaitsForever(end, n, ticks + 1, ready);
    }
  }

  lemma InjectsKey(s: Tsr)
    requires s.staged.text == [] && s.staged.keyActive && !Full(s.queue)
    requires s.port.isOpen && s.traffic.ready != [] && InTime(s.traffic.ready[0], 522)
    ensures Inject(s).traffic.line == s.traffic.line + [Numbered(KEY_ACK, s.staged.sequence, [])]
    ensures !InputStaged(Inject(s).staged)
  {
  }

  lemma LaterStagesKeepLine(s: Tsr)
    ensures s.traffic.line <= Tick(OpenOrStart(s)).traffic.line
  {
    var t := OpenOrStart(s);
    assert Tick(t).traffic == t.traffic;
  }

  /** The key staged before the timeout is queued in the next session and acknowledged under its old number. */
  lemma AcknowledgesStale(net: Net, n: nat, from: nat) returns (end: Net)
    requires Reached(net, true) && Stuck(net, n, from, 1, 2) && net.openN == n && net.asked == Some(Asked(LEFT, n))
    requires net.toTsr == [Asked(LEFT, n)]
    ensures Reached(end, true) && end.openN == n && end.asked == Some(Asked(LEFT, n)) && end.toTsr == [Asked(LEFT, n)]
    ensures end.tsr.traffic.line != [] && end.tsr.traffic.line[0] == Numbered(KEY_ACK, from, [])
  {
    var a := Reach(net, Outside(Read), true);
    var b := Handled(a, 0);
    InjectsKey(b);
    LaterStagesKeepLine(Inject(b));
    assert [] + [Numbered(KEY_ACK, from, [])] == [Numbered(KEY_ACK, from, [])];
    end := ReachCall(a, 0, true);
    assert a.toTsr[0..] == a.toTsr;
  }

  /** A key is taken in session 2, stays staged over the timeout, and the IME is turned on again. */
  lemma FirstSession() returns (net: Net)
    ensures Reached(net, true) && net.host.connected && net.toTsr == []
    ensures At(net.tsr, Session(Closed, true, false, true, 2, 2, 0), true, 2, 4, [], QUEUE_SIZE)
  {
    net := BeginsOn(6, true);
    net := OpensSession(net, 0, 0, false, 0, 6, 0);
    net := AsksKey(net, ENTER, 2, true);
    net := Types(net, net.tsr.session, 4, 0);
    net := TakesEnter(net, 2, 4);
    net := WaitsForever(net, 2, 1, 4);
    net := TurnsOn(net, 2, 2, true, 2, 4, QUEUE_SIZE, true);
  }

  lemma SecondSession(before: Net) returns (net: Net)
    requires Reached(before, true) && before.host.connected && before.toTsr == []
    requires At(before.tsr, Session(Closed, true, false, true, 2, 2, 0), true, 2, 4, [], QUEUE_SIZE)
    ensures Reached(net, true) && net.openN == 4 && net.asked == Some(Asked(LEFT, 4)) && net.toTsr == [Asked(LEFT, 4)]
    ensures net.tsr.traffic.line != [] && net.tsr.traffic.line[0] == Numbered(KEY_ACK, 2, [])
  {
    net := OpensSession(before, 2, 2, true, 2, 4, QUEUE_SIZE);
    net := AsksKey(net, LEFT, 4, true);
    net := AcknowledgesStale(net, 4, 2);
  }

  /** A run of whole calls on fresh messages in which an OPEN goes out over staged input, here after a timeout: it ends
      with an acknowledgement on the line while the host waits for a request that the worker has not even received. */
  lemma TimeoutBreaksAgreement() returns (net: Net, calls: seq<seq<NetStep>>)
    ensures RunTo(calls, net, true) && !CleanRun(Start(0), Concat(calls))
    ensures net.tsr.traffic.line != [] && IsAck(net.tsr.traffic.line[0])
    ensures net.asked.Some? && net.tsr.traffic.line[0].n < net.asked.value.n == net.openN
    ensures net.asked.value in net.toTsr
  {
    net := FirstSession();
    net := SecondSession(net);
    calls :| RunTo(calls, net, true);
    if CleanRun(Start(0), Concat(calls)) {
      TwoPartyAgreement(0, Concat(calls));
    }
  }

  // ----- a request that arrives 65536 sequence steps late -----

  /** The user gives up the greeting. */
  lemma TurnsOff(net: Net, n: nat, last: nat, ready: nat) returns (end: Net)
    requires Reached(net, false)
    requires At(net.tsr, Session(HelloWait, true, false, true, n, last, 1), false, 0, ready, [], 0)
    ensures Reached(end, false) && end == net.(tsr := end.tsr)
    ensures At(end.tsr, Session(Closed, false, false, false, n, last, 0), false, 0, ready, [], 0)
  {
    end := Reach(net, Outside(ReturnedSpace(true, true)), false);
  }

  /** The user closes the session; the CLOSE does not get out. */
  lemma Leaves(net: Net, n: nat) returns (end: Net)
    requires Reached(net, false) && At(net.tsr, Session(Ready, false, true, true, n, n, 1), false, 0, 0, [], 0)
    ensures Reached(end, false) && end == net.(tsr := end.tsr)
    ensures At(end.tsr, Session(Closed, false, false, false, n, n, 0), false, 0, 0, [], 0)
  {
    end := Reach(net, Outside(ReturnedSpace(true, true)), false);
  }

  lemma FailsOnce(net: Net, n: nat, last: nat) returns (end: Net)
    requires Reached(net, false) && At(net.tsr, Session(Closed, true, false, true, n, last, 0), false, 0, 0, [], 0)
    ensures Reached(end, false) && end == net.(tsr := end.tsr)
    ensures At(end.tsr, Session(Closed, true, false, true, n + 1, last, 0), false, 0, 0, [], 0)
  {
    var a := Handled(net, 0);
    NothingInjected(a, a.session, false, 0, 0, [], 0);
    Fails(a, n, last);
    end := ReachCall(net, 0, false);
    assert net.toTsr[0..] == net.toTsr;
  }

  lemma {:induction false} FailsOften(net: Net, n: nat, last: nat, until: nat) returns (end: Net)
    requires Reached(net, false) && At(net.tsr, Session(Closed, true, false, true, n, last, 0), false, 0, 0, [], 0)
    requires n <= until
    ensures Reached(end, false) && end == net.(tsr := end.tsr)
    ensures At(end.tsr, Session(Closed, true, false, true, until, last, 0), false, 0, 0, [], 0)
    decreases until - n
  {
    end := net;
    if n < until {
      end := FailsOnce(net, n, last);
      end := FailsOften(end, n + 1, last, until);
    }
  }

  /** Two greetings, two answers; one of them opens session 3, in which the host asks for a key. */
  lemma AsksInSession3() returns (net: Net)
    ensures Reached(net, false) && net.asked == Some(Asked(ENTER, 3))
    ensures net.toTsr == [Numbered(PONG, 2, []), Asked(ENTER, 3)]
    ensures At(net.tsr, Session(Ready, false, true, true, 3, 3, 1), false, 0, 0, [], 0)
  {
    net := BeginsOn(3, false);
    net := Meets(net, 0, 0, false, 0, 3, 0, false);
    net := TurnsOff(net, 1, 0, 2);
    net := TurnsOn(net, 1, 0, false, 0, 2, 0, false);
    net := Meets(net, 1, 0, false, 0, 2, 0, false);
    net := Invites(net, 2, 0, false, 0, 1, 0, false);
    net := AsksKey(net, ENTER, 3, false);
  }

  /** The session is closed, and 65534 further greetings fail. */
  lemma NumbersRunRound(before: Net) returns (net: Net)
    requires Reached(before, false) && At(before.tsr, Session(Ready, false, true, true, 3, 3, 1), false, 0, 0, [], 0)
    ensures Reached(net, false) && net == before.(tsr := net.tsr)
    ensures At(net.tsr, Session(Closed, true, false, true, 0x1_0001, 3, 0), false, 0, 3, [], 0)
  {
    net := Leaves(before, 3);
    net := TurnsOn(net, 3, 3, false, 3, 0, 0, false);
    net := FailsOften(net, 3, 3, 0x1_0001);
    net := LineWorks(net, net.tsr.session, 3, 0, false);
  }

  /** The greeting gets out and is lost; the old PONG answers it. */
  lemma OpensOnOldPong(before: Net) returns (net: Net)
    requires Reached(before, false) && before.toTsr == [Numbered(PONG, 2, []), Asked(ENTER, 3)]
    requires At(before.tsr, Session(Closed, true, false, true, 0x1_0001, 3, 0), false, 0, 3, [], 0)
    ensures Reached(net, false) && net.asked == before.asked && net.toTsr == [Asked(ENTER, 3)]
    ensures At(net.tsr, Session(Ready, false, true, true, 0x1_0003, 0x1_0003, 1), false, 0, 1,
               [Numbered(OPEN_IME, 0x1_0003, [])], 0)
  {
    net := SaysHello(before, 0x1_0001, 3, false, 0, 3, 0, false);
    net := Reach(net, LoseToHost(0), false);
    net := GetsReady(net, 0x1_0002, 3, false, 0, 2, 0, false);
  }

  /** The key asked for in session 3 is taken, queued and acknowledged in session 65539. */
  lemma TakesLate(before: Net) returns (net: Net)
    requires Reached(before, false) && before.toTsr == [Asked(ENTER, 3)]
    requires At(before.tsr, Session(Ready, false, true, true, 0x1_0003, 0x1_0003, 1), false, 0, 1,
                [Numbered(OPEN_IME, 0x1_0003, [])], 0)
    ensures Reached(net, false) && net.asked == before.asked
    ensures |net.tsr.traffic.line| > 1 && net.tsr.traffic.line[1] == Numbered(KEY_ACK, 0x1_0003, [])
  {
    var a := before.tsr.(latched := false);
    var b := Handled(before, 1);
    assert b == TakeKey(a, 0x1c0d);
    InjectsKey(b);
    LaterStagesKeepLine(Inject(b));
    net := ReachCall(before, 1, false);
  }

  /** A clean run of whole calls in which a request reaches the worker 65536 sequence steps late: it is taken for the
      session that is open, and its acknowledgement is for a session in which the host has asked for nothing. */
  lemma LateRequestBreaksAgreement() returns (net: Net, calls: seq<seq<NetStep>>)
    ensures RunTo(calls, net, false) && !FreshRun(Start(0), Concat(calls))
    ensures |net.tsr.traffic.line| > 1 && IsAck(net.tsr.traffic.line[1])
    ensures net.asked.Some? && net.tsr.traffic.line[1].n == net.asked.value.n + 0x1_0000
  {
    net := AsksInSession3();
    net := NumbersRunRound(net);
    net := OpensOnOldPong(net);
    net := TakesLate(net);
    calls :| RunTo(calls, net, false);
    if FreshRun(Start(0), Concat(calls)) {
      TwoPartyAgreement(0, Concat(calls));
    }
  }
}
