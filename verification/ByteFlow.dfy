/** From wire bytes to packets: the worker's polling seen as a byte stream and as a list of packets. */
module ByteFlow {
  import opened Bytes
  import opened Codec
  import opened Framing
  import opened Worker
  import opened WorkerInvariants

  /** The bytes that Poll hands to the framer. */
  function Fed(s: Tsr, budget: nat): seq<byte>
    decreases budget, s.latched
  {
    if budget == 0 then []
    else match NextByte(s.port) {
      case None => []
      case Some((value, port)) => [value] + Fed(AcceptByte(s.(port := port), value), budget - 1)
    }
  }

  /** The received bytes not yet read, in wire order: the interrupt's ring comes before the receiver. */
  function Unread(p: Port): seq<byte> {
    p.capture.pending + p.uart
  }

  // ----- bytes reach the framer in wire order -----

  /** a can be had from w by leaving bytes out. */
  ghost predicate Within(a: seq<byte>, w: seq<byte>)
    decreases |w|
  {
    a == [] || (w != [] && ((a[0] == w[0] && Within(a[1..], w[1..])) || Within(a, w[1..])))
  }

  lemma {:induction false} WithinSelf(w: seq<byte>)
    ensures Within(w, w)
  {
    if w == [] {
    } else {
      WithinSelf(w[1..]);
    }
  }

  lemma {:induction false} WithinTransitive(a: seq<byte>, b: seq<byte>, c: seq<byte>)
    requires Within(a, b) && Within(b, c)
    ensures Within(a, c)
    decreases |b| + |c|
  {
    if a == [] {
    } else {
      if b[0] == c[0] && Within(b[1..], c[1..]) {
        if a[0] == b[0] && Within(a[1..], b[1..]) {
          WithinTransitive(a[1..], b[1..], c[1..]);
        } else {
          WithinTransitive(a, b[1..], c[1..]);
        }
      } else {
        WithinTransitive(a, b, c[1..]);
      }
    }
  }

  lemma {:induction false} WithinAfterPrefix(p: seq<byte>, a: seq<byte>, w: seq<byte>)
    requires Within(a, w)
    ensures Within(p + a, p + w)
  {
    if p == [] {
      assert p + a == a && p + w == w;
    } else {
      WithinAfterPrefix(p[1..], a, w);
      assert (p + a)[1..] == p[1..] + a && (p + w)[1..] == p[1..] + w;
    }
  }

  lemma {:induction false} WithinAfterDrop(d: seq<byte>, a: seq<byte>, w: seq<byte>)
    requires Within(a, w)
    ensures Within(a, d + w)
  {
    if d == [] {
      assert d + w == w;
    } else {
      WithinAfterDrop(d[1..], a, w);
      assert (d + w)[1..] == d[1..] + w;
    }
  }

  lemma {:induction false} WithinBeforeSuffix(a: seq<byte>, w: seq<byte>, x: seq<byte>)
    requires Within(a, w)
    ensures Within(a + x, w + x)
    decreases |w|
  {
    if a == [] {
      WithinSelf(x);
      assert a + x == x;
      WithinAfterDrop(w, x, x);
    } else {
      assert (w + x)[1..] == w[1..] + x && (a + x)[1..] == a[1..] + x;
      if a[0] == w[0] && Within(a[1..], w[1..]) {
        WithinBeforeSuffix(a[1..], w[1..], x);
      } else {
        WithinBeforeSuffix(a, w[1..], x);
      }
    }
  }

  lemma DropsInOrder(p: Port, q: Port)
    requires KeepsOrDrops(p, q)
    ensures Within(Unread(q), Unread(p))
  {
    WithinSelf(q.uart);
    WithinSelf(Unread(p));
    WithinAfterDrop(p.capture.pending, q.uart, q.uart);
    assert [] + q.uart == q.uart;
  }

  lemma {:induction false} PollInOrder(s: Tsr, budget: nat, mask: byte)
    requires Core(s, mask)
    ensures Within(Fed(s, budget) + Unread(Poll(s, budget).port), Unread(s.port))
    decreases budget
  {
    if budget == 0 || NextByte(s.port).None? {
      WithinSelf(Unread(s.port));
      assert [] + Unread(s.port) == Unread(s.port);
    } else {
      var (value, port) := NextByte(s.port).value;
      var t := s.(port := port);
      var u := AcceptByte(t, value);
      AcceptByteKeepsCore(t, value, mask);
      PollInOrder(u, budget - 1, mask);
      DropsInOrder(port, u.port);
      NextByteIsFirst(s.port);
      OneMore(value, Fed(u, budget - 1), Unread(Poll(u, budget - 1).port), Unread(u.port), Unread(port));
    }
  }

  lemma NextByteIsFirst(p: Port)
    requires NextByte(p).Some?
    ensures [NextByte(p).value.0] + Unread(NextByte(p).value.1) == Unread(p)
  {
  }

  lemma OneMore(value: byte, fed: seq<byte>, end: seq<byte>, mid: seq<byte>, start: seq<byte>)
    requires Within(fed + end, mid) && Within(mid, start)
    ensures Within(([value] + fed) + end, [value] + start)
  {
    WithinTransitive(fed + end, mid, start);
    WithinAfterPrefix([value], fed + end, start);
    Assoc([value], fed, end);
  }

  function FedByService(s: Tsr, modifier: bool, space: bool): seq<byte> {
    var a := ServiceHotkey(s, modifier, space);
    if a.session.link != Closed then Fed(a, RX_BUDGET) else []
  }

  // ----- how much a worker call reads -----

  lemma OpenKeepsBytes(s: Tsr, value: byte, mask: byte)
    requires Core(s, mask) && s.session.link != Closed
    ensures var u := AcceptByte(s, value);
      if u.session.link != Closed then Unread(u.port) == Unread(s.port) && u.port.isOpen
      else u.port.capture.pending == [] && !u.port.isOpen
  {
    AcceptByteKeepsCore(s, value, mask);
  }

  lemma ClosedReadsNothing(s: Tsr, budget: nat)
    ensures s.port.capture.pending == [] && !s.port.isOpen ==> Poll(s, budget) == s
  {
  }

  lemma FirstBytes(data: seq<byte>, value: byte, k: nat)
    requires data != [] && data[0] == value && k <= |data| - 1
    ensures [value] + data[1..][..k] == data[..k + 1] && data[1..][k..] == data[k + 1..]
  {
  }

  lemma ReadTurn(s: Tsr, budget: nat, mask: byte) returns (value: byte, u: Tsr)
    requires Core(s, mask) && s.session.link != Closed && budget > 0 && Unread(s.port) != []
    requires Poll(s, budget).session.link != Closed
    ensures Core(u, mask) && u.session.link != Closed && Poll(s, budget) == Poll(u, budget - 1)
    ensures value == Unread(s.port)[0] && Unread(u.port) == Unread(s.port)[1..]
    ensures Fed(s, budget) == [value] + Fed(u, budget - 1)
  {
    var next := NextByte(s.port).value;
    value := next.0;
    u := AcceptByte(s.(port := next.1), value);
    NextByteIsFirst(s.port);
    AcceptByteKeepsCore(s.(port := next.1), value, mask);
    OpenKeepsBytes(s.(port := next.1), value, mask);
    ClosedReadsNothing(u, budget - 1);
  }

  lemma NothingToRead(s: Tsr, budget: nat)
    requires budget == 0 || Unread(s.port) == []
    ensures Poll(s, budget) == s && Fed(s, budget) == []
  {
  }

  lemma {:induction false} PollReads(s: Tsr, budget: nat, end: Tsr, unread: seq<byte>, fed: seq<byte>, k: nat,
                                     mask: byte)
    requires Core(s, mask) && s.session.link != Closed && end == Poll(s, budget) && end.session.link != Closed
    requires unread == Unread(s.port) && fed == Fed(s, budget) && k == if |unread| < budget then |unread| else budget
    ensures fed == unread[..k] && Unread(end.port) == unread[k..]
    decreases budget
  {
    if budget == 0 || unread == [] {
      NothingToRead(s, budget);
    } else {
      var value, u := ReadTurn(s, budget, mask);
      PollReads(u, budget - 1, end, unread[1..], Fed(u, budget - 1), k - 1, mask);
      FirstBytes(unread, value, k - 1);
    }
  }

  /** While the link is open a worker call reads the first 32 bytes that wait, or all if there are fewer, hands them to
      the framer and leaves the rest. */
  lemma CallReads(s: Tsr, modifier: bool, space: bool, mask: byte)
    requires Core(s, mask) && ServiceHotkey(s, modifier, space).session.link != Closed
    requires PollIfOpen(ServiceHotkey(s, modifier, space)).session.link != Closed
    ensures var unread := Unread(ServiceHotkey(s, modifier, space).port);
      var k := if |unread| < 32 then |unread| else 32;
      && FedByService(s, modifier, space) == unread[..k]
      && Unread(PollIfOpen(ServiceHotkey(s, modifier, space)).port) == unread[k..]
  {
    var a := ServiceHotkey(s, modifier, space);
    HotkeyKeepsCore(s, modifier, space, mask);
    var n := |Unread(a.port)|;
    PollReads(a, RX_BUDGET, Poll(a, RX_BUDGET), Unread(a.port), Fed(a, RX_BUDGET),
              if n < RX_BUDGET then n else RX_BUDGET, mask);
  }

  lemma ServiceInOrder(s: Tsr, modifier: bool, space: bool, mask: byte)
    requires Core(s, mask) && |s.port.capture.pending| <= RX_BUDGET
    ensures Within(FedByService(s, modifier, space) + Unread(Service(s, modifier, space).port), Unread(s.port))
  {
    var a := ServiceHotkey(s, modifier, space);
    HotkeyKeepsCore(s, modifier, space, mask);
    DropsInOrder(s.port, a.port);
    var b := PollIfOpen(a);
    PollKeepsCore(a, RX_BUDGET, mask);
    var fed := FedByService(s, modifier, space);
    assert Within(fed + Unread(b.port), Unread(a.port)) by {
      if a.session.link != Closed {
        PollInOrder(a, RX_BUDGET, mask);
      } else {
        WithinSelf(Unread(a.port));
        assert [] + Unread(a.port) == Unread(a.port);
      }
    }
    InjectKeepsCore(b, mask);
    var c := OpenOrStart(Inject(b));
    OpenOrStartRests(Inject(b), mask);
    TickRests(c, mask);
    ChainInOrder(fed, b.port, c.port, Tick(c).port, a.port, s.port);
  }

  lemma ChainInOrder(fed: seq<byte>, b: Port, c: Port, d: Port, a: Port, s: Port)
    requires KeepsOrDrops(b, c) && KeepsOrDrops(c, d)
    requires Within(fed + Unread(b), Unread(a)) && Within(Unread(a), Unread(s))
    ensures Within(fed + Unread(d), Unread(s))
  {
    DropsInOrder(b, d);
    WithinAfterPrefix(fed, Unread(d), Unread(b));
    WithinTransitive(fed + Unread(d), fed + Unread(b), Unread(a));
    WithinTransitive(fed + Unread(d), Unread(a), Unread(s));
  }

  function FedByStep(s: Tsr, step: Step): seq<byte> {
    match step {
      case WorkerCall(modifier, space) => FedByService(s, modifier, space)
      case ReceiveIrq(modifier, space) =>
        if !s.port.capture.on || s.port.uart == [] then []
        else FedByService(s.(port := StoreByte(s.port)), modifier, space)
      case _ => []
    }
  }

  function FedByRun(s: Tsr, steps: seq<Step>): seq<byte>
    decreases |steps|
  {
    if steps == [] then [] else FedByStep(s, steps[0]) + FedByRun(Take(s, steps[0]), steps[1..])
  }

  function Arrived(steps: seq<Step>): seq<byte> {
    if steps == [] then []
    else (if steps[0].Arrive? then steps[0].bytes else []) + Arrived(steps[1..])
  }

  lemma NothingFed(p: Port, q: Port)
    requires KeepsOrDrops(p, q)
    ensures Within([] + Unread(q), Unread(p) + [])
  {
    DropsInOrder(p, q);
    assert [] + Unread(q) == Unread(q) && Unread(p) + [] == Unread(p);
  }

  lemma OutsideInOrder(s: Tsr, step: Step)
    requires s.port.capture.pending == [] && !step.WorkerCall? && !step.ReceiveIrq? && !step.ReturnedSpace?
    ensures Within(Unread(Take(s, step).port), Unread(s.port) + if step.Arrive? then step.bytes else [])
  {
    WithinSelf(Unread(s.port));
    assert Unread(s.port) + [] == Unread(s.port);
    match step {
      case Arrive(bytes) =>
        WithinSelf(Unread(s.port) + bytes);
        assert Unread(Take(s, step).port) == Unread(s.port) + bytes;
      case Overrun =>
        TailWithin(s.port.uart);
        assert Unread(s.port) == s.port.uart;
        assert s.port.uart != [] ==> Unread(Take(s, step).port) == s.port.uart[1..];
      case _ =>
    }
  }

  lemma TailWithin(w: seq<byte>)
    ensures Within(w, w) && (w != [] ==> Within(w[1..], w))
  {
    WithinSelf(w);
    if w != [] {
      WithinSelf(w[1..]);
      WithinAfterDrop([w[0]], w[1..], w[1..]);
      assert [w[0]] + w[1..] == w;
    }
  }

  lemma StepInOrder(s: Tsr, step: Step, mask: byte)
    requires AtRest(s, mask)
    ensures Within(FedByStep(s, step) + Unread(Take(s, step).port),
                   Unread(s.port) + if step.Arrive? then step.bytes else [])
  {
    match step {
      case WorkerCall(modifier, space) =>
        ServiceInOrder(s, modifier, space, mask);
        assert Unread(s.port) + [] == Unread(s.port);
      case ReceiveIrq(modifier, space) =>
        if s.port.capture.on && s.port.uart != [] {
          assert Unread(StoreByte(s.port)) == Unread(s.port) + [];
          ServiceInOrder(s.(port := StoreByte(s.port)), modifier, space, mask);
        } else {
          NothingFed(s.port, s.port);
        }
      case ReturnedSpace(modifier, space) =>
        ToggleKeepsCore(s.(latched := PollHotkey(s.latched, modifier, space).1), mask);
        NothingFed(s.port, Take(s, step).port);
      case _ =>
        OutsideInOrder(s, step);
        assert [] + Unread(Take(s, step).port) == Unread(Take(s, step).port);
    }
  }

  /** Over every run the framer sees the bytes that arrived on the wire in wire order, with some left out: ring and
      receiver, the two sources, never overtake each other. */
  lemma {:induction false} WireOrder(s: Tsr, steps: seq<Step>, mask: byte)
    requires AtRest(s, mask)
    ensures Within(FedByRun(s, steps) + Unread(Run(s, steps).port), Unread(s.port) + Arrived(steps))
    decreases |steps|
  {
    if steps == [] {
      NothingFed(s.port, s.port);
    } else {
      var step, t := steps[0], Take(s, steps[0]);
      var arrived := if step.Arrive? then step.bytes else [];
      TakeRests(s, step, mask);
      WireOrder(t, steps[1..], mask);
      StepInOrder(s, step, mask);
      Joined(FedByStep(s, step), FedByRun(t, steps[1..]) , Unread(Run(s, steps).port), Unread(t.port), Unread(s.port),
             arrived, Arrived(steps[1..]));
    }
  }

  lemma Joined(now: seq<byte>, later: seq<byte>, end: seq<byte>, mid: seq<byte>, start: seq<byte>,
               first: seq<byte>, rest: seq<byte>)
    requires Within(now + mid, start + first) && Within(later + end, mid + rest)
    ensures Within((now + later) + end, start + (first + rest))
  {
    Assoc(now, later, end);
    Assoc(now, mid, rest);
    Assoc(start, first, rest);
    WithinAfterPrefix(now, later + end, mid + rest);
    WithinBeforeSuffix(now + mid, start + first, rest);
    WithinTransitive((now + later) + end, (now + mid) + rest, (start + first) + rest);
  }

  /** At a hook boundary the interrupt's ring is empty, so a receive interrupt always finds room for its byte and the
      worker it runs empties the ring again: the branch that drops a byte is never taken. */
  lemma RingNeverFills(s: Tsr, modifier: bool, space: bool, mask: byte)
    requires AtRest(s, mask) && s.port.capture.on && s.port.uart != []
    ensures StoreByte(s.port).capture.pending == [s.port.uart[0]]
    ensures SerialIrq(s, modifier, space).port.capture.pending == []
  {
    TakeRests(s, ReceiveIrq(modifier, space), mask);
  }

  // ----- polling bytes is handling packets -----

  /** The worker without its byte-level state. */
  function Strip(s: Tsr): Tsr {
    s.(port := StripPort(s.port))
  }

  function StripPort(p: Port): Port {
    p.(rx := IDLE, uart := [], capture := p.capture.(pending := []))
  }

  /** Packets handled one after the other until the link closes. */
  function HandleAll(s: Tsr, packets: seq<Packet>): Tsr
    decreases |packets|
  {
    if packets == [] || s.session.link == Closed then s else HandleAll(HandlePacket(s, packets[0]), packets[1..])
  }

  lemma SendOpenIgnoresBytes(s: Tsr)
    ensures Strip(SendOpenIme(s)) == SendOpenIme(Strip(s))
  {
  }

  lemma CloseIgnoresBytes(s: Tsr)
    ensures Strip(CloseIme(s)) == CloseIme(Strip(s))
  {
  }

  lemma HandlePacketIgnoresBytes(s: Tsr, p: Packet)
    ensures Strip(HandlePacket(s, p)) == HandlePacket(Strip(s), p)
  {
    if p.kind == PONG && s.session.link == HelloWait {
      SendOpenIgnoresBytes(s.(session := s.session.(link := Ready, waitTicks := 0)));
    } else if p.kind == CLOSE_IME && ForSession(s.session, p) && |p.payload| == 0 {
      CloseIgnoresBytes(s);
    }
  }

  function PacketsOf(frame: Option<seq<byte>>): seq<Packet> {
    if frame.Some? && Accepts(frame.value) then [Decode(frame.value).packet] else []
  }

  lemma AcceptByteHandlesPackets(s: Tsr, value: byte)
    requires s.session.link != Closed
    ensures Strip(AcceptByte(s, value)) == HandleAll(Strip(s), PacketsOf(Accept(s.port.rx, value).1))
    ensures AcceptByte(s, value).port.rx == Accept(s.port.rx, value).0
  {
    var (rx, frame) := Accept(s.port.rx, value);
    var t := s.(port := s.port.(rx := rx));
    if frame.Some? && Accepts(frame.value) {
      var p := Decode(frame.value).packet;
      HandlePacketIgnoresBytes(t, p);
      HandlePacketKeepsFramer(t, p);
      assert [p][1..] == [];
    }
  }

  /** A reset sets the framer to the state it is already in when a frame has just been completed. */
  lemma HandlePacketKeepsFramer(s: Tsr, p: Packet)
    requires s.port.rx == IDLE
    ensures HandlePacket(s, p).port.rx == IDLE
  {
  }

  lemma {:induction false} HandleAllConcat(s: Tsr, a: seq<Packet>, b: seq<Packet>)
    ensures HandleAll(s, a + b) == HandleAll(HandleAll(s, a), b)
    decreases |a|
  {
    if a == [] {
      assert a + b == b;
    } else if s.session.link != Closed {
      assert (a + b)[1..] == a[1..] + b;
      HandleAllConcat(HandlePacket(s, a[0]), a[1..], b);
    }
  }

  lemma ParsedStep(rx: Rx, data: seq<byte>)
    requires data != []
    ensures var (next, frame) := Accept(rx, data[0]);
      Parsed(AcceptAll(rx, data).1) == PacketsOf(frame) + Parsed(AcceptAll(next, data[1..]).1)
  {
    var (next, frame) := Accept(rx, data[0]);
    var frames := AcceptAll(next, data[1..]).1;
    if frame.Some? {
      assert ([frame.value] + frames)[1..] == frames;
    } else {
      assert [] + frames == frames;
    }
  }

  lemma ParsedFirst(rx: Rx, value: byte, rest: seq<byte>)
    ensures var (next, frame) := Accept(rx, value);
      Parsed(AcceptAll(rx, [value] + rest).1) == PacketsOf(frame) + Parsed(AcceptAll(next, rest).1)
  {
    var data := [value] + rest;
    assert data[0] == value && data[1..] == rest;
    ParsedStep(rx, data);
  }

  /** The packets completed while polling. */
  function Framed(s: Tsr, budget: nat): seq<Packet>
    decreases budget, s.latched
  {
    if budget == 0 then []
    else match NextByte(s.port) {
      case None => []
      case Some((value, port)) =>
        PacketsOf(Accept(s.port.rx, value).1) + Framed(AcceptByte(s.(port := port), value), budget - 1)
    }
  }

  /** One turn of polling. */
  lemma PollTurn(s: Tsr, budget: nat, mask: byte) returns (u: Tsr, first: seq<Packet>)
    requires Core(s, mask) && budget > 0 && NextByte(s.port).Some?
    ensures Core(u, mask) && Strip(u) == HandleAll(Strip(s), first)
    ensures Poll(s, budget) == Poll(u, budget - 1) && Framed(s, budget) == first + Framed(u, budget - 1)
  {
    var (value, port) := NextByte(s.port).value;
    var t := s.(port := port);
    u, first := AcceptByte(t, value), PacketsOf(Accept(s.port.rx, value).1);
    AcceptByteKeepsCore(t, value, mask);
    AcceptByteHandlesPackets(t, value);
    assert Strip(t) == Strip(s);
  }

  lemma PollStops(s: Tsr, budget: nat)
    requires budget == 0 || NextByte(s.port).None?
    ensures Poll(s, budget) == s && Framed(s, budget) == []
  {
  }

  lemma {:induction false} PollHandles(s: Tsr, budget: nat, end: Tsr, packets: seq<Packet>, mask: byte)
    requires Core(s, mask) && end == Poll(s, budget) && packets == Framed(s, budget)
    ensures Strip(end) == HandleAll(Strip(s), packets)
    decreases budget
  {
    if budget == 0 || NextByte(s.port).None? {
      PollStops(s, budget);
    } else {
      var u, first := PollTurn(s, budget, mask);
      var rest := Framed(u, budget - 1);
      PollHandles(u, budget - 1, end, rest, mask);
      HandleAllConcat(Strip(s), first, rest);
    }
  }

  lemma FedTurn(s: Tsr, budget: nat, mask: byte) returns (value: byte, u: Tsr)
    requires Core(s, mask) && budget > 0 && NextByte(s.port).Some?
    ensures Core(u, mask) && u.port.rx == Accept(s.port.rx, value).0
    ensures Framed(s, budget) == PacketsOf(Accept(s.port.rx, value).1) + Framed(u, budget - 1)
    ensures Fed(s, budget) == [value] + Fed(u, budget - 1)
  {
    var next := NextByte(s.port).value;
    value := next.0;
    var t := s.(port := next.1);
    u := AcceptByte(t, value);
    AcceptByteKeepsCore(t, value, mask);
    AcceptByteHandlesPackets(t, value);
  }

  lemma {:induction false} FramedIsParsed(s: Tsr, budget: nat, fed: seq<byte>, packets: seq<Packet>, mask: byte)
    requires Core(s, mask) && fed == Fed(s, budget) && packets == Framed(s, budget)
    ensures packets == Parsed(AcceptAll(s.port.rx, fed).1)
    decreases budget
  {
    if budget > 0 && NextByte(s.port).Some? {
      var value, u := FedTurn(s, budget, mask);
      var later := Fed(u, budget - 1);
      FramedIsParsed(u, budget - 1, later, Framed(u, budget - 1), mask);
      ParsedFirst(s.port.rx, value, later);
    }
  }

  /** Polling does to the session what handling the packets framed from the bytes read does. */
  lemma PollHandlesPackets(s: Tsr, budget: nat, mask: byte)
    requires Core(s, mask)
    ensures Strip(Poll(s, budget)) == HandleAll(Strip(s), Parsed(AcceptAll(s.port.rx, Fed(s, budget)).1))
  {
    PollHandles(s, budget, Poll(s, budget), Framed(s, budget), mask);
    FramedIsParsed(s, budget, Fed(s, budget), Framed(s, budget), mask);
  }

  // ----- the whole worker call on packets -----

  /** A worker call told in packets instead of bytes. */
  function PacketService(s: Tsr, modifier: bool, space: bool, packets: seq<Packet>): Tsr {
    Tick(OpenOrStart(Inject(HandleAll(ServiceHotkey(s, modifier, space), packets))))
  }

  lemma HotkeyIgnoresBytes(s: Tsr, modifier: bool, space: bool)
    ensures Strip(ServiceHotkey(s, modifier, space)) == ServiceHotkey(Strip(s), modifier, space)
  {
    var t := s.(latched := PollHotkey(s.latched, modifier, space).1);
    if modifier && space && HotkeyQueued(t.queue) {
      CloseIgnoresBytes(Log(t.(queue := t.queue[..|t.queue| - 1]), Toggled));
    }
  }

  lemma {:induction false} InjectTextIgnoresBytes(s: Tsr, budget: nat)
    ensures Strip(InjectText(s, budget)) == InjectText(Strip(s), budget)
    decreases budget
  {
    if s.staged.offset < |s.staged.text| && budget > 0 && !Full(s.queue) {
      InjectTextIgnoresBytes(PutWord(s), budget - 1);
    }
  }

  lemma InjectIgnoresBytes(s: Tsr)
    ensures Strip(Inject(s)) == Inject(Strip(s))
  {
    if s.staged.text != [] {
      InjectTextIgnoresBytes(s, TEXT_BUDGET);
    }
  }

  lemma StartIgnoresBytes(s: Tsr)
    ensures Strip(StartLink(s)) == StartLink(Strip(s))
  {
    var t, u := StartLink(s), StartLink(Strip(s));
    assert t.traffic == u.traffic && t.session == u.session;
    assert StripPort(t.port) == u.port;
  }

  lemma OpenOrStartIgnoresBytes(s: Tsr)
    ensures Strip(OpenOrStart(s)) == OpenOrStart(Strip(s))
  {
    SendOpenIgnoresBytes(s);
    StartIgnoresBytes(s);
  }

  lemma TickIgnoresBytes(s: Tsr)
    ensures Strip(Tick(s)) == Tick(Strip(s))
  {
  }

  /** Every worker call on bytes is a worker call on the packets those bytes frame. */
  lemma ServiceHandlesPackets(s: Tsr, modifier: bool, space: bool, mask: byte) returns (packets: seq<Packet>)
    requires Core(s, mask)
    ensures packets == Parsed(AcceptAll(ServiceHotkey(s, modifier, space).port.rx, FedByService(s, modifier, space)).1)
    ensures Strip(Service(s, modifier, space)) == PacketService(Strip(s), modifier, space, packets)
  {
    var a := ServiceHotkey(s, modifier, space);
    var b := PollIfOpen(a);
    packets := Parsed(AcceptAll(a.port.rx, FedByService(s, modifier, space)).1);
    HotkeyKeepsCore(s, modifier, space, mask);
    HotkeyIgnoresBytes(s, modifier, space);
    PollHandlesPackets(a, RX_BUDGET, mask);
    assert Strip(b) == HandleAll(Strip(a), packets);
    InjectIgnoresBytes(b);
    OpenOrStartIgnoresBytes(Inject(b));
    TickIgnoresBytes(OpenOrStart(Inject(b)));
  }
}
