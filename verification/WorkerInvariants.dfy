/** What holds of the resident worker at every hook return, over every run. */
module WorkerInvariants {
  import opened Bytes
  import opened Codec
  import opened Framing
  import opened KeyEncoding
  import opened IrqCapture
  import opened Worker

  /** The port, the capture and the interrupt mask follow the link; `mask` is the mask found at the start. */
  ghost predicate Devices(p: Port, link: Link, mask: byte) {
    && p.isOpen == p.capture.on == (link != Closed)
    && (if link == Closed
        then p.capture == Capture(false, [], mask, None) && p.rx == IDLE
        else p.capture.mask == Unmasked(mask) && p.capture.saved == Some(mask))
    && Sound(p.rx)
  }

  predicate IsKeyWord(word: u16) {
    word in {0x1c0d, 0x3b00, 0x3c00, 0x3a00, 0x3d00, 0x0e08}
  }

  /** The staging buffer is never overrun and never left inside a CR LF pair. */
  ghost predicate Staging(t: Staged) {
    && |t.text| <= MAX_PAYLOAD
    && (if t.text == [] then t.offset == 0 else t.offset < |t.text| && KeyBoundary(t.text, t.offset))
    && (t.keyActive ==> IsKeyWord(t.key))
  }

  ghost predicate Flags(s: Session) {
    && (s.imeEnabled <==> s.imeActive || s.openPending)
    && !(s.imeActive && s.openPending)
    && (s.imeActive ==> s.link == Ready)
    && (s.link == HelloWait ==> s.openPending)
    && (!s.imeEnabled ==> s.link == Closed)
    && s.waitTicks < TIMEOUT
  }

  /** Holds between any two statements of the worker's main line. */
  ghost predicate Core(s: Tsr, mask: byte) {
    Flags(s.session) && Devices(s.port, s.session.link, mask) && Staging(s.staged) && |s.queue| <= QUEUE_SIZE
  }

  /** Holds whenever a hook returns. */
  ghost predicate AtRest(s: Tsr, mask: byte) {
    Core(s, mask) && (s.session.link == Ready ==> s.session.imeActive) && s.port.capture.pending == []
  }

  /** The interrupt's ring is as before or has been emptied, and nothing was read from the receiver. */
  predicate KeepsOrDrops(p: Port, q: Port) {
    q.uart == p.uart && (q.capture.pending == p.capture.pending || q.capture.pending == [])
  }

  lemma CloseKeepsCore(s: Tsr, mask: byte)
    requires Core(s, mask)
    ensures Core(CloseIme(s), mask) && CloseIme(s).session.link == Closed && KeepsOrDrops(s.port, CloseIme(s).port)
  {
  }

  lemma SendOpenKeepsCore(s: Tsr, mask: byte)
    requires Core(s, mask) && s.session.link == Ready && s.session.openPending
    ensures Core(SendOpenIme(s), mask) && KeepsOrDrops(s.port, SendOpenIme(s).port)
    ensures SendOpenIme(s).session.link == Ready ==> SendOpenIme(s).session.imeActive
  {
  }

  lemma ToggleKeepsCore(s: Tsr, mask: byte)
    requires Core(s, mask)
    ensures Core(Toggle(s), mask) && KeepsOrDrops(s.port, Toggle(s).port)
    ensures s.session.link == Ready ==> Toggle(s).session.link == Closed
  {
    CloseKeepsCore(Log(s, Toggled), mask);
  }

  lemma HandlePacketKeepsCore(s: Tsr, p: Packet, mask: byte)
    requires Core(s, mask)
    ensures Core(HandlePacket(s, p), mask) && KeepsOrDrops(s.port, HandlePacket(s, p).port)
  {
    if p.kind == PONG && s.session.link == HelloWait {
      SendOpenKeepsCore(s.(session := s.session.(link := Ready, waitTicks := 0)), mask);
    } else if p.kind == CLOSE_IME && ForSession(s.session, p) && |p.payload| == 0 {
      CloseKeepsCore(s, mask);
    }
  }

  lemma AcceptByteKeepsCore(s: Tsr, value: byte, mask: byte)
    requires Core(s, mask) && s.session.link != Closed
    ensures Core(AcceptByte(s, value), mask) && KeepsOrDrops(s.port, AcceptByte(s, value).port)
  {
    var (rx, frame) := Accept(s.port.rx, value);
    AcceptKeepsSound(s.port.rx, value);
    if frame.Some? && Accepts(frame.value) {
      HandlePacketKeepsCore(s.(port := s.port.(rx := rx)), Decode(frame.value).packet, mask);
    }
  }

  /** Polling keeps the invariant and, given enough budget, leaves the interrupt's ring empty. */
  lemma {:induction false} PollKeepsCore(s: Tsr, budget: nat, mask: byte)
    requires Core(s, mask) && |s.port.capture.pending| <= budget
    ensures Core(Poll(s, budget), mask) && Poll(s, budget).port.capture.pending == []
    decreases budget
  {
    if budget > 0 && NextByte(s.port).Some? {
      var (value, port) := NextByte(s.port).value;
      var t := s.(port := port);
      AcceptByteKeepsCore(t, value, mask);
      PollKeepsCore(AcceptByte(t, value), budget - 1, mask);
    }
  }

  lemma {:induction false} InjectTextKeepsCore(s: Tsr, budget: nat, mask: byte)
    requires s.staged.text != []
    requires Core(s.(staged := s.staged.(offset := 0)), mask)
    requires s.staged.offset <= |s.staged.text| && KeyBoundary(s.staged.text, s.staged.offset)
    ensures Core(InjectText(s, budget), mask) && InjectText(s, budget).port == s.port
    decreases budget
  {
    if s.staged.offset < |s.staged.text| && budget > 0 && !Full(s.queue) {
      KeyStaysOnBoundary(s.staged.text, s.staged.offset);
      InjectTextKeepsCore(PutWord(s), budget - 1, mask);
    }
  }

  lemma InjectKeepsCore(s: Tsr, mask: byte)
    requires Core(s, mask)
    ensures Core(Inject(s), mask) && Inject(s).port == s.port
  {
    if s.staged.text != [] {
      InjectTextKeepsCore(s, TEXT_BUDGET, mask);
    }
  }

  lemma OpenOrStartRests(s: Tsr, mask: byte)
    requires Core(s, mask) && s.port.capture.pending == []
    ensures AtRest(OpenOrStart(s), mask) && KeepsOrDrops(s.port, OpenOrStart(s).port)
  {
    if s.session.openPending && s.session.link == Ready {
      SendOpenKeepsCore(s, mask);
    }
  }

  lemma TickRests(s: Tsr, mask: byte)
    requires AtRest(s, mask)
    ensures AtRest(Tick(s), mask) && KeepsOrDrops(s.port, Tick(s).port)
  {
  }

  lemma HotkeyKeepsCore(s: Tsr, modifier: bool, space: bool, mask: byte)
    requires Core(s, mask)
    ensures Core(ServiceHotkey(s, modifier, space), mask)
    ensures KeepsOrDrops(s.port, ServiceHotkey(s, modifier, space).port)
  {
    var t := s.(latched := PollHotkey(s.latched, modifier, space).1);
    if HotkeyQueued(t.queue) {
      ToggleKeepsCore(t.(queue := t.queue[..|t.queue| - 1]), mask);
    }
  }

  /** The worker returns at rest from any entry that finds at most 32 bytes in the interrupt's ring. */
  lemma ServiceRests(s: Tsr, modifier: bool, space: bool, mask: byte)
    requires Core(s, mask) && |s.port.capture.pending| <= RX_BUDGET
    ensures AtRest(Service(s, modifier, space), mask)
  {
    var a := ServiceHotkey(s, modifier, space);
    HotkeyKeepsCore(s, modifier, space, mask);
    var b := PollIfOpen(a);
    PollKeepsCore(a, RX_BUDGET, mask);
    InjectKeepsCore(b, mask);
    OpenOrStartRests(Inject(b), mask);
    TickRests(OpenOrStart(Inject(b)), mask);
  }

  // ----- runs -----

  /** Everything that can happen to the resident program, one hook entry or outside event at a time. */
  datatype Step =
    | WorkerCall(modifier: bool, space: bool)
    | ReceiveIrq(modifier: bool, space: bool)
    | ReturnedSpace(modifier: bool, space: bool)
    | Arrive(bytes: seq<byte>)
    | Overrun
    | Keystroke(word: u16)
    | Read
    | Transmitter(ready: seq<seq<bool>>)
    | LineMoves(line: seq<Message>)

  function Take(s: Tsr, step: Step): Tsr {
    match step {
      case WorkerCall(modifier, space) => Service(s, modifier, space)
      case ReceiveIrq(modifier, space) => SerialIrq(s, modifier, space)
      case ReturnedSpace(modifier, space) => ReturnedHotkey(s, modifier, space).0
      case Arrive(bytes) => s.(port := s.port.(uart := s.port.uart + bytes))
      case Overrun => if s.port.uart == [] then s else s.(port := s.port.(uart := s.port.uart[1..]))
      case Keystroke(word) => if Full(s.queue) then s else s.(queue := s.queue + [word])
      case Read => if s.queue == [] then s else s.(queue := s.queue[1..])
      case Transmitter(ready) => s.(traffic := s.traffic.(ready := ready))
      case LineMoves(line) => s.(traffic := s.traffic.(line := line))
    }
  }

  function Run(s: Tsr, steps: seq<Step>): Tsr
    decreases |steps|
  {
    if steps == [] then s else Run(Take(s, steps[0]), steps[1..])
  }

  lemma TakeRests(s: Tsr, step: Step, mask: byte)
    requires AtRest(s, mask)
    ensures AtRest(Take(s, step), mask)
  {
    match step {
      case WorkerCall(modifier, space) => ServiceRests(s, modifier, space, mask);
      case ReceiveIrq(modifier, space) =>
        if s.port.capture.on && s.port.uart != [] {
          ServiceRests(s.(port := StoreByte(s.port)), modifier, space, mask);
        }
      case ReturnedSpace(modifier, space) =>
        ToggleKeepsCore(s.(latched := PollHotkey(s.latched, modifier, space).1), mask);
      case _ =>
    }
  }

  lemma {:induction false} RunRests(s: Tsr, steps: seq<Step>, mask: byte)
    requires AtRest(s, mask)
    ensures AtRest(Run(s, steps), mask)
    decreases |steps|
  {
    if steps == [] {
    } else {
      TakeRests(s, steps[0], mask);
      RunRests(Take(s, steps[0]), steps[1..], mask);
    }
  }

  /** Safe OFF: over every run from installation, whenever the link is closed the port is closed, the capture is off and
      the interrupt mask is the one found at the start; while it is open only bit 4 of that mask is cleared. */
  lemma SafeOff(mask: byte, steps: seq<Step>)
    ensures var s := Run(Initial(mask), steps);
      && (s.session.link == Closed ==>
            !s.port.isOpen && !s.port.capture.on && s.port.capture.mask == mask && s.port.capture.saved == None)
      && (s.session.link != Closed ==>
            s.port.isOpen && s.port.capture.on && s.port.capture.mask == Unmasked(mask)
            && s.port.capture.saved == Some(mask))
      && (!s.session.imeEnabled ==> s.session.link == Closed)
  {
    RunRests(Initial(mask), steps, mask);
  }

  /** The staging buffer over every run: never over 512 bytes, never read past its end, never left inside CR LF. */
  lemma StagingInBounds(mask: byte, steps: seq<Step>)
    ensures var t := Run(Initial(mask), steps).staged;
      |t.text| <= MAX_PAYLOAD && t.offset <= |t.text| && KeyBoundary(t.text, t.offset)
  {
    RunRests(Initial(mask), steps, mask);
  }

  /** The flags at every hook return: the IME is on exactly when a session is open or wanted, never both, and a session
      is open exactly when the link is ready. */
  lemma FlagsAgree(mask: byte, steps: seq<Step>)
    ensures var s := Run(Initial(mask), steps).session;
      && (s.imeEnabled <==> s.imeActive != s.openPending)
      && (s.imeActive <==> s.link == Ready)
      && (s.link == HelloWait ==> s.openPending)
      && s.waitTicks < TIMEOUT
  {
    RunRests(Initial(mask), steps, mask);
  }
}
