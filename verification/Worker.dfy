/** dos/pc98/foreground.c: the resident worker as a state machine. One call of Service is one entry of a hook, which
    runs with interrupts off. Class Resident.Foreground is the imperative form; its methods are proved to compute these
    functions. */
module Worker {
  import opened Bytes
  import opened Codec
  import opened Framing
  import opened KeyEncoding
  import opened IrqCapture

  const HELLO: byte := 1
  const PONG: byte := 3
  const OPEN_IME: byte := 4
  const TEXT: byte := 5
  const TEXT_ACK: byte := 6
  const CLOSE_IME: byte := 7
  const KEY: byte := 8
  const KEY_ACK: byte := 9

  const HELLO_PAYLOAD: seq<byte> := [0x01, 0x02, 0x43, 0x50, 0x39, 0x33, 0x32, 0x00, 0x00, 0x02, 0x02]
  const QUEUE_SIZE := 16
  const RX_BUDGET := 32
  const TEXT_BUDGET := 16
  const TIMEOUT: u16 := 0xffff

  datatype Link = Closed | HelloWait | Ready

  /** A packet on the line to the host, with the ordinal of the sequence number it carries. */
  datatype Message = Message(packet: Packet, n: nat)

  /** What the worker does that others can see, in order. */
  datatype Event =
    | TookText(text: seq<byte>, n: nat)
    | TookKey(word: u16, n: nat)
    | PutText(word: u16)
    | PutKey(word: u16)
    | Tried(message: Message, ok: bool)
    | Toggled
    | SessionClosed

  /** The link and session flags. The sequence numbers count every increment; the 16-bit variables of the source are
      their remainders. */
  datatype Session = Session(link: Link, openPending: bool, imeActive: bool, imeEnabled: bool,
                             sequence: nat, openSequence: nat, waitTicks: u16)

  /** Input taken from the host and not yet queued: pending_text up to pending_length, and a key word. */
  datatype Staged = Staged(text: seq<byte>, offset: nat, sequence: nat, key: u16, keyActive: bool)

  predicate InputStaged(t: Staged) {
    t.text != [] || t.keyActive
  }

  /** serial_opened, the interrupt's capture, the bytes that have arrived and not been read, and the framer. */
  datatype Port = Port(isOpen: bool, capture: Capture, uart: seq<byte>, rx: Rx)

  /** For each coming transmission, byte by byte, whether the transmitter is ready before the wait times out; the
      packets on their way to the host; the log. */
  datatype Traffic = Traffic(ready: seq<seq<bool>>, line: seq<Message>, trace: seq<Event>)

  datatype Tsr = Tsr(session: Session, staged: Staged, port: Port, traffic: Traffic, queue: seq<u16>, latched: bool)

  function Initial(mask: byte): Tsr {
    Tsr(Session(Closed, false, false, false, 0, 0, 0), Staged([], 0, 0, 0, false),
        Port(false, Capture(false, [], mask, None), [], IDLE), Traffic([], [], []), [], false)
  }

  function Wire(n: nat): u16 { n % 0x1_0000 }

  /** Counting without bound and reducing gives what incrementing a 16-bit variable gives. */
  lemma WireSteps(n: nat)
    ensures Wire(n + 1) == if Wire(n) == 0xffff then 0 else Wire(n) + 1
  {
  }

  function Log(s: Tsr, e: Event): Tsr {
    s.(traffic := s.traffic.(trace := s.traffic.trace + [e]))
  }

  // ----- sending -----

  /** The transmitter is ready in time for each of n bytes. */
  predicate InTime(ready: seq<bool>, n: nat) {
    n <= |ready| && forall i :: 0 <= i < n ==> ready[i]
  }

  function WireSize(p: Packet): nat { 10 + |p.payload| }

  /** send_packet: fails when the port is closed or the transmitter times out. */
  function Transmit(t: Traffic, isOpen: bool, m: Message): (Traffic, bool) {
    var ok := isOpen && t.ready != [] && InTime(t.ready[0], WireSize(m.packet));
    (Traffic(if isOpen && t.ready != [] then t.ready[1..] else t.ready,
             if ok then t.line + [m] else t.line,
             t.trace + [Tried(m, ok)]), ok)
  }

  function Send(s: Tsr, kind: byte, n: nat, payload: seq<byte>): (Tsr, bool) {
    var (traffic, ok) := Transmit(s.traffic, s.port.isOpen, Message(Packet(kind, Wire(n), payload), n));
    (s.(traffic := traffic), ok)
  }

  /** An OPEN_IME would go out now. */
  predicate Transmits(s: Tsr) {
    s.port.isOpen && s.traffic.ready != [] && InTime(s.traffic.ready[0], 10)
  }

  function ResetLink(s: Tsr): Tsr {
    s.(session := s.session.(link := Closed, imeActive := false, waitTicks := 0),
       port := Port(false, End(s.port.capture), s.port.uart, IDLE))
  }

  function SendOpenIme(s: Tsr): Tsr {
    var n := s.session.sequence + 1;
    var (t, ok) := Send(s.(session := s.session.(sequence := n, openSequence := n)), OPEN_IME, n, []);
    if ok then t.(session := t.session.(imeActive := true, openPending := false, waitTicks := 0))
    else
      var u := ResetLink(t);
      u.(session := u.session.(openPending := true))
  }

  function CloseIme(s: Tsr): Tsr {
    var t := if s.session.link == Ready then Send(s, CLOSE_IME, s.session.openSequence, []).0 else s;
    var u := if t.session.link != Closed then ResetLink(t) else t;
    Log(u.(session := u.session.(imeEnabled := false, openPending := false, imeActive := false, waitTicks := 0),
           staged := u.staged.(text := [], offset := 0, keyActive := false)), SessionClosed)
  }

  function StartLink(s: Tsr): Tsr {
    var n := s.session.sequence + 1;
    var opened' := s.(session := s.session.(sequence := n),
                      port := s.port.(isOpen := true, capture := Begin(s.port.capture)));
    var (t, ok) := Send(opened', HELLO, n, HELLO_PAYLOAD);
    if ok then t.(session := t.session.(link := HelloWait, waitTicks := 0)) else ResetLink(t)
  }

  // ----- receiving -----

  function KeyWord(code: byte): Option<u16> {
    match code {
      case 1 => Some(0x1c0d)
      case 2 => Some(0x3b00)
      case 3 => Some(0x3c00)
      case 4 => Some(0x3a00)
      case 5 => Some(0x3d00)
      case 6 => Some(0x0e08)
      case _ => None
    }
  }

  /** The packet belongs to the session that is open. */
  predicate ForSession(s: Session, p: Packet) {
    s.imeActive && p.sequence == Wire(s.openSequence)
  }

  function TakeText(s: Tsr, text: seq<byte>): Tsr {
    var n := s.session.openSequence;
    Log(s.(staged := s.staged.(text := text, offset := 0, sequence := n), session := s.session.(waitTicks := 0)),
        TookText(text, n))
  }

  function TakeKey(s: Tsr, word: u16): Tsr {
    var n := s.session.openSequence;
    Log(s.(staged := s.staged.(key := word, keyActive := true, sequence := n), session := s.session.(waitTicks := 0)),
        TookKey(word, n))
  }

  function Greeted(s: Tsr): Tsr {
    var t := s.(session := s.session.(link := Ready, waitTicks := 0));
    if t.session.openPending then SendOpenIme(t) else t
  }

  function HandlePacket(s: Tsr, p: Packet): Tsr {
    if p.kind == PONG && s.session.link == HelloWait then Greeted(s)
    else if p.kind == TEXT && ForSession(s.session, p) && |p.payload| <= MAX_PAYLOAD then TakeText(s, p.payload)
    else if p.kind == KEY && ForSession(s.session, p) && |p.payload| == 1 then
      match KeyWord(p.payload[0]) {
        case None => s
        case Some(word) => TakeKey(s, word)
      }
    else if p.kind == CLOSE_IME && ForSession(s.session, p) && |p.payload| == 0 then CloseIme(s)
    else s
  }

  function HandleFrame(s: Tsr, frame: seq<byte>): Tsr {
    match Decode(frame) {
      case Ok(p) => HandlePacket(s, p)
      case _ => s
    }
  }

  function AcceptByte(s: Tsr, value: byte): Tsr {
    var (rx, frame) := Accept(s.port.rx, value);
    var t := s.(port := s.port.(rx := rx));
    match frame {
      case None => t
      case Some(f) => HandleFrame(t, f)
    }
  }

  /** The next byte: from the interrupt's ring while it has one, else from the receiver. */
  function NextByte(p: Port): Option<(byte, Port)> {
    if p.capture.pending != [] then
      Some((p.capture.pending[0], p.(capture := p.capture.(pending := p.capture.pending[1..]))))
    else if p.isOpen && p.uart != [] then Some((p.uart[0], p.(uart := p.uart[1..])))
    else None
  }

  function Poll(s: Tsr, budget: nat): Tsr
    decreases budget, s.latched
  {
    if budget == 0 then s
    else match NextByte(s.port) {
      case None => s
      case Some((value, port)) => Poll(AcceptByte(s.(port := port), value), budget - 1)
    }
  }

  // ----- injecting -----

  predicate Full(queue: seq<u16>) { |queue| >= QUEUE_SIZE }

  function Acknowledge(s: Tsr, kind: byte): Tsr {
    var t := Send(s, kind, s.staged.sequence, []).0;
    t.(session := t.session.(imeActive := false, openPending := t.session.imeEnabled))
  }

  function FinishText(s: Tsr): Tsr {
    var t := Acknowledge(s, TEXT_ACK);
    t.(staged := t.staged.(text := [], offset := 0))
  }

  function PutWord(s: Tsr): Tsr
    requires s.staged.offset < |s.staged.text|
  {
    var (word, last) := EncodeKey(s.staged.text, s.staged.offset);
    Log(s.(queue := s.queue + [word], staged := s.staged.(offset := last + 1)), PutText(word))
  }

  function InjectText(s: Tsr, budget: nat): Tsr
    decreases budget, s.latched
  {
    if s.staged.offset >= |s.staged.text| then FinishText(s)
    else if budget == 0 || Full(s.queue) then s
    else InjectText(PutWord(s), budget - 1)
  }

  function InjectKey(s: Tsr): Tsr {
    if Full(s.queue) then s
    else
      var t := Acknowledge(Log(s.(queue := s.queue + [s.staged.key]), PutKey(s.staged.key)), KEY_ACK);
      t.(staged := t.staged.(keyActive := false))
  }

  // ----- the hotkey -----

  /** pc98_poll_hotkey: 0 released, 1 newly pressed, 2 held. */
  function PollHotkey(latched: bool, modifier: bool, space: bool): (int, bool) {
    if !modifier || !space then (0, false) else if latched then (2, true) else (1, true)
  }

  function Toggle(s: Tsr): Tsr {
    var t := Log(s, Toggled);
    if t.session.imeEnabled then CloseIme(t)
    else t.(session := t.session.(imeEnabled := true, openPending := true))
  }

  predicate HotkeyQueued(queue: seq<u16>) {
    queue != [] && queue[|queue| - 1] == HOTKEY_SPACE
  }

  function ServiceHotkey(s: Tsr, modifier: bool, space: bool): Tsr {
    var (state, latched) := PollHotkey(s.latched, modifier, space);
    var t := s.(latched := latched);
    if state != 0 && HotkeyQueued(t.queue) then Toggle(t.(queue := t.queue[..|t.queue| - 1])) else t
  }

  /** pc98_service_returned_hotkey, called when a blocking read has already taken a Space from the queue. */
  function ReturnedHotkey(s: Tsr, modifier: bool, space: bool): (Tsr, bool) {
    var (state, latched) := PollHotkey(s.latched, modifier, space);
    var t := s.(latched := latched);
    if state != 0 then (Toggle(t), true) else (t, false)
  }

  // ----- one call of the worker -----

  function OpenOrStart(s: Tsr): Tsr {
    if s.session.openPending && !s.session.imeActive then
      match s.session.link {
        case Ready => SendOpenIme(s)
        case Closed => StartLink(s)
        case HelloWait => s
      }
    else s
  }

  function Tick(s: Tsr): Tsr {
    if s.session.link == HelloWait || s.session.imeActive then
      var t := s.(session := s.session.(waitTicks := (s.session.waitTicks + 1) % 0x1_0000));
      if t.session.waitTicks == TIMEOUT then
        var u := ResetLink(t);
        u.(session := u.session.(imeEnabled := false, openPending := false))
      else t
    else s
  }

  function PollIfOpen(s: Tsr): Tsr {
    if s.session.link != Closed then Poll(s, RX_BUDGET) else s
  }

  function Inject(s: Tsr): Tsr {
    var t := if s.staged.text != [] then InjectText(s, TEXT_BUDGET) else s;
    if t.staged.keyActive then InjectKey(t) else t
  }

  function Service(s: Tsr, modifier: bool, space: bool): Tsr {
    Tick(OpenOrStart(Inject(PollIfOpen(ServiceHotkey(s, modifier, space)))))
  }

  function StoreByte(p: Port): Port
    requires p.uart != []
  {
    p.(uart := p.uart[1..], capture := Stored(p.capture, p.uart[0]))
  }

  /** The COM1 receive interrupt: store the byte, then run the worker. */
  function SerialIrq(s: Tsr, modifier: bool, space: bool): Tsr {
    if !s.port.capture.on || s.port.uart == [] then s
    else Service(s.(port := StoreByte(s.port)), modifier, space)
  }
}
