/** What the worker's log can look like over any run: accepted input, words queued and acknowledgements. */
module Traces {
  import opened Bytes
  import opened Codec
  import opened Framing
  import opened KeyEncoding
  import opened Worker
  import opened WorkerInvariants

  /** Where the log stands: the last accepted TEXT and its session, the words queued for it, whether it is still being
      queued; the key still to be queued and its session; whether a queued key is still to be acknowledged; the last key
      queued and its session; the session of the last accepted input. */
  datatype Books = Books(text: seq<byte>, textN: nat, put: seq<u16>, textOpen: bool, key: Option<u16>, keyN: nat,
                         keyDue: bool, lastKey: Option<u16>, lastKeyN: nat, latest: nat)

  const EMPTY_BOOKS := Books([], 0, [], false, None, 0, false, None, 0, 0)

  function Book(b: Books, e: Event): Books {
    match e {
      case TookText(text, n) => b.(text := text, textN := n, put := [], textOpen := text != [], latest := n)
      case TookKey(word, n) => b.(key := Some(word), keyN := n, latest := n)
      case PutText(word) => b.(put := b.put + [word])
      case PutKey(word) => b.(key := None, keyDue := true, lastKey := Some(word), lastKeyN := b.keyN)
      case Tried(m, ok) =>
        if m.packet.kind == TEXT_ACK then b.(textOpen := false)
        else if m.packet.kind == KEY_ACK then b.(keyDue := false)
        else b
      case Toggled => b
      case SessionClosed => b.(textOpen := false, key := None)
    }
  }

  function BooksOf(trace: seq<Event>): Books {
    if trace == [] then EMPTY_BOOKS else Book(BooksOf(trace[..|trace| - 1]), trace[|trace| - 1])
  }

  /** What may come next. The words queued for a TEXT are a prefix of its encoding, in order and each once; TEXT_ACK is
      attempted only when the prefix is the whole; a key is queued only while no TEXT is half queued; KEY_ACK is
      attempted right after the key is queued; both carry the session of the input. */
  predicate Allowed(b: Books, e: Event) {
    && (b.keyDue ==> e.Tried? && e.message.packet.kind == KEY_ACK)
    && match e {
      case TookText(text, n) => |text| <= MAX_PAYLOAD
      case TookKey(word, n) => IsKeyWord(word)
      case PutText(word) => b.textOpen && b.put + [word] <= EncodeText(b.text)
      case PutKey(word) => b.key == Some(word) && !b.textOpen
      case Tried(m, ok) =>
        && (m.packet.kind == TEXT_ACK ==> b.textOpen && b.put == EncodeText(b.text) && m.n == b.latest)
        && (m.packet.kind == KEY_ACK ==> b.keyDue && m.n == b.latest)
      case _ => true
    }
  }

  predicate Legal(trace: seq<Event>) {
    trace == [] || (Legal(trace[..|trace| - 1]) && Allowed(BooksOf(trace[..|trace| - 1]), trace[|trace| - 1]))
  }

  lemma Snoc(trace: seq<Event>, e: Event)
    ensures BooksOf(trace + [e]) == Book(BooksOf(trace), e)
    ensures Legal(trace + [e]) == (Legal(trace) && Allowed(BooksOf(trace), e))
  {
    assert (trace + [e])[..|trace|] == trace;
  }

  /** The staging area and the log agree. */
  ghost predicate Kept(t: Staged, b: Books) {
    && b.textOpen == (t.text != [])
    && (t.text != [] ==>
          b.text == t.text && t.offset <= |t.text| && b.put + EncodeFrom(t.text, t.offset) == EncodeText(t.text))
    && b.key == (if t.keyActive then Some(t.key) else None)
    && (t.text != [] || t.keyActive ==> b.latest == t.sequence)
  }

  ghost predicate Linked(s: Tsr) {
    var b := BooksOf(s.traffic.trace);
    Legal(s.traffic.trace) && Kept(s.staged, b) && !b.keyDue
  }

  /** An attempt to send something other than an acknowledgement. */
  lemma TriedLinked(s: Tsr, t: Tsr, m: Message, ok: bool)
    requires Linked(s) && m.packet.kind != TEXT_ACK && m.packet.kind != KEY_ACK
    requires t.staged == s.staged && t.traffic.trace == s.traffic.trace + [Tried(m, ok)]
    ensures Linked(t)
  {
    Snoc(s.traffic.trace, Tried(m, ok));
  }

  lemma SendLinked(s: Tsr, kind: byte, n: nat, payload: seq<byte>)
    requires Linked(s) && kind != TEXT_ACK && kind != KEY_ACK
    ensures Linked(Send(s, kind, n, payload).0)
  {
    var (t, ok) := Send(s, kind, n, payload);
    TriedLinked(s, t, Message(Packet(kind, Wire(n), payload), n), ok);
  }

  lemma SendOpenEffect(s: Tsr) returns (m: Message, ok: bool)
    ensures var t, n := SendOpenIme(s), s.session.sequence + 1;
      && m == Message(Packet(OPEN_IME, Wire(n), []), n) && ok == Transmits(s)
      && t.staged == s.staged && t.queue == s.queue
      && t.session.sequence == t.session.openSequence == n
      && t.traffic.trace == s.traffic.trace + [Tried(m, ok)]
      && t.traffic.line == (if ok then s.traffic.line + [m] else s.traffic.line)
  {
    var n := s.session.sequence + 1;
    m := Message(Packet(OPEN_IME, Wire(n), []), n);
    ok := Transmit(s.traffic, s.port.isOpen, m).1;
  }

  lemma SendOpenLinked(s: Tsr)
    requires Linked(s)
    ensures Linked(SendOpenIme(s))
  {
    var m, ok := SendOpenEffect(s);
    TriedLinked(s, SendOpenIme(s), m, ok);
  }

  lemma StartLinked(s: Tsr)
    requires Linked(s)
    ensures Linked(StartLink(s))
  {
    var n := s.session.sequence + 1;
    SendLinked(s.(session := s.session.(sequence := n),
                  port := s.port.(isOpen := true, capture := StartLink(s).port.capture)), HELLO, n, HELLO_PAYLOAD);
  }

  lemma ClosedLinked(s: Tsr, t: Tsr)
    requires Linked(s) && t.traffic.trace == s.traffic.trace + [SessionClosed]
    requires t.staged.text == [] && !t.staged.keyActive
    ensures Linked(t)
  {
    Snoc(s.traffic.trace, SessionClosed);
  }

  lemma CloseLinked(s: Tsr)
    requires Linked(s)
    ensures Linked(CloseIme(s))
  {
    var n := s.session.openSequence;
    SendLinked(s, CLOSE_IME, n, []);
    ClosedLinked(if s.session.link == Ready then Send(s, CLOSE_IME, n, []).0 else s, CloseIme(s));
  }

  lemma TakeTextLinked(s: Tsr, text: seq<byte>)
    requires Linked(s) && |text| <= MAX_PAYLOAD
    ensures Linked(TakeText(s, text))
  {
    Snoc(s.traffic.trace, TookText(text, s.session.openSequence));
  }

  lemma TakeKeyLinked(s: Tsr, word: u16)
    requires Linked(s) && IsKeyWord(word)
    ensures Linked(TakeKey(s, word))
  {
    Snoc(s.traffic.trace, TookKey(word, s.session.openSequence));
  }

  lemma HandlePacketLinked(s: Tsr, p: Packet)
    requires Linked(s)
    ensures Linked(HandlePacket(s, p))
  {
    if p.kind == PONG && s.session.link == HelloWait {
      SendOpenLinked(s.(session := s.session.(link := Ready, waitTicks := 0)));
    } else if p.kind == TEXT && ForSession(s.session, p) && |p.payload| <= MAX_PAYLOAD {
      TakeTextLinked(s, p.payload);
    } else if p.kind == KEY && ForSession(s.session, p) && |p.payload| == 1 {
      if KeyWord(p.payload[0]).Some? {
        TakeKeyLinked(s, KeyWord(p.payload[0]).value);
      }
    } else if p.kind == CLOSE_IME && ForSession(s.session, p) && |p.payload| == 0 {
      CloseLinked(s);
    }
  }

  lemma {:induction false} PollLinked(s: Tsr, budget: nat)
    requires Linked(s)
    ensures Linked(Poll(s, budget))
    decreases budget
  {
    if budget > 0 && NextByte(s.port).Some? {
      var (value, port) := NextByte(s.port).value;
      var t := s.(port := port);
      var (rx, frame) := Accept(t.port.rx, value);
      if frame.Some? && Accepts(frame.value) {
        HandlePacketLinked(t.(port := t.port.(rx := rx)), Decode(frame.value).packet);
      }
      PollLinked(AcceptByte(t, value), budget - 1);
    }
  }

  lemma PutWordLinked(s: Tsr)
    requires Linked(s) && s.staged.offset < |s.staged.text|
    ensures Linked(PutWord(s))
  {
    var t := s.staged;
    var (word, last) := EncodeKey(t.text, t.offset);
    var put, rest := BooksOf(s.traffic.trace).put, EncodeFrom(t.text, last + 1);
    Assoc(put, [word], rest);
    Snoc(s.traffic.trace, PutText(word));
  }

  /** A text ends up whole and acknowledged, or it leaves the queue full. */
  lemma {:induction false} InjectTextLinked(s: Tsr, budget: nat)
    requires Linked(s) && s.staged.text != [] && |s.queue| + budget >= QUEUE_SIZE
    ensures Linked(InjectText(s, budget))
    ensures InjectText(s, budget).staged.text != [] ==> Full(InjectText(s, budget).queue)
    decreases budget
  {
    if s.staged.offset >= |s.staged.text| {
      var n := s.staged.sequence;
      Snoc(s.traffic.trace, Tried(Message(Packet(TEXT_ACK, Wire(n), []), n), Send(s, TEXT_ACK, n, []).1));
      assert BooksOf(s.traffic.trace).put + [] == BooksOf(s.traffic.trace).put;
    } else if budget > 0 && !Full(s.queue) {
      PutWordLinked(s);
      InjectTextLinked(PutWord(s), budget - 1);
    }
  }

  lemma InjectKeyLinked(s: Tsr)
    requires Linked(s) && s.staged.keyActive && (s.staged.text != [] ==> Full(s.queue))
    ensures Linked(InjectKey(s))
  {
    if !Full(s.queue) {
      var t := Log(s.(queue := s.queue + [s.staged.key]), PutKey(s.staged.key));
      Snoc(s.traffic.trace, PutKey(s.staged.key));
      var n := s.staged.sequence;
      Snoc(t.traffic.trace, Tried(Message(Packet(KEY_ACK, Wire(n), []), n), Send(t, KEY_ACK, n, []).1));
    }
  }

  lemma InjectLinked(s: Tsr)
    requires Linked(s)
    ensures Linked(Inject(s))
  {
    if s.staged.text != [] {
      InjectTextLinked(s, TEXT_BUDGET);
    }
    var t := if s.staged.text != [] then InjectText(s, TEXT_BUDGET) else s;
    if t.staged.keyActive {
      InjectKeyLinked(t);
    }
  }

  lemma ToggleLinked(s: Tsr)
    requires Linked(s)
    ensures Linked(Toggle(s))
  {
    Snoc(s.traffic.trace, Toggled);
    CloseLinked(Log(s, Toggled));
  }

  lemma OpenOrStartLinked(s: Tsr)
    requires Linked(s)
    ensures Linked(OpenOrStart(s))
  {
    if s.session.link == Ready {
      SendOpenLinked(s);
    } else if s.session.link == Closed {
      StartLinked(s);
    }
  }

  lemma HotkeyLinked(s: Tsr, modifier: bool, space: bool)
    requires Linked(s)
    ensures Linked(ServiceHotkey(s, modifier, space))
  {
    var t := s.(latched := PollHotkey(s.latched, modifier, space).1);
    if HotkeyQueued(t.queue) {
      ToggleLinked(t.(queue := t.queue[..|t.queue| - 1]));
    }
  }

  lemma TickLinked(s: Tsr)
    requires Linked(s)
    ensures Linked(Tick(s))
  {
    assert Tick(s).traffic == s.traffic && Tick(s).staged == s.staged;
  }

  lemma ServiceLinked(s: Tsr, modifier: bool, space: bool)
    requires Linked(s)
    ensures Linked(Service(s, modifier, space))
  {
    var a := ServiceHotkey(s, modifier, space);
    HotkeyLinked(s, modifier, space);
    PollLinked(a, RX_BUDGET);
    var b := PollIfOpen(a);
    InjectLinked(b);
    OpenOrStartLinked(Inject(b));
    TickLinked(OpenOrStart(Inject(b)));
  }

  lemma TakeLinked(s: Tsr, step: Step)
    requires Linked(s)
    ensures Linked(Take(s, step))
  {
    match step {
      case WorkerCall(modifier, space) => ServiceLinked(s, modifier, space);
      case ReceiveIrq(modifier, space) =>
        if s.port.capture.on && s.port.uart != [] {
          ServiceLinked(s.(port := StoreByte(s.port)), modifier, space);
        }
      case ReturnedSpace(modifier, space) =>
        ToggleLinked(s.(latched := PollHotkey(s.latched, modifier, space).1));
      case _ =>
    }
  }

  lemma {:induction false} RunLinked(s: Tsr, steps: seq<Step>)
    requires Linked(s)
    ensures Linked(Run(s, steps))
    decreases |steps|
  {
    if steps == [] {
    } else {
      TakeLinked(s, steps[0]);
      RunLinked(Take(s, steps[0]), steps[1..]);
    }
  }

  /** Batched injection refines encoding in one pass, over every run: whatever the budgets, full queues and reads in
      between, the log obeys Allowed at every event. */
  lemma BatchedInjection(mask: byte, steps: seq<Step>, i: nat)
    ensures var trace := Run(Initial(mask), steps).traffic.trace;
      i < |trace| ==> Allowed(BooksOf(trace[..i]), trace[i])
  {
    RunLinked(Initial(mask), steps);
    LegalAt(Run(Initial(mask), steps).traffic.trace, i);
  }

  // ----- what may become input -----

  /** Input the session would take. */
  predicate IsInput(s: Session, p: Packet) {
    ForSession(s, p)
    && (p.kind == TEXT || (p.kind == KEY && |p.payload| == 1 && KeyWord(p.payload[0]).Some?))
  }

  /** The last thing logged between s and t is that input was taken. */
  predicate TookInput(s: Tsr, t: Tsr) {
    var n := |t.traffic.trace|;
    n > |s.traffic.trace| && (t.traffic.trace[n - 1].TookText? || t.traffic.trace[n - 1].TookKey?)
  }

  lemma InputFromPacket(s: Tsr, p: Packet)
    requires Encodable(p)
    ensures TookInput(s, HandlePacket(s, p)) <==> IsInput(s.session, p)
  {
    if p.kind == PONG && s.session.link == HelloWait {
      var t := s.(session := s.session.(link := Ready, waitTicks := 0));
      var n := s.session.sequence + 1;
      var m := Message(Packet(OPEN_IME, Wire(n), []), n);
      assert SendOpenIme(t).traffic.trace == s.traffic.trace + [Tried(m, Transmit(s.traffic, s.port.isOpen, m).1)];
    }
  }

  /** Input is taken from a frame exactly when the frame is the encoding of a TEXT, or of a KEY with a known code, for
      the session that is open. Damaged, oversized, misnumbered and unknown packets never reach the keyboard queue. */
  lemma InputIsWhole(s: Tsr, frame: seq<byte>)
    ensures TookInput(s, HandleFrame(s, frame)) <==>
            exists p :: Encodable(p) && frame == Encode(p) && IsInput(s.session, p)
  {
    if Accepts(frame) {
      var p := Decode(frame).packet;
      DecodeExact(frame, p);
      InputFromPacket(s, p);
    }
    forall p | Encodable(p) && frame == Encode(p) ensures Decode(frame) == Ok(p) {
      DecodeExact(frame, p);
    }
  }

  lemma {:induction false} LegalAt(trace: seq<Event>, i: nat)
    requires Legal(trace)
    ensures i < |trace| ==> Allowed(BooksOf(trace[..i]), trace[i])
  {
    if i < |trace| - 1 {
      LegalAt(trace[..|trace| - 1], i);
      assert trace[..|trace| - 1][..i] == trace[..i];
    }
  }
}
