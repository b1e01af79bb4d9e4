/** What opens a session, what closes it and what it takes, told by the packets that come in and go out. */
module SessionLife {
  import opened Bytes
  import opened Codec
  import opened Framing
  import opened IrqCapture
  import opened Worker
  import opened WorkerInvariants

  /** The transmitter is in time for the next packet of n bytes. */
  predicate NextInTime(t: Traffic, n: nat) {
    t.ready != [] && InTime(t.ready[0], n)
  }

  /** One attempt to send: the packet joins the line exactly when the transmitter is in time. */
  predicate Attempted(before: Traffic, after: Traffic, kind: byte, n: nat, payload: seq<byte>) {
    var m := Message(Packet(kind, n % 0x1_0000, payload), n);
    var ok := NextInTime(before, 10 + |payload|);
    && after.line == before.line + (if ok then [m] else [])
    && after.trace == before.trace + [Tried(m, ok)]
  }

  // ----- opening -----

  /** The IME is wanted, no session is open and none is being opened. */
  predicate Wanted(s: Session) {
    s.imeEnabled && s.openPending && !s.imeActive
  }

  /** A session is open under the sequence number n: it has just gone out. */
  predicate Opened(s: Session, n: nat) {
    s.link == Ready && s.imeActive && !s.openPending && s.sequence == s.openSequence == n && s.waitTicks == 0
  }

  /** With the IME wanted and the link closed a worker call opens the port and greets the host. The wait starts when the
      HELLO has gone out; if it has not, everything is as before but for the number used up. */
  lemma Greets(s: Tsr, mask: byte)
    requires Core(s, mask) && Wanted(s.session) && s.session.link == Closed
    ensures var t, n := OpenOrStart(s), s.session.sequence + 1;
      && Attempted(s.traffic, t.traffic, 1, n, [0x01, 0x02, 0x43, 0x50, 0x39, 0x33, 0x32, 0x00, 0x00, 0x02, 0x02])
      && t.session.sequence == n && Wanted(t.session) && t.staged == s.staged && t.queue == s.queue
      && if NextInTime(s.traffic, 21)
         then t.session.link == HelloWait && t.session.waitTicks == 0 && t.port.isOpen && t.port.capture.on
         else t.session.link == Closed && t.port == s.port
  {
  }

  /** With the IME wanted a PONG that answers the greeting opens a session, and so does a worker call that finds the
      link ready: an OPEN_IME goes out under the next number and the wait starts over. If the transmitter is late the
      link is closed and the IME stays wanted. */
  lemma Opens(s: Tsr, t: Tsr, p: Packet, mask: byte)
    requires Core(s, mask) && Wanted(s.session)
    requires (s.session.link == HelloWait && p.kind == 3 && t == HandlePacket(s, p))
             || (s.session.link == Ready && t == OpenOrStart(s))
    ensures var n := s.session.sequence + 1;
      && Attempted(s.traffic, t.traffic, 4, n, [])
      && t.session.imeEnabled && t.staged == s.staged && t.queue == s.queue
      && if NextInTime(s.traffic, 10) then Opened(t.session, n) && t.port == s.port
         else t.session.link == Closed && Wanted(t.session) && t.session.sequence == n && t.port.capture.mask == mask
  {
  }

  /** Otherwise a worker call opens nothing. */
  lemma OpensNothing(s: Tsr)
    requires !s.session.openPending || s.session.imeActive || s.session.link == HelloWait
    ensures OpenOrStart(s) == s
  {
  }

  /** The end of the input staged ends the session; another is wanted while the IME is on. */
  predicate Ended(s: Session, t: Session) {
    t == s.(imeActive := false, openPending := s.imeEnabled)
  }

  lemma {:induction false} TextEnds(s: Tsr, budget: nat, end: Tsr)
    requires end == InjectText(s, budget) && s.staged.text != []
    ensures end.staged.keyActive == s.staged.keyActive
    ensures if end.staged.text == [] then Ended(s.session, end.session) else end.session == s.session
    decreases budget
  {
    if s.staged.offset < |s.staged.text| && budget > 0 && !Full(s.queue) {
      TextEnds(PutWord(s), budget - 1, end);
    }
  }

  /** When the last of the staged input is queued and acknowledged the session is over, and with the IME still on the
      same worker call sends the next OPEN_IME, under the next number. */
  lemma NextSession(s: Tsr, t: Tsr, u: Tsr, mask: byte)
    requires Core(s, mask) && InputStaged(s.staged) && t == Inject(s) && !InputStaged(t.staged) && u == OpenOrStart(t)
    ensures Ended(s.session, t.session)
    ensures s.session.link == Ready && s.session.imeEnabled ==>
              && Attempted(t.traffic, u.traffic, 4, s.session.sequence + 1, [])
              && (NextInTime(t.traffic, 10) ==> Opened(u.session, s.session.sequence + 1))
  {
    if s.staged.text != [] {
      TextEnds(s, TEXT_BUDGET, InjectText(s, TEXT_BUDGET));
    }
    InjectKeepsCore(s, mask);
    if s.session.link == Ready && s.session.imeEnabled {
      Opens(t, u, Packet(0, 0, []), mask);
    }
  }

  // ----- closing -----

  /** OFF: the link, the port and the capture are closed, the interrupt mask is the one found at start-up, nothing is
      staged and no session is open or wanted. */
  predicate TurnedOff(s: Tsr, mask: byte) {
    && s.session.link == Closed && !s.session.imeEnabled && !s.session.imeActive && !s.session.openPending
    && s.session.waitTicks == 0
    && !s.port.isOpen && s.port.capture == Capture(false, [], mask, None) && s.port.rx == IDLE
    && s.staged.text == [] && !s.staged.keyActive
  }

  /** A CLOSE_IME under the number of the last OPEN goes out if the transmitter is in time; nothing else does. */
  predicate SaysClose(s: Tsr, t: Tsr) {
    && t.traffic.line == s.traffic.line
         + (if s.session.link == Ready && NextInTime(s.traffic, 10)
            then [Message(Packet(7, s.session.openSequence % 0x1_0000, []), s.session.openSequence)] else [])
    && t.queue == s.queue
  }

  /** While the IME is on, a frame turns it off exactly when it is the encoding of an empty CLOSE_IME under the number
      of the session that is open. */
  lemma HostClosesIff(s: Tsr, frame: seq<byte>, mask: byte)
    requires Core(s, mask) && s.session.imeEnabled
    ensures var p := Packet(7, s.session.openSequence % 0x1_0000, []);
      && (TurnedOff(HandleFrame(s, frame), mask) <==> s.session.imeActive && frame == Encode(p))
      && (s.session.imeActive && frame == Encode(p) ==> SaysClose(s, HandleFrame(s, frame)))
  {
    var p := Packet(7, s.session.openSequence % 0x1_0000, []);
    if Accepts(frame) {
      DecodeExact(frame, Decode(frame).packet);
    }
    DecodeExact(frame, p);
  }

  /** The hotkey, with its Space newest in the queue, turns the IME off when it is on, telling the host, and on when it
      is off: a session is then wanted. It does nothing else, and nothing at all otherwise. */
  lemma HotkeySwitches(s: Tsr, modifier: bool, space: bool, mask: byte)
    requires Core(s, mask)
    ensures var t, q := ServiceHotkey(s, modifier, space), s.queue;
      if modifier && space && q != [] && q[|q| - 1] == 0x3420 then
        && t.queue == q[..|q| - 1]
        && if s.session.imeEnabled then TurnedOff(t, mask) && SaysClose(s.(queue := t.queue), t)
           else t.session == s.session.(imeEnabled := true, openPending := true) && t.port == s.port
                && t.staged == s.staged && t.traffic.line == s.traffic.line
      else t == s.(latched := t.latched)
  {
  }

  // ----- what a session takes -----

  /** The words of the key codes 1 to 6: Enter, Left, Right, Up, Down and Backspace. */
  const KEY_WORDS: seq<u16> := [0x1c0d, 0x3b00, 0x3c00, 0x3a00, 0x3d00, 0x0e08]

  lemma KeyWordOf(code: byte)
    ensures KeyWord(code) == if 1 <= code <= 6 then Some(KEY_WORDS[code - 1]) else None
  {
  }

  /** A KEY of the open session stages the word of its code; an unknown code is ignored. */
  lemma TakesKeyOf(s: Tsr, code: byte)
    requires s.session.imeActive
    ensures var t := HandleFrame(s, Encode(Packet(8, s.session.openSequence % 0x1_0000, [code])));
      if 1 <= code <= 6
      then t.staged == s.staged.(key := KEY_WORDS[code - 1], keyActive := true, sequence := s.session.openSequence)
           && t.session == s.session.(waitTicks := 0) && t.port == s.port && t.queue == s.queue
      else t == s
  {
    RoundTrip(Packet(8, s.session.openSequence % 0x1_0000, [code]));
  }

  /** A TEXT of the open session is staged whole. */
  lemma TakesText(s: Tsr, text: seq<byte>)
    requires s.session.imeActive && |text| <= 512
    ensures var t := HandleFrame(s, Encode(Packet(5, s.session.openSequence % 0x1_0000, text)));
      && t.staged == s.staged.(text := text, offset := 0, sequence := s.session.openSequence)
      && t.session == s.session.(waitTicks := 0) && t.port == s.port && t.queue == s.queue
  {
    RoundTrip(Packet(5, s.session.openSequence % 0x1_0000, text));
  }
}
