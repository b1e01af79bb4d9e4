/** The keyboard as the application sees it: the BIOS queue between typist, worker and INT 18h reads, with the filter of
    dos/pc98/tsr_hook.S that keeps the hotkey's Space away from the application. */
module Keystrokes {
  import opened Bytes
  import opened Codec
  import opened Framing
  import opened KeyEncoding
  import opened Worker
  import opened WorkerInvariants

  // ----- what one worker call does to the queue -----

  /** The words the worker queued, in order. */
  function Puts(trace: seq<Event>): seq<u16> {
    if trace == [] then []
    else
      var before, e := Puts(trace[..|trace| - 1]), trace[|trace| - 1];
      if e.PutText? || e.PutKey? then before + [e.word] else before
  }

  function Toggles(trace: seq<Event>): nat {
    if trace == [] then 0 else Toggles(trace[..|trace| - 1]) + if trace[|trace| - 1].Toggled? then 1 else 0
  }

  lemma Logged(trace: seq<Event>, e: Event)
    ensures Puts(trace + [e]) == if e.PutText? || e.PutKey? then Puts(trace) + [e.word] else Puts(trace)
    ensures Toggles(trace + [e]) == Toggles(trace) + if e.Toggled? then 1 else 0
  {
    assert (trace + [e])[..|trace|] == trace;
  }

  /** The worker appended the words `added`, logged them, and toggled `toggled` times. */
  ghost predicate Grew(s: Tsr, t: Tsr, added: seq<u16>, toggled: nat) {
    && t.queue == s.queue + added
    && Puts(t.traffic.trace) == Puts(s.traffic.trace) + added
    && Toggles(t.traffic.trace) == Toggles(s.traffic.trace) + toggled
    && 0x3420 !in added
  }

  lemma GrewTwice(s: Tsr, t: Tsr, u: Tsr, a: seq<u16>, b: seq<u16>, m: nat, n: nat)
    requires Grew(s, t, a, m) && Grew(t, u, b, n)
    ensures Grew(s, u, a + b, m + n)
  {
  }

  lemma GrewNothing(s: Tsr, t: Tsr)
    requires t.queue == s.queue && t.traffic.trace == s.traffic.trace
    ensures Grew(s, t, [], 0)
  {
  }

  lemma TriedAddsNothing(s: Tsr, t: Tsr, m: Message, ok: bool)
    requires t.queue == s.queue && t.traffic.trace == s.traffic.trace + [Tried(m, ok)]
    ensures Grew(s, t, [], 0)
  {
    Logged(s.traffic.trace, Tried(m, ok));
  }

  lemma SendAddsNothing(s: Tsr, kind: byte, n: nat, payload: seq<byte>)
    ensures Grew(s, Send(s, kind, n, payload).0, [], 0)
  {
    var (t, ok) := Send(s, kind, n, payload);
    TriedAddsNothing(s, t, Message(Packet(kind, Wire(n), payload), n), ok);
  }

  lemma SendOpenAddsNothing(s: Tsr)
    ensures Grew(s, SendOpenIme(s), [], 0)
  {
    var n := s.session.sequence + 1;
    SendAddsNothing(s.(session := s.session.(sequence := n, openSequence := n)), OPEN_IME, n, []);
  }

  lemma StartAddsNothing(s: Tsr)
    ensures Grew(s, StartLink(s), [], 0)
  {
    var n := s.session.sequence + 1;
    var m := Message(Packet(HELLO, Wire(n), HELLO_PAYLOAD), n);
    TriedAddsNothing(s, StartLink(s), m, Transmit(s.traffic, true, m).1);
  }

  lemma CloseAddsNothing(s: Tsr)
    ensures Grew(s, CloseIme(s), [], 0)
  {
    var n := s.session.openSequence;
    var t := if s.session.link == Ready then Send(s, CLOSE_IME, n, []).0 else s;
    SendAddsNothing(s, CLOSE_IME, n, []);
    GrewNothing(s, s);
    assert Grew(s, t, [], 0);
    Logged(t.traffic.trace, SessionClosed);
  }

  lemma ToggleAddsNothing(s: Tsr)
    ensures Grew(s, Toggle(s), [], 1)
  {
    Logged(s.traffic.trace, Toggled);
    CloseAddsNothing(Log(s, Toggled));
  }

  lemma HandlePacketAddsNothing(s: Tsr, p: Packet)
    ensures Grew(s, HandlePacket(s, p), [], 0)
  {
    var n := s.session.openSequence;
    if p.kind == PONG && s.session.link == HelloWait {
      SendOpenAddsNothing(s.(session := s.session.(link := Ready, waitTicks := 0)));
      GrewNothing(s, s.(session := s.session.(link := Ready, waitTicks := 0)));
    } else if p.kind == TEXT && ForSession(s.session, p) && |p.payload| <= MAX_PAYLOAD {
      Logged(s.traffic.trace, TookText(p.payload, n));
    } else if p.kind == KEY && ForSession(s.session, p) && |p.payload| == 1 {
      if KeyWord(p.payload[0]).Some? {
        Logged(s.traffic.trace, TookKey(KeyWord(p.payload[0]).value, n));
      }
    } else if p.kind == CLOSE_IME && ForSession(s.session, p) && |p.payload| == 0 {
      CloseAddsNothing(s);
    }
  }

  lemma {:induction false} PollAddsNothing(s: Tsr, budget: nat)
    ensures Grew(s, Poll(s, budget), [], 0)
    decreases budget
  {
    if budget > 0 && NextByte(s.port).Some? {
      var (value, port) := NextByte(s.port).value;
      var t := s.(port := port);
      var (rx, frame) := Accept(t.port.rx, value);
      if frame.Some? && Accepts(frame.value) {
        HandlePacketAddsNothing(t.(port := t.port.(rx := rx)), Decode(frame.value).packet);
      }
      PollAddsNothing(AcceptByte(t, value), budget - 1);
    }
  }

  lemma {:induction false} InjectTextAdds(s: Tsr, budget: nat) returns (added: seq<u16>)
    ensures Grew(s, InjectText(s, budget), added, 0)
    decreases budget
  {
    if s.staged.offset >= |s.staged.text| {
      added := [];
      SendAddsNothing(s, TEXT_ACK, s.staged.sequence, []);
    } else if budget == 0 || Full(s.queue) {
      added := [];
    } else {
      var word := EncodeKey(s.staged.text, s.staged.offset).0;
      Logged(s.traffic.trace, PutText(word));
      NeverTheHotkey(s.staged.text, s.staged.offset);
      assert word == EncodeFrom(s.staged.text, s.staged.offset)[0];
      assert Grew(s, PutWord(s), [word], 0);
      var rest := InjectTextAdds(PutWord(s), budget - 1);
      GrewTwice(s, PutWord(s), InjectText(s, budget), [word], rest, 0, 0);
      added := [word] + rest;
    }
  }

  lemma InjectKeyAdds(s: Tsr) returns (added: seq<u16>)
    requires IsKeyWord(s.staged.key)
    ensures Grew(s, InjectKey(s), added, 0)
  {
    added := [];
    if !Full(s.queue) {
      added := [s.staged.key];
      var t := Log(s.(queue := s.queue + added), PutKey(s.staged.key));
      Logged(s.traffic.trace, PutKey(s.staged.key));
      SendAddsNothing(t, KEY_ACK, t.staged.sequence, []);
    }
  }

  lemma InjectAdds(s: Tsr, mask: byte) returns (added: seq<u16>)
    requires Core(s, mask)
    ensures Grew(s, Inject(s), added, 0)
  {
    var t, first := s, [];
    GrewNothing(s, s);
    if s.staged.text != [] {
      t := InjectText(s, TEXT_BUDGET);
      first := InjectTextAdds(s, TEXT_BUDGET);
      InjectTextKeepsCore(s, TEXT_BUDGET, mask);
    }
    var second := [];
    GrewNothing(t, t);
    if t.staged.keyActive {
      second := InjectKeyAdds(t);
    }
    GrewTwice(s, t, Inject(s), first, second, 0, 0);
    added := first + second;
  }

  predicate Discards(s: Tsr, modifier: bool, space: bool) {
    modifier && space && s.queue != [] && s.queue[|s.queue| - 1] == 0x3420
  }

  function AfterDiscard(s: Tsr, modifier: bool, space: bool): seq<u16> {
    if Discards(s, modifier, space) then s.queue[..|s.queue| - 1] else s.queue
  }

  /** One worker call takes back at most the newest word, a Space typed with the hotkey held, toggling exactly then;
      it appends words that are never that Space, and touches nothing else in the queue. */
  lemma ServiceAdds(s: Tsr, modifier: bool, space: bool, mask: byte) returns (added: seq<u16>)
    requires Core(s, mask) && |s.port.capture.pending| <= RX_BUDGET
    ensures Grew(s.(queue := AfterDiscard(s, modifier, space)), Service(s, modifier, space), added,
                 if Discards(s, modifier, space) then 1 else 0)
  {
    var toggled: nat := if Discards(s, modifier, space) then 1 else 0;
    var a := ServiceHotkey(s, modifier, space);
    var b := PollIfOpen(a);
    HotkeyDiscards(s, modifier, space);
    HotkeyKeepsCore(s, modifier, space, mask);
    PollIfOpenAddsNothing(a);
    PollKeepsCore(a, RX_BUDGET, mask);
    added := InjectAdds(b, mask);
    FinishAddsNothing(Inject(b));
    GrewChain(s.(queue := AfterDiscard(s, modifier, space)), a, b, Inject(b), Tick(OpenOrStart(Inject(b))),
              added, toggled);
  }

  lemma GrewChain(start: Tsr, a: Tsr, b: Tsr, c: Tsr, d: Tsr, added: seq<u16>, toggled: nat)
    requires Grew(start, a, [], toggled) && Grew(a, b, [], 0) && Grew(b, c, added, 0) && Grew(c, d, [], 0)
    ensures Grew(start, d, added, toggled)
  {
    GrewTwice(start, a, b, [], [], toggled, 0);
    assert [] + added == added && added + [] == added;
    GrewTwice(start, b, c, [], added, toggled, 0);
    GrewTwice(start, c, d, added, [], toggled, 0);
  }

  lemma PollIfOpenAddsNothing(s: Tsr)
    ensures Grew(s, PollIfOpen(s), [], 0)
  {
    PollAddsNothing(s, RX_BUDGET);
    GrewNothing(s, s);
  }

  lemma FinishAddsNothing(s: Tsr)
    ensures Grew(s, Tick(OpenOrStart(s)), [], 0)
  {
    SendOpenAddsNothing(s);
    StartAddsNothing(s);
    GrewNothing(s, s);
    GrewNothing(OpenOrStart(s), Tick(OpenOrStart(s)));
    GrewTwice(s, OpenOrStart(s), Tick(OpenOrStart(s)), [], [], 0, 0);
  }

  lemma HotkeyDiscards(s: Tsr, modifier: bool, space: bool)
    ensures Grew(s.(queue := AfterDiscard(s, modifier, space)), ServiceHotkey(s, modifier, space), [],
                 if Discards(s, modifier, space) then 1 else 0)
  {
    var t := s.(latched := PollHotkey(s.latched, modifier, space).1, queue := AfterDiscard(s, modifier, space));
    if Discards(s, modifier, space) {
      ToggleAddsNothing(t);
    }
  }
}
