/** dos/pc98/foreground.c as it stands: file-level variables updated in place, fixed buffers and budgeted loops. Every
    method is proved to do to the state what the function of the same name in module Worker says. */
module Resident {
  import opened Bytes
  import opened Codec
  import opened Framing
  import opened KeyEncoding
  import opened BiosKeyboard
  import opened IrqCapture
  import opened Worker

  ghost predicate IsPoll(polled: (Tsr, nat) -> Tsr) {
    forall s: Tsr, n: nat {:trigger Poll(s, n)} :: polled(s, n) == Poll(s, n)
  }

  class Foreground {
    const rx: Framer
    const ring: IrqRing
    const keys: BiosQueue
    const txPacket: array<byte>
    const pendingText: array<byte>

    var session: Session
    var staged: Staged
    var serialOpened: bool
    var hotkeyLatched: bool

    /** The receiver's bytes; the transmitter and what has gone through it. */
    var received: seq<byte>
    var traffic: Traffic

    /** Every byte written to the data port. */
    var wire: seq<byte>

    ghost predicate Valid()
      reads this, rx, rx.packet, ring, ring.buffer, keys, keys.cells, pendingText
    {
      Buffers() && Parts() && keys.Valid() && TextHeld()
    }

    ghost predicate Buffers()
      reads this
    {
      && txPacket.Length == 522 && pendingText.Length == 512
      && txPacket != pendingText && txPacket != rx.packet && txPacket != ring.buffer
      && pendingText != rx.packet && pendingText != ring.buffer && rx.packet != ring.buffer
      && (txPacket as object) != keys.cells && (pendingText as object) != keys.cells
      && (rx.packet as object) != keys.cells && (ring.buffer as object) != keys.cells
    }

    ghost predicate Parts()
      reads this, rx, rx.packet, ring, ring.buffer
    {
      rx.Valid() && ring.Valid()
    }

    /** The staged text is in the buffer. */
    ghost predicate TextHeld()
      reads this, pendingText
    {
      |staged.text| <= pendingText.Length && pendingText[..|staged.text|] == staged.text
    }

    ghost function State(): Tsr
      reads this, rx, ring, keys
    {
      Tsr(session, staged, Port(serialOpened, ring.state, received, rx.state), traffic, keys.words, hotkeyLatched)
    }

    constructor (mask: byte)
      ensures Valid() && State() == Initial(mask)
    {
      rx := new Framer();
      ring := new IrqRing(mask);
      keys := new BiosQueue();
      txPacket := new byte[522];
      pendingText := new byte[512];
      session, staged := Initial(mask).session, Initial(mask).staged;
      serialOpened, hotkeyLatched, received, traffic := false, false, [], Traffic([], [], []);
      wire := [];
    }

    // ----- dos/pc98/serial_pc98.c -----

    /** pc98_serial_write: fails while the port is closed or when the transmitter times out. */
    method SerialWrite(length: u16, m: Message) returns (ok: bool)
      requires length <= txPacket.Length
      requires Encodable(m.packet) && txPacket[..length] == Encode(m.packet)
      modifies this`traffic, this`wire
      ensures (traffic, ok) == Transmit(old(traffic), serialOpened, m)
      ensures old(wire) <= wire && wire[|old(wire)|..] <= Encode(m.packet)
      ensures ok == (wire[|old(wire)|..] == Encode(m.packet))
    {
      if !serialOpened {
        traffic := traffic.(trace := traffic.trace + [Tried(m, false)]);
        return false;
      }
      var ready := if traffic.ready == [] then [] else traffic.ready[0];
      traffic := traffic.(ready := if traffic.ready == [] then [] else traffic.ready[1..]);
      var i := 0;
      while i < length && i < |ready| && ready[i]
        modifies this`wire
        invariant i <= length && i <= |ready| && (forall k :: 0 <= k < i ==> ready[k])
        invariant wire == old(wire) + txPacket[..i]
      {
        wire := wire + [txPacket[i]];
        i := i + 1;
      }
      ok := i == length;
      assert length == WireSize(m.packet) && ok == InTime(ready, length);
      assert txPacket[..i] == txPacket[..length][..i];
      traffic := traffic.(trace := traffic.trace + [Tried(m, ok)]);
      if ok {
        traffic := traffic.(line := traffic.line + [m]);
      }
    }

    /** pc98_serial_try_read_byte: the next received byte, or -1. */
    method SerialTryReadByte() returns (value: int)
      modifies this`received
      ensures if serialOpened && old(received) != [] then value == old(received)[0] && received == old(received)[1..]
              else value == -1 && received == old(received)
    {
      if !serialOpened || received == [] {
        return -1;
      }
      value := received[0];
      received := received[1..];
    }

    // ----- sending -----

    method SendPacket(kind: byte, n: nat, payload: seq<byte>) returns (ok: bool)
      requires txPacket.Length == 522 && |payload| <= MAX_PAYLOAD
      modifies this`traffic, this`wire, txPacket
      ensures (traffic, ok) == Transmit(old(traffic), serialOpened, Message(Packet(kind, Wire(n), payload), n))
      ensures old(wire) <= wire && ok == (wire[|old(wire)|..] == Encode(Packet(kind, Wire(n), payload)))
    {
      var length := PacketBuild(txPacket, kind, Wire(n), payload);
      ok := SerialWrite(length, Message(Packet(kind, Wire(n), payload), n));
    }

    method ResetLink()
      requires Parts()
      modifies this`session, this`serialOpened, ring, rx
      ensures Parts() && State() == Worker.ResetLink(old(State()))
    {
      ring.CaptureEnd();
      serialOpened := false;
      session := session.(link := Closed, imeActive := false, waitTicks := 0);
      rx.Reset();
    }

    /** The OPEN_IME that send_open_ime sends under the next sequence number. */
    method SendOpen() returns (ok: bool)
      requires txPacket.Length == 522
      modifies this`session, this`traffic, this`wire, txPacket
      ensures var s := old(State());
        var n := s.session.sequence + 1;
        (State(), ok) == Send(s.(session := s.session.(sequence := n, openSequence := n)), OPEN_IME, n, [])
    {
      session := session.(sequence := session.sequence + 1, openSequence := session.sequence + 1);
      ok := SendPacket(OPEN_IME, session.openSequence, []);
    }

    method SendOpenIme()
      requires Buffers() && Parts()
      modifies this`session, this`serialOpened, this`traffic, this`wire, txPacket, ring, rx
      ensures Parts() && State() == Worker.SendOpenIme(old(State()))
    {
      var ok := SendOpen();
      if ok {
        session := session.(imeActive := true, openPending := false, waitTicks := 0);
      } else {
        ResetLink();
        session := session.(openPending := true);
      }
    }

    method CloseIme()
      requires Buffers() && Parts()
      modifies this`session, this`staged, this`serialOpened, this`traffic, this`wire, txPacket, ring, rx
      ensures Parts() && TextHeld() && State() == Worker.CloseIme(old(State()))
    {
      if session.link == Ready {
        var _ := SendPacket(CLOSE_IME, session.openSequence, []);
      }
      if session.link != Closed {
        ResetLink();
      }
      session := session.(imeEnabled := false, openPending := false, imeActive := false, waitTicks := 0);
      staged := staged.(text := [], offset := 0, keyActive := false);
      traffic := traffic.(trace := traffic.trace + [SessionClosed]);
    }

    /** pc98_serial_open, which always succeeds, and the capture that follows it. */
    method OpenPort()
      requires Parts()
      modifies this`serialOpened, ring
      ensures Parts()
      ensures State() == old(State()).(port := old(State().port).(isOpen := true, capture := Begin(old(ring.state))))
    {
      serialOpened := true;
      ring.CaptureBegin();
    }

    /** The HELLO that start_link sends under the next sequence number. */
    method SendHello() returns (ok: bool)
      requires txPacket.Length == 522
      modifies this`session, this`traffic, this`wire, txPacket
      ensures var s := old(State());
        var n := s.session.sequence + 1;
        (State(), ok) == Send(s.(session := s.session.(sequence := n)), HELLO, n, HELLO_PAYLOAD)
    {
      session := session.(sequence := session.sequence + 1);
      ok := SendPacket(HELLO, session.sequence, HELLO_PAYLOAD);
    }

    method StartLink()
      requires Buffers() && Parts()
      modifies this`session, this`serialOpened, this`traffic, this`wire, txPacket, ring, rx
      ensures Parts() && State() == Worker.StartLink(old(State()))
    {
      OpenPort();
      ghost var started := State();
      var ok := SendHello();
      ghost var sent := State();
      assert (sent, ok) == Send(started.(session := started.session.(sequence := started.session.sequence + 1)), HELLO,
                                started.session.sequence + 1, HELLO_PAYLOAD);
      if !ok {
        ResetLink();
        return;
      }
      session := session.(link := HelloWait, waitTicks := 0);
    }

    // ----- receiving -----

    method CopyText(payload: seq<byte>)
      requires |payload| <= pendingText.Length
      modifies pendingText
      ensures pendingText[..|payload|] == payload
    {
      var i := 0;
      while i < |payload|
        invariant 0 <= i <= |payload|
        invariant pendingText[..i] == payload[..i]
      {
        pendingText[i] := payload[i];
        i := i + 1;
      }
    }

    method TakeText(payload: seq<byte>)
      requires |payload| <= pendingText.Length
      modifies this`session, this`staged, this`traffic, this`wire, pendingText
      ensures TextHeld() && State() == Worker.TakeText(old(State()), payload)
    {
      CopyText(payload);
      staged := staged.(text := payload, offset := 0, sequence := session.openSequence);
      session := session.(waitTicks := 0);
      traffic := traffic.(trace := traffic.trace + [TookText(payload, session.openSequence)]);
    }

    method TakeKey(word: u16)
      modifies this`session, this`staged, this`traffic, this`wire
      ensures staged.text == old(staged.text) && State() == Worker.TakeKey(old(State()), word)
    {
      staged := staged.(key := word, keyActive := true, sequence := session.openSequence);
      session := session.(waitTicks := 0);
      traffic := traffic.(trace := traffic.trace + [TookKey(word, session.openSequence)]);
    }

    method HandleKey(code: byte)
      modifies this`session, this`staged, this`traffic, this`wire
      ensures staged.text == old(staged.text)
      ensures State() == match KeyWord(code) {
                case None => old(State())
                case Some(word) => Worker.TakeKey(old(State()), word)
              }
    {
      match code {
        case 1 => TakeKey(0x1c0d);
        case 2 => TakeKey(0x3b00);
        case 3 => TakeKey(0x3c00);
        case 4 => TakeKey(0x3a00);
        case 5 => TakeKey(0x3d00);
        case 6 => TakeKey(0x0e08);
        case _ =>
      }
    }

    method Greet()
      requires Buffers() && Parts()
      modifies this`session, this`serialOpened, this`traffic, this`wire, txPacket, ring, rx
      ensures Parts() && State() == Greeted(old(State()))
    {
      session := session.(link := Ready, waitTicks := 0);
      if session.openPending {
        SendOpenIme();
      }
    }

    /** handle_packet, on the first `length` bytes of the receive buffer. */
    method HandlePacket(length: u16)
      requires Valid() && length <= rx.packet.Length
      modifies this`session, this`staged, this`serialOpened, this`traffic, this`wire, txPacket, pendingText, ring, rx
      ensures Valid() && State() == HandleFrame(old(State()), old(rx.packet[..length]))
    {
      var ok, kind, number, payload := PacketParse(rx.packet, length);
      if !ok {
        return;
      }
      if kind == PONG && session.link == HelloWait {
        Greet();
      } else if kind == TEXT && session.imeActive && number == Wire(session.openSequence) && |payload| <= 512 {
        TakeText(payload);
      } else if kind == KEY && session.imeActive && number == Wire(session.openSequence) && |payload| == 1 {
        HandleKey(payload[0]);
      } else if kind == CLOSE_IME && session.imeActive && number == Wire(session.openSequence) && |payload| == 0 {
        CloseIme();
      }
    }

    method AcceptByte(value: byte)
      requires Valid()
      modifies this`session, this`staged, this`serialOpened, this`traffic, this`wire
      modifies txPacket, pendingText, ring, rx, rx.packet
      ensures Valid() && State() == Worker.AcceptByte(old(State()), value)
    {
      var frame := rx.AcceptByte(value);
      if frame.Some? {
        HandlePacket(|frame.value|);
      }
    }

    /** The next byte: from the interrupt's ring, else from the receiver; -1 when there is none. */
    method NextByte() returns (value: int)
      requires Parts()
      modifies this`received, ring
      ensures Parts()
      ensures match Worker.NextByte(old(State().port)) {
                case None => value == -1 && State() == old(State())
                case Some((first, port)) => value == first && State() == old(State()).(port := port)
              }
    {
      value := ring.TryReadByte();
      if value < 0 {
        value := SerialTryReadByte();
      }
    }

    /** One turn of the polling loop, from `now`. `polled` stands for Poll without its definition. */
    method PollByte(ghost now: Tsr, ghost budget: nat, ghost polled: (Tsr, nat) -> Tsr)
        returns (more: bool, ghost next: Tsr)
      requires Valid() && State() == now && budget > 0 && IsPoll(polled)
      modifies this`session, this`staged, this`serialOpened, this`received, this`traffic, this`wire
      modifies txPacket, pendingText, ring, rx, rx.packet
      ensures Valid() && State() == next && polled(now, budget) == if more then polled(next, budget - 1) else next
    {
      assert polled(now, budget) == Poll(now, budget);
      var value := NextByte();
      if value < 0 {
        return false, now;
      }
      AcceptByte(value);
      more, next := true, State();
      assert polled(next, budget - 1) == Poll(next, budget - 1);
    }

    /** The polling loop. */
    method PollBytes(limit: byte, ghost polled: (Tsr, nat) -> Tsr)
      requires Valid() && IsPoll(polled)
      modifies this`session, this`staged, this`serialOpened, this`received, this`traffic, this`wire
      modifies txPacket, pendingText, ring, rx, rx.packet
      ensures Valid() && State() == polled(old(State()), limit)
    {
      var budget, more := limit, true;
      ghost var now := State();
      ghost var end := polled(now, limit);
      while budget > 0 && more
        invariant Valid() && State() == now && end == if more then polled(now, budget) else now
        decreases budget
      {
        more, now := PollByte(now, budget, polled);
        budget := budget - 1;
      }
      assert more ==> polled(now, 0) == Poll(now, 0);
    }

    method PollTransport()
      requires Valid()
      modifies this`session, this`staged, this`serialOpened, this`received, this`traffic, this`wire
      modifies txPacket, pendingText, ring, rx, rx.packet
      ensures Valid() && State() == Poll(old(State()), RX_BUDGET)
    {
      ghost var polled := (s: Tsr, n: nat) => Poll(s, n);
      assert IsPoll(polled);
      PollBytes(32, polled);
    }

    // ----- injecting -----

    /** One turn of inject_pending_text's loop; refused by a full queue. */
    method PutKeyWord() returns (queued: bool)
      requires keys.Valid() && pendingText.Length == 512 && TextHeld() && staged.offset < |staged.text|
      requires (pendingText as object) != keys.cells
      modifies this`staged, this`traffic, this`wire, keys, keys.cells
      ensures keys.Valid() && TextHeld() && staged.text == old(staged.text) && queued == !Full(old(keys.words))
      ensures State() == if queued then PutWord(old(State())) else old(State())
    {
      var (key, input) := EncodeKey(pendingText[..|staged.text|], staged.offset);
      queued := keys.EnqueueWord(key);
      if queued {
        staged := staged.(offset := input + 1);
        traffic := traffic.(trace := traffic.trace + [PutText(key)]);
      }
    }

    method Acknowledge(kind: byte)
      requires txPacket.Length == 522
      modifies this`session, this`traffic, this`wire, txPacket
      ensures State() == Worker.Acknowledge(old(State()), kind)
    {
      var _ := SendPacket(kind, staged.sequence, []);
      session := session.(imeActive := false, openPending := session.imeEnabled);
    }

    /** One turn of inject_pending_text's loop, from `now` on the way to `end`. */
    method InjectWord(ghost now: Tsr, ghost budget: nat, ghost end: Tsr) returns (queued: bool, ghost next: Tsr)
      requires Valid() && State() == now && budget > 0 && staged.offset < |staged.text|
      requires end == InjectText(now, budget)
      modifies this`staged, this`traffic, this`wire, keys, keys.cells
      ensures Valid() && State() == next && staged.text == old(staged.text)
      ensures end == if queued then InjectText(next, budget - 1) else next
    {
      queued := PutKeyWord();
      next := State();
    }

    /** inject_pending_text's loop: words are queued until the budget, the text or the room runs out. */
    method InjectWords(limit: byte, ghost start: Tsr, ghost end: Tsr) returns (queued: bool)
      requires Valid() && State() == start && staged.text != [] && end == InjectText(start, limit)
      modifies this`staged, this`traffic, this`wire, keys, keys.cells
      ensures Valid() && staged.text != []
      ensures if queued && staged.offset >= |staged.text| then end == FinishText(State()) else State() == end
    {
      var budget := limit;
      ghost var now := start;
      queued := true;
      while staged.offset < |staged.text| && budget > 0 && queued
        invariant Valid() && State() == now && staged.text != []
        invariant end == if queued then InjectText(now, budget) else now
        decreases budget
      {
        queued, now := InjectWord(now, budget, end);
        budget := budget - 1;
      }
    }

    method InjectPendingText()
      requires Valid() && staged.text != []
      modifies this`session, this`staged, this`traffic, this`wire, txPacket, keys, keys.cells
      ensures Valid() && State() == InjectText(old(State()), TEXT_BUDGET)
    {
      var queued := InjectWords(16, State(), InjectText(State(), TEXT_BUDGET));
      if queued && staged.offset >= |staged.text| {
        Acknowledge(TEXT_ACK);
        staged := staged.(text := [], offset := 0);
      }
    }

    method InjectPendingKey()
      requires Valid()
      modifies this`session, this`staged, this`traffic, this`wire, txPacket, keys, keys.cells
      ensures Valid() && State() == InjectKey(old(State()))
    {
      var queued := keys.EnqueueWord(staged.key);
      if !queued {
        return;
      }
      traffic := traffic.(trace := traffic.trace + [PutKey(staged.key)]);
      Acknowledge(KEY_ACK);
      staged := staged.(keyActive := false);
    }

    // ----- the hotkey -----

    method ToggleImeHotkey()
      requires Valid()
      modifies this`session, this`staged, this`serialOpened, this`traffic, this`wire, txPacket, ring, rx
      ensures Valid() && State() == Toggle(old(State()))
    {
      traffic := traffic.(trace := traffic.trace + [Toggled]);
      if session.imeEnabled {
        CloseIme();
      } else {
        session := session.(imeEnabled := true, openPending := true);
      }
    }

    /** dos/pc98/tsr_hook.S: the modifier and the Space key as the BIOS key bitmaps show them. */
    method PollHotkey(modifier: bool, space: bool) returns (state: int)
      modifies this`hotkeyLatched
      ensures (state, hotkeyLatched) == Worker.PollHotkey(old(hotkeyLatched), modifier, space)
    {
      if !modifier || !space {
        hotkeyLatched := false;
        return 0;
      }
      if hotkeyLatched {
        return 2;
      }
      hotkeyLatched := true;
      state := 1;
    }

    method ServiceReturnedHotkey(modifier: bool, space: bool) returns (handled: bool)
      requires Valid()
      modifies this`session, this`staged, this`serialOpened, this`traffic, this`wire, this`hotkeyLatched
      modifies txPacket, ring, rx
      ensures Valid() && (State(), handled) == ReturnedHotkey(old(State()), modifier, space)
    {
      var state := PollHotkey(modifier, space);
      if state != 0 {
        ToggleImeHotkey();
        return true;
      }
      handled := false;
    }

    // ----- one call of the worker: pc98_service_foreground, stage by stage -----

    method ServiceHotkey(modifier: bool, space: bool)
      requires Valid()
      modifies this`session, this`staged, this`serialOpened, this`traffic, this`wire, this`hotkeyLatched
      modifies txPacket, ring, rx, keys
      ensures Valid() && State() == Worker.ServiceHotkey(old(State()), modifier, space)
    {
      var hotkeyState := PollHotkey(modifier, space);
      if hotkeyState != 0 {
        var discarded := DiscardSpace();
        if discarded {
          ToggleImeHotkey();
        }
      }
    }

    method DiscardSpace() returns (discarded: bool)
      requires Valid()
      modifies keys
      ensures Valid() && discarded == HotkeyQueued(old(keys.words))
      ensures var words := old(keys.words);
        State() == old(State()).(queue := if discarded then words[..|words| - 1] else words)
    {
      discarded := keys.DiscardHotkeySpace();
    }

    method InjectPending()
      requires Valid()
      modifies this`session, this`staged, this`traffic, this`wire, txPacket, keys, keys.cells
      ensures Valid() && State() == Inject(old(State()))
    {
      if |staged.text| != 0 {
        InjectPendingText();
      }
      if staged.keyActive {
        InjectPendingKey();
      }
    }

    method OpenOrStart()
      requires Valid()
      modifies this`session, this`serialOpened, this`traffic, this`wire, txPacket, ring, rx
      ensures Valid() && State() == Worker.OpenOrStart(old(State()))
    {
      if session.openPending && !session.imeActive {
        if session.link == Ready {
          SendOpenIme();
        } else if session.link == Closed {
          StartLink();
        }
      }
    }

    method Tick()
      requires Valid()
      modifies this`session, this`serialOpened, ring, rx
      ensures Valid() && State() == Worker.Tick(old(State()))
    {
      if session.link == HelloWait || session.imeActive {
        session := session.(waitTicks := (session.waitTicks + 1) % 0x1_0000);
        if session.waitTicks == 0xffff {
          ResetLink();
          session := session.(imeEnabled := false, openPending := false);
        }
      }
    }

    method ServiceForeground(modifier: bool, space: bool)
      requires Valid()
      modifies this, txPacket, pendingText, ring, rx, rx.packet, keys, keys.cells
      ensures Valid() && State() == Service(old(State()), modifier, space)
    {
      ServiceHotkey(modifier, space);
      if session.link != Closed {
        PollTransport();
      }
      InjectPending();
      OpenOrStart();
      Tick();
    }

    /** dos/pc98/tsr_hook.S: the COM1 receive interrupt. */
    method SerialIrqHook(modifier: bool, space: bool)
      requires Valid()
      modifies this, txPacket, pendingText, ring, ring.buffer, rx, rx.packet, keys, keys.cells
      ensures Valid() && State() == SerialIrq(old(State()), modifier, space)
    {
      if !ring.capture || received == [] {
        return;
      }
      var value := received[0];
      received := received[1..];
      ring.StoreByte(value);
      ServiceForeground(modifier, space);
    }
  }
}
