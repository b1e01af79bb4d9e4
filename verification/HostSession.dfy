/** host/ImeDosBridge/BridgeForm.cs: the bridge's session fields, in its interactive mode. */
module HostSession {
  import opened Bytes
  import opened Codec
  import opened Worker

  const PING: byte := 2

  /** `connected` says that a stream is there; the other fields are those of the form. */
  datatype Host = Host(connected: bool, openSequence: u16, imeReady: bool, targetMaxTextBytes: nat)

  const DISCONNECTED := Host(false, 0, false, MAX_PAYLOAD)

  /** ServeAsync starts over whenever a client connects. */
  const CONNECTED := Host(true, 0, false, MAX_PAYLOAD)

  /** The text capacity a HELLO announces. */
  function Capacity(payload: seq<byte>): nat {
    var announced := if |payload| >= 10 then WordAt(payload, 8) else MAX_PAYLOAD;
    if announced <= 0 || announced > MAX_PAYLOAD then MAX_PAYLOAD else announced
  }

  /** One packet of the serve loop, with the reply it sends. */
  function ServePacket(h: Host, p: Packet): (Host, Option<Packet>) {
    if p.kind == HELLO then
      (h.(targetMaxTextBytes := Capacity(p.payload)), Some(Packet(PONG, p.sequence, [])))
    else if p.kind == PING then (h, Some(Packet(PONG, p.sequence, [])))
    else if p.kind == OPEN_IME then (h.(openSequence := p.sequence, imeReady := true), None)
    else if p.kind == CLOSE_IME || p.kind == TEXT_ACK || p.kind == KEY_ACK then
      (h.(openSequence := 0, imeReady := false), None)
    else (h, None)
  }

  /** What the user can ask for. */
  datatype Request = Text(bytes: seq<byte>) | Key(code: byte) | Close

  function RequestPacket(r: Request, sequence: u16): Packet {
    match r {
      case Text(bytes) => Packet(TEXT, sequence, bytes)
      case Key(code) => Packet(KEY, sequence, [code])
      case Close => Packet(CLOSE_IME, sequence, [])
    }
  }

  /** The packet says just what the user asked for. */
  predicate Carries(p: Packet, r: Request) {
    match r {
      case Text(bytes) => p.kind == 5 && p.payload == bytes
      case Key(code) => p.kind == 8 && p.payload == [code]
      case Close => p.kind == 7 && p.payload == []
    }
  }

  predicate Sendable(h: Host, r: Request) {
    h.connected && h.imeReady && (r.Text? ==> 0 < |r.bytes| <= h.targetMaxTextBytes)
  }

  /** SendText, SendKey and SendCloseIme: refused unless an OPEN is waiting to be used, which sending uses up. */
  function Ask(h: Host, r: Request): (Host, Option<Packet>) {
    if Sendable(h, r) then (h.(imeReady := false), Some(RequestPacket(r, h.openSequence))) else (h, None)
  }

  /** The same with a text to send by itself: it answers an OPEN when it fits, and leaves the OPEN ready for use. */
  function ServeAutomatic(h: Host, p: Packet, automatic: Option<seq<byte>>): (Host, Option<Packet>) {
    var (served, reply) := ServePacket(h, p);
    (served, if p.kind == OPEN_IME && automatic.Some? && |automatic.value| <= h.targetMaxTextBytes
             then Some(Packet(TEXT, p.sequence, automatic.value)) else reply)
  }

  /** A request whose packet the stream may refuse to take: then nothing is sent and the OPEN is ready again. */
  function AskUnless(h: Host, r: Request, refused: bool): (Host, Option<Packet>) {
    if refused then (h, None) else Ask(h, r)
  }

  class BridgeForm {
    const automaticText: Option<seq<byte>>
    /** The connection being served. */
    var stream: Option<nat>
    var openSequence: u16
    var imeReady: bool
    var targetMaxTextBytes: nat

    ghost function State(): Host
      reads this
    {
      Host(stream.Some?, openSequence, imeReady, targetMaxTextBytes)
    }

    constructor (automatic: Option<seq<byte>>)
      ensures State() == DISCONNECTED && automaticText == automatic
    {
      automaticText := automatic;
      stream, openSequence, imeReady, targetMaxTextBytes := None, 0, false, MAX_PAYLOAD;
    }

    method BeginServe(connected: nat)
      modifies this
      ensures State() == CONNECTED && stream == Some(connected)
    {
      stream := Some(connected);
      openSequence := 0;
      imeReady := false;
      targetMaxTextBytes := MAX_PAYLOAD;
    }

    /** The end of a connection that a newer one has replaced changes nothing. */
    method EndServe(connected: nat)
      modifies this
      ensures State() == if old(stream) == Some(connected) then DISCONNECTED else old(State())
      ensures stream == if old(stream) == Some(connected) then None else old(stream)
    {
      if stream == Some(connected) {
        stream := None;
        openSequence := 0;
        imeReady := false;
        targetMaxTextBytes := MAX_PAYLOAD;
      }
    }

    method Serve(packet: Packet) returns (reply: Option<Packet>)
      modifies this
      ensures (State(), reply) == ServeAutomatic(old(State()), packet, automaticText) && stream == old(stream)
    {
      reply := None;
      if packet.kind == HELLO {
        targetMaxTextBytes := if |packet.payload| >= 10 then WordAt(packet.payload, 8) else MAX_PAYLOAD;
        if targetMaxTextBytes <= 0 || targetMaxTextBytes > MAX_PAYLOAD {
          targetMaxTextBytes := MAX_PAYLOAD;
        }
        reply := Some(Packet(PONG, packet.sequence, []));
      } else if packet.kind == PING {
        reply := Some(Packet(PONG, packet.sequence, []));
      } else if packet.kind == OPEN_IME {
        openSequence := packet.sequence;
        imeReady := true;
        if automaticText.Some? {
          if |automaticText.value| > targetMaxTextBytes {
            return;
          }
          reply := Some(Packet(TEXT, openSequence, automaticText.value));
        }
      } else if packet.kind == CLOSE_IME || packet.kind == TEXT_ACK || packet.kind == KEY_ACK {
        openSequence := 0;
        imeReady := false;
      }
    }

    /** SendAsync: the stream takes the packet or throws. */
    method Write(packet: Packet, throws: bool) returns (sent: Option<Packet>)
      ensures sent == if throws then None else Some(packet)
    {
      sent := if throws then None else Some(packet);
    }

    method SendText(bytes: seq<byte>, throws: bool) returns (sent: Option<Packet>)
      modifies this
      ensures (State(), sent) == AskUnless(old(State()), Text(bytes), throws)
    {
      if stream == None || !imeReady || |bytes| == 0 || |bytes| > targetMaxTextBytes {
        return None;
      }
      imeReady := false;
      sent := Write(Packet(TEXT, openSequence, bytes), throws);
      if sent == None {
        imeReady := true;
      }
    }

    method SendKey(keyCode: byte, throws: bool) returns (sent: Option<Packet>)
      modifies this
      ensures (State(), sent) == AskUnless(old(State()), Key(keyCode), throws)
    {
      if stream == None || !imeReady {
        return None;
      }
      imeReady := false;
      sent := Write(Packet(KEY, openSequence, [keyCode]), throws);
      if sent == None {
        imeReady := true;
      }
    }

    method SendCloseIme(throws: bool) returns (sent: Option<Packet>)
      modifies this
      ensures (State(), sent) == AskUnless(old(State()), Close, throws)
    {
      if stream == None || !imeReady {
        return None;
      }
      imeReady := false;
      sent := Write(Packet(CLOSE_IME, openSequence, []), throws);
      if sent == None {
        imeReady := true;
      }
    }
  }

  /** After the worker's HELLO the bridge sends what the resident staging buffer holds, and no more. */
  lemma AnnouncedCapacity(h: Host, n: nat, r: Request)
    ensures var served := ServePacket(h, Packet(HELLO, Wire(n), HELLO_PAYLOAD));
      && served.0.targetMaxTextBytes == 512 && served.1 == Some(Packet(PONG, Wire(n), []))
      && (r.Text? && Ask(served.0, r).1.Some? ==> 0 < |r.bytes| <= 512)
  {
  }
}
