/** What the bridge answers and sends, told by what it has heard and been asked for since the connection. */
module BridgeHistory {
  import opened Bytes
  import opened Codec
  import opened HostSession

  /** A packet arrives; the user asks for something; the user asks for something and the write throws. */
  datatype Happening = Hears(packet: Packet) | Asks(request: Request) | Fails(request: Request)

  function After(history: seq<Happening>): Host {
    if history == [] then CONNECTED
    else
      var h := After(history[..|history| - 1]);
      match history[|history| - 1] {
        case Hears(p) => ServePacket(h, p).0
        case Asks(r) => AskUnless(h, r, false).0
        case Fails(r) => AskUnless(h, r, true).0
      }
  }

  // ----- the same, read off the history -----

  /** The text size that the payload of a HELLO allows: the number in its ninth and tenth byte, if there is one and it
      is 1 to 512. */
  function Allows(payload: seq<byte>): nat {
    if |payload| < 10 then 512
    else
      var lo: nat, hi: nat := payload[8], payload[9];
      if 1 <= lo + 256 * hi <= 512 then lo + 256 * hi else 512
  }

  /** What the last HELLO allows. */
  function Allowance(history: seq<Happening>): nat {
    if history == [] then 512
    else
      match history[|history| - 1] {
        case Hears(p) => if p.kind == 1 then Allows(p.payload) else Allowance(history[..|history| - 1])
        case _ => Allowance(history[..|history| - 1])
      }
  }

  predicate Fits(r: Request, allowance: nat) {
    r.Text? ==> 1 <= |r.bytes| <= allowance
  }

  /** The number of the last OPEN_IME, unless a close, an acknowledgement or a request that was sent came after it. */
  function Invitation(history: seq<Happening>): Option<u16> {
    if history == [] then None
    else
      var before := history[..|history| - 1];
      match history[|history| - 1] {
        case Hears(p) =>
          if p.kind == 4 then Some(p.sequence)
          else if p.kind == 6 || p.kind == 7 || p.kind == 9 then None
          else Invitation(before)
        case Asks(r) => if Fits(r, Allowance(before)) then None else Invitation(before)
        case Fails(_) => Invitation(before)
      }
  }

  lemma {:induction false} HistoryTells(history: seq<Happening>)
    ensures var h := After(history);
      && h.connected && h.targetMaxTextBytes == Allowance(history)
      && h.imeReady == Invitation(history).Some?
      && (h.imeReady ==> h.openSequence == Invitation(history).value)
  {
    if history == [] {
    } else {
      HistoryTells(history[..|history| - 1]);
    }
  }

  /** A request goes out exactly when an OPEN_IME invites one and, for a text, it has from one byte to what the last
      HELLO allows. It carries what the user asked for under the number of that OPEN_IME. */
  lemma SendsIff(history: seq<Happening>, r: Request)
    ensures var sent, n := Ask(After(history), r).1, Invitation(history);
      if n.Some? && Fits(r, Allowance(history))
      then sent.Some? && sent.value.sequence == n.value && Carries(sent.value, r)
      else sent == None
  {
    HistoryTells(history);
  }

  /** Every HELLO and PING is answered by one PONG under its own number, and nothing else is answered. */
  lemma AnswersGreetings(h: Host, p: Packet)
    ensures ServePacket(h, p).1 == if p.kind == 1 || p.kind == 2 then Some(Packet(3, p.sequence, [])) else None
  {
  }

  predicate HearsNo(kind: byte, history: seq<Happening>) {
    forall i :: 0 <= i < |history| && history[i].Hears? ==> history[i].packet.kind != kind
  }

  lemma {:induction false} AllowanceLasts(before: seq<Happening>, later: seq<Happening>)
    requires HearsNo(1, later)
    ensures Allowance(before + later) == Allowance(before)
  {
    if later == [] {
      assert before + later == before;
    } else {
      var front, last := later[..|later| - 1], later[|later| - 1];
      AllowanceLasts(before, front);
      assert (before + later)[..|before + later| - 1] == before + front;
      assert (before + later)[|before + later| - 1] == last;
    }
  }

  /** What a HELLO allows holds until the next one: an invited bridge sends a text of n bytes, n at least one, exactly
      when n is at most that. */
  lemma AnnouncementHolds(before: seq<Happening>, p: Packet, later: seq<Happening>, bytes: seq<byte>)
    requires p.kind == 1 && HearsNo(1, later) && bytes != []
    ensures var history := before + [Hears(p)] + later;
      Invitation(history).Some? ==>
        (Ask(After(history), Text(bytes)).1.Some? <==> |bytes| <= Allows(p.payload))
  {
    var heard := before + [Hears(p)];
    assert heard[..|heard| - 1] == before && heard[|heard| - 1] == Hears(p);
    AllowanceLasts(heard, later);
    SendsIff(heard + later, Text(bytes));
  }

  lemma {:induction false} NoInvitation(before: seq<Happening>, later: seq<Happening>)
    requires Invitation(before) == None && HearsNo(4, later)
    ensures Invitation(before + later) == None
  {
    if later == [] {
      assert before + later == before;
    } else {
      var front, last := later[..|later| - 1], later[|later| - 1];
      NoInvitation(before, front);
      assert (before + later)[..|before + later| - 1] == before + front;
      assert (before + later)[|before + later| - 1] == last;
    }
  }

  /** A CLOSE_IME, TEXT_ACK or KEY_ACK stops all sending until the next OPEN_IME. */
  lemma SilentUntilOpen(before: seq<Happening>, p: Packet, later: seq<Happening>, r: Request)
    requires p.kind in {6, 7, 9} && HearsNo(4, later)
    ensures Ask(After(before + [Hears(p)] + later), r).1 == None
  {
    var heard := before + [Hears(p)];
    assert heard[|heard| - 1] == Hears(p);
    NoInvitation(heard, later);
    SendsIff(heard + later, r);
  }

  /** With a text to send by itself, an OPEN_IME is answered by that text, if it is no longer than what the last HELLO
      allows; in either case the OPEN_IME can still be used. */
  lemma AutomaticTextKeepsOpen(history: seq<Happening>, n: u16, text: seq<byte>, r: Request)
    requires Fits(r, Allowance(history))
    ensures var (served, reply) := ServeAutomatic(After(history), Packet(4, n, []), Some(text));
      && reply == (if |text| <= Allowance(history) then Some(Packet(5, n, text)) else None)
      && Ask(served, r).1.Some? && Ask(served, r).1.value.sequence == n && Carries(Ask(served, r).1.value, r)
  {
    HistoryTells(history);
  }
}
