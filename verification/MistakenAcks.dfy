/** What agreement is for: the bridge takes any acknowledgement for its last request. That it can come to take one for
    the wrong request depends on one thing, an OPEN that goes out while input is staged. */
module MistakenAcks {
  import opened Bytes
  import opened Codec
  import opened Worker
  import opened WorkerInvariants
  import opened Traces
  import opened HostSession
  import opened Agreement
  import opened Progress

  /** An acknowledgement on the line is not for the bridge's last request. */
  predicate Mistaken(net: Net) {
    exists i :: 0 <= i < |net.tsr.traffic.line| && IsAck(net.tsr.traffic.line[i])
      && (net.asked.None? || net.tsr.traffic.line[i].n != net.asked.value.n)
  }

  lemma AgreedIsNotMistaken(net: Net, mask: byte)
    requires Agreed(net, mask)
    ensures !Mistaken(net)
  {
  }

  // ----- steps that take no packet and open no session -----

  predicate Gentle(steps: seq<NetStep>) {
    forall i :: 0 <= i < |steps| ==> !steps[i].Handle? && !steps[i].Opens?
  }

  lemma {:induction false} GentleRun(net: Net, steps: seq<NetStep>)
    requires Gentle(steps)
    ensures FreshRun(net, steps) && CleanRun(net, steps)
    decreases |steps|
  {
    if steps == [] {
    } else {
      assert !steps[0].Handle? && !steps[0].Opens?;
      GentleRun(Move(net, steps[0]), steps[1..]);
    }
  }

  lemma GentleConcat(a: seq<NetStep>, b: seq<NetStep>)
    requires Gentle(a) && Gentle(b)
    ensures Gentle(a + b)
  {
  }

  /** The application reads and the worker injects, k times. */
  function Turns(k: nat): seq<NetStep> {
    if k == 0 then [] else [Outside(Read)] + ([Injects] + Turns(k - 1))
  }

  lemma OneTurn(net: Net, rest: seq<NetStep>) returns (next: Net)
    ensures next == net.(tsr := Inject(Take(net.tsr, Read)))
    ensures Play(net, [Outside(Read)] + ([Injects] + rest)) == Play(next, rest)
  {
    var a := net.(tsr := Take(net.tsr, Read));
    assert Move(net, Outside(Read)) == a;
    next := a.(tsr := Inject(a.tsr));
    assert Move(a, Injects) == next;
    PlayOne(net, Outside(Read), [Injects] + rest);
    PlayOne(a, Injects, rest);
  }

  lemma {:induction false} TurnsAreRounds(net: Net, k: nat)
    ensures Play(net, Turns(k)) == net.(tsr := Rounds(net.tsr, k)) && Gentle(Turns(k))
    decreases k
  {
    if k == 0 {
    } else {
      var next := OneTurn(net, Turns(k - 1));
      FirstRound(net.tsr, next.tsr, k - 1);
      TurnsAreRounds(next, k - 1);
    }
  }

  function Hearings(k: nat): seq<NetStep> {
    if k == 0 then [] else [HostReads] + Hearings(k - 1)
  }

  /** The host reads the first k packets of the line. */
  lemma {:induction false} HostHearsMany(net: Net, k: nat) returns (end: Net)
    requires net.host.connected && k <= |net.tsr.traffic.line|
    ensures end == Play(net, Hearings(k)) && Gentle(Hearings(k))
    ensures end.tsr == net.tsr.(traffic := net.tsr.traffic.(line := net.tsr.traffic.line[k..]))
    ensures end.host.connected
    decreases k
  {
    if k == 0 {
      end := net;
    } else {
      var next := Move(net, HostReads);
      PlayOne(net, HostReads, Hearings(k - 1));
      end := HostHearsMany(next, k - 1);
      assert net.tsr.traffic.line[1..][k - 1..] == net.tsr.traffic.line[k..];
    }
  }

  // ----- an OPEN over staged input misleads the bridge -----

  /** The staged input is about to be acknowledged behind the OPEN at `at`. */
  ghost predicate Overtaken(net: Net, open: Message, ack: Message, at: nat) {
    var s := net.tsr;
    && s.port.isOpen && Orderly(s) && Due(s.staged) == [ack] && IsAck(ack)
    && |s.traffic.line| == at + 1 && s.traffic.line[at] == open
    && open.packet.kind == OPEN_IME && ack.n < open.n
  }

  lemma SendsOpen(s: Tsr, t: Tsr) returns (open: Message)
    requires t == SendOpenIme(s) && Transmits(s)
    ensures t.port == s.port && t.staged == s.staged && t.queue == s.queue
    ensures t.traffic.line == s.traffic.line + [open]
    ensures open.packet.kind == OPEN_IME && open.n == s.session.sequence + 1
  {
    var ok;
    open, ok := SendOpenEffect(s);
  }

  /** The worker after a step that sends an OPEN over staged input. */
  lemma StepSendsOpen(net: Net, step: NetStep) returns (s: Tsr)
    requires OpensOverInput(net, step)
    ensures s.session.sequence == net.tsr.session.sequence && s.port == net.tsr.port && s.staged == net.tsr.staged
    ensures s.queue == net.tsr.queue && s.traffic == net.tsr.traffic
    ensures Move(net, step).tsr == SendOpenIme(s) && Move(net, step).openN == net.openN
  {
    s := if step.Opens? then net.tsr else net.tsr.(session := net.tsr.session.(link := Ready, waitTicks := 0));
  }

  lemma OpenGoesOut(net: Net, step: NetStep, mask: byte) returns (open: Message, ack: Message)
    requires Agreed(net, mask) && OpensOverInput(net, step)
    ensures Overtaken(Move(net, step), open, ack, |net.tsr.traffic.line|)
  {
    var s := StepSendsOpen(net, step);
    open := SendsOpen(s, Move(net, step).tsr);
    ack := Ack(if s.staged.text != [] then TEXT_ACK else KEY_ACK, s.staged.sequence);
    assert Due(s.staged) == [ack];
  }

  function AlwaysReady(): seq<bool> {
    seq(10, _ => true)
  }

  /** A bridge is there and the transmitter ready once. */
  lemma Meets(net: Net, open: Message, ack: Message, at: nat) returns (end: Net, steps: seq<NetStep>)
    requires Overtaken(net, open, ack, at)
    ensures Overtaken(end, open, ack, at) && Prompt(end.tsr) && end.host.connected
    ensures end == Play(net, steps) && Gentle(steps)
  {
    var first, second := HostConnects, Outside(Transmitter([AlwaysReady()]));
    steps := [first] + ([second] + []);
    PlayOne(net, first, [second] + []);
    PlayOne(Move(net, first), second, []);
    end := Move(Move(net, first), second);
  }

  lemma AckGoesOut(net: Net, open: Message, ack: Message, at: nat) returns (end: Net, steps: seq<NetStep>)
    requires Overtaken(net, open, ack, at) && Prompt(net.tsr) && net.host.connected
    ensures end == Play(net, steps) && Gentle(steps) && end.host.connected
    ensures end.tsr.traffic.line == net.tsr.traffic.line + [ack]
  {
    var k := InputGetsThrough(net.tsr);
    steps := Turns(k);
    TurnsAreRounds(net, k);
    end := Play(net, steps);
  }

  /** The bridge reads up to the OPEN and uses it. */
  lemma BridgeMovesOn(net: Net, open: Message, ack: Message, at: nat) returns (end: Net, steps: seq<NetStep>)
    requires net.host.connected && |net.tsr.traffic.line| == at + 2 && open.packet.kind == OPEN_IME
    requires net.tsr.traffic.line[at] == open && net.tsr.traffic.line[at + 1] == ack
    ensures end == Play(net, steps) && Gentle(steps) && end.tsr.traffic.line == [ack]
    ensures end.openN == open.n && end.asked.Some? && end.asked.value.n == open.n && end.asked.value in end.toTsr
  {
    var heard := HostHearsMany(net, at);
    var last := [HostReads] + ([HostAsks(Key(1))] + []);
    var invited := Move(heard, HostReads);
    steps := Hearings(at) + last;
    PlayConcat(net, Hearings(at), last);
    PlayOne(heard, HostReads, [HostAsks(Key(1))] + []);
    PlayOne(invited, HostAsks(Key(1)), []);
    end := Move(invited, HostAsks(Key(1)));
    GentleConcat(Hearings(at), last);
    assert heard.tsr.traffic.line == [open, ack] && [open, ack][1..] == [ack];
    assert end.toTsr[|end.toTsr| - 1] == end.asked.value;
  }

  lemma Joined(net: Net, a: seq<NetStep>, b: seq<NetStep>, c: seq<NetStep>)
    requires Gentle(a) && Gentle(b) && Gentle(c)
    ensures Play(net, a + (b + c)) == Play(Play(Play(net, a), b), c) && Gentle(a + (b + c))
  {
    PlayConcat(net, a, b + c);
    PlayConcat(Play(net, a), b, c);
    GentleConcat(b, c);
    GentleConcat(a, b + c);
  }

  /** From agreement, once an OPEN has gone out over staged input, fresh messages and no further such OPEN are enough to
      mislead the bridge: it has asked again under the new OPEN, that request is still on its way, and the next packet
      it reads acknowledges an older one. */
  lemma OpenOverInputMisleads(net: Net, step: NetStep, mask: byte) returns (end: Net, more: seq<NetStep>)
    requires Agreed(net, mask) && OpensOverInput(net, step)
    ensures end == Play(Move(net, step), more) && FreshRun(Move(net, step), more) && CleanRun(Move(net, step), more)
    ensures end.tsr.traffic.line != [] && IsAck(end.tsr.traffic.line[0]) && end.asked.Some?
    ensures end.tsr.traffic.line[0].n < end.asked.value.n == end.openN && end.asked.value in end.toTsr
    ensures Mistaken(end)
  {
    var at := |net.tsr.traffic.line|;
    var open, ack := OpenGoesOut(net, step, mask);
    var a, first := Meets(Move(net, step), open, ack, at);
    var b, second := AckGoesOut(a, open, ack, at);
    var third;
    end, third := BridgeMovesOn(b, open, ack, at);
    more := first + (second + third);
    Joined(Move(net, step), first, second, third);
    GentleRun(Move(net, step), more);
  }

  // ----- the bridge is never misled exactly when no OPEN goes out over staged input -----

  /** No moment of the run, and no continuation of it on fresh messages without an OPEN over staged input, has an
      acknowledgement on the line that is not for the bridge's last request. */
  ghost predicate NeverMistaken(net: Net, steps: seq<NetStep>)
    decreases |steps|
  {
    && (forall more :: FreshRun(net, more) && CleanRun(net, more) ==> !Mistaken(Play(net, more)))
    && (steps == [] || NeverMistaken(Move(net, steps[0]), steps[1..]))
  }

  lemma CleanIsNotMistaken(net: Net, more: seq<NetStep>, mask: byte)
    requires Agreed(net, mask) && FreshRun(net, more) && CleanRun(net, more)
    ensures !Mistaken(Play(net, more))
  {
    CleanRunAgrees(net, more, mask);
    AgreesAtEnd(net, more, mask);
    AgreedIsNotMistaken(Play(net, more), mask);
  }

  lemma OpenOverInputIsMistaken(net: Net, step: NetStep, rest: seq<NetStep>, mask: byte)
    requires Agreed(net, mask) && OpensOverInput(net, step)
    ensures !NeverMistaken(Move(net, step), rest)
  {
    var end, more := OpenOverInputMisleads(net, step, mask);
  }

  /** Over every run on fresh messages the bridge can be misled, then or later, exactly when an OPEN goes out while
      input is staged. */
  lemma {:induction false} NeverMistakenIff(net: Net, steps: seq<NetStep>, mask: byte)
    requires Agreed(net, mask) && FreshRun(net, steps)
    ensures NeverMistaken(net, steps) <==> CleanRun(net, steps)
    decreases |steps|
  {
    forall more | FreshRun(net, more) && CleanRun(net, more) ensures !Mistaken(Play(net, more)) {
      CleanIsNotMistaken(net, more, mask);
    }
    if steps == [] {
    } else if OpensOverInput(net, steps[0]) {
      OpenOverInputIsMistaken(net, steps[0], steps[1..], mask);
    } else {
      StepAgrees(net, steps[0], mask);
      NeverMistakenIff(Move(net, steps[0]), steps[1..], mask);
    }
  }
}
