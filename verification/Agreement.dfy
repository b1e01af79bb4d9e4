/** The resident program and the interactive bridge over two lossy first-in first-out lines. */
module Agreement {
  import opened Bytes
  import opened Codec
  import opened KeyEncoding
  import opened Worker
  import opened WorkerInvariants
  import opened Traces
  import opened ByteFlow
  import opened HostSession
  import SessionLife

  /** Both parties. `tsr.traffic.line` carries packets to the host and `toTsr` packets back. `openN` is the ordinal of
      the last OPEN the host has processed, `asked` the last TEXT, KEY or CLOSE it has sent and `request` what the user
      asked for with it. */
  datatype Net = Net(tsr: Tsr, host: Host, openN: nat, asked: Option<Message>, toTsr: seq<Message>,
                     request: Option<Request>)

  function Start(mask: byte): Net {
    Net(Initial(mask), DISCONNECTED, 0, None, [], None)
  }

  predicate IsRequest(m: Message) {
    m.packet.kind == TEXT || m.packet.kind == KEY || m.packet.kind == CLOSE_IME
  }

  predicate IsAck(m: Message) {
    m.packet.kind == TEXT_ACK || m.packet.kind == KEY_ACK
  }

  // ----- what holds at every moment -----

  /** OPENs on the line are newer than the one the host knows, in order, and no acknowledgement is behind one. */
  ghost predicate LineOrder(line: seq<Message>, openSequence: nat, openN: nat) {
    && openN <= openSequence
    && (forall i :: 0 <= i < |line| ==>
          line[i].packet.sequence == Wire(line[i].n)
          && (line[i].packet.kind == OPEN_IME ==> openN < line[i].n <= openSequence))
    && (forall i, j :: 0 <= i < j < |line| && line[i].packet.kind == OPEN_IME ==>
          !IsAck(line[j]) && (line[j].packet.kind == OPEN_IME ==> line[i].n < line[j].n))
  }

  ghost predicate NoOpens(line: seq<Message>) {
    forall i :: 0 <= i < |line| ==> line[i].packet.kind != OPEN_IME
  }

  /** Requests on their way are for different sessions, in order, the last one sent being `asked`. */
  ghost predicate RequestOrder(toTsr: seq<Message>, asked: Option<Message>, openN: nat) {
    && (asked.Some? ==> IsRequest(asked.value) && asked.value.n <= openN)
    && (forall i :: 0 <= i < |toTsr| && IsRequest(toTsr[i]) ==>
          asked.Some? && toTsr[i].n <= asked.value.n && toTsr[i].packet.sequence == Wire(toTsr[i].n)
          && (toTsr[i].n == asked.value.n ==> toTsr[i] == asked.value))
    && (forall i, j :: 0 <= i < j < |toTsr| && IsRequest(toTsr[i]) && IsRequest(toTsr[j]) ==> toTsr[i].n < toTsr[j].n)
  }

  ghost predicate NoRequests(toTsr: seq<Message>) {
    forall i :: 0 <= i < |toTsr| ==> !IsRequest(toTsr[i])
  }

  /** A host that may ask holds an OPEN it has not used. */
  ghost predicate HostSide(h: Host, openN: nat, asked: Option<Message>) {
    h.imeReady ==> h.openSequence == Wire(openN) && (asked.Some? ==> asked.value.n < openN)
  }

  ghost predicate Holds(t: Staged, p: Packet) {
    && (t.text != [] ==> p.kind == TEXT && p.payload == t.text)
    && (t.keyActive ==> p.kind == KEY && |p.payload| == 1 && KeyWord(p.payload[0]) == Some(t.key))
  }

  /** Staged input is the host's last request, taken under the last OPEN it knows; no newer OPEN and no further request
      is on its way. */
  ghost predicate OneInput(t: Staged, b: Books, asked: Option<Message>, openN: nat, line: seq<Message>,
                           toTsr: seq<Message>) {
    InputStaged(t) ==>
      && asked.Some? && t.sequence == asked.value.n == openN && Holds(t, asked.value.packet)
      && !(t.text != [] && t.keyActive)
      && (t.text != [] ==> b.textN == t.sequence) && (t.keyActive ==> b.keyN == t.sequence)
      && NoRequests(toTsr) && NoOpens(line)
  }

  /** All the words of request n have been queued. */
  ghost predicate Delivered(b: Books, p: Packet, n: nat) {
    if p.kind == TEXT then b.textN == n && b.text == p.payload && b.put == EncodeText(p.payload)
    else
      && p.kind == KEY && |p.payload| == 1 && KeyWord(p.payload[0]).Some?
      && b.lastKeyN == n && b.lastKey == KeyWord(p.payload[0])
  }

  /** An acknowledgement on the line is for the host's last request, whose own words are all queued. */
  ghost predicate AckMatches(ack: Message, asked: Option<Message>, openN: nat, b: Books) {
    && asked.Some? && ack.n == asked.value.n == openN
    && asked.value.packet.kind == (if ack.packet.kind == TEXT_ACK then TEXT else KEY)
    && Delivered(b, asked.value.packet, ack.n)
  }

  ghost predicate Acks(line: seq<Message>, t: Staged, b: Books, asked: Option<Message>, openN: nat,
                       toTsr: seq<Message>) {
    forall i :: 0 <= i < |line| && IsAck(line[i]) ==>
      AckMatches(line[i], asked, openN, b) && !InputStaged(t) && NoRequests(toTsr)
  }

  /** Input is accepted only when everything accepted before has been acknowledged or given up. */
  predicate NoOverlap(trace: seq<Event>) {
    trace == [] ||
    (var before, e := BooksOf(trace[..|trace| - 1]), trace[|trace| - 1];
     NoOverlap(trace[..|trace| - 1]) && (e.TookText? || e.TookKey? ==> !before.textOpen && before.key == None))
  }

  ghost predicate Tied(net: Net) {
    var s := net.tsr;
    var b := BooksOf(s.traffic.trace);
    && LineOrder(s.traffic.line, s.session.openSequence, net.openN) && s.session.openSequence <= s.session.sequence
    && RequestOrder(net.toTsr, net.asked, net.openN)
    && HostSide(net.host, net.openN, net.asked)
    && OneInput(s.staged, b, net.asked, net.openN, s.traffic.line, net.toTsr)
    && Acks(s.traffic.line, s.staged, b, net.asked, net.openN, net.toTsr)
    && NoOverlap(s.traffic.trace)
    && Linked(s)
  }

  ghost predicate Agreed(net: Net, mask: byte) {
    Tied(net) && Core(net.tsr, mask)
  }

  // ----- the steps -----

  /** The stages of a worker call are steps of their own: Hotkey, any number of Handle, Injects, Opens, Ticks. What
      holds of every order of them, with anything else in between, holds of whole calls, which are WholeCall's. */
  datatype NetStep =
    | Hotkey(modifier: bool, space: bool)
    | Handle
    | Injects
    | Opens
    | Ticks
    | Outside(step: Step)
    | HostReads
    | HostAsks(request: Request)
    | HostConnects
    | HostDrops
    | LoseToTsr(i: nat)
    | LoseToHost(i: nat)

  function Without(line: seq<Message>, i: nat): seq<Message> {
    if i < |line| then line[..i] + line[i + 1..] else line
  }

  function HostHears(net: Net): Net
    requires net.tsr.traffic.line != []
  {
    var m := net.tsr.traffic.line[0];
    var (host, reply) := ServePacket(net.host, m.packet);
    var opens := m.packet.kind == OPEN_IME;
    Net(net.tsr.(traffic := net.tsr.traffic.(line := net.tsr.traffic.line[1..])), host,
        if opens then m.n else net.openN, net.asked,
        if reply.Some? then net.toTsr + [Message(reply.value, m.n)] else net.toTsr, net.request)
  }

  function HostSays(net: Net, r: Request): Net {
    var (host, packet) := Ask(net.host, r);
    match packet {
      case None => net
      case Some(p) =>
        var m := Message(p, net.openN);
        net.(host := host, asked := Some(m), toTsr := net.toTsr + [m], request := Some(r))
    }
  }

  /** The oldest packet on its way is taken; a closed link does not look at it. */
  function TakePacket(net: Net): Net
    requires net.toTsr != []
  {
    net.(tsr := if net.tsr.session.link == Closed then net.tsr else HandlePacket(net.tsr, net.toTsr[0].packet),
         toTsr := net.toTsr[1..])
  }

  predicate IsOutside(step: Step) {
    step.ReturnedSpace? || step.Keystroke? || step.Read? || step.Transmitter?
  }

  function Move(net: Net, step: NetStep): Net {
    match step {
      case Hotkey(modifier, space) => net.(tsr := ServiceHotkey(net.tsr, modifier, space))
      case Handle => if net.toTsr == [] then net else TakePacket(net)
      case Injects => net.(tsr := Inject(net.tsr))
      case Opens => net.(tsr := OpenOrStart(net.tsr))
      case Ticks => net.(tsr := Tick(net.tsr))
      case Outside(step) => if IsOutside(step) then net.(tsr := Take(net.tsr, step)) else net
      case HostReads => if net.host.connected && net.tsr.traffic.line != [] then HostHears(net) else net
      case HostAsks(request) => HostSays(net, request)
      case HostConnects => net.(host := CONNECTED)
      case HostDrops => net.(host := DISCONNECTED)
      case LoseToTsr(i) => net.(toTsr := Without(net.toTsr, i))
      case LoseToHost(i) => net.(tsr := net.tsr.(traffic := net.tsr.traffic.(line := Without(net.tsr.traffic.line, i))))
    }
  }

  function Play(net: Net, steps: seq<NetStep>): Net
    decreases |steps|
  {
    if steps == [] then net else Play(Move(net, steps[0]), steps[1..])
  }

  /** No request is taken for the open session that is 65536 or more sequence steps old. */
  predicate Fresh(net: Net, step: NetStep) {
    step.Handle? && net.toTsr != [] && IsRequest(net.toTsr[0]) && ForSession(net.tsr.session, net.toTsr[0].packet) ==>
      net.tsr.session.openSequence < net.toTsr[0].n + 0x1_0000
  }

  predicate FreshRun(net: Net, steps: seq<NetStep>)
    decreases |steps|
  {
    steps == [] || (Fresh(net, steps[0]) && FreshRun(Move(net, steps[0]), steps[1..]))
  }

  /** The step sends an OPEN while input is staged. */
  predicate OpensOverInput(net: Net, step: NetStep) {
    var s := net.tsr;
    && InputStaged(s.staged) && s.session.openPending && Transmits(s)
    && match step {
         case Handle => net.toTsr != [] && net.toTsr[0].packet.kind == PONG && s.session.link == HelloWait
         case Opens => s.session.link == Ready && !s.session.imeActive
         case _ => false
       }
  }

  predicate CleanRun(net: Net, steps: seq<NetStep>)
    decreases |steps|
  {
    steps == [] || (!OpensOverInput(net, steps[0]) && CleanRun(Move(net, steps[0]), steps[1..]))
  }

  // ----- whole worker calls -----

  function Handles(k: nat): seq<NetStep> {
    if k == 0 then [] else [Handle] + Handles(k - 1)
  }

  /** One worker call that finds k packets. */
  function WholeCall(modifier: bool, space: bool, k: nat): seq<NetStep> {
    [Hotkey(modifier, space)] + (Handles(k) + [Injects, Opens, Ticks])
  }

  function PacketsIn(messages: seq<Message>): seq<Packet> {
    if messages == [] then [] else [messages[0].packet] + PacketsIn(messages[1..])
  }

  lemma {:induction false} PlayConcat(net: Net, a: seq<NetStep>, b: seq<NetStep>)
    ensures Play(net, a + b) == Play(Play(net, a), b)
    decreases |a|
  {
    if a == [] {
      assert a + b == b;
    } else {
      assert (a + b)[1..] == a[1..] + b;
      PlayConcat(Move(net, a[0]), a[1..], b);
    }
  }

  lemma PlayOne(net: Net, step: NetStep, rest: seq<NetStep>)
    ensures Play(net, [step] + rest) == Play(Move(net, step), rest)
  {
    assert ([step] + rest)[1..] == rest;
  }

  lemma {:induction false} HandlesAll(net: Net, k: nat)
    requires k <= |net.toTsr|
    ensures Play(net, Handles(k)) == net.(tsr := HandleAll(net.tsr, PacketsIn(net.toTsr[..k])), toTsr := net.toTsr[k..])
    decreases k
  {
    if k == 0 {
      assert net.toTsr[0..] == net.toTsr;
    } else {
      var next := TakePacket(net);
      PlayOne(net, Handle, Handles(k - 1));
      HandlesAll(next, k - 1);
      assert net.toTsr[..k][1..] == next.toTsr[..k - 1] && next.toTsr[k - 1..] == net.toTsr[k..];
      FirstHandled(net.tsr, net.toTsr[0].packet, PacketsIn(next.toTsr[..k - 1]));
    }
  }

  lemma FirstHandled(s: Tsr, p: Packet, rest: seq<Packet>)
    ensures HandleAll(s, [p] + rest) == HandleAll(if s.session.link == Closed then s else HandlePacket(s, p), rest)
  {
    assert ([p] + rest)[1..] == rest;
  }

  lemma PlayThree(net: Net, a: NetStep, b: NetStep, c: NetStep)
    ensures Play(net, [a, b, c]) == Move(Move(Move(net, a), b), c)
  {
    assert [a, b, c] == [a] + ([b] + ([c] + []));
    PlayOne(net, a, [b] + ([c] + []));
    PlayOne(Move(net, a), b, [c] + []);
    PlayOne(Move(Move(net, a), b), c, []);
  }

  lemma StageMoves(net: Net, step: NetStep, t: Tsr)
    requires step.Injects? ==> t == Inject(net.tsr)
    requires step.Opens? ==> t == OpenOrStart(net.tsr)
    requires step.Ticks? ==> t == Tick(net.tsr)
    requires step.Injects? || step.Opens? || step.Ticks?
    ensures Move(net, step) == net.(tsr := t)
  {
  }

  lemma LastStages(net: Net, a: Tsr, b: Tsr, c: Tsr)
    requires a == Inject(net.tsr) && b == OpenOrStart(a) && c == Tick(b)
    ensures Play(net, [Injects, Opens, Ticks]) == net.(tsr := c)
  {
    PlayThree(net, Injects, Opens, Ticks);
    StageMoves(net, Injects, a);
    StageMoves(net.(tsr := a), Opens, b);
    StageMoves(net.(tsr := b), Ticks, c);
  }

  /** A worker call is its stages, one after the other. */
  lemma CallIsItsStages(net: Net, modifier: bool, space: bool, k: nat)
    requires k <= |net.toTsr|
    ensures Play(net, WholeCall(modifier, space, k)) ==
            net.(tsr := PacketService(net.tsr, modifier, space, PacketsIn(net.toTsr[..k])), toTsr := net.toTsr[k..])
  {
    var a := Move(net, Hotkey(modifier, space));
    PlayOne(net, Hotkey(modifier, space), Handles(k) + [Injects, Opens, Ticks]);
    PlayConcat(a, Handles(k), [Injects, Opens, Ticks]);
    HandlesAll(a, k);
    var h := Play(a, Handles(k));
    LastStages(h, Inject(h.tsr), OpenOrStart(Inject(h.tsr)), Tick(OpenOrStart(Inject(h.tsr))));
  }

  // ----- logging and sending -----

  lemma NoOverlapSnoc(trace: seq<Event>, e: Event)
    requires NoOverlap(trace)
    requires e.TookText? || e.TookKey? ==> !BooksOf(trace).textOpen && BooksOf(trace).key == None
    ensures NoOverlap(trace + [e])
  {
    assert (trace + [e])[..|trace|] == trace;
  }

  /** A packet that is neither an OPEN nor an acknowledgement may join the line. */
  lemma PushOther(line: seq<Message>, openSequence: nat, openN: nat, m: Message)
    requires LineOrder(line, openSequence, openN) && m.packet.sequence == Wire(m.n)
    requires m.packet.kind != OPEN_IME && !IsAck(m)
    ensures LineOrder(line + [m], openSequence, openN)
  {
  }

  /** A new OPEN may join the line, and its number may be used up without it. */
  lemma PushOpen(line: seq<Message>, openSequence: nat, openN: nat, m: Message)
    requires LineOrder(line, openSequence, openN) && m.packet.sequence == Wire(m.n)
    requires m.packet.kind == OPEN_IME && m.n > openSequence
    ensures LineOrder(line + [m], m.n, openN) && LineOrder(line, m.n, openN)
  {
  }

  lemma PushAck(line: seq<Message>, openSequence: nat, openN: nat, m: Message)
    requires LineOrder(line, openSequence, openN) && m.packet.sequence == Wire(m.n)
    requires IsAck(m) && NoOpens(line)
    ensures LineOrder(line + [m], openSequence, openN)
  {
  }

  /** What of the books acknowledgements and staged input depend on. */
  predicate SameInput(b: Books, c: Books) {
    && c.text == b.text && c.textN == b.textN && c.put == b.put && c.keyN == b.keyN
    && c.lastKey == b.lastKey && c.lastKeyN == b.lastKeyN
  }

  /** Acknowledgements stay matched when another packet joins them and no more is staged than before. */
  lemma AcksKept(line: seq<Message>, t: Staged, b: Books, asked: Option<Message>, openN: nat, toTsr: seq<Message>,
                 line': seq<Message>, t': Staged, b': Books, m: Message)
    requires Acks(line, t, b, asked, openN, toTsr) && (InputStaged(t') ==> InputStaged(t))
    requires line' == line || (line' == line + [m] && !IsAck(m))
    requires SameInput(b, b')
    ensures Acks(line', t', b', asked, openN, toTsr)
  {
  }

  /** The books after an attempt to send something other than an acknowledgement. */
  lemma TriedOther(trace: seq<Event>, m: Message, ok: bool)
    requires NoOverlap(trace) && !IsAck(m)
    ensures NoOverlap(trace + [Tried(m, ok)]) && BooksOf(trace + [Tried(m, ok)]) == BooksOf(trace)
  {
    NoOverlapSnoc(trace, Tried(m, ok));
    Snoc(trace, Tried(m, ok));
  }

  /** A step of the worker that sends at most one packet, not an acknowledgement, and stages nothing; an OPEN goes out
      only when nothing is staged. */
  lemma SentOther(net: Net, t: Tsr, m: Message)
    requires Tied(net) && Linked(t) && !IsAck(m)
    requires t.staged == net.tsr.staged || !InputStaged(t.staged)
    requires t.traffic.line == net.tsr.traffic.line || t.traffic.line == net.tsr.traffic.line + [m]
    requires m.packet.kind == OPEN_IME && InputStaged(t.staged) ==> t.traffic.line == net.tsr.traffic.line
    requires LineOrder(t.traffic.line, t.session.openSequence, net.openN)
    requires t.session.openSequence <= t.session.sequence
    requires NoOverlap(t.traffic.trace) && SameInput(BooksOf(net.tsr.traffic.trace), BooksOf(t.traffic.trace))
    ensures Tied(net.(tsr := t))
  {
    var s := net.tsr;
    AcksKept(s.traffic.line, s.staged, BooksOf(s.traffic.trace), net.asked, net.openN, net.toTsr,
             t.traffic.line, t.staged, BooksOf(t.traffic.trace), m);
  }

  /** Sending an OPEN keeps the parties tied exactly when it does not go out over staged input. */
  lemma SendOpenTied(net: Net)
    requires Tied(net)
    ensures Tied(net.(tsr := SendOpenIme(net.tsr))) <==> !(InputStaged(net.tsr.staged) && Transmits(net.tsr))
  {
    var s := net.tsr;
    var m, ok := SendOpenEffect(s);
    if InputStaged(s.staged) && ok {
      OpenOverInput(s.traffic.line, m);
    } else {
      SendOpenLinked(s);
      PushOpen(s.traffic.line, s.session.openSequence, net.openN, m);
      TriedOther(s.traffic.trace, m, ok);
      SentOther(net, SendOpenIme(s), m);
    }
  }

  lemma OpenOverInput(line: seq<Message>, m: Message)
    requires m.packet.kind == OPEN_IME
    ensures !NoOpens(line + [m])
  {
    assert (line + [m])[|line|] == m;
  }

  lemma StartEffect(s: Tsr) returns (m: Message, ok: bool)
    ensures var t, n := StartLink(s), s.session.sequence + 1;
      && m == Message(Packet(HELLO, Wire(n), HELLO_PAYLOAD), n)
      && t.staged == s.staged && t.queue == s.queue
      && t.session.sequence == n && t.session.openSequence == s.session.openSequence
      && t.traffic.trace == s.traffic.trace + [Tried(m, ok)]
      && t.traffic.line == (if ok then s.traffic.line + [m] else s.traffic.line)
  {
    var n := s.session.sequence + 1;
    m := Message(Packet(HELLO, Wire(n), HELLO_PAYLOAD), n);
    ok := Transmit(s.traffic, true, m).1;
  }

  lemma StartTied(net: Net)
    requires Tied(net)
    ensures Tied(net.(tsr := StartLink(net.tsr)))
  {
    var s := net.tsr;
    var m, ok := StartEffect(s);
    StartLinked(s);
    PushOther(s.traffic.line, s.session.openSequence, net.openN, m);
    TriedOther(s.traffic.trace, m, ok);
    SentOther(net, StartLink(s), m);
  }

  lemma CloseEffect(s: Tsr) returns (m: Message, before: seq<Event>, ok: bool)
    ensures var t, n := CloseIme(s), s.session.openSequence;
      && m == Message(Packet(CLOSE_IME, Wire(n), []), n)
      && !InputStaged(t.staged) && t.queue == s.queue
      && t.session.sequence == s.session.sequence && t.session.openSequence == n
      && before == s.traffic.trace + (if s.session.link == Ready then [Tried(m, ok)] else [])
      && t.traffic.trace == before + [SessionClosed]
      && t.traffic.line == (if s.session.link == Ready && ok then s.traffic.line + [m] else s.traffic.line)
  {
    var n := s.session.openSequence;
    m := Message(Packet(CLOSE_IME, Wire(n), []), n);
    ok := Transmit(s.traffic, s.port.isOpen, m).1;
    before := s.traffic.trace + (if s.session.link == Ready then [Tried(m, ok)] else []);
  }

  /** Closing logs at most one attempt and then the close. */
  lemma ClosedLog(trace: seq<Event>, m: Message, ok: bool, tried: bool)
    requires NoOverlap(trace) && !IsAck(m)
    ensures var before := trace + (if tried then [Tried(m, ok)] else []);
      NoOverlap(before + [SessionClosed]) && SameInput(BooksOf(trace), BooksOf(before + [SessionClosed]))
  {
    var before := trace + (if tried then [Tried(m, ok)] else []);
    if tried {
      TriedOther(trace, m, ok);
    } else {
      assert before == trace;
    }
    NoOverlapSnoc(before, SessionClosed);
    Snoc(before, SessionClosed);
  }

  lemma CloseTied(net: Net)
    requires Tied(net)
    ensures Tied(net.(tsr := CloseIme(net.tsr)))
  {
    var s := net.tsr;
    var m, before, ok := CloseEffect(s);
    CloseLinked(s);
    ClosedLog(s.traffic.trace, m, ok, s.session.link == Ready);
    PushOther(s.traffic.line, s.session.openSequence, net.openN, m);
    SentOther(net, CloseIme(s), m);
  }

  // ----- the worker handles packets -----

  lemma WireInjective(a: nat, b: nat)
    requires Wire(a) == Wire(b) && b <= a < b + 0x1_0000
    ensures a == b
  {
  }

  /** A request the worker takes to be for its session is the host's last one, for that very session; nothing is staged,
      no acknowledgement and no newer OPEN is on the line, and no further request is on its way. */
  lemma MatchedRequest(net: Net)
    requires Tied(net) && net.toTsr != [] && IsRequest(net.toTsr[0])
    requires ForSession(net.tsr.session, net.toTsr[0].packet) && Fresh(net, Handle)
    ensures net.asked == Some(net.toTsr[0]) && net.toTsr[0].n == net.openN == net.tsr.session.openSequence
    ensures NoRequests(net.toTsr[1..]) && !InputStaged(net.tsr.staged) && NoOpens(net.tsr.traffic.line)
    ensures forall i :: 0 <= i < |net.tsr.traffic.line| ==> !IsAck(net.tsr.traffic.line[i])
  {
    var m := net.toTsr[0];
    WireInjective(net.tsr.session.openSequence, m.n);
    forall i | 0 <= i < |net.toTsr[1..]| ensures !IsRequest(net.toTsr[1..][i]) {
      assert net.toTsr[1..][i] == net.toTsr[i + 1];
    }
  }

  /** Fewer packets on the way to the worker break nothing. */
  lemma RequestsDropped(net: Net, rest: seq<Message>, from: nat)
    requires Tied(net) && from <= |net.toTsr| && rest == net.toTsr[from..]
    ensures Tied(net.(toTsr := rest))
  {
    assert forall i :: 0 <= i < |rest| ==> rest[i] == net.toTsr[i + from];
  }

  lemma TakenInput(net: Net, t: Tsr, e: Event)
    requires Tied(net) && Linked(t) && net.toTsr != [] && t.traffic.line == net.tsr.traffic.line
    requires t.traffic.trace == net.tsr.traffic.trace + [e] && (e.TookText? || e.TookKey?)
    requires t.session == net.tsr.session.(waitTicks := 0) && e.n == net.openN
    requires net.asked == Some(net.toTsr[0]) && net.toTsr[0].n == net.openN
    requires NoRequests(net.toTsr[1..]) && !InputStaged(net.tsr.staged) && NoOpens(net.tsr.traffic.line)
    requires forall i :: 0 <= i < |t.traffic.line| ==> !IsAck(t.traffic.line[i])
    requires t.staged.sequence == net.openN && Holds(t.staged, net.toTsr[0].packet)
    requires (t.staged.text != [] ==> e.TookText?) && (t.staged.keyActive ==> e.TookKey?)
    ensures Tied(net.(tsr := t, toTsr := net.toTsr[1..]))
  {
    NoOverlapSnoc(net.tsr.traffic.trace, e);
    Snoc(net.tsr.traffic.trace, e);
    RequestsDropped(net, net.toTsr[1..], 1);
  }

  lemma GreetTied(net: Net)
    requires Tied(net) && net.tsr.session.link == HelloWait && net.tsr.session.openPending
    ensures Tied(net.(tsr := Greeted(net.tsr))) <==> !(InputStaged(net.tsr.staged) && Transmits(net.tsr))
  {
    var s := net.tsr;
    SendOpenTied(net.(tsr := s.(session := s.session.(link := Ready, waitTicks := 0))));
  }

  /** Whether the parties stay tied does not depend on packets other than requests leaving the way to the worker. */
  lemma PongDropped(net: Net)
    requires net.toTsr != [] && !IsRequest(net.toTsr[0])
    ensures Tied(net) <==> Tied(net.(toTsr := net.toTsr[1..]))
  {
    var rest := net.toTsr[1..];
    assert forall i :: 0 <= i < |rest| ==> rest[i] == net.toTsr[i + 1];
    assert forall i :: 0 < i < |net.toTsr| ==> net.toTsr[i] == rest[i - 1];
  }

  lemma TakeRequestTied(net: Net)
    requires Tied(net) && net.toTsr != [] && Fresh(net, Handle)
    requires !(net.toTsr[0].packet.kind == PONG && net.tsr.session.link == HelloWait)
    ensures Tied(net.(tsr := HandlePacket(net.tsr, net.toTsr[0].packet), toTsr := net.toTsr[1..]))
  {
    var s, p, rest := net.tsr, net.toTsr[0].packet, net.toTsr[1..];
    var t := HandlePacket(s, p);
    HandlePacketLinked(s, p);
    if p.kind == TEXT && ForSession(s.session, p) && |p.payload| <= MAX_PAYLOAD {
      MatchedRequest(net);
      TakenInput(net, t, TookText(p.payload, s.session.openSequence));
    } else if p.kind == KEY && ForSession(s.session, p) && |p.payload| == 1 && KeyWord(p.payload[0]).Some? {
      MatchedRequest(net);
      TakenInput(net, t, TookKey(KeyWord(p.payload[0]).value, s.session.openSequence));
    } else if p.kind == CLOSE_IME && ForSession(s.session, p) && |p.payload| == 0 {
      CloseTied(net);
      RequestsDropped(net.(tsr := t), rest, 1);
    } else {
      assert t == s;
      RequestsDropped(net, rest, 1);
    }
  }

  lemma HandleStep(net: Net, mask: byte)
    requires Agreed(net, mask) && net.toTsr != [] && Fresh(net, Handle)
    ensures Agreed(TakePacket(net), mask) <==> !OpensOverInput(net, Handle)
  {
    var s, p := net.tsr, net.toTsr[0].packet;
    HandlePacketKeepsCore(s, p, mask);
    if s.session.link == Closed {
      RequestsDropped(net, net.toTsr[1..], 1);
    } else if p.kind == PONG && s.session.link == HelloWait {
      GreetTied(net);
      PongDropped(net.(tsr := Greeted(s)));
    } else {
      TakeRequestTied(net);
    }
  }

  // ----- the worker queues words and acknowledges -----

  lemma PutWordTied(net: Net)
    requires Tied(net) && net.tsr.staged.offset < |net.tsr.staged.text|
    ensures Tied(net.(tsr := PutWord(net.tsr)))
  {
    var s := net.tsr;
    var e := PutText(EncodeKey(s.staged.text, s.staged.offset).0);
    PutWordLinked(s);
    NoOverlapSnoc(s.traffic.trace, e);
    Snoc(s.traffic.trace, e);
  }

  /** What an acknowledgement leaves behind. */
  lemma AckedTied(net: Net, t: Tsr, ack: Message, ok: bool, before: seq<Event>)
    requires Tied(net) && Linked(t) && InputStaged(net.tsr.staged) && !InputStaged(t.staged)
    requires t.session.sequence == net.tsr.session.sequence && t.session.openSequence == net.tsr.session.openSequence
    requires IsAck(ack) && ack.n == net.tsr.staged.sequence && ack.packet.sequence == Wire(ack.n)
    requires net.asked.Some? ==> net.asked.value.packet.kind == (if ack.packet.kind == TEXT_ACK then TEXT else KEY)
    requires NoOverlap(before) && t.traffic.trace == before + [Tried(ack, ok)]
    requires net.asked.Some? ==> Delivered(BooksOf(before), net.asked.value.packet, ack.n)
    requires t.traffic.line == (if ok then net.tsr.traffic.line + [ack] else net.tsr.traffic.line)
    ensures Tied(net.(tsr := t))
  {
    var s := net.tsr;
    NoOverlapSnoc(before, Tried(ack, ok));
    Snoc(before, Tried(ack, ok));
    PushAck(s.traffic.line, s.session.openSequence, net.openN, ack);
    var b := BooksOf(t.traffic.trace);
    assert AckMatches(ack, net.asked, net.openN, b);
    assert forall i :: 0 <= i < |s.traffic.line| ==> !IsAck(s.traffic.line[i]);
  }

  lemma AcknowledgeEffect(s: Tsr, kind: byte) returns (m: Message, ok: bool)
    ensures var t, n := Acknowledge(s, kind), s.staged.sequence;
      && m == Message(Packet(kind, Wire(n), []), n)
      && t.staged == s.staged && t.queue == s.queue
      && t.session.sequence == s.session.sequence && t.session.openSequence == s.session.openSequence
      && t.traffic.trace == s.traffic.trace + [Tried(m, ok)]
      && t.traffic.line == (if ok then s.traffic.line + [m] else s.traffic.line)
  {
    var n := s.staged.sequence;
    m := Message(Packet(kind, Wire(n), []), n);
    ok := Transmit(s.traffic, s.port.isOpen, m).1;
  }

  lemma FinishTied(net: Net)
    requires Tied(net) && net.tsr.staged.text != [] && net.tsr.staged.offset >= |net.tsr.staged.text|
    ensures Tied(net.(tsr := FinishText(net.tsr)))
  {
    var s := net.tsr;
    InjectTextLinked(s, QUEUE_SIZE);
    var m, ok := AcknowledgeEffect(s, TEXT_ACK);
    var put := BooksOf(s.traffic.trace).put;
    assert put + [] == put;
    AckedTied(net, FinishText(s), m, ok, s.traffic.trace);
  }

  lemma {:induction false} InjectTextTied(net: Net, budget: nat)
    requires Tied(net) && net.tsr.staged.text != []
    ensures Tied(net.(tsr := InjectText(net.tsr, budget))) && !InjectText(net.tsr, budget).staged.keyActive
    decreases budget
  {
    if net.tsr.staged.offset >= |net.tsr.staged.text| {
      FinishTied(net);
      var m, ok := AcknowledgeEffect(net.tsr, TEXT_ACK);
    } else if budget > 0 && !Full(net.tsr.queue) {
      PutWordTied(net);
      InjectTextTied(net.(tsr := PutWord(net.tsr)), budget - 1);
    }
  }

  lemma InjectKeyTied(net: Net)
    requires Tied(net) && net.tsr.staged.keyActive
    ensures Tied(net.(tsr := InjectKey(net.tsr)))
  {
    var s := net.tsr;
    InjectKeyLinked(s);
    if !Full(s.queue) {
      var e := PutKey(s.staged.key);
      var t := Log(s.(queue := s.queue + [s.staged.key]), e);
      NoOverlapSnoc(s.traffic.trace, e);
      Snoc(s.traffic.trace, e);
      var m, ok := AcknowledgeEffect(t, KEY_ACK);
      AckedTied(net, InjectKey(s), m, ok, t.traffic.trace);
    }
  }

  lemma InjectTied(net: Net, mask: byte)
    requires Agreed(net, mask)
    ensures Agreed(net.(tsr := Inject(net.tsr)), mask)
  {
    var s := net.tsr;
    InjectKeepsCore(s, mask);
    if s.staged.text != [] {
      InjectTextTied(net, TEXT_BUDGET);
    } else if s.staged.keyActive {
      InjectKeyTied(net);
    }
  }

  // ----- the other stages of a worker call -----

  lemma ToggledTied(net: Net)
    requires Tied(net)
    ensures Tied(net.(tsr := Log(net.tsr, Toggled)))
  {
    var trace := net.tsr.traffic.trace;
    NoOverlapSnoc(trace, Toggled);
    Snoc(trace, Toggled);
  }

  lemma ToggleTied(net: Net, mask: byte)
    requires Agreed(net, mask)
    ensures Agreed(net.(tsr := Toggle(net.tsr)), mask)
  {
    var s := net.tsr;
    ToggleKeepsCore(s, mask);
    ToggledTied(net);
    if s.session.imeEnabled {
      CloseTied(net.(tsr := Log(s, Toggled)));
    }
  }

  /** The queue and the latch play no part. */
  lemma QueueChanged(net: Net, latched: bool, queue: seq<u16>, mask: byte)
    requires Agreed(net, mask) && |queue| <= QUEUE_SIZE
    ensures Agreed(net.(tsr := net.tsr.(latched := latched, queue := queue)), mask)
  {
  }

  lemma HotkeyTied(net: Net, modifier: bool, space: bool, mask: byte)
    requires Agreed(net, mask)
    ensures Agreed(net.(tsr := ServiceHotkey(net.tsr, modifier, space)), mask)
  {
    var s := net.tsr;
    var latched := PollHotkey(s.latched, modifier, space).1;
    if modifier && space && HotkeyQueued(s.queue) {
      var queue := s.queue[..|s.queue| - 1];
      QueueChanged(net, latched, queue, mask);
      ToggleTied(net.(tsr := s.(latched := latched, queue := queue)), mask);
    } else {
      QueueChanged(net, latched, s.queue, mask);
    }
  }

  lemma StartKeepsCore(s: Tsr, mask: byte)
    requires Core(s, mask) && s.session.link == Closed && s.session.openPending
    ensures Core(StartLink(s), mask)
  {
  }

  lemma OpenStep(net: Net, mask: byte)
    requires Agreed(net, mask)
    ensures Agreed(net.(tsr := OpenOrStart(net.tsr)), mask) <==> !OpensOverInput(net, Opens)
  {
    var s := net.tsr;
    if s.session.openPending && !s.session.imeActive {
      if s.session.link == Ready {
        SendOpenKeepsCore(s, mask);
        SendOpenTied(net);
      } else if s.session.link == Closed {
        StartTied(net);
        StartKeepsCore(s, mask);
      }
    }
  }

  /** The timeout, too: staged input stays the host's last request. */
  lemma TickTied(net: Net, mask: byte)
    requires Agreed(net, mask)
    ensures Agreed(net.(tsr := Tick(net.tsr)), mask)
  {
    var s, t := net.tsr, Tick(net.tsr);
    assert t.staged == s.staged && t.traffic == s.traffic;
    assert t.session.sequence == s.session.sequence && t.session.openSequence == s.session.openSequence;
  }

  lemma ReturnedSpaceTied(net: Net, modifier: bool, space: bool, mask: byte)
    requires Agreed(net, mask)
    ensures Agreed(net.(tsr := ReturnedHotkey(net.tsr, modifier, space).0), mask)
  {
    if modifier && space {
      ToggleTied(net.(tsr := net.tsr.(latched := PollHotkey(net.tsr.latched, modifier, space).1)), mask);
    }
  }

  /** Nor does the transmitter's readiness. */
  lemma ReadyChanged(net: Net, ready: seq<seq<bool>>, mask: byte)
    requires Agreed(net, mask)
    ensures Agreed(net.(tsr := net.tsr.(traffic := net.tsr.traffic.(ready := ready))), mask)
  {
  }

  lemma KeyboardTied(net: Net, step: Step, mask: byte)
    requires Agreed(net, mask) && (step.Keystroke? || step.Read?)
    ensures Agreed(net.(tsr := Take(net.tsr, step)), mask)
  {
    QueueChanged(net, net.tsr.latched, Take(net.tsr, step).queue, mask);
  }

  lemma TakeTied(net: Net, step: Step, mask: byte)
    requires Agreed(net, mask) && IsOutside(step)
    ensures Agreed(net.(tsr := Take(net.tsr, step)), mask)
  {
    match step {
      case ReturnedSpace(modifier, space) => ReturnedSpaceTied(net, modifier, space, mask);
      case Transmitter(ready) => ReadyChanged(net, ready, mask);
      case _ => KeyboardTied(net, step, mask);
    }
  }

  lemma OutsideTied(net: Net, step: Step, mask: byte)
    requires Agreed(net, mask)
    ensures Agreed(Move(net, Outside(step)), mask)
  {
    if IsOutside(step) {
      TakeTied(net, step, mask);
    }
  }

  // ----- the lines and the host -----

  /** A shorter line to the host breaks nothing. */
  lemma LineShortened(whole: seq<Message>, i: nat, openSequence: nat, openN: nat)
    requires i < |whole| && LineOrder(whole, openSequence, openN)
    ensures LineOrder(Without(whole, i), openSequence, openN)
    ensures NoOpens(whole) ==> NoOpens(Without(whole, i))
    ensures forall m :: m in Without(whole, i) ==> m in whole
  {
    var line := Without(whole, i);
    assert forall j :: 0 <= j < |line| ==> line[j] == whole[if j < i then j else j + 1];
  }

  lemma LineDropped(net: Net, i: nat)
    requires Tied(net) && i < |net.tsr.traffic.line|
    ensures Tied(net.(tsr := net.tsr.(traffic := net.tsr.traffic.(line := Without(net.tsr.traffic.line, i)))))
  {
    var s := net.tsr;
    var whole, line := s.traffic.line, Without(s.traffic.line, i);
    LineShortened(whole, i, s.session.openSequence, net.openN);
    forall j | 0 <= j < |line| && IsAck(line[j])
      ensures AckMatches(line[j], net.asked, net.openN, BooksOf(s.traffic.trace)) && !InputStaged(s.staged)
              && NoRequests(net.toTsr)
    {
      assert line[j] in whole;
    }
  }

  lemma RequestLost(net: Net, i: nat)
    requires Tied(net)
    ensures Tied(net.(toTsr := Without(net.toTsr, i)))
  {
    var rest := Without(net.toTsr, i);
    if i < |net.toTsr| {
      assert forall j :: 0 <= j < |rest| ==> rest[j] == net.toTsr[if j < i then j else j + 1];
    }
  }

  /** A reply that is no request may join the line to the worker. */
  lemma ReplyJoins(net: Net, m: Message)
    requires Tied(net) && !IsRequest(m)
    ensures Tied(net.(toTsr := net.toTsr + [m]))
  {
    var toTsr := net.toTsr + [m];
    assert forall i :: 0 <= i < |toTsr| && IsRequest(toTsr[i]) ==> i < |net.toTsr|;
  }

  /** The host takes an OPEN: nothing is staged and no acknowledgement is left. */
  lemma OpenHeard(net: Net, host: Host)
    requires Tied(net) && net.tsr.traffic.line != [] && net.tsr.traffic.line[0].packet.kind == OPEN_IME
    requires host.openSequence == net.tsr.traffic.line[0].packet.sequence
    ensures var line := net.tsr.traffic.line;
      Tied(net.(tsr := net.tsr.(traffic := net.tsr.traffic.(line := line[1..])), host := host, openN := line[0].n))
  {
    var line := net.tsr.traffic.line;
    assert !InputStaged(net.tsr.staged);
    assert forall i :: 0 <= i < |line[1..]| ==> line[1..][i] == line[i + 1];
  }

  lemma HearsTied(net: Net)
    requires Tied(net) && net.tsr.traffic.line != []
    ensures Tied(HostHears(net))
  {
    var line := net.tsr.traffic.line;
    var m := line[0];
    var (host, reply) := ServePacket(net.host, m.packet);
    if m.packet.kind == OPEN_IME {
      OpenHeard(net, host);
    } else {
      assert Without(line, 0) == line[1..];
      LineDropped(net, 0);
      var heard := net.(tsr := net.tsr.(traffic := net.tsr.traffic.(line := line[1..])), host := host);
      assert Tied(heard);
      if reply.Some? {
        ReplyJoins(heard, Message(reply.value, m.n));
      }
    }
  }

  lemma SaysTied(net: Net, r: Request)
    requires Tied(net)
    ensures Tied(HostSays(net, r))
  {
    if Sendable(net.host, r) {
      var m := Message(RequestPacket(r, net.host.openSequence), net.openN);
      var toTsr := net.toTsr + [m];
      assert forall i :: 0 <= i < |net.toTsr| ==> toTsr[i] == net.toTsr[i];
      assert !InputStaged(net.tsr.staged);
      assert forall i :: 0 <= i < |net.tsr.traffic.line| ==> !IsAck(net.tsr.traffic.line[i]);
    }
  }

  // ----- agreement, step by step and over every run -----

  /** From agreement every step on fresh messages leads to agreement, except the one that sends an OPEN while input is
      staged; that one never does. */
  lemma StepAgrees(net: Net, step: NetStep, mask: byte)
    requires Agreed(net, mask) && Fresh(net, step)
    ensures Agreed(Move(net, step), mask) <==> !OpensOverInput(net, step)
  {
    match step {
      case Hotkey(modifier, space) => HotkeyTied(net, modifier, space, mask);
      case Handle =>
        if net.toTsr != [] {
          HandleStep(net, mask);
        }
      case Injects => InjectTied(net, mask);
      case Opens => OpenStep(net, mask);
      case Ticks => TickTied(net, mask);
      case Outside(step) => OutsideTied(net, step, mask);
      case _ => HostStep(net, step, mask);
    }
  }

  lemma HostStep(net: Net, step: NetStep, mask: byte)
    requires Agreed(net, mask)
    requires step.HostReads? || step.HostAsks? || step.HostConnects? || step.HostDrops? || step.LoseToTsr?
             || step.LoseToHost?
    ensures Agreed(Move(net, step), mask)
  {
    match step {
      case HostReads =>
        if net.tsr.traffic.line != [] {
          HearsTied(net);
        }
      case HostAsks(request) => SaysTied(net, request);
      case LoseToTsr(i) => RequestLost(net, i);
      case LoseToHost(i) =>
        if i < |net.tsr.traffic.line| {
          LineDropped(net, i);
        }
      case _ =>
    }
  }

  ghost predicate AgreesThroughout(net: Net, steps: seq<NetStep>, mask: byte)
    decreases |steps|
  {
    Agreed(net, mask) && (steps == [] || AgreesThroughout(Move(net, steps[0]), steps[1..], mask))
  }

  /** The invariant holds throughout a run on fresh messages exactly when no OPEN goes out while input is staged. */
  lemma {:induction false} CleanRunAgrees(net: Net, steps: seq<NetStep>, mask: byte)
    requires Agreed(net, mask) && FreshRun(net, steps)
    ensures AgreesThroughout(net, steps, mask) <==> CleanRun(net, steps)
    decreases |steps|
  {
    if steps == [] {
    } else {
      StepAgrees(net, steps[0], mask);
      if !OpensOverInput(net, steps[0]) {
        CleanRunAgrees(Move(net, steps[0]), steps[1..], mask);
      }
    }
  }

  lemma {:induction false} AgreesAtEnd(net: Net, steps: seq<NetStep>, mask: byte)
    requires AgreesThroughout(net, steps, mask)
    ensures Agreed(Play(net, steps), mask)
    decreases |steps|
  {
    if steps == [] {
    } else {
      AgreesAtEnd(Move(net, steps[0]), steps[1..], mask);
    }
  }

  lemma RunAgrees(mask: byte, steps: seq<NetStep>)
    requires FreshRun(Start(mask), steps) && CleanRun(Start(mask), steps)
    ensures Agreed(Play(Start(mask), steps), mask)
  {
    CleanRunAgrees(Start(mask), steps, mask);
    AgreesAtEnd(Start(mask), steps, mask);
  }

  /** The two parties agree. The worker takes no second request before it has acknowledged or given up the first.
      Input it holds is the host's last request, taken under the last OPEN the host knows. Every acknowledgement on the
      line is for the host's last request, all of whose own words are then in the keyboard queue or past it. The host
      may ask only with an OPEN that it has not used. */
  lemma TwoPartyAgreement(mask: byte, steps: seq<NetStep>)
    requires FreshRun(Start(mask), steps) && CleanRun(Start(mask), steps)
    ensures var net := Play(Start(mask), steps);
      var s := net.tsr;
      var b := BooksOf(s.traffic.trace);
      && NoOverlap(s.traffic.trace)
      && OneInput(s.staged, b, net.asked, net.openN, s.traffic.line, net.toTsr)
      && Acks(s.traffic.line, s.staged, b, net.asked, net.openN, net.toTsr)
      && HostSide(net.host, net.openN, net.asked)
  {
    RunAgrees(mask, steps);
  }

  /** The last request on its way is the one the user made, under the number of an OPEN. */
  predicate AskedOnWire(net: Net) {
    net.asked.Some? ==>
      && net.asked.value.packet.sequence == Wire(net.asked.value.n)
      && net.request.Some? && Carries(net.asked.value.packet, net.request.value)
  }

  lemma AskKeepsRequest(net: Net, step: NetStep)
    requires HostSide(net.host, net.openN, net.asked) && AskedOnWire(net)
    ensures AskedOnWire(Move(net, step))
  {
  }

  lemma {:induction false} AskedUsesOpen(net: Net, steps: seq<NetStep>, mask: byte)
    requires AgreesThroughout(net, steps, mask) && AskedOnWire(net)
    ensures AskedOnWire(Play(net, steps))
    decreases |steps|
  {
    if steps == [] {
    } else {
      AskKeepsRequest(net, steps[0]);
      AskedUsesOpen(Move(net, steps[0]), steps[1..], mask);
    }
  }

  /** The request packet is what the user asked for, no more and no less. */
  lemma RunCarries(mask: byte, steps: seq<NetStep>)
    requires FreshRun(Start(mask), steps) && CleanRun(Start(mask), steps)
    ensures AskedOnWire(Play(Start(mask), steps)) && Agreed(Play(Start(mask), steps), mask)
  {
    RunAgrees(mask, steps);
    CleanRunAgrees(Start(mask), steps, mask);
    AskedUsesOpen(Start(mask), steps, mask);
  }

  /** All that the user asked for under number n has been queued: the words of the text typed, or the word of the key
      pressed. */
  ghost predicate Granted(r: Request, b: Books, n: nat) {
    match r {
      case Text(bytes) => b.textN == n && b.put == EncodeText(bytes)
      case Key(code) => 1 <= code <= 6 && b.lastKeyN == n && b.lastKey == Some(SessionLife.KEY_WORDS[code - 1])
      case Close => false
    }
  }

  lemma MatchedIsGranted(net: Net, ack: Message)
    requires AskedOnWire(net) && IsAck(ack) && AckMatches(ack, net.asked, net.openN, BooksOf(net.tsr.traffic.trace))
    ensures net.request.Some? && Granted(net.request.value, BooksOf(net.tsr.traffic.trace), ack.n)
  {
    if net.request.value.Key? {
      SessionLife.KeyWordOf(net.request.value.code);
    }
  }

  /** An acknowledgement the host takes from the line finds the host waiting for it: what the user asked for last is
      queued, word for word, and that request used the last OPEN. */
  lemma AckIsAwaited(mask: byte, steps: seq<NetStep>)
    requires FreshRun(Start(mask), steps) && CleanRun(Start(mask), steps)
    ensures var net := Play(Start(mask), steps);
      var line := net.tsr.traffic.line;
      line != [] && IsAck(line[0]) ==>
        && AckMatches(line[0], net.asked, net.openN, BooksOf(net.tsr.traffic.trace))
        && net.request.Some? && Granted(net.request.value, BooksOf(net.tsr.traffic.trace), line[0].n)
        && !net.host.imeReady && line[0].packet.sequence == net.asked.value.packet.sequence == Wire(net.openN)
  {
    RunCarries(mask, steps);
    var net := Play(Start(mask), steps);
    if net.tsr.traffic.line != [] && IsAck(net.tsr.traffic.line[0]) {
      MatchedIsGranted(net, net.tsr.traffic.line[0]);
    }
  }

  /** The worker has done what the user asked for: staged the text typed or the word of the key pressed, or turned the
      IME off. */
  ghost predicate Honoured(r: Request, s: Tsr, t: Tsr, mask: byte) {
    match r {
      case Text(bytes) =>
        |bytes| <= 512 ==> t.staged == s.staged.(text := bytes, offset := 0, sequence := s.session.openSequence)
      case Key(code) =>
        1 <= code <= 6 ==> t.staged.keyActive && t.staged.key == SessionLife.KEY_WORDS[code - 1]
      case Close => SessionLife.TurnedOff(t, mask)
    }
  }

  lemma PacketHonoured(s: Tsr, p: Packet, r: Request, mask: byte)
    requires Core(s, mask) && s.session.imeActive && p.sequence == s.session.openSequence % 0x1_0000 && Carries(p, r)
    ensures Honoured(r, s, HandlePacket(s, p), mask)
  {
    match r {
      case Text(bytes) =>
        if |bytes| <= 512 {
          RoundTrip(p);
          SessionLife.TakesText(s, bytes);
        }
      case Key(code) =>
        RoundTrip(p);
        SessionLife.TakesKeyOf(s, code);
      case Close =>
        RoundTrip(p);
        SessionLife.HostClosesIff(s, Encode(p), mask);
    }
  }

  /** A request of the user's that reaches the worker while the session it was made in is open is honoured there. */
  lemma RequestIsHonoured(mask: byte, steps: seq<NetStep>)
    requires FreshRun(Start(mask), steps) && CleanRun(Start(mask), steps)
    ensures var net := Play(Start(mask), steps);
      net.toTsr != [] && net.asked == Some(net.toTsr[0]) && net.tsr.session.imeActive
      && net.tsr.session.openSequence == net.toTsr[0].n ==>
        net.request.Some? && Honoured(net.request.value, net.tsr, Move(net, Handle).tsr, mask)
  {
    RunCarries(mask, steps);
    var net := Play(Start(mask), steps);
    if net.toTsr != [] && net.asked == Some(net.toTsr[0]) && net.tsr.session.imeActive
       && net.tsr.session.openSequence == net.toTsr[0].n {
      PacketHonoured(net.tsr, net.toTsr[0].packet, net.request.value, mask);
    }
  }

  /** The requests the host sends in a run. */
  function Asks(net: Net, steps: seq<NetStep>): seq<Message>
    decreases |steps|
  {
    if steps == [] then []
    else
      var next := Move(net, steps[0]);
      (if steps[0].HostAsks? && Sendable(net.host, steps[0].request) then [next.asked.value] else [])
      + Asks(next, steps[1..])
  }

  /** At most one TEXT, KEY or CLOSE for each OPEN: the requests of a run use strictly newer and newer OPENs. */
  lemma {:induction false} OneRequestPerOpen(net: Net, steps: seq<NetStep>, mask: byte)
    requires AgreesThroughout(net, steps, mask)
    ensures forall i, j :: 0 <= i < j < |Asks(net, steps)| ==> Asks(net, steps)[i].n < Asks(net, steps)[j].n
    ensures forall i :: 0 <= i < |Asks(net, steps)| && net.asked.Some? ==> net.asked.value.n < Asks(net, steps)[i].n
    decreases |steps|
  {
    if steps == [] {
    } else {
      OneRequestPerOpen(Move(net, steps[0]), steps[1..], mask);
      AskedGrows(net, steps[0]);
    }
  }

  lemma AskedGrows(net: Net, step: NetStep)
    requires HostSide(net.host, net.openN, net.asked)
    ensures var next := Move(net, step);
      if step.HostAsks? && Sendable(net.host, step.request)
      then next.asked.Some? && (net.asked.Some? ==> net.asked.value.n < next.asked.value.n)
      else next.asked == net.asked
  {
  }
}
