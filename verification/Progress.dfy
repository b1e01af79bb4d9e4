/** Staged input gets through: when the application reads and the worker is called in turn, every word left is queued
    and acknowledged, and after how many turns at the latest. */
module Progress {
  import opened Bytes
  import opened Codec
  import opened KeyEncoding
  import opened Worker
  import opened WorkerInvariants
  import opened Keystrokes

  /** The words of staged input that are still to be queued. */
  function Left(t: Staged): seq<u16> {
    (if t.text != [] then EncodeFrom(t.text, t.offset) else []) + (if t.keyActive then [t.key] else [])
  }

  function Ack(kind: byte, n: nat): Message {
    Message(Packet(kind, Wire(n), []), n)
  }

  /** The acknowledgements that staged input is to get. */
  function Due(t: Staged): seq<Message> {
    (if t.text != [] then [Ack(TEXT_ACK, t.sequence)] else [])
    + (if t.keyActive then [Ack(KEY_ACK, t.sequence)] else [])
  }

  /** The port is open and the transmitter ready for the acknowledgements due. */
  predicate Prompt(s: Tsr) {
    s.port.isOpen && |Due(s.staged)| <= |s.traffic.ready|
    && forall i :: 0 <= i < |Due(s.staged)| ==> InTime(s.traffic.ready[i], 10)
  }

  /** A staged text has words left; the queue is within its size. */
  predicate Orderly(s: Tsr) {
    (s.staged.text != [] ==> s.staged.offset < |s.staged.text|) && |s.queue| <= QUEUE_SIZE
  }

  /** From s to t the words `put` were queued, and those inputs acknowledged that they complete. */
  ghost predicate Moved(s: Tsr, t: Tsr, put: seq<u16>) {
    && Puts(t.traffic.trace) == Puts(s.traffic.trace) + put && Left(s.staged) == put + Left(t.staged)
    && t.port == s.port
    && (Prompt(s) ==> Prompt(t) && t.traffic.line + Due(t.staged) == s.traffic.line + Due(s.staged))
  }

  lemma MovedTwice(s: Tsr, t: Tsr, u: Tsr, a: seq<u16>, b: seq<u16>)
    requires Moved(s, t, a) && Moved(t, u, b)
    ensures Moved(s, u, a + b)
  {
    Assoc(Puts(s.traffic.trace), a, b);
    Assoc(a, b, Left(u.staged));
  }

  // ----- one injection -----

  /** Words of the staged text were queued and nothing else happened. */
  ghost predicate Advanced(s: Tsr, m: Tsr, put: seq<u16>) {
    && m == s.(queue := m.queue, staged := s.staged.(offset := m.staged.offset),
               traffic := s.traffic.(trace := m.traffic.trace))
    && m.queue == s.queue + put && |m.queue| <= QUEUE_SIZE && Puts(m.traffic.trace) == Puts(s.traffic.trace) + put
    && EncodeFrom(s.staged.text, s.staged.offset) == put + EncodeFrom(s.staged.text, m.staged.offset)
  }

  lemma PutsOne(s: Tsr, m: Tsr, rest: seq<u16>) returns (put: seq<u16>)
    requires s.staged.offset < |s.staged.text| && Advanced(PutWord(s), m, rest)
    ensures Advanced(s, m, put)
  {
    var (word, last) := EncodeKey(s.staged.text, s.staged.offset);
    Logged(s.traffic.trace, PutText(word));
    put := [word] + rest;
    Assoc(s.queue, [word], rest);
    Assoc(Puts(s.traffic.trace), [word], rest);
    Assoc([word], rest, EncodeFrom(s.staged.text, m.staged.offset));
  }

  /** The loop queues words until the text or the room runs out. */
  lemma {:induction false} PutsWords(s: Tsr, budget: nat, end: Tsr) returns (m: Tsr, put: seq<u16>)
    requires end == InjectText(s, budget) && |s.queue| <= QUEUE_SIZE <= |s.queue| + budget
    ensures Advanced(s, m, put)
    ensures if m.staged.offset >= |s.staged.text| then end == FinishText(m) else end == m && Full(m.queue)
    decreases budget
  {
    if s.staged.offset >= |s.staged.text| || Full(s.queue) {
      m, put := s, [];
      assert s.queue + [] == s.queue && Puts(s.traffic.trace) + [] == Puts(s.traffic.trace);
    } else {
      m, put := PutsWords(PutWord(s), budget - 1, end);
      put := PutsOne(s, m, put);
    }
  }

  lemma SendsAck(s: Tsr, kind: byte) returns (m: Message)
    requires s.port.isOpen && s.traffic.ready != [] && InTime(s.traffic.ready[0], 10)
    ensures m == Ack(kind, s.staged.sequence)
    ensures Acknowledge(s, kind).traffic.line == s.traffic.line + [m]
    ensures Acknowledge(s, kind).traffic.ready == s.traffic.ready[1..]
  {
    m := Ack(kind, s.staged.sequence);
  }

  lemma AckKeeps(s: Tsr, kind: byte)
    ensures var t := Acknowledge(s, kind);
      t.staged == s.staged && t.queue == s.queue && t.port == s.port && Puts(t.traffic.trace) == Puts(s.traffic.trace)
  {
    SendAddsNothing(s, kind, s.staged.sequence, []);
    var puts := Puts(s.traffic.trace);
    assert puts + [] == puts && s.queue + [] == s.queue;
  }

  lemma DueAfterText(t: Staged)
    requires t.text != []
    ensures var u := t.(text := [], offset := 0);
      Due(t) == [Ack(TEXT_ACK, t.sequence)] + Due(u) && Left(u) == if t.keyActive then [t.key] else []
  {
  }

  /** Finishing a text whose words are all queued. */
  lemma FinishMoves(s: Tsr)
    requires s.staged.text != [] && EncodeFrom(s.staged.text, s.staged.offset) == []
    ensures Moved(s, FinishText(s), []) && FinishText(s).queue == s.queue
  {
    var t := FinishText(s);
    AckKeeps(s, TEXT_ACK);
    DueAfterText(s.staged);
    assert Puts(s.traffic.trace) + [] == Puts(s.traffic.trace);
    if Prompt(s) {
      var m := SendsAck(s, TEXT_ACK);
      Assoc(s.traffic.line, [m], Due(t.staged));
      assert forall i :: 0 <= i < |Due(t.staged)| ==> t.traffic.ready[i] == s.traffic.ready[i + 1];
    }
  }

  lemma AdvancedMoves(s: Tsr, m: Tsr, put: seq<u16>)
    requires s.staged.text != [] && Advanced(s, m, put)
    ensures Moved(s, m, put)
  {
    Assoc(put, EncodeFrom(s.staged.text, m.staged.offset), if s.staged.keyActive then [s.staged.key] else []);
  }

  /** A text ends up whole and acknowledged, or it leaves the queue full. */
  lemma TextMoves(s: Tsr, t: Tsr) returns (put: seq<u16>)
    requires Orderly(s) && s.staged.text != [] && t == InjectText(s, TEXT_BUDGET)
    ensures Moved(s, t, put) && t.queue == s.queue + put && Orderly(t) && (t.staged.text != [] ==> Full(t.queue))
  {
    var m;
    m, put := PutsWords(s, TEXT_BUDGET, t);
    AdvancedMoves(s, m, put);
    if m.staged.offset >= |s.staged.text| {
      FinishMoves(m);
      MovedTwice(s, m, t, put, []);
      assert put + [] == put;
    }
  }

  lemma TextFinishesIff(s: Tsr, t: Tsr)
    requires Orderly(s) && s.staged.text != [] && t == InjectText(s, TEXT_BUDGET)
    ensures t.staged.text == [] <==> |EncodeFrom(s.staged.text, s.staged.offset)| + |s.queue| <= QUEUE_SIZE
    ensures t.staged.keyActive == s.staged.keyActive && t.staged.sequence == s.staged.sequence
  {
    var m, put := PutsWords(s, TEXT_BUDGET, t);
    if m.staged.offset >= |s.staged.text| {
      AckKeeps(m, TEXT_ACK);
    }
  }

  lemma LogsKey(s: Tsr, t: Tsr, word: u16)
    requires s.staged.text == [] && s.staged.keyActive && word == s.staged.key
    requires t == Log(s.(queue := s.queue + [word]), PutKey(word))
    ensures Puts(t.traffic.trace) == Puts(s.traffic.trace) + [word]
  {
    Logged(s.traffic.trace, PutKey(word));
  }

  lemma KeyMoves(s: Tsr, t: Tsr) returns (put: seq<u16>)
    requires Orderly(s) && s.staged.keyActive && !Full(s.queue) && s.staged.text == [] && t == InjectKey(s)
    ensures Moved(s, t, put) && t.queue == s.queue + put && Orderly(t) && !InputStaged(t.staged)
  {
    put := [s.staged.key];
    var logged := Log(s.(queue := s.queue + put), PutKey(s.staged.key));
    LogsKey(s, logged, s.staged.key);
    AckKeeps(logged, KEY_ACK);
    assert Left(s.staged) == put && Left(t.staged) == [] && put + [] == put;
    if Prompt(s) {
      assert Due(s.staged) == [Ack(KEY_ACK, s.staged.sequence)] && Due(t.staged) == [];
      var m := SendsAck(logged, KEY_ACK);
      assert (s.traffic.line + [m]) + [] == s.traffic.line + [m];
    }
  }

  lemma Unmoved(s: Tsr)
    ensures Moved(s, s, []) && s.queue == s.queue + []
  {
    assert Puts(s.traffic.trace) + [] == Puts(s.traffic.trace) && [] + Left(s.staged) == Left(s.staged);
  }

  /** One injection: what it leaves staged, it leaves for want of room. */
  lemma InjectMoves(s: Tsr, t: Tsr) returns (put: seq<u16>)
    requires Orderly(s) && t == Inject(s)
    ensures Moved(s, t, put) && t.queue == s.queue + put && Orderly(t) && (InputStaged(t.staged) ==> Full(t.queue))
  {
    var mid;
    mid, put := s, [];
    Unmoved(s);
    if s.staged.text != [] {
      mid := InjectText(s, TEXT_BUDGET);
      put := TextMoves(s, mid);
    }
    if mid.staged.keyActive && !Full(mid.queue) {
      var last := KeyMoves(mid, t);
      MovedTwice(s, mid, t, put, last);
      Assoc(s.queue, put, last);
      put := put + last;
    }
  }

  /** Staged input completes in one call exactly when the queue has room for all that is left of it. */
  lemma FinishesIff(s: Tsr)
    requires Orderly(s) && InputStaged(s.staged)
    ensures !InputStaged(Inject(s).staged) <==> |Left(s.staged)| + |s.queue| <= 16
  {
    var put := InjectMoves(s, Inject(s));
    LeftWhileStaged(Inject(s));
  }

  lemma LeftWhileStaged(s: Tsr)
    requires Orderly(s)
    ensures InputStaged(s.staged) <==> Left(s.staged) != []
  {
  }

  // ----- reads and calls in turn -----

  /** The application reads a word, if there is one, and the worker injects; k times. */
  function Rounds(s: Tsr, k: nat): Tsr
    decreases k
  {
    if k == 0 then s else Rounds(Inject(Take(s, Read)), k - 1)
  }

  lemma RoundMoves(s: Tsr, t: Tsr) returns (put: seq<u16>)
    requires Orderly(s) && InputStaged(s.staged) && t == Inject(Take(s, Read))
    ensures Moved(s, t, put) && Orderly(t) && put != []
  {
    var r := Take(s, Read);
    put := InjectMoves(r, t);
    LeftWhileStaged(r);
  }

  lemma FirstRound(s: Tsr, t: Tsr, k: nat)
    requires t == Inject(Take(s, Read))
    ensures Rounds(s, k + 1) == Rounds(t, k)
  {
  }

  lemma {:induction false} RoundsMove(s: Tsr) returns (k: nat, t: Tsr, put: seq<u16>)
    requires Orderly(s)
    ensures t == Rounds(s, k) && k <= |put| && Moved(s, t, put) && Orderly(t) && !InputStaged(t.staged)
    decreases |Left(s.staged)|
  {
    if !InputStaged(s.staged) {
      k, t, put := 0, s, [];
      Unmoved(s);
    } else {
      var next := Inject(Take(s, Read));
      var first := RoundMoves(s, next);
      k, t, put := RoundsMove(next);
      FirstRound(s, next, k);
      MovedTwice(s, next, t, first, put);
      k, put := k + 1, first + put;
    }
  }

  /** Every word left of staged input is queued, in order, in at most as many rounds as words are left; if the
      transmitter is ready, every input is acknowledged under its own number, the text before the key. */
  lemma InputGetsThrough(s: Tsr) returns (k: nat)
    requires Orderly(s)
    ensures var t := Rounds(s, k);
      && k <= |Left(s.staged)| && !InputStaged(t.staged) && Orderly(t)
      && Puts(t.traffic.trace) == Puts(s.traffic.trace) + Left(s.staged)
      && (Prompt(s) ==> t.traffic.line == s.traffic.line + Due(s.staged))
  {
    var t, put;
    k, t, put := RoundsMove(s);
    assert Left(t.staged) == [] && Due(t.staged) == [] && put + [] == put;
    assert t.traffic.line + [] == t.traffic.line;
  }
}
