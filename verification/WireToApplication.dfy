/** From accepted packets to the application: what a run's INT 18h reads receive of the words the worker queued. */
module WireToApplication {
  import opened Bytes
  import opened KeyEncoding
  import opened Worker
  import opened WorkerInvariants
  import opened Traces
  import opened Keystrokes
  import opened KeyboardRuns

  /** Words queued for one accepted TEXT or KEY, the event at `from` in the log. */
  datatype Piece = Piece(from: nat, words: seq<u16>)

  function AllWords(pieces: seq<Piece>): seq<u16> {
    if pieces == [] then [] else AllWords(pieces[..|pieces| - 1]) + pieces[|pieces| - 1].words
  }

  /** The words are, from the start and in order, those of the TEXT's encoding, or they are the KEY's word. */
  predicate IsPiece(p: Piece, trace: seq<Event>) {
    p.from < |trace|
    && match trace[p.from] {
         case TookText(text, _) => p.words <= EncodeText(text)
         case TookKey(word, _) => p.words == [word]
         case _ => false
       }
  }

  /** No event of the kind of `e` has a piece from `at` on. */
  ghost predicate Earlier(pieces: seq<Piece>, trace: seq<Event>, e: Event, at: nat) {
    forall i :: 0 <= i < |pieces| && pieces[i].from < |trace| && trace[pieces[i].from].TookText? == e.TookText? ==>
      pieces[i].from < at
  }

  /** The pieces in a row are the words queued; TEXTs have theirs in the order of acceptance, and so have KEYs, so none
      has two. */
  ghost predicate Explains(pieces: seq<Piece>, trace: seq<Event>) {
    && AllWords(pieces) == Puts(trace)
    && (forall i :: 0 <= i < |pieces| ==> IsPiece(pieces[i], trace))
    && (forall i, j :: 0 <= i < j < |pieces| && trace[pieces[i].from].TookText? == trace[pieces[j].from].TookText? ==>
          pieces[i].from < pieces[j].from)
  }

  predicate Acknowledges(e: Event) {
    e.Tried? && (e.message.packet.kind == TEXT_ACK || e.message.packet.kind == KEY_ACK)
  }

  /** The piece holds all the words of the last input accepted before the acknowledgement at a and of its kind. */
  ghost predicate Whole(p: Piece, trace: seq<Event>, a: nat)
    requires a < |trace| && trace[a].Tried?
  {
    p.from < a
    && (match trace[p.from] {
          case TookText(text, _) => trace[a].message.packet.kind == TEXT_ACK && p.words == EncodeText(text)
          case TookKey(word, _) => trace[a].message.packet.kind == KEY_ACK && p.words == [word]
          case _ => false
        })
    && Latest(trace[..a], trace[p.from], p.from)
  }

  /** Nothing of the kind of `e` was accepted after `at`. */
  ghost predicate Latest(trace: seq<Event>, e: Event, at: nat) {
    forall j :: at < j < |trace| ==> !(trace[j].TookText? && e.TookText?) && !(trace[j].TookKey? && e.TookKey?)
  }

  /** Every input whose acknowledgement was tried has all its words queued. */
  ghost predicate AcksWhole(pieces: seq<Piece>, trace: seq<Event>) {
    forall a :: 0 <= a < |trace| && Acknowledges(trace[a]) ==>
      exists i :: 0 <= i < |pieces| && Whole(pieces[i], trace, a)
  }

  // ----- the log, event by event -----

  /** A TEXT still being queued has the last piece, or none yet. */
  ghost predicate TextPiece(pieces: seq<Piece>, trace: seq<Event>, b: Books, at: nat) {
    b.textOpen ==>
      && at < |trace| && trace[at].TookText? && trace[at].text == b.text != [] && Latest(trace, trace[at], at)
      && if b.put == [] then Earlier(pieces, trace, trace[at], at)
         else pieces != [] && pieces[|pieces| - 1] == Piece(at, b.put)
  }

  /** A KEY still to be queued has none; one that has just been queued has the last. */
  ghost predicate KeyPiece(pieces: seq<Piece>, trace: seq<Event>, b: Books, at: nat) {
    && (b.key.Some? || b.keyDue ==> at < |trace| && trace[at].TookKey? && Latest(trace, trace[at], at))
    && (b.key.Some? ==> trace[at].word == b.key.value && Earlier(pieces, trace, trace[at], at))
    && (b.keyDue ==> pieces != [] && pieces[|pieces| - 1] == Piece(at, [trace[at].word]))
  }

  lemma AllWordsSnoc(pieces: seq<Piece>, p: Piece)
    ensures AllWords(pieces + [p]) == AllWords(pieces) + p.words
  {
    assert (pieces + [p])[..|pieces|] == pieces;
  }

  /** Events that queue nothing leave the pieces as they are. */
  lemma Quieter(pieces: seq<Piece>, trace: seq<Event>, e: Event)
    requires Explains(pieces, trace) && !e.PutText? && !e.PutKey?
    ensures Explains(pieces, trace + [e])
    ensures Earlier(pieces, trace + [e], e, |trace|)
    ensures forall f, at :: Earlier(pieces, trace, f, at) ==> Earlier(pieces, trace + [e], f, at)
  {
    Logged(trace, e);
    assert forall i :: 0 <= i < |pieces| ==> IsPiece(pieces[i], trace + [e]);
  }

  lemma Adds(pieces: seq<Piece>, trace: seq<Event>, e: Event, p: Piece)
    requires Explains(pieces, trace) && (e.PutText? || e.PutKey?) && IsPiece(p, trace) && p.words == [e.word]
    requires Earlier(pieces, trace, trace[p.from], p.from)
    ensures Explains(pieces + [p], trace + [e])
  {
    var all, trace' := pieces + [p], trace + [e];
    Logged(trace, e);
    AllWordsSnoc(pieces, p);
    forall i | 0 <= i < |all| ensures IsPiece(all[i], trace') && trace'[all[i].from] == trace[all[i].from] {
      assert all[i] == if i < |pieces| then pieces[i] else p;
    }
  }

  /** A piece of the other kind may be added. */
  lemma OtherKind(pieces: seq<Piece>, trace: seq<Event>, e: Event, p: Piece, f: Event, at: nat)
    requires Earlier(pieces, trace, f, at) && p.from < |trace| && trace[p.from].TookText? != f.TookText?
    requires forall i :: 0 <= i < |pieces| ==> pieces[i].from < |trace|
    ensures Earlier(pieces + [p], trace + [e], f, at)
  {
  }

  lemma Grows(pieces: seq<Piece>, trace: seq<Event>, e: Event, p: Piece)
    requires Explains(pieces, trace) && e.PutText? && pieces != [] && pieces[|pieces| - 1].from == p.from
    requires IsPiece(p, trace) && p.words == pieces[|pieces| - 1].words + [e.word]
    ensures var grown := pieces[..|pieces| - 1] + [p];
      && Explains(grown, trace + [e])
      && forall f, at :: Earlier(pieces, trace, f, at) ==> Earlier(grown, trace + [e], f, at)
  {
    var front, grown := pieces[..|pieces| - 1], pieces[..|pieces| - 1] + [p];
    Logged(trace, e);
    AllWordsSnoc(front, p);
    assert AllWords(front) + (pieces[|pieces| - 1].words + [e.word]) ==
           (AllWords(front) + pieces[|pieces| - 1].words) + [e.word];
    forall i | 0 <= i < |grown| ensures IsPiece(grown[i], trace + [e]) && grown[i].from == pieces[i].from {
    }
  }

  /** An event that is no acknowledgement leaves those before it as they are; pieces may be added. */
  lemma AcksStay(pieces: seq<Piece>, trace: seq<Event>, e: Event, more: seq<Piece>)
    requires AcksWhole(pieces, trace) && !Acknowledges(e)
    ensures AcksWhole(pieces + more, trace + [e])
  {
    var all, trace' := pieces + more, trace + [e];
    forall a | 0 <= a < |trace'| && Acknowledges(trace'[a])
      ensures exists i :: 0 <= i < |all| && Whole(all[i], trace', a)
    {
      var i :| 0 <= i < |pieces| && Whole(pieces[i], trace, a);
      assert trace'[..a] == trace[..a];
      assert all[i] == pieces[i] && Whole(all[i], trace', a);
    }
  }

  /** A piece that can still grow is not whole. */
  lemma AcksLeaveLast(pieces: seq<Piece>, trace: seq<Event>, text: seq<byte>)
    requires AcksWhole(pieces, trace) && pieces != []
    requires var p := pieces[|pieces| - 1];
      p.from < |trace| && trace[p.from].TookText? && trace[p.from].text == text && p.words != EncodeText(text)
    ensures AcksWhole(pieces[..|pieces| - 1], trace)
  {
    var front := pieces[..|pieces| - 1];
    forall a | 0 <= a < |trace| && Acknowledges(trace[a])
      ensures exists i :: 0 <= i < |front| && Whole(front[i], trace, a)
    {
      var i :| 0 <= i < |pieces| && Whole(pieces[i], trace, a);
      assert front[i] == pieces[i];
    }
  }

  /** An acknowledgement is tried for the last piece. */
  lemma AckIsWhole(pieces: seq<Piece>, trace: seq<Event>, e: Event)
    requires AcksWhole(pieces, trace) && Acknowledges(e) && pieces != []
    requires var p := pieces[|pieces| - 1];
      p.from < |trace| && Whole(p, trace + [e], |trace|)
    ensures AcksWhole(pieces, trace + [e])
  {
    var trace' := trace + [e];
    forall a | 0 <= a < |trace'| && Acknowledges(trace'[a])
      ensures exists i :: 0 <= i < |pieces| && Whole(pieces[i], trace', a)
    {
      if a < |trace| {
        var i :| 0 <= i < |pieces| && Whole(pieces[i], trace, a);
        assert trace'[..a] == trace[..a];
        assert Whole(pieces[i], trace', a);
      }
    }
  }

  ghost predicate Traced(pieces: seq<Piece>, trace: seq<Event>, b: Books, textAt: nat, keyAt: nat) {
    && Explains(pieces, trace) && AcksWhole(pieces, trace)
    && TextPiece(pieces, trace, b, textAt) && KeyPiece(pieces, trace, b, keyAt)
  }

  lemma LatestStays(trace: seq<Event>, e: Event, f: Event, at: nat)
    requires Latest(trace, f, at) && !e.TookText? && !e.TookKey?
    ensures Latest(trace + [e], f, at)
  {
  }

  /** A TEXT whose words are being queued has the last piece. */
  lemma TextIsLast(pieces: seq<Piece>, trace: seq<Event>, b: Books, e: Event, at: nat)
    requires e.PutText? && pieces != [] && pieces[|pieces| - 1] == Piece(at, b.put + [e.word])
    requires at < |trace| && trace[at].TookText? && trace[at].text == b.text != [] && Latest(trace, trace[at], at)
    ensures TextPiece(pieces, trace + [e], Book(b, e), at)
  {
    LatestStays(trace, e, trace[at], at);
  }

  lemma KeyWaits(pieces: seq<Piece>, trace: seq<Event>, b: Books, e: Event, p: Piece, keyAt: nat)
    requires KeyPiece(pieces, trace, b, keyAt) && e.PutText? && !b.keyDue
    requires p.from < |trace| && trace[p.from].TookText? && forall i :: 0 <= i < |pieces| ==> pieces[i].from < |trace|
    ensures KeyPiece(pieces + [p], trace + [e], Book(b, e), keyAt)
  {
    if b.key.Some? {
      LatestStays(trace, e, trace[keyAt], keyAt);
      OtherKind(pieces, trace, e, p, trace[keyAt], keyAt);
    }
  }

  lemma AfterFirstWord(pieces: seq<Piece>, trace: seq<Event>, b: Books, e: Event, p: Piece, keyAt: nat)
    requires Traced(pieces, trace, b, p.from, keyAt) && e.PutText? && Allowed(b, e)
    requires b.put == [] && p.words == [e.word]
    ensures Traced(pieces + [p], trace + [e], Book(b, e), p.from, keyAt)
  {
    assert [] + [e.word] == [e.word];
    Adds(pieces, trace, e, p);
    AcksStay(pieces, trace, e, [p]);
    TextIsLast(pieces + [p], trace, b, e, p.from);
    KeyWaits(pieces, trace, b, e, p, keyAt);
  }

  lemma AfterNextWord(pieces: seq<Piece>, trace: seq<Event>, b: Books, e: Event, p: Piece, keyAt: nat)
    requires Traced(pieces, trace, b, p.from, keyAt) && e.PutText? && Allowed(b, e)
    requires b.put != [] && p.words == b.put + [e.word]
    ensures Traced(pieces[..|pieces| - 1] + [p], trace + [e], Book(b, e), p.from, keyAt)
  {
    Grows(pieces, trace, e, p);
    AcksLeaveLast(pieces, trace, b.text);
    AcksStay(pieces[..|pieces| - 1], trace, e, [p]);
  }

  lemma AfterPutText(pieces: seq<Piece>, trace: seq<Event>, b: Books, e: Event, textAt: nat, keyAt: nat)
    returns (grown: seq<Piece>)
    requires Traced(pieces, trace, b, textAt, keyAt) && e.PutText? && Allowed(b, e)
    ensures Traced(grown, trace + [e], Book(b, e), textAt, keyAt)
  {
    var p := Piece(textAt, b.put + [e.word]);
    if b.put == [] {
      assert p.words == [e.word];
      AfterFirstWord(pieces, trace, b, e, p, keyAt);
      grown := pieces + [p];
    } else {
      AfterNextWord(pieces, trace, b, e, p, keyAt);
      grown := pieces[..|pieces| - 1] + [p];
    }
  }

  lemma AfterPutKey(pieces: seq<Piece>, trace: seq<Event>, b: Books, e: Event, textAt: nat, keyAt: nat)
    returns (grown: seq<Piece>)
    requires Traced(pieces, trace, b, textAt, keyAt) && e.PutKey? && Allowed(b, e)
    ensures Traced(grown, trace + [e], Book(b, e), textAt, keyAt)
  {
    var p := Piece(keyAt, [e.word]);
    Adds(pieces, trace, e, p);
    AcksStay(pieces, trace, e, [p]);
    grown := pieces + [p];
    KeyIsDue(grown, trace, b, e, keyAt);
  }

  /** A KEY just queued has the last piece. */
  lemma KeyIsDue(pieces: seq<Piece>, trace: seq<Event>, b: Books, e: Event, at: nat)
    requires e.PutKey? && b.key == Some(e.word) && pieces != [] && pieces[|pieces| - 1] == Piece(at, [e.word])
    requires at < |trace| && trace[at].TookKey? && trace[at].word == e.word && Latest(trace, trace[at], at)
    ensures KeyPiece(pieces, trace + [e], Book(b, e), at)
  {
  }

  lemma AfterAck(pieces: seq<Piece>, trace: seq<Event>, b: Books, e: Event, textAt: nat, keyAt: nat)
    requires Traced(pieces, trace, b, textAt, keyAt) && Acknowledges(e) && Allowed(b, e)
    ensures AcksWhole(pieces, trace + [e])
  {
    assert (trace + [e])[..|trace|] == trace;
    AckIsWhole(pieces, trace, e);
  }

  lemma AfterOther(pieces: seq<Piece>, trace: seq<Event>, b: Books, e: Event, textAt: nat, keyAt: nat)
    requires Traced(pieces, trace, b, textAt, keyAt) && !e.PutText? && !e.PutKey? && Allowed(b, e)
    ensures Traced(pieces, trace + [e], Book(b, e), if e.TookText? then |trace| else textAt,
                   if e.TookKey? then |trace| else keyAt)
  {
    Quieter(pieces, trace, e);
    if Acknowledges(e) {
      AfterAck(pieces, trace, b, e, textAt, keyAt);
    } else {
      AcksStay(pieces, trace, e, []);
      assert pieces + [] == pieces;
    }
  }

  lemma {:induction false} PiecesOf(trace: seq<Event>) returns (pieces: seq<Piece>, textAt: nat, keyAt: nat)
    requires Legal(trace)
    ensures Traced(pieces, trace, BooksOf(trace), textAt, keyAt)
  {
    pieces, textAt, keyAt := [], 0, 0;
    if trace == [] {
    } else {
      var before, e := trace[..|trace| - 1], trace[|trace| - 1];
      var b := BooksOf(before);
      assert trace == before + [e];
      pieces, textAt, keyAt := PiecesOf(before);
      if e.PutText? {
        pieces := AfterPutText(pieces, before, b, e, textAt, keyAt);
      } else if e.PutKey? {
        pieces := AfterPutKey(pieces, before, b, e, textAt, keyAt);
      } else {
        AfterOther(pieces, before, b, e, textAt, keyAt);
        textAt, keyAt := if e.TookText? then |before| else textAt, if e.TookKey? then |before| else keyAt;
      }
    }
  }

  // ----- the log is legal whatever the keyboard does -----

  lemma FilterLinked(k: Keyboard, modifier: bool, space: bool)
    requires Linked(k.tsr) && k.tsr.queue != []
    ensures Linked(Filtered(k, modifier, space).tsr)
  {
    var t := Take(k.tsr, Read);
    TakeLinked(k.tsr, Read);
    TakeLinked(t, ReturnedSpace(modifier, space));
  }

  lemma PerformLinked(k: Keyboard, act: Act)
    requires Linked(k.tsr)
    ensures Linked(Perform(k, act).tsr)
  {
    match act {
      case Type(word) => TakeLinked(k.tsr, Keystroke(word));
      case Device(step) => TakeLinked(k.tsr, step);
      case Work(modifier, space) => TakeLinked(k.tsr, WorkerCall(modifier, space));
      case Interrupt(modifier, space) =>
        if k.tsr.port.capture.on && k.tsr.port.uart != [] {
          TakeLinked(k.tsr.(port := StoreByte(k.tsr.port)), WorkerCall(modifier, space));
        }
      case BeginRead(modifier, space) => TakeLinked(k.tsr, WorkerCall(modifier, space));
      case Return(modifier, space) =>
        if k.tsr.queue != [] {
          FilterLinked(k, modifier, space);
        }
      case ReadNow(modifier, space, modifier', space') =>
        TakeLinked(k.tsr, WorkerCall(modifier, space));
        var worked := RunWorker(k, modifier, space);
        if worked.tsr.queue != [] {
          FilterLinked(worked, modifier', space');
        }
    }
  }

  lemma {:induction false} PlayLinked(k: Keyboard, acts: seq<Act>)
    requires Linked(k.tsr)
    ensures Linked(Play(k, acts).tsr)
    decreases |acts|
  {
    if acts == [] {
    } else {
      PerformLinked(k, acts[0]);
      PlayLinked(Perform(k, acts[0]), acts[1..]);
    }
  }

  // ----- what the application receives -----

  /** The entries that make up the first words. */
  lemma {:induction false} SplitHistory(pushed: seq<Entry>, a: seq<u16>, b: seq<u16>) returns (n: nat)
    requires Words(pushed) == a + b
    ensures n <= |pushed| && Words(pushed[..n]) == a
  {
    n := 0;
    if a == [] {
    } else {
      var e, rest := pushed[0], pushed[1..];
      assert pushed == [e] + rest;
      HistoryOfCons(e, rest);
      var a' := if e.suppressed then a else a[1..];
      assert Words(rest) == a' + b by {
        if !e.suppressed {
          assert (a + b)[1..] == a[1..] + b && Words(rest) == ([e.word] + Words(rest))[1..];
        }
      }
      var m := SplitHistory(rest, a', b);
      n := m + 1;
      assert pushed[..n] == [e] + rest[..m];
      HistoryOfCons(e, rest[..m]);
    }
  }

  /** Over every run of typing, worker calls, interrupts and reads: what the application has received is the first n
      entries pushed, less suppressed Spaces. The words among them that the worker queued are, in order and without a
      gap, the beginning of the words of accepted packets: each TEXT contributes a beginning of its encoding in one
      stretch, each KEY its word, and none contributes twice. An input whose acknowledgement was tried contributes
      all its words. */
  lemma ApplicationReceives(mask: byte, acts: seq<Act>) returns (n: nat, pieces: seq<Piece>)
    ensures var k := Play(Keyboard(Initial(mask), [], [], false), acts);
      && k.received == HandedOver(Keyboard(Initial(mask), [], [], false), acts)
      && n <= |k.pushed| && k.received == Words(k.pushed[..n])
      && InjectedWords(k.pushed[..n]) <= AllWords(pieces)
      && Explains(pieces, k.tsr.traffic.trace) && AcksWhole(pieces, k.tsr.traffic.trace)
  {
    var start := Keyboard(Initial(mask), [], [], false);
    var k := Play(start, acts);
    Conservation(mask, acts);
    n := SplitHistory(k.pushed, k.received, k.tsr.queue);
    assert k.pushed[..n] + k.pushed[n..] == k.pushed;
    HistoryConcat(k.pushed[..n], k.pushed[n..]);
    PlayLinked(start, acts);
    var textAt, keyAt;
    pieces, textAt, keyAt := PiecesOf(k.tsr.traffic.trace);
  }
}
