/** Keystroke conservation over every interleaving of typing, worker calls and INT 18h reads. */
module KeyboardRuns {
  import opened Bytes
  import opened KeyEncoding
  import opened Worker
  import opened WorkerInvariants
  import opened Keystrokes

  /** A word that entered the queue, who put it there, and whether it was kept from the application. */
  datatype Entry = Entry(word: u16, injected: bool, suppressed: bool)

  /** The resident program, everything pushed so far, what the application received, and whether it waits in a read. */
  datatype Keyboard = Keyboard(tsr: Tsr, pushed: seq<Entry>, received: seq<u16>, reading: bool)

  /** The words pushed and not suppressed. */
  function Words(pushed: seq<Entry>): seq<u16> {
    if pushed == [] then []
    else (if pushed[0].suppressed then [] else [pushed[0].word]) + Words(pushed[1..])
  }

  function InjectedWords(pushed: seq<Entry>): seq<u16> {
    if pushed == [] then []
    else (if pushed[0].injected then [pushed[0].word] else []) + InjectedWords(pushed[1..])
  }

  function Suppressed(pushed: seq<Entry>): nat {
    if pushed == [] then 0 else (if pushed[0].suppressed then 1 else 0) + Suppressed(pushed[1..])
  }

  /** Suppress the n-th of the words not yet suppressed. */
  function Mark(pushed: seq<Entry>, n: nat): seq<Entry> {
    if pushed == [] then []
    else if pushed[0].suppressed then [pushed[0]] + Mark(pushed[1..], n)
    else if n == 0 then [pushed[0].(suppressed := true)] + pushed[1..]
    else [pushed[0]] + Mark(pushed[1..], n - 1)
  }

  function Injections(words: seq<u16>): (entries: seq<Entry>)
    ensures |entries| == |words|
    ensures forall i :: 0 <= i < |words| ==> entries[i] == Entry(words[i], true, false)
  {
    seq(|words|, i requires 0 <= i < |words| => Entry(words[i], true, false))
  }

  // ----- what can happen -----

  /** The keyboard interrupt pushes a key; the devices move; a hook runs the worker; the application enters a blocking
      read (AH=00), which returns once the queue has a word, or makes a non-blocking one (AH=05). The flags say whether
      the hotkey's modifier and Space are down when the worker and, for a non-blocking read, its filter look. */
  datatype Act =
    | Type(word: u16)
    | Device(step: Step)
    | Work(modifier: bool, space: bool)
    | Interrupt(modifier: bool, space: bool)
    | BeginRead(modifier: bool, space: bool)
    | Return(modifier: bool, space: bool)
    | ReadNow(modifier: bool, space: bool, modifier': bool, space': bool)

  /** A worker call: a word taken back is marked, queued words join the history. */
  function Worked(k: Keyboard, t: Tsr, discards: bool): Keyboard {
    var n := |Words(k.pushed)|;
    var marked := if discards && n > 0 then Mark(k.pushed, n - 1) else k.pushed;
    var before, after := Puts(k.tsr.traffic.trace), Puts(t.traffic.trace);
    k.(tsr := t, pushed := marked + Injections(if |before| <= |after| then after[|before|..] else []))
  }

  function RunWorker(k: Keyboard, modifier: bool, space: bool): Keyboard {
    Worked(k, Take(k.tsr, WorkerCall(modifier, space)), Discards(k.tsr, modifier, space))
  }

  /** A read has removed the oldest word: the filter suppresses the hotkey's Space, anything else is delivered. */
  function Filtered(k: Keyboard, modifier: bool, space: bool): Keyboard
    requires k.tsr.queue != []
  {
    var word, t := k.tsr.queue[0], Take(k.tsr, Read);
    if word != HOTKEY_SPACE then k.(tsr := t, received := k.received + [word], reading := false)
    else
      var (u, handled) := ReturnedHotkey(t, modifier, space);
      if handled then k.(tsr := u, pushed := Mark(k.pushed, |k.received|))
      else k.(tsr := u, received := k.received + [word], reading := false)
  }

  function Perform(k: Keyboard, act: Act): Keyboard {
    match act {
      case Type(word) =>
        if Full(k.tsr.queue) then k
        else k.(tsr := Take(k.tsr, Keystroke(word)), pushed := k.pushed + [Entry(word, false, false)])
      case Device(step) =>
        if step.Arrive? || step.Overrun? || step.Transmitter? || step.LineMoves? then k.(tsr := Take(k.tsr, step))
        else k
      case Work(modifier, space) => RunWorker(k, modifier, space)
      case Interrupt(modifier, space) =>
        if !k.tsr.port.capture.on || k.tsr.port.uart == [] then k
        else RunWorker(k.(tsr := k.tsr.(port := StoreByte(k.tsr.port))), modifier, space)
      case BeginRead(modifier, space) =>
        if k.reading then k else RunWorker(k, modifier, space).(reading := true)
      case Return(modifier, space) =>
        if k.reading && k.tsr.queue != [] then Filtered(k, modifier, space) else k
      case ReadNow(modifier, space, modifier', space') =>
        if k.reading then k
        else
          var worked := RunWorker(k, modifier, space);
          if worked.tsr.queue == [] then worked else Filtered(worked, modifier', space')
    }
  }

  function Play(k: Keyboard, acts: seq<Act>): Keyboard
    decreases |acts|
  {
    if acts == [] then k else Play(Perform(k, acts[0]), acts[1..])
  }

  // ----- the history under marking and pushing -----

  lemma HistoryOfCons(e: Entry, rest: seq<Entry>)
    ensures Words([e] + rest) == (if e.suppressed then [] else [e.word]) + Words(rest)
    ensures InjectedWords([e] + rest) == (if e.injected then [e.word] else []) + InjectedWords(rest)
    ensures Suppressed([e] + rest) == (if e.suppressed then 1 else 0) + Suppressed(rest)
  {
    assert ([e] + rest)[1..] == rest;
  }

  lemma {:induction false} HistoryConcat(a: seq<Entry>, b: seq<Entry>)
    ensures Words(a + b) == Words(a) + Words(b)
    ensures InjectedWords(a + b) == InjectedWords(a) + InjectedWords(b)
    ensures Suppressed(a + b) == Suppressed(a) + Suppressed(b)
  {
    if a == [] {
      assert a + b == b;
    } else {
      var e, rest := a[0], a[1..];
      assert [e] + rest == a && a + b == [e] + (rest + b);
      HistoryOfCons(e, rest);
      HistoryOfCons(e, rest + b);
      HistoryConcat(rest, b);
      Assoc(if e.suppressed then [] else [e.word], Words(rest), Words(b));
      Assoc(if e.injected then [e.word] else [], InjectedWords(rest), InjectedWords(b));
    }
  }

  lemma {:induction false} HistoryOfInjections(words: seq<u16>)
    ensures Words(Injections(words)) == InjectedWords(Injections(words)) == words
    ensures Suppressed(Injections(words)) == 0
  {
    if words == [] {
    } else {
      assert Injections(words)[1..] == Injections(words[1..]);
      HistoryOfInjections(words[1..]);
    }
  }

  lemma HistoryOfOne(e: Entry)
    ensures Words([e]) == if e.suppressed then [] else [e.word]
    ensures InjectedWords([e]) == if e.injected then [e.word] else []
    ensures Suppressed([e]) == if e.suppressed then 1 else 0
  {
    assert [e][1..] == [];
  }

  /** Only a Space typed by the user is ever suppressed. */
  predicate Fits(e: Entry) {
    (e.suppressed ==> e.word == 0x3420 && !e.injected) && (e.injected ==> e.word != 0x3420)
  }

  ghost predicate OnlySpacesSuppressed(pushed: seq<Entry>) {
    forall e :: e in pushed ==> Fits(e)
  }

  /** Marking changes one entry that was not suppressed. */
  lemma {:induction false} MarkedAt(pushed: seq<Entry>, n: nat) returns (a: seq<Entry>, e: Entry, b: seq<Entry>)
    requires n < |Words(pushed)|
    ensures pushed == a + ([e] + b) && !e.suppressed && |Words(a)| == n
    ensures Mark(pushed, n) == a + ([e.(suppressed := true)] + b)
  {
    var first, rest := pushed[0], pushed[1..];
    assert pushed == [first] + rest;
    if !first.suppressed && n == 0 {
      a, e, b := [], first, rest;
      assert [] + ([first.(suppressed := true)] + rest) == [first.(suppressed := true)] + rest;
    } else {
      HistoryOfCons(first, rest);
      var front;
      front, e, b := MarkedAt(rest, if first.suppressed then n else n - 1);
      a := [first] + front;
      HistoryOfCons(first, front);
      Assoc([first], front, [e] + b);
      Assoc([first], front, [e.(suppressed := true)] + b);
    }
  }

  lemma OneEntryMarked(a: seq<Entry>, e: Entry, b: seq<Entry>)
    requires !e.suppressed
    ensures var before, after := a + ([e] + b), a + ([e.(suppressed := true)] + b);
      && Words(before) == Words(a) + ([e.word] + Words(b)) && Words(after) == Words(a) + Words(b)
      && InjectedWords(after) == InjectedWords(before) && Suppressed(after) == Suppressed(before) + 1
  {
    var m := e.(suppressed := true);
    HistoryConcat(a, [e] + b);
    HistoryConcat(a, [m] + b);
    HistoryOfCons(e, b);
    HistoryOfCons(m, b);
    assert [] + Words(b) == Words(b);
  }

  lemma CutOut(x: seq<u16>, w: u16, y: seq<u16>)
    ensures var z := x + ([w] + y); z[|x|] == w && z[..|x|] == x && z[|x| + 1..] == y
  {
  }

  lemma MarkingKeepsOnlySpaces(a: seq<Entry>, e: Entry, b: seq<Entry>)
    requires OnlySpacesSuppressed(a + ([e] + b)) && e.word == HOTKEY_SPACE
    ensures OnlySpacesSuppressed(a + ([e.(suppressed := true)] + b))
  {
    assert e in a + ([e] + b) && Fits(e);
    forall x | x in a || x in b ensures Fits(x) {
      assert x in a + ([e] + b);
    }
  }

  lemma MarkRemovesOne(pushed: seq<Entry>, n: nat, words: seq<u16>, marked: seq<Entry>)
    requires words == Words(pushed) && n < |words| && words[n] == HOTKEY_SPACE && OnlySpacesSuppressed(pushed)
    requires marked == Mark(pushed, n)
    ensures Words(marked) == words[..n] + words[n + 1..] && InjectedWords(marked) == InjectedWords(pushed)
    ensures Suppressed(marked) == Suppressed(pushed) + 1 && OnlySpacesSuppressed(marked)
  {
    var a, e, b := MarkedAt(pushed, n);
    OneEntryMarked(a, e, b);
    CutOut(Words(a), e.word, Words(b));
    MarkingKeepsOnlySpaces(a, e, b);
  }

  // ----- conservation -----

  ghost predicate Balanced(k: Keyboard) {
    && k.received + k.tsr.queue == Words(k.pushed)
    && InjectedWords(k.pushed) == Puts(k.tsr.traffic.trace)
    && Suppressed(k.pushed) == Toggles(k.tsr.traffic.trace)
    && OnlySpacesSuppressed(k.pushed)
  }

  lemma InjectionsFit(base: seq<Entry>, added: seq<u16>)
    requires OnlySpacesSuppressed(base) && HOTKEY_SPACE !in added
    ensures OnlySpacesSuppressed(base + Injections(added))
  {
    forall e | e in base + Injections(added) ensures Fits(e) {
      if e !in base {
        var i :| 0 <= i < |added| && Injections(added)[i] == e;
      }
    }
  }

  lemma AppendBalances(k: Keyboard, start: Tsr, base: seq<Entry>, t: Tsr, added: seq<u16>, toggled: nat)
    requires k.received + start.queue == Words(base) && InjectedWords(base) == Puts(start.traffic.trace)
    requires Suppressed(base) == Toggles(start.traffic.trace) + toggled && OnlySpacesSuppressed(base)
    requires Grew(start, t, added, toggled)
    ensures Balanced(k.(tsr := t, pushed := base + Injections(added)))
  {
    var entries := Injections(added);
    HistoryConcat(base, entries);
    HistoryOfInjections(added);
    Assoc(k.received, start.queue, added);
    InjectionsFit(base, added);
  }

  lemma DiscardBalances(k: Keyboard, modifier: bool, space: bool) returns (marked: seq<Entry>)
    requires Balanced(k) && Discards(k.tsr, modifier, space)
    ensures |Words(k.pushed)| > 0 && marked == Mark(k.pushed, |Words(k.pushed)| - 1)
    ensures k.received + AfterDiscard(k.tsr, modifier, space) == Words(marked)
    ensures InjectedWords(marked) == InjectedWords(k.pushed) && Suppressed(marked) == Suppressed(k.pushed) + 1
    ensures OnlySpacesSuppressed(marked)
  {
    var words, q := Words(k.pushed), k.tsr.queue;
    var n := |words| - 1;
    assert words[n] == q[|q| - 1];
    marked := Mark(k.pushed, n);
    MarkRemovesOne(k.pushed, n, words, marked);
    assert words[n + 1..] == [] && words[..n] == k.received + q[..|q| - 1];
  }

  lemma RunWorkerBalances(k: Keyboard, modifier: bool, space: bool, mask: byte)
    requires Core(k.tsr, mask) && |k.tsr.port.capture.pending| <= RX_BUDGET && Balanced(k)
    ensures var r := RunWorker(k, modifier, space);
      AtRest(r.tsr, mask) && Balanced(r) && r.received == k.received && r.reading == k.reading
  {
    ServiceRests(k.tsr, modifier, space, mask);
    WorkedBalances(k, modifier, space, mask);
  }

  lemma WorkedBalances(k: Keyboard, modifier: bool, space: bool, mask: byte)
    requires Core(k.tsr, mask) && |k.tsr.port.capture.pending| <= RX_BUDGET && Balanced(k)
    ensures Balanced(RunWorker(k, modifier, space))
  {
    var added := ServiceAdds(k.tsr, modifier, space, mask);
    GrowthBalances(k, Service(k.tsr, modifier, space), added, modifier, space);
  }

  lemma GrowthBalances(k: Keyboard, t: Tsr, added: seq<u16>, modifier: bool, space: bool)
    requires Balanced(k)
    requires Grew(k.tsr.(queue := AfterDiscard(k.tsr, modifier, space)), t, added,
                  if Discards(k.tsr, modifier, space) then 1 else 0)
    ensures Balanced(Worked(k, t, Discards(k.tsr, modifier, space)))
  {
    var start := k.tsr.(queue := AfterDiscard(k.tsr, modifier, space));
    AddedIsLogged(Puts(k.tsr.traffic.trace), added);
    if Discards(k.tsr, modifier, space) {
      var marked := DiscardBalances(k, modifier, space);
      AppendBalances(k, start, marked, t, added, 1);
    } else {
      AppendBalances(k, start, k.pushed, t, added, 0);
    }
  }

  lemma AddedIsLogged(before: seq<u16>, added: seq<u16>)
    ensures (before + added)[|before|..] == added
  {
  }

  lemma SplitAtRead(words: seq<u16>, received: seq<u16>, queue: seq<u16>)
    requires words == received + queue && queue != []
    ensures var n := |received|;
      words[n] == queue[0] && words[..n] == received && words[n + 1..] == queue[1..]
    ensures words == (received + [queue[0]]) + queue[1..]
  {
  }

  /** The oldest word is delivered. */
  lemma DeliveryBalances(k: Keyboard, t: Tsr)
    requires Balanced(k) && k.tsr.queue != []
    requires t.queue == k.tsr.queue[1..] && t.traffic.trace == k.tsr.traffic.trace
    ensures Balanced(k.(tsr := t, received := k.received + [k.tsr.queue[0]], reading := false))
  {
    SplitAtRead(Words(k.pushed), k.received, k.tsr.queue);
  }

  /** The oldest word is suppressed, for one toggle. */
  lemma SuppressionBalances(k: Keyboard, t: Tsr)
    requires Balanced(k) && k.tsr.queue != [] && k.tsr.queue[0] == HOTKEY_SPACE && t.queue == k.tsr.queue[1..]
    requires Puts(t.traffic.trace) == Puts(k.tsr.traffic.trace)
    requires Toggles(t.traffic.trace) == Toggles(k.tsr.traffic.trace) + 1
    ensures Balanced(k.(tsr := t, pushed := Mark(k.pushed, |k.received|)))
  {
    SplitAtRead(Words(k.pushed), k.received, k.tsr.queue);
    MarkRemovesOne(k.pushed, |k.received|, Words(k.pushed), Mark(k.pushed, |k.received|));
  }

  /** The oldest word is the hotkey's Space: suppressed while the hotkey is down, else delivered. */
  lemma SpaceBalances(k: Keyboard, t: Tsr, modifier: bool, space: bool)
    requires Balanced(k) && k.tsr.queue != [] && k.tsr.queue[0] == HOTKEY_SPACE && t == Take(k.tsr, Read)
    ensures Balanced(Filtered(k, modifier, space))
  {
    var u := ReturnedHotkey(t, modifier, space).0;
    if modifier && space {
      ToggleAddsNothing(t.(latched := true));
      SuppressionBalances(k, u);
    } else {
      DeliveryBalances(k, u);
    }
  }

  lemma ReturnedRests(t: Tsr, modifier: bool, space: bool, mask: byte)
    requires AtRest(t, mask)
    ensures AtRest(ReturnedHotkey(t, modifier, space).0, mask)
  {
    TakeRests(t, ReturnedSpace(modifier, space), mask);
  }

  lemma FilterRests(k: Keyboard, t: Tsr, modifier: bool, space: bool, mask: byte)
    requires AtRest(k.tsr, mask) && k.tsr.queue != [] && t == Take(k.tsr, Read)
    ensures AtRest(Filtered(k, modifier, space).tsr, mask)
  {
    TakeRests(k.tsr, Read, mask);
    ReturnedRests(t, modifier, space, mask);
  }

  lemma FilterBalances(k: Keyboard, modifier: bool, space: bool, mask: byte)
    requires AtRest(k.tsr, mask) && Balanced(k) && k.tsr.queue != []
    ensures AtRest(Filtered(k, modifier, space).tsr, mask) && Balanced(Filtered(k, modifier, space))
  {
    var t := Take(k.tsr, Read);
    FilterRests(k, t, modifier, space, mask);
    if k.tsr.queue[0] != HOTKEY_SPACE {
      DeliveryBalances(k, t);
    } else {
      SpaceBalances(k, t, modifier, space);
    }
  }

  lemma TypedFits(pushed: seq<Entry>, e: Entry)
    requires OnlySpacesSuppressed(pushed) && e == Entry(e.word, false, false)
    ensures OnlySpacesSuppressed(pushed + [e])
  {
  }

  lemma TypeBalances(k: Keyboard, word: u16)
    requires Balanced(k) && !Full(k.tsr.queue)
    ensures Balanced(k.(tsr := k.tsr.(queue := k.tsr.queue + [word]), pushed := k.pushed + [Entry(word, false, false)]))
  {
    var e := Entry(word, false, false);
    HistoryConcat(k.pushed, [e]);
    HistoryOfOne(e);
    TypedFits(k.pushed, e);
    Assoc(k.received, k.tsr.queue, [word]);
  }

  lemma DeviceBalances(k: Keyboard, t: Tsr)
    requires Balanced(k) && t.queue == k.tsr.queue && t.traffic.trace == k.tsr.traffic.trace
    ensures Balanced(k.(tsr := t))
  {
  }

  lemma TypeActBalances(k: Keyboard, act: Act, mask: byte)
    requires AtRest(k.tsr, mask) && Balanced(k) && act.Type?
    ensures AtRest(Perform(k, act).tsr, mask) && Balanced(Perform(k, act))
  {
    TakeRests(k.tsr, Keystroke(act.word), mask);
    if !Full(k.tsr.queue) { TypeBalances(k, act.word); }
  }

  lemma DeviceActBalances(k: Keyboard, act: Act, mask: byte)
    requires AtRest(k.tsr, mask) && Balanced(k) && act.Device?
    ensures AtRest(Perform(k, act).tsr, mask) && Balanced(Perform(k, act))
  {
    var step := act.step;
    TakeRests(k.tsr, step, mask);
    if step.Arrive? || step.Overrun? || step.Transmitter? || step.LineMoves? {
      DeviceBalances(k, Take(k.tsr, step));
    }
  }

  lemma InterruptBalances(k: Keyboard, act: Act, mask: byte)
    requires AtRest(k.tsr, mask) && Balanced(k) && act.Interrupt?
    ensures AtRest(Perform(k, act).tsr, mask) && Balanced(Perform(k, act))
  {
    if k.tsr.port.capture.on && k.tsr.port.uart != [] {
      RunWorkerBalances(k.(tsr := k.tsr.(port := StoreByte(k.tsr.port))), act.modifier, act.space, mask);
    }
  }

  lemma PerformBalances(k: Keyboard, act: Act, mask: byte)
    requires AtRest(k.tsr, mask) && Balanced(k)
    ensures AtRest(Perform(k, act).tsr, mask) && Balanced(Perform(k, act))
  {
    match act {
      case Type(_) => TypeActBalances(k, act, mask);
      case Device(_) => DeviceActBalances(k, act, mask);
      case Work(modifier, space) => RunWorkerBalances(k, modifier, space, mask);
      case Interrupt(_, _) => InterruptBalances(k, act, mask);
      case BeginRead(modifier, space) => RunWorkerBalances(k, modifier, space, mask);
      case Return(modifier, space) => ReadBalances(k, modifier, space, mask);
      case ReadNow(_, _, _, _) => ReadNowBalances(k, act, mask);
    }
  }

  lemma ReadNowBalances(k: Keyboard, act: Act, mask: byte)
    requires AtRest(k.tsr, mask) && Balanced(k) && act.ReadNow?
    ensures AtRest(Perform(k, act).tsr, mask) && Balanced(Perform(k, act))
  {
    var worked := RunWorker(k, act.modifier, act.space);
    RunWorkerBalances(k, act.modifier, act.space, mask);
    ReadBalances(worked, act.modifier', act.space', mask);
    ReadNowIsBoth(k, act, worked);
  }

  lemma ReadNowIsBoth(k: Keyboard, act: Act, worked: Keyboard)
    requires act.ReadNow? && worked == RunWorker(k, act.modifier, act.space)
    ensures Perform(k, act) == if k.reading then k
                               else if worked.tsr.queue == [] then worked
                               else Filtered(worked, act.modifier', act.space')
  {
  }

  lemma ReadBalances(k: Keyboard, modifier: bool, space: bool, mask: byte)
    requires AtRest(k.tsr, mask) && Balanced(k)
    ensures k.tsr.queue != [] ==>
              AtRest(Filtered(k, modifier, space).tsr, mask) && Balanced(Filtered(k, modifier, space))
  {
    if k.tsr.queue != [] { FilterBalances(k, modifier, space, mask); }
  }

  lemma {:induction false} PlayBalances(k: Keyboard, acts: seq<Act>, mask: byte)
    requires AtRest(k.tsr, mask) && Balanced(k)
    ensures AtRest(Play(k, acts).tsr, mask) && Balanced(Play(k, acts))
    decreases |acts|
  {
    if acts == [] {
    } else {
      PerformBalances(k, acts[0], mask);
      PlayBalances(Perform(k, acts[0]), acts[1..], mask);
    }
  }

  /** Over every run: what the reads handed over to the application followed by what is still queued is, in order,
      everything that was pushed except the suppressed words; the injected words among it are exactly those the worker
      logged; every suppressed word is a Space the user typed, and there are as many of them as toggles of the IME. */
  lemma Conservation(mask: byte, acts: seq<Act>)
    ensures var k := Play(Keyboard(Initial(mask), [], [], false), acts);
      && k.received + k.tsr.queue == Words(k.pushed)
      && InjectedWords(k.pushed) == Puts(k.tsr.traffic.trace)
      && Suppressed(k.pushed) == Toggles(k.tsr.traffic.trace)
      && (forall e :: e in k.pushed && e.suppressed ==> e.word == 0x3420 && !e.injected)
      && k.received == HandedOver(Keyboard(Initial(mask), [], [], false), acts)
  {
    var start := Keyboard(Initial(mask), [], [], false);
    PlayBalances(start, acts, mask);
    ReceivedIsHandedOver(start, acts);
  }

  /** The modifier and Space are down at a moment at which the act looks. */
  predicate Down(act: Act) {
    match act {
      case Work(modifier, space) => modifier && space
      case Interrupt(modifier, space) => modifier && space
      case BeginRead(modifier, space) => modifier && space
      case Return(modifier, space) => modifier && space
      case ReadNow(modifier, space, modifier', space') => (modifier && space) || (modifier' && space')
      case _ => false
    }
  }

  lemma WorkerWithoutHotkey(k: Keyboard, modifier: bool, space: bool)
    requires !modifier || !space
    ensures Suppressed(RunWorker(k, modifier, space).pushed) == Suppressed(k.pushed)
  {
    var before, after := Puts(k.tsr.traffic.trace), Puts(Take(k.tsr, WorkerCall(modifier, space)).traffic.trace);
    var added := if |before| <= |after| then after[|before|..] else [];
    HistoryConcat(k.pushed, Injections(added));
    HistoryOfInjections(added);
  }

  lemma FilterWithoutHotkey(k: Keyboard, modifier: bool, space: bool)
    requires k.tsr.queue != [] && (!modifier || !space)
    ensures Filtered(k, modifier, space).pushed == k.pushed
  {
  }

  /** Nothing is suppressed unless the hotkey is down: an ordinary Space always reaches the application. */
  lemma SuppressedOnlyWhileDown(k: Keyboard, act: Act)
    requires !Down(act)
    ensures Suppressed(Perform(k, act).pushed) == Suppressed(k.pushed)
  {
    match act {
      case Type(word) =>
        HistoryConcat(k.pushed, [Entry(word, false, false)]);
        HistoryOfOne(Entry(word, false, false));
      case Device(_) =>
      case Work(modifier, space) => WorkerWithoutHotkey(k, modifier, space);
      case Interrupt(modifier, space) =>
        if k.tsr.port.capture.on && k.tsr.port.uart != [] {
          WorkerWithoutHotkey(k.(tsr := k.tsr.(port := StoreByte(k.tsr.port))), modifier, space);
        }
      case BeginRead(modifier, space) => WorkerWithoutHotkey(k, modifier, space);
      case Return(modifier, space) =>
        if k.tsr.queue != [] {
          FilterWithoutHotkey(k, modifier, space);
        }
      case ReadNow(modifier, space, modifier', space') =>
        WorkerWithoutHotkey(k, modifier, space);
        var worked := RunWorker(k, modifier, space);
        if worked.tsr.queue != [] {
          FilterWithoutHotkey(worked, modifier', space');
        }
    }
  }

  // ----- these runs are runs of the worker -----

  /** The worker's steps behind a read that finds a word. */
  function FilterSteps(queue: seq<u16>, modifier: bool, space: bool): seq<Step>
    requires queue != []
  {
    if queue[0] == 0x3420 then [Read, ReturnedSpace(modifier, space)] else [Read]
  }

  /** The worker's steps behind an act. */
  function StepsOf(k: Keyboard, act: Act): seq<Step> {
    match act {
      case Type(word) => [Keystroke(word)]
      case Device(step) => if step.Arrive? || step.Overrun? || step.Transmitter? || step.LineMoves? then [step] else []
      case Work(modifier, space) => [WorkerCall(modifier, space)]
      case Interrupt(modifier, space) => [ReceiveIrq(modifier, space)]
      case BeginRead(modifier, space) => if k.reading then [] else [WorkerCall(modifier, space)]
      case Return(modifier, space) =>
        if k.reading && k.tsr.queue != [] then FilterSteps(k.tsr.queue, modifier, space) else []
      case ReadNow(modifier, space, modifier', space') =>
        if k.reading then []
        else
          var queue := Service(k.tsr, modifier, space).queue;
          [WorkerCall(modifier, space)] + if queue == [] then [] else FilterSteps(queue, modifier', space')
    }
  }

  lemma RunOne(s: Tsr, step: Step)
    ensures Run(s, [step]) == Take(s, step)
  {
    assert [step][1..] == [];
  }

  lemma {:induction false} RunConcat(s: Tsr, a: seq<Step>, b: seq<Step>)
    ensures Run(s, a + b) == Run(Run(s, a), b)
    decreases |a|
  {
    if a == [] {
      assert a + b == b;
    } else {
      assert (a + b)[1..] == a[1..] + b;
      RunConcat(Take(s, a[0]), a[1..], b);
    }
  }

  lemma FilterIsSteps(k: Keyboard, modifier: bool, space: bool)
    requires k.tsr.queue != []
    ensures Filtered(k, modifier, space).tsr == Run(k.tsr, FilterSteps(k.tsr.queue, modifier, space))
  {
    RunOne(k.tsr, Read);
    RunOne(Take(k.tsr, Read), ReturnedSpace(modifier, space));
    RunConcat(k.tsr, [Read], [ReturnedSpace(modifier, space)]);
    assert [Read] + [ReturnedSpace(modifier, space)] == [Read, ReturnedSpace(modifier, space)];
  }

  lemma ReturnIsSteps(k: Keyboard, modifier: bool, space: bool)
    ensures Perform(k, Return(modifier, space)).tsr == Run(k.tsr, StepsOf(k, Return(modifier, space)))
  {
    if k.reading && k.tsr.queue != [] {
      FilterIsSteps(k, modifier, space);
    }
  }

  lemma ActIsSteps(k: Keyboard, act: Act)
    ensures Perform(k, act).tsr == Run(k.tsr, StepsOf(k, act))
  {
    match act {
      case Type(word) => RunOne(k.tsr, Keystroke(word));
      case Device(step) => RunOne(k.tsr, step);
      case Work(modifier, space) => RunOne(k.tsr, WorkerCall(modifier, space));
      case Interrupt(modifier, space) => RunOne(k.tsr, ReceiveIrq(modifier, space));
      case BeginRead(modifier, space) => RunOne(k.tsr, WorkerCall(modifier, space));
      case Return(modifier, space) => ReturnIsSteps(k, modifier, space);
      case ReadNow(modifier, space, modifier', space') =>
        ReadNowIsSteps(k, modifier, space, modifier', space');
    }
  }

  lemma ReadNowIsSteps(k: Keyboard, modifier: bool, space: bool, modifier': bool, space': bool)
    ensures var act := ReadNow(modifier, space, modifier', space');
      Perform(k, act).tsr == Run(k.tsr, StepsOf(k, act))
  {
    var w := RunWorker(k, modifier, space);
    RunOne(k.tsr, WorkerCall(modifier, space));
    if w.tsr.queue != [] {
      FilterIsSteps(w, modifier', space');
      RunConcat(k.tsr, [WorkerCall(modifier, space)], FilterSteps(w.tsr.queue, modifier', space'));
    } else {
      assert [WorkerCall(modifier, space)] + [] == [WorkerCall(modifier, space)];
    }
  }

  /** What the keyboard, the application and the hooks do to the worker is a run of it: what holds over every run of the
      worker holds over every interleaving. */
  lemma {:induction false} PlayIsRun(k: Keyboard, acts: seq<Act>) returns (steps: seq<Step>)
    ensures Play(k, acts).tsr == Run(k.tsr, steps)
    decreases |acts|
  {
    if acts == [] {
      steps := [];
    } else {
      var next := Perform(k, acts[0]);
      ActIsSteps(k, acts[0]);
      var rest := PlayIsRun(next, acts[1..]);
      RunConcat(k.tsr, StepsOf(k, acts[0]), rest);
      steps := StepsOf(k, acts[0]) + rest;
    }
  }

  // ----- what each hook does, told by what the application sees -----

  /** A read takes the oldest word. A Space with the hotkey down is kept back for one switch of the IME, on or off, and
      the read goes on; any other word is handed over and ends the read. */
  lemma ReturnTakesOldest(k: Keyboard, modifier: bool, space: bool)
    requires k.reading && k.tsr.queue != []
    ensures var r, word := Perform(k, Return(modifier, space)), k.tsr.queue[0];
      && r.tsr.queue == k.tsr.queue[1..]
      && if word == 0x3420 && modifier && space
         then r.received == k.received && r.reading && r.tsr.session.imeEnabled != k.tsr.session.imeEnabled
              && Toggles(r.tsr.traffic.trace) == Toggles(k.tsr.traffic.trace) + 1
         else r.received == k.received + [word] && !r.reading && r.pushed == k.pushed
              && r.tsr.session == k.tsr.session && r.tsr.traffic == k.tsr.traffic
  {
    if modifier && space {
      ToggleAddsNothing(Take(k.tsr, Read).(latched := true));
    }
  }

  /** A read waits while the queue is empty. */
  lemma ReturnWaits(k: Keyboard, modifier: bool, space: bool)
    requires !k.reading || k.tsr.queue == []
    ensures Perform(k, Return(modifier, space)) == k
  {
  }

  /** A non-blocking read is over when it returns; it finds the queue as the worker leaves it. */
  lemma ReadNowTakesOldest(k: Keyboard, modifier: bool, space: bool, modifier': bool, space': bool)
    requires !k.reading
    ensures var w, r := Perform(k, Work(modifier, space)), Perform(k, ReadNow(modifier, space, modifier', space'));
      && !r.reading && w.received == k.received
      && if w.tsr.queue == [] then r.tsr == w.tsr && r.received == k.received
         else
           && r.tsr.queue == w.tsr.queue[1..]
           && if w.tsr.queue[0] == 0x3420 && modifier' && space'
              then r.received == k.received && r.tsr.session.imeEnabled != w.tsr.session.imeEnabled
                   && Toggles(r.tsr.traffic.trace) == Toggles(w.tsr.traffic.trace) + 1
              else r.received == k.received + [w.tsr.queue[0]] && r.tsr.session == w.tsr.session
                   && r.tsr.traffic == w.tsr.traffic
  {
    var w := Perform(k, Work(modifier, space));
    if w.tsr.queue != [] && modifier' && space' {
      ToggleAddsNothing(Take(w.tsr, Read).(latched := true));
    }
  }

  /** A key typed joins the queue while it holds fewer than sixteen words, and is lost otherwise. */
  lemma TypingQueues(k: Keyboard, word: u16)
    ensures var r := Perform(k, Type(word));
      && r.tsr == k.tsr.(queue := r.tsr.queue) && r.received == k.received && r.reading == k.reading
      && if |k.tsr.queue| < 16 then r.tsr.queue == k.tsr.queue + [word] else r.tsr.queue == k.tsr.queue
  {
  }

  /** A blocking read begins with a worker call and then waits for a word. */
  lemma ReadBegins(k: Keyboard, modifier: bool, space: bool)
    requires !k.reading
    ensures var r := Perform(k, BeginRead(modifier, space));
      r.reading && r.received == k.received && r.tsr == Service(k.tsr, modifier, space)
  {
  }

  /** How many Spaces lead the queue. */
  function Leading(queue: seq<u16>): nat {
    if queue == [] || queue[0] != 0x3420 then 0 else 1 + Leading(queue[1..])
  }

  predicate AllReturns(acts: seq<Act>) {
    forall i :: 0 <= i < |acts| ==> acts[i].Return?
  }

  lemma {:induction false} IdleReturns(k: Keyboard, acts: seq<Act>)
    requires !k.reading && AllReturns(acts)
    ensures Play(k, acts) == k
    decreases |acts|
  {
    if acts == [] {
    } else {
      assert acts[0].Return?;
      ReturnWaits(k, acts[0].modifier, acts[0].space);
      IdleReturns(k, acts[1..]);
    }
  }

  /** A blocking read on a queue that holds a word other than the hotkey's Space returns exactly one word: the oldest
      that is not kept back. It keeps back j Spaces, at most as many as lead the queue, each for one switch of the
      IME. */
  lemma {:induction false} ReadReturnsOneWord(k: Keyboard, acts: seq<Act>) returns (j: nat)
    requires k.reading && AllReturns(acts) && Leading(k.tsr.queue) < |k.tsr.queue| && |acts| > Leading(k.tsr.queue)
    ensures j <= Leading(k.tsr.queue) < |acts|
    ensures var r := Play(k, acts);
      && !r.reading && r.received == k.received + [k.tsr.queue[j]] && r.tsr.queue == k.tsr.queue[j + 1..]
      && Toggles(r.tsr.traffic.trace) == Toggles(k.tsr.traffic.trace) + j
    ensures forall i :: 0 <= i < j ==> k.tsr.queue[i] == 0x3420 && acts[i].modifier && acts[i].space
    ensures !(k.tsr.queue[j] == 0x3420 && acts[j].modifier && acts[j].space)
    decreases |acts|
  {
    var act, next := acts[0], Perform(k, acts[0]);
    assert act.Return?;
    ReturnTakesOldest(k, act.modifier, act.space);
    if next.reading {
      var i := ReadReturnsOneWord(next, acts[1..]);
      j := i + 1;
      assert k.tsr.queue[1..][i + 1..] == k.tsr.queue[j + 1..];
      assert forall n :: 0 < n < j ==> k.tsr.queue[n] == next.tsr.queue[n - 1] && acts[n] == acts[1..][n - 1];
    } else {
      j := 0;
      IdleReturns(next, acts[1..]);
    }
  }

  /** The word that the act hands to the application. */
  function HandsOver(k: Keyboard, act: Act): Option<u16> {
    match act {
      case Return(modifier, space) =>
        if k.reading && k.tsr.queue != [] && !(k.tsr.queue[0] == 0x3420 && modifier && space)
        then Some(k.tsr.queue[0]) else None
      case ReadNow(modifier, space, modifier', space') =>
        var queue := Service(k.tsr, modifier, space).queue;
        if !k.reading && queue != [] && !(queue[0] == 0x3420 && modifier' && space') then Some(queue[0]) else None
      case _ => None
    }
  }

  function HandedOver(k: Keyboard, acts: seq<Act>): seq<u16>
    decreases |acts|
  {
    if acts == [] then []
    else
      (match HandsOver(k, acts[0]) case Some(word) => [word] case None => [])
      + HandedOver(Perform(k, acts[0]), acts[1..])
  }

  lemma ActHandsOver(k: Keyboard, act: Act)
    ensures Perform(k, act).received ==
            k.received + (match HandsOver(k, act) case Some(word) => [word] case None => [])
  {
    assert k.received + [] == k.received;
  }

  /** What the application has received is what its reads handed over, one word each and in order. */
  lemma {:induction false} ReceivedIsHandedOver(k: Keyboard, acts: seq<Act>)
    ensures Play(k, acts).received == k.received + HandedOver(k, acts)
    decreases |acts|
  {
    if acts == [] {
      assert k.received + [] == k.received;
    } else {
      var next := Perform(k, acts[0]);
      ActHandsOver(k, acts[0]);
      ReceivedIsHandedOver(next, acts[1..]);
      Assoc(k.received, match HandsOver(k, acts[0]) case Some(word) => [word] case None => [],
            HandedOver(next, acts[1..]));
    }
  }
}
