/** dos/pc98/inject_bios_pc98.c: the circular keyboard queue of the PC-98 BIOS. */
module BiosKeyboard {
  import opened Bytes
  import opened KeyEncoding
  import opened CircularBuffer

  const BUFFER_START: u16 := 0x0502
  const BUFFER_END: u16 := 0x0522
  const CAPACITY: byte := 16

  /** An even address inside the buffer. */
  predicate InBuffer(position: u16) {
    BUFFER_START <= position < BUFFER_END && position % 2 == 0
  }

  function Cell(position: u16): nat
    requires InBuffer(position)
  {
    (position - BUFFER_START) / 2
  }

  /** What is left when the oldest word has gone. */
  lemma AfterFirst(cells: seq<u16>, first: nat, count: nat, words: seq<u16>) returns (rest: seq<u16>)
    requires first < |cells| && 0 < count <= |cells| && words == Ring(cells, first, count)
    ensures words == [cells[first]] + rest && |rest| == count - 1
    ensures rest == Ring(cells, Slot(cells, first, 1), count - 1)
    ensures Slot(cells, Slot(cells, first, 1), count - 1) == Slot(cells, first, count)
  {
    RingDropFirst(cells, first, count);
    rest := Ring(cells, Slot(cells, first, 1), count - 1);
  }

  class BiosQueue {
    /** The sixteen words at 0502h to 0521h. */
    const cells: array<u16>
    var head: u16
    var tail: u16
    var count: byte

    /** The queued words, oldest first. */
    ghost var words: seq<u16>

    ghost predicate Valid()
      reads this, cells
      ensures Valid() ==> |words| == count <= CAPACITY
    {
      && cells.Length == 16
      && InBuffer(head) && InBuffer(tail) && count <= CAPACITY
      && Cell(tail) == Slot(cells[..], Cell(head), count)
      && words == Ring(cells[..], Cell(head), count)
    }

    constructor ()
      ensures Valid() && fresh(cells) && words == []
    {
      cells := new u16[16];
      head, tail, count, words := BUFFER_START, BUFFER_START, 0, [];
    }

    /** Store a word at the tail and advance the tail around the buffer. */
    method Store(key: u16)
      requires cells.Length == 16 && InBuffer(tail) && count < CAPACITY
      modifies this, cells
      ensures head == old(head) && InBuffer(tail) && count == old(count) + 1
      ensures cells[..] == old(cells[..])[Cell(old(tail)) := key] && Cell(tail) == Slot(cells[..], Cell(old(tail)), 1)
      ensures old(Valid()) ==> Valid() && words == old(words) + [key]
    {
      var position := tail;
      cells[Cell(position)] := key;
      position := position + 2;
      if position >= BUFFER_END {
        position := BUFFER_START;
      }
      tail := position;
      count := count + 1;
      words := words + [key];
      if old(Valid()) {
        RingAppend(old(cells[..]), Cell(head), old(count), key);
      }
    }

    /** Refuses a full queue, and metadata that does not point into the buffer; otherwise appends. */
    method EnqueueWord(key: u16) returns (ok: bool)
      requires cells.Length == 16
      modifies this, cells
      ensures ok == old(count < CAPACITY && InBuffer(tail))
      ensures !ok ==> head == old(head) && tail == old(tail) && count == old(count) && cells[..] == old(cells[..])
      ensures old(Valid()) ==> Valid() && words == if ok then old(words) + [key] else old(words)
    {
      var position := tail;
      if count >= CAPACITY || position < BUFFER_START || position >= BUFFER_END || position % 2 == 1 {
        return false;
      }
      Store(key);
      ok := true;
    }

    /** Take back the newest word if it is the hotkey's Space. */
    method DiscardHotkeySpace() returns (ok: bool)
      requires cells.Length == 16
      modifies this
      ensures !ok ==> head == old(head) && tail == old(tail) && count == old(count)
      ensures old(Valid()) ==>
                && Valid()
                && ok == (old(words) != [] && old(words)[|old(words)| - 1] == 0x3420)
                && words == if ok then old(words)[..|old(words)| - 1] else old(words)
    {
      var position := tail;
      if count == 0 || position < BUFFER_START || position >= BUFFER_END || position % 2 == 1 {
        return false;
      }
      position := if position == BUFFER_START then BUFFER_END - 2 else position - 2;
      var key := cells[Cell(position)];
      if old(Valid()) {
        RingDropLast(cells[..], Cell(head), count);
      }
      if key % 256 != 0x20 || key / 256 != 0x34 {
        return false;
      }
      tail := position;
      count := count - 1;
      if words != [] {
        words := words[..|words| - 1];
      }
      ok := true;
    }

    /** dos/pc98/tsr_hook.S: the resident dequeue, reached only while the count is not zero. */
    method Dequeue() returns (key: u16)
      requires Valid() && count != 0
      modifies this
      ensures Valid() && [key] + words == old(words)
    {
      ghost var rest := AfterFirst(cells[..], Cell(head), count, words);
      key := cells[Cell(head)];
      count := count - 1;
      head := head + 2;
      if head >= BUFFER_END {
        head := BUFFER_START;
      }
      words := rest;
    }

    /** The loop of pc98_bios_inject: every key of the text in turn, as long as there is room. */
    method EnqueueKeys(text: seq<byte>) returns (done: bool)
      requires Valid() && words == []
      modifies this, cells
      ensures Valid()
      ensures |EncodeText(text)| <= CAPACITY ==> done && words == EncodeText(text)
    {
      var i := 0;
      while i < |text|
        invariant Valid()
        invariant words + EncodeFrom(text, i) == EncodeText(text)
      {
        if count >= CAPACITY {
          return false;
        }
        var (key, last) := EncodeKey(text, i);
        Assoc(words, [key], EncodeFrom(text, last + 1));
        Store(key);
        i := last + 1;
      }
      done := true;
    }

    /** Queue a whole short text, or nothing: 1 when queued, -1 when refused. */
    method Inject(text: seq<byte>) returns (result: int)
      requires Valid()
      modifies this, cells
      ensures Valid()
      ensures (result == 1) == (0 < |EncodeText(text)| <= CAPACITY && old(words) == [])
      ensures result == 1 ==> words == EncodeText(text)
      ensures result != 1 ==> result == -1 && words == old(words)
    {
      var outputLength := NormalizedLength(text);
      if outputLength == 0 || outputLength > CAPACITY || count != 0 || head != tail {
        return -1;
      }
      var done := EnqueueKeys(text);
      // Always done: the length was checked before anything was stored.
      result := if done then 1 else -1;
    }

    /** Inject and read every word back: 1 when all of them came back, 0 on a mismatch, -1 when refused. */
    method InjectVerify(text: seq<byte>) returns (result: int)
      requires Valid()
      modifies this, cells
      ensures Valid()
      ensures result == if 0 < |EncodeText(text)| <= CAPACITY && old(words) == [] then 1 else -1
      ensures words == old(words)
    {
      var injected := Inject(text);
      if injected < 0 {
        return -1;
      }
      var input := 0;
      while input < |text|
        invariant Valid()
        invariant words == EncodeFrom(text, input)
      {
        var (expected, last) := EncodeKey(text, input);
        var key := Dequeue();
        assert ([key] + words)[0] == key && ([key] + words)[1..] == words;
        if key != expected {
          assert false;
          return 0;
        }
        input := last + 1;
      }
      result := 1;
    }
  }
}
