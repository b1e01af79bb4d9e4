/** dos/pc98/serial_irq_buffer_pc98.c and the receive interrupt of dos/pc98/tsr_hook.S: the byte ring between them,
    and the interrupt mask saved while it is in use. */
module IrqCapture {
  import opened Bytes
  import opened CircularBuffer

  const RING_SIZE := 128
  const RING_CAPACITY := 127

  /** Capture flag, bytes waiting, interrupt mask register and the mask saved from it. */
  datatype Capture = Capture(on: bool, pending: seq<byte>, mask: byte, saved: Option<byte>)

  /** The mask with the COM1 receive interrupt, bit 4, enabled. */
  function Unmasked(mask: byte): byte {
    if mask / 16 % 2 == 1 then mask - 16 else mask
  }

  function Begin(c: Capture): Capture {
    Capture(true, [], Unmasked(c.mask), Some(c.mask))
  }

  function End(c: Capture): Capture {
    Capture(false, [], if c.saved.Some? then c.saved.value else c.mask, None)
  }

  /** The interrupt stores a byte, or drops it when all but one slot are taken. */
  function Stored(c: Capture, value: byte): Capture {
    if |c.pending| >= RING_CAPACITY then c else c.(pending := c.pending + [value])
  }

  lemma UnmaskedClearsOnlyBit4(mask: byte, i: nat)
    requires i < 8
    ensures Bit(Unmasked(mask), i) == (i != 4 && Bit(mask, i))
  {
    var h, b := mask / 16, mask % 16;
    if h % 2 == 1 {
      Nibble(b, h, i);
      Nibble(b, h - 1, i);
    } else if i == 4 {
      Nibble(b, h, i);
    }
  }

  lemma Nibble(low: nat, high: nat, i: nat)
    requires low < 16
    ensures Bit(low + 16 * high, i) == if i < 4 then Bit(low, i) else Bit(high, i - 4)
  {
    assert Shl(high, 1) == 2 * high && Shl(high, 2) == 4 * high;
    assert Shl(high, 3) == 8 * high && Shl(high, 4) == 16 * high;
    assert Pow2(4) == 16;
    if i < 4 {
      BitLow(low, high, 4, i);
    } else {
      BitShifted(low, high, 4, i - 4);
    }
  }

  class IrqRing {
    const buffer: array<byte>
    var capture: bool
    var readPos: byte
    var writePos: byte
    /** Port 02h. */
    var picMask: byte
    var savedPicMask: byte
    var picMaskSaved: bool
    ghost var state: Capture

    ghost predicate Valid()
      reads this, buffer
    {
      && buffer.Length == RING_SIZE && readPos < RING_SIZE && writePos < RING_SIZE
      && state == Capture(capture, Ring(buffer[..], readPos, Occupied()), picMask,
                          if picMaskSaved then Some(savedPicMask) else None)
    }

    ghost function Occupied(): nat
      requires readPos < RING_SIZE && writePos < RING_SIZE
      reads this
      ensures Occupied() < RING_SIZE
    {
      if readPos <= writePos then writePos - readPos else writePos + RING_SIZE - readPos
    }

    constructor (mask: byte)
      ensures Valid() && fresh(buffer)
      ensures state == Capture(false, [], mask, None)
    {
      buffer := new byte[RING_SIZE];
      capture, readPos, writePos := false, 0, 0;
      picMask, savedPicMask, picMaskSaved := mask, 0, false;
      state := Capture(false, [], mask, None);
    }

    method CaptureBegin()
      requires Valid()
      modifies this
      ensures Valid() && state == Begin(old(state))
    {
      readPos := 0;
      writePos := 0;
      capture := true;
      savedPicMask := picMask;
      picMaskSaved := true;
      picMask := Unmasked(savedPicMask);
      state := Begin(state);
    }

    method CaptureEnd()
      requires Valid()
      modifies this
      ensures Valid() && state == End(old(state))
    {
      capture := false;
      if picMaskSaved {
        picMask := savedPicMask;
        picMaskSaved := false;
      }
      readPos := writePos;
      state := End(state);
    }

    /** The oldest waiting byte, or -1. */
    method TryReadByte() returns (value: int)
      requires Valid()
      modifies this
      ensures Valid()
      ensures old(state.pending) == [] ==> value == -1 && state == old(state)
      ensures old(state.pending) != [] ==>
                value == old(state.pending)[0] && state == old(state).(pending := old(state.pending)[1..])
    {
      var position := readPos;
      if position == writePos {
        return -1;
      }
      RingDropFirst(buffer[..], readPos, Occupied());
      value := buffer[position];
      readPos := (position + 1) % RING_SIZE;
      state := state.(pending := state.pending[1..]);
    }

    /** The receive interrupt's part: `bl` and `ah` as in the assembly. */
    method StoreByte(value: byte)
      requires Valid()
      modifies this, buffer
      ensures Valid() && state == Stored(old(state), value)
    {
      var bl := writePos;
      var ah := (bl + 1) % RING_SIZE;
      if ah == readPos {
        return;
      }
      RingAppend(buffer[..], readPos, Occupied(), value);
      buffer[bl] := value;
      writePos := ah;
      assert buffer[..] == old(buffer[..])[bl := value];
      state := Stored(state, value);
    }
  }

  // ----- every interleaving of producer and consumer statements -----

  /** Where the interrupt is: about to load the write position with a byte in hand, about to compare, about to store,
      about to publish. */
  datatype Producer = Waiting | Loading(value: byte) | Comparing(value: byte, bl: nat)
    | Storing(value: byte, bl: nat, ah: nat) | Publishing(value: byte, ah: nat)

  /** Where the worker's read is: it has the read position, has seen a byte waiting, or has fetched it. */
  datatype Consumer = Resting | Testing(position: nat) | Fetching(position: nat) | Releasing(position: nat, value: byte)

  /** Shared memory, both program counters, and the history: bytes published, dropped and returned. */
  datatype Shared = Shared(buffer: seq<byte>, readPos: nat, writePos: nat, producer: Producer, consumer: Consumer,
                           published: seq<byte>, dropped: seq<byte>, returned: seq<byte>)

  datatype Move = Interrupt(value: byte) | ProducerMoves | ConsumerMoves

  function Next(s: Shared, m: Move): Shared
    requires |s.buffer| == RING_SIZE
  {
    match m {
      case Interrupt(value) => if s.producer.Waiting? then s.(producer := Loading(value)) else s
      case ProducerMoves =>
        (match s.producer {
           case Waiting => s
           case Loading(value) => s.(producer := Comparing(value, s.writePos))
           case Comparing(value, bl) =>
             if (bl + 1) % RING_SIZE == s.readPos then s.(producer := Waiting, dropped := s.dropped + [value])
             else s.(producer := Storing(value, bl, (bl + 1) % RING_SIZE))
           case Storing(value, bl, ah) =>
             if bl < RING_SIZE then s.(buffer := s.buffer[bl := value], producer := Publishing(value, ah)) else s
           case Publishing(value, ah) =>
             s.(writePos := ah, producer := Waiting, published := s.published + [value])
         })
      case ConsumerMoves =>
        (match s.consumer {
           case Resting => s.(consumer := Testing(s.readPos))
           case Testing(position) =>
             if position == s.writePos then s.(consumer := Resting) else s.(consumer := Fetching(position))
           case Fetching(position) =>
             if position < RING_SIZE then s.(consumer := Releasing(position, s.buffer[position])) else s
           case Releasing(position, value) =>
             s.(readPos := (position + 1) % RING_SIZE, consumer := Resting, returned := s.returned + [value])
         })
    }
  }

  function Occupancy(s: Shared): int {
    if s.readPos <= s.writePos then s.writePos - s.readPos else s.writePos + RING_SIZE - s.readPos
  }

  ghost predicate Consistent(s: Shared) {
    && |s.buffer| == RING_SIZE && s.readPos < RING_SIZE && s.writePos < RING_SIZE
    // First in, first out: what was published is what was returned followed by what is waiting.
    && s.published == s.returned + Ring(s.buffer, s.readPos, Occupancy(s))
    && (match s.producer {
          case Comparing(_, bl) => bl == s.writePos
          case Storing(_, bl, ah) => bl == s.writePos && ah == Slot(s.buffer, bl, 1) && Occupancy(s) < RING_CAPACITY
          case Publishing(value, ah) =>
            ah == Slot(s.buffer, s.writePos, 1) && Occupancy(s) < RING_CAPACITY && s.buffer[s.writePos] == value
          case _ => true
        })
    && (match s.consumer {
          case Resting => true
          case Testing(position) => position == s.readPos
          case Fetching(position) => position == s.readPos && Occupancy(s) > 0
          case Releasing(position, value) =>
            position == s.readPos && Occupancy(s) > 0 && value == s.buffer[s.readPos]
        })
  }

  lemma StoringKeepsConsistent(s: Shared)
    requires Consistent(s) && s.producer.Storing?
    ensures Consistent(Next(s, ProducerMoves))
  {
    RingUntouched(s.buffer, s.readPos, Occupancy(s), Occupancy(s), s.producer.value);
  }

  lemma PublishingKeepsConsistent(s: Shared)
    requires Consistent(s) && s.producer.Publishing?
    ensures Consistent(Next(s, ProducerMoves))
  {
    RingAppend(s.buffer, s.readPos, Occupancy(s), s.producer.value);
    assert s.buffer[s.writePos := s.producer.value] == s.buffer;
  }

  lemma ProducerKeepsConsistent(s: Shared)
    requires Consistent(s)
    ensures Consistent(Next(s, ProducerMoves))
    ensures Next(s, ProducerMoves).dropped != s.dropped ==> Occupancy(s) == RING_CAPACITY
  {
    if s.producer.Storing? {
      StoringKeepsConsistent(s);
    } else if s.producer.Publishing? {
      PublishingKeepsConsistent(s);
    }
  }

  lemma ReleasingKeepsConsistent(s: Shared)
    requires Consistent(s) && s.consumer.Releasing?
    ensures Consistent(Next(s, ConsumerMoves))
  {
    ReleaseKeepsQueue(s.buffer, s.readPos, Occupancy(s), s.returned);
  }

  lemma ConsumerKeepsConsistent(s: Shared)
    requires Consistent(s)
    ensures Consistent(Next(s, ConsumerMoves))
  {
    if s.consumer.Releasing? {
      ReleasingKeepsConsistent(s);
    }
  }

  lemma ReleaseKeepsQueue(buffer: seq<byte>, first: nat, count: nat, returned: seq<byte>)
    requires first < |buffer| && 0 < count <= |buffer|
    ensures returned + Ring(buffer, first, count) ==
            (returned + [buffer[first]]) + Ring(buffer, Slot(buffer, first, 1), count - 1)
  {
    RingDropFirst(buffer, first, count);
  }

  /** Dropping happens only when 127 bytes are waiting. */
  lemma MoveKeepsConsistent(s: Shared, m: Move)
    requires Consistent(s)
    ensures Consistent(Next(s, m))
    ensures Next(s, m).dropped != s.dropped ==> Occupancy(s) == RING_CAPACITY
  {
    match m {
      case Interrupt(_) =>
      case ProducerMoves => ProducerKeepsConsistent(s);
      case ConsumerMoves => ConsumerKeepsConsistent(s);
    }
  }

  function Play(s: Shared, moves: seq<Move>): Shared
    requires |s.buffer| == RING_SIZE
    decreases |moves|
  {
    if moves == [] then s else Play(Next(s, moves[0]), moves[1..])
  }

  /** However the statements of interrupt and worker interleave, the ring is a queue: the bytes returned are a prefix of
      the bytes published, the rest is waiting in order, and a byte is dropped only when 127 are waiting. */
  lemma {:induction false} RingIsFifo(s: Shared, moves: seq<Move>)
    requires Consistent(s)
    ensures Consistent(Play(s, moves))
    ensures Play(s, moves).returned <= Play(s, moves).published
    decreases |moves|
  {
    if moves == [] {
    } else {
      MoveKeepsConsistent(s, moves[0]);
      RingIsFifo(Next(s, moves[0]), moves[1..]);
    }
  }
}
