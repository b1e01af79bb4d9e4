/** The contents of a circular buffer, described by the first occupied slot and a count. */
module CircularBuffer {

  /** The slot i places after `first`. */
  function Slot<T>(cells: seq<T>, first: nat, i: nat): nat
    requires first < |cells| && i <= |cells|
  {
    if first + i < |cells| then first + i else first + i - |cells|
  }

  /** The occupied slots, oldest first. */
  function Ring<T>(cells: seq<T>, first: nat, count: nat): (contents: seq<T>)
    requires first < |cells| && count <= |cells|
    ensures |contents| == count
  {
    seq(count, i requires 0 <= i < count => cells[Slot(cells, first, i)])
  }

  lemma RingAppend<T>(cells: seq<T>, first: nat, count: nat, x: T)
    requires first < |cells| && count < |cells|
    ensures Ring(cells[Slot(cells, first, count) := x], first, count + 1) == Ring(cells, first, count) + [x]
  {
  }

  lemma RingDropFirst<T>(cells: seq<T>, first: nat, count: nat)
    requires first < |cells| && 0 < count <= |cells|
    ensures Ring(cells, first, count) == [cells[first]] + Ring(cells, Slot(cells, first, 1), count - 1)
  {
  }

  lemma RingDropLast<T>(cells: seq<T>, first: nat, count: nat)
    requires first < |cells| && 0 < count <= |cells|
    ensures Ring(cells, first, count) == Ring(cells, first, count - 1) + [cells[Slot(cells, first, count - 1)]]
  {
  }

  /** Storing into a free slot leaves the contents alone. */
  lemma RingUntouched<T>(cells: seq<T>, first: nat, count: nat, k: nat, x: T)
    requires first < |cells| && count <= k < |cells|
    ensures Ring(cells[Slot(cells, first, k) := x], first, count) == Ring(cells, first, count)
  {
  }
}
