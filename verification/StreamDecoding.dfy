/** tools/protocol.py: the rescanning decoder that finds packets in a fragmented byte stream. */
module StreamDecoding {
  import opened Bytes
  import opened Codec

  predicate StartsWithMagic(s: seq<byte>) {
    |s| >= 2 && s[0] == MAGIC0 && s[1] == MAGIC1
  }

  /** Nothing can be decided about the head of s before more bytes arrive. */
  predicate Stalls(s: seq<byte>) {
    |s| < 10 || (StartsWithMagic(s) && LengthField(s) <= MAX_PAYLOAD && |s| < 10 + LengthField(s))
  }

  /** A complete packet sits at the head of s. */
  ghost predicate Begins(s: seq<byte>) {
    exists p :: Encodable(p) && Encode(p) <= s
  }

  /** What one pass of the decoding loop over the buffer yields: the packets found and the bytes kept. */
  function Scan(buffer: seq<byte>): (seq<Packet>, seq<byte>) {
    if |buffer| < 10 then ([], buffer)
    else if !StartsWithMagic(buffer) then Scan(buffer[1..])
    else
      var length := LengthField(buffer);
      var total := 8 + length + 2;
      if length > MAX_PAYLOAD then Scan(buffer[1..])
      else if |buffer| < total then ([], buffer)
      else match Decode(buffer[..total]) {
        case Ok(p) => var (packets, rest) := Scan(buffer[total..]); ([p] + packets, rest)
        case _ => Scan(buffer[1..])
      }
  }

  class StreamDecoder {
    var buffer: seq<byte>

    ghost predicate Valid()
      reads this
    {
      Stalls(buffer)
    }

    constructor ()
      ensures Valid() && buffer == []
    {
      buffer := [];
    }

    method Feed(data: seq<byte>) returns (packets: seq<Packet>)
      requires Valid()
      modifies this
      ensures Valid()
      ensures (packets, buffer) == Scan(old(buffer) + data)
    {
      buffer := buffer + data;
      packets := [];
      ghost var whole := Scan(buffer);
      RestStalls(buffer);
      while |buffer| >= 10
        invariant Stalls(whole.1)
        invariant packets + Scan(buffer).0 == whole.0 && Scan(buffer).1 == whole.1
        decreases |buffer|
      {
        ScanStep(buffer);
        if buffer[..2] != [MAGIC0, MAGIC1] {
          buffer := buffer[1..];
          continue;
        }
        var length := WordAt(buffer, 6);
        var total := 8 + length + 2;
        if length > MAX_PAYLOAD {
          buffer := buffer[1..];
          continue;
        }
        if |buffer| < total {
          break;
        }
        var candidate := Decode(buffer[..total]);
        if !candidate.Ok? {
          buffer := buffer[1..];
          continue;
        }
        assert packets + ([candidate.packet] + Scan(buffer[total..]).0)
               == (packets + [candidate.packet]) + Scan(buffer[total..]).0;
        packets := packets + [candidate.packet];
        buffer := buffer[total..];
      }
      ScanStep(buffer);
      assert packets == packets + Scan(buffer).0;
    }
  }

  lemma {:induction false} RestStalls(w: seq<byte>)
    ensures Stalls(Scan(w).1)
    decreases |w|
  {
    if !Stalls(w) {
      if HeadPacket(w).Some? {
        RestStalls(w[10 + LengthField(w)..]);
      } else {
        RestStalls(w[1..]);
      }
    }
  }

  /** The complete valid packet at the head of s, if there is one. */
  function HeadPacket(s: seq<byte>): Option<Packet> {
    if |s| >= 10 && StartsWithMagic(s) && 10 + LengthField(s) <= |s| && Accepts(s[..10 + LengthField(s)])
    then Some(Decode(s[..10 + LengthField(s)]).packet)
    else None
  }

  lemma WireAtHead(wire: seq<byte>, s: seq<byte>)
    requires Accepts(wire) && wire <= s
    ensures HeadPacket(s) == Some(Decode(wire).packet) && |wire| == 10 + LengthField(s)
  {
    assert wire[6] == s[6] && wire[7] == s[7];
    assert s[..10 + LengthField(s)] == wire;
  }

  /** At most one packet can sit at the head of a byte string: encodings are prefix free. */
  lemma HeadPacketIsUnique(s: seq<byte>, p: Packet)
    ensures HeadPacket(s) == Some(p) <==> Encodable(p) && Encode(p) <= s
  {
    if Encodable(p) && Encode(p) <= s {
      RoundTrip(p);
      WireAtHead(Encode(p), s);
    }
    if HeadPacket(s) == Some(p) {
      DecodeExact(s[..10 + LengthField(s)], p);
    }
  }

  lemma BeginsIsHeadPacket(s: seq<byte>)
    ensures Begins(s) <==> HeadPacket(s).Some?
  {
    if HeadPacket(s).Some? {
      HeadPacketIsUnique(s, HeadPacket(s).value);
    }
    forall p | Encodable(p) && Encode(p) <= s ensures HeadPacket(s).Some? {
      HeadPacketIsUnique(s, p);
    }
  }

  /** One round of the loop: wait, take the packet at the head, or drop one byte. */
  lemma ScanStep(s: seq<byte>)
    ensures Scan(s) ==
            if Stalls(s) then ([], s)
            else if HeadPacket(s).Some? then
              var next := Scan(s[10 + LengthField(s)..]);
              ([HeadPacket(s).value] + next.0, next.1)
            else Scan(s[1..])
  {
  }

  /** What the loop does at the head of the buffer cannot be changed by bytes that arrive later. */
  lemma DecidedForGood(a: seq<byte>, b: seq<byte>)
    requires !Stalls(a)
    ensures !Stalls(a + b) && HeadPacket(a + b) == HeadPacket(a)
    ensures LengthField(a + b) == LengthField(a)
  {
    if StartsWithMagic(a) && 10 + LengthField(a) <= |a| {
      assert (a + b)[..10 + LengthField(a)] == a[..10 + LengthField(a)];
    }
  }

  // ----- the order of the chunks does not matter -----

  lemma DropsAlike(a: seq<byte>, b: seq<byte>)
    requires !Stalls(a) && HeadPacket(a).None?
    ensures Scan(a) == Scan(a[1..]) && Scan(a + b) == Scan(a[1..] + b)
  {
    DecidedForGood(a, b);
    ScanStep(a);
    ScanStep(a + b);
    assert (a + b)[1..] == a[1..] + b;
  }

  lemma DropOfConcat(a: seq<byte>, b: seq<byte>, n: nat)
    requires n <= |a|
    ensures (a + b)[n..] == a[n..] + b
  {
  }

  lemma TakesAlike(a: seq<byte>, b: seq<byte>) returns (p: Packet, rest: seq<byte>)
    requires !Stalls(a) && HeadPacket(a).Some?
    ensures |rest| < |a| && Scan(a) == ([p] + Scan(rest).0, Scan(rest).1)
    ensures Scan(a + b) == ([p] + Scan(rest + b).0, Scan(rest + b).1)
  {
    p, rest := HeadPacket(a).value, a[10 + LengthField(a)..];
    DecidedForGood(a, b);
    ScanStep(a);
    ScanStep(a + b);
    DropOfConcat(a, b, 10 + LengthField(a));
  }

  lemma StallsWithNothing(a: seq<byte>)
    requires Stalls(a)
    ensures Scan(a) == ([], a)
  {
    ScanStep(a);
  }

  /** Feeding a and then b gives the packets and the residue that feeding a + b gives. */
  lemma {:induction false} ChunkIndependence(a: seq<byte>, b: seq<byte>)
    ensures Scan(a + b) == (Scan(a).0 + Scan(Scan(a).1 + b).0, Scan(Scan(a).1 + b).1)
    decreases |a|
  {
    if Stalls(a) {
      StallsWithNothing(a);
      assert [] + Scan(a + b).0 == Scan(a + b).0;
    } else if HeadPacket(a).Some? {
      var p, rest := TakesAlike(a, b);
      ChunkIndependence(rest, b);
      Assoc([p], Scan(rest).0, Scan(Scan(rest).1 + b).0);
    } else {
      DropsAlike(a, b);
      ChunkIndependence(a[1..], b);
    }
  }

  /** A session of Feed calls, starting with `buffer` kept from before. */
  function FeedAll(buffer: seq<byte>, chunks: seq<seq<byte>>): (seq<Packet>, seq<byte>)
    decreases |chunks|
  {
    if chunks == [] then ([], buffer)
    else
      var (packets, kept) := Scan(buffer + chunks[0]);
      var (more, rest) := FeedAll(kept, chunks[1..]);
      (packets + more, rest)
  }

  /** However a stream is cut up, the session finds what one call on the whole stream finds. */
  lemma {:induction false} Fragmentation(buffer: seq<byte>, chunks: seq<seq<byte>>)
    requires Stalls(buffer)
    ensures FeedAll(buffer, chunks) == Scan(buffer + Concat(chunks))
    decreases |chunks|
  {
    if chunks == [] {
      assert buffer + Concat(chunks) == buffer;
    } else {
      var first := buffer + chunks[0];
      RestStalls(first);
      Fragmentation(Scan(first).1, chunks[1..]);
      ChunkIndependence(first, Concat(chunks[1..]));
      assert first + Concat(chunks[1..]) == buffer + Concat(chunks);
    }
  }

  // ----- the declarative reading: a greedy leftmost scan -----

  /** A packet and the bytes skipped before it. */
  datatype Part = Part(gap: seq<byte>, packet: Packet)

  ghost predicate AllEncodable(parts: seq<Part>) {
    forall i :: 0 <= i < |parts| ==> Encodable(parts[i].packet)
  }

  function Packets(parts: seq<Part>): (packets: seq<Packet>)
    ensures |packets| == |parts| && forall i :: 0 <= i < |parts| ==> packets[i] == parts[i].packet
  {
    seq(|parts|, i requires 0 <= i < |parts| => parts[i].packet)
  }

  /** The stream made of the parts one after the other, followed by `tail`. */
  ghost function Layout(parts: seq<Part>, tail: seq<byte>): seq<byte>
    requires AllEncodable(parts)
  {
    if parts == [] then tail
    else parts[0].gap + (Encode(parts[0].packet) + Layout(parts[1..], tail))
  }

  /** No byte of the gap begins a complete packet, and the scan is never left waiting at one. */
  ghost predicate Skipped(gap: seq<byte>, after: seq<byte>) {
    forall j :: 0 <= j < |gap| ==> !Begins(gap[j..] + after) && !Stalls(gap[j..] + after)
  }

  /** Every gap holds only skipped bytes, and the scan stops at the first byte that makes it wait. */
  ghost predicate Greedy(parts: seq<Part>, last: seq<byte>, rest: seq<byte>)
    requires AllEncodable(parts)
  {
    if parts == [] then Skipped(last, rest) && Stalls(rest)
    else
      && Skipped(parts[0].gap, Encode(parts[0].packet) + Layout(parts[1..], last + rest))
      && Greedy(parts[1..], last, rest)
  }

  lemma {:induction false} ScanSkips(gap: seq<byte>, after: seq<byte>)
    requires Skipped(gap, after)
    ensures Scan(gap + after) == Scan(after)
  {
    if gap == [] {
      assert gap + after == after;
    } else {
      var s := gap + after;
      assert gap[0..] == gap;
      BeginsIsHeadPacket(s);
      ScanStep(s);
      assert s[1..] == gap[1..] + after;
      forall j | 0 <= j < |gap[1..]| ensures !Begins(gap[1..][j..] + after) && !Stalls(gap[1..][j..] + after) {
        assert gap[1..][j..] == gap[j + 1..];
      }
      ScanSkips(gap[1..], after);
    }
  }

  lemma ScanTakesWire(wire: seq<byte>, tail: seq<byte>)
    requires Accepts(wire)
    ensures Scan(wire + tail) == ([Decode(wire).packet] + Scan(tail).0, Scan(tail).1)
  {
    var s := wire + tail;
    WireAtHead(wire, s);
    ScanStep(s);
    assert s[|wire|..] == tail;
  }

  lemma ScanTakes(p: Packet, tail: seq<byte>)
    requires Encodable(p)
    ensures Scan(Encode(p) + tail) == ([p] + Scan(tail).0, Scan(tail).1)
  {
    RoundTrip(p);
    ScanTakesWire(Encode(p), tail);
  }

  /** Any reading of the stream as a greedy leftmost scan is the one the decoder makes. */
  lemma {:induction false} GreedyIsScan(parts: seq<Part>, last: seq<byte>, rest: seq<byte>)
    requires AllEncodable(parts) && Greedy(parts, last, rest)
    ensures Scan(Layout(parts, last + rest)) == (Packets(parts), rest)
  {
    if parts == [] {
      ScanSkips(last, rest);
    } else {
      var tail := Layout(parts[1..], last + rest);
      ScanSkips(parts[0].gap, Encode(parts[0].packet) + tail);
      ScanTakes(parts[0].packet, tail);
      GreedyIsScan(parts[1..], last, rest);
      ConsParts(parts[0], parts[1..], last, rest);
      assert [parts[0]] + parts[1..] == parts;
    }
  }

  lemma ScanTakesHead(w: seq<byte>) returns (wire: seq<byte>, tail: seq<byte>)
    requires !Stalls(w) && HeadPacket(w).Some?
    ensures w == wire + tail && |tail| < |w| && Accepts(wire)
    ensures Scan(w) == ([Decode(wire).packet] + Scan(tail).0, Scan(tail).1)
  {
    var n := 10 + LengthField(w);
    wire, tail := w[..n], w[n..];
    ScanStep(w);
  }

  lemma ScanDropsByte(w: seq<byte>)
    requires !Stalls(w) && HeadPacket(w).None?
    ensures Scan(w) == Scan(w[1..]) && !Begins(w) && w == [w[0]] + w[1..]
  {
    ScanStep(w);
    BeginsIsHeadPacket(w);
  }

  /** Every stream has such a reading: the packets found sit at increasing, disjoint places holding exactly their
      encodings, and no skipped place begins a complete packet. */
  lemma {:induction false} ScanIsGreedy(w: seq<byte>) returns (parts: seq<Part>, last: seq<byte>)
    ensures AllEncodable(parts) && Greedy(parts, last, Scan(w).1)
    ensures w == Layout(parts, last + Scan(w).1) && Scan(w).0 == Packets(parts)
    decreases |w|
  {
    if Stalls(w) {
      parts, last := [], [];
      assert w == last + Scan(w).1;
    } else if HeadPacket(w).Some? {
      var wire, tail := ScanTakesHead(w);
      var more: seq<Part>;
      more, last := ScanIsGreedy(tail);
      parts := TakeFirst(wire, tail, more, last);
    } else {
      ScanDropsByte(w);
      var more, end := ScanIsGreedy(w[1..]);
      parts, last := Prepend(w[0], more, end, Scan(w).1);
    }
  }

  lemma ConsParts(first: Part, more: seq<Part>, last: seq<byte>, rest: seq<byte>)
    requires AllEncodable(more) && Encodable(first.packet)
    ensures AllEncodable([first] + more) && Packets([first] + more) == [first.packet] + Packets(more)
    ensures Layout([first] + more, last + rest) == first.gap + (Encode(first.packet) + Layout(more, last + rest))
    ensures Greedy([first] + more, last, rest) ==
            (Skipped(first.gap, Encode(first.packet) + Layout(more, last + rest)) && Greedy(more, last, rest))
  {
    assert ([first] + more)[1..] == more;
  }

  lemma TakeFirst(wire: seq<byte>, tail: seq<byte>, more: seq<Part>, last: seq<byte>) returns (parts: seq<Part>)
    requires Accepts(wire)
    requires AllEncodable(more) && Greedy(more, last, Scan(tail).1)
    requires tail == Layout(more, last + Scan(tail).1) && Scan(tail).0 == Packets(more)
    ensures AllEncodable(parts) && Greedy(parts, last, Scan(tail).1)
    ensures wire + tail == Layout(parts, last + Scan(tail).1)
    ensures Packets(parts) == [Decode(wire).packet] + Packets(more)
  {
    var p := Decode(wire).packet;
    DecodeExact(wire, p);
    parts := [Part([], p)] + more;
    ConsParts(Part([], p), more, last, Scan(tail).1);
    assert [] + (wire + tail) == wire + tail;
  }

  lemma Prepend(b: byte, parts: seq<Part>, last: seq<byte>, rest: seq<byte>)
      returns (parts': seq<Part>, last': seq<byte>)
    requires AllEncodable(parts) && Greedy(parts, last, rest)
    requires !Begins([b] + Layout(parts, last + rest)) && !Stalls([b] + Layout(parts, last + rest))
    ensures AllEncodable(parts') && Greedy(parts', last', rest)
    ensures Layout(parts', last' + rest) == [b] + Layout(parts, last + rest) && Packets(parts') == Packets(parts)
  {
    if parts == [] {
      parts', last' := [], [b] + last;
      SkipOneMore(b, last, rest);
      assert last' + rest == [b] + (last + rest);
    } else {
      var tail := Encode(parts[0].packet) + Layout(parts[1..], last + rest);
      var first := Part([b] + parts[0].gap, parts[0].packet);
      parts', last' := [first] + parts[1..], last;
      SkipOneMore(b, parts[0].gap, tail);
      ConsParts(first, parts[1..], last, rest);
      assert Packets(parts) == [parts[0].packet] + Packets(parts[1..]);
      assert ([b] + parts[0].gap) + tail == [b] + (parts[0].gap + tail);
    }
  }

  lemma SkipOneMore(b: byte, gap: seq<byte>, after: seq<byte>)
    requires Skipped(gap, after) && !Begins([b] + (gap + after)) && !Stalls([b] + (gap + after))
    ensures Skipped([b] + gap, after)
  {
    var g := [b] + gap;
    forall j | 0 <= j < |g| ensures !Begins(g[j..] + after) && !Stalls(g[j..] + after) {
      if j == 0 {
        assert g[0..] + after == [b] + (gap + after);
      } else {
        assert g[j..] == gap[j - 1..];
      }
    }
  }
}
