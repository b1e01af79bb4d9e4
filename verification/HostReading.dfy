/** host/ImeDosBridge/BridgeForm.cs: how the bridge reads packets from its stream. */
module HostReading {
  import opened Bytes
  import opened Crc
  import opened Codec
  import opened StreamDecoding
  import opened Framing

  /** The outcome of one ReadPacketAsync call and, on success, the bytes it left unread. */
  datatype Read = EndOfStream | InvalidData | Got(packet: Packet, rest: seq<byte>)

  /** The bytes after the first magic the reader notices; a byte after 49h that is not 44h is consumed with it. */
  function AfterMagic(s: seq<byte>): Option<seq<byte>> {
    if s == [] then None
    else if s[0] != MAGIC0 then AfterMagic(s[1..])
    else if |s| == 1 then None
    else if s[1] == MAGIC1 then Some(s[2..])
    else AfterMagic(s[2..])
  }

  function ReadPacket(s: seq<byte>): Read {
    match AfterMagic(s) {
      case None => EndOfStream
      case Some(t) =>
        if |t| < 6 then EndOfStream
        else
          var length := WordAt(t, 4);
          if length > MAX_PAYLOAD then InvalidData
          else if |t| < 6 + length + 2 then EndOfStream
          else match Decode([MAGIC0, MAGIC1] + t[..8 + length]) {
            case Ok(p) => Got(p, t[8 + length..])
            case _ => InvalidData
          }
    }
  }

  /** The serve loop: packets are taken until the stream ends or a frame is refused, which drops the connection. */
  function Serve(s: seq<byte>): seq<Packet>
    decreases |s|
  {
    match ReadPacket(s) {
      case Got(p, rest) => ConsumesBytes(s); [p] + Serve(rest)
      case _ => []
    }
  }

  lemma {:induction false} MagicConsumes(s: seq<byte>)
    ensures AfterMagic(s).Some? ==> |AfterMagic(s).value| <= |s| - 2
    decreases |s|
  {
    if s == [] {
    } else {
      if s[0] != MAGIC0 {
        MagicConsumes(s[1..]);
      } else if |s| > 1 && s[1] != MAGIC1 {
        MagicConsumes(s[2..]);
      }
    }
  }

  lemma ConsumesBytes(s: seq<byte>)
    ensures ReadPacket(s).Got? ==>
              && |ReadPacket(s).packet.payload| <= MAX_PAYLOAD
              && AfterMagic(s).Some?
              && |ReadPacket(s).rest| == |AfterMagic(s).value| - 8 - |ReadPacket(s).packet.payload|
              && |ReadPacket(s).rest| < |s|
  {
    MagicConsumes(s);
  }

  class PacketReader {
    var input: seq<byte>

    /** One read of the stream: between one and n of the bytes still to come, none only at its end. */
    method ReadAsync(n: nat) returns (data: seq<byte>)
      modifies this
      ensures old(input) == data + input && |data| <= n
      ensures n > 0 && old(input) != [] ==> data != []
    {
      if n == 0 || input == [] {
        return [];
      }
      var count: nat :| 1 <= count <= n && count <= |input|;
      data, input := input[..count], input[count..];
    }

    /** Take exactly n bytes, in as many reads as it takes, or report the end of the stream. */
    method ReadExactly(n: nat) returns (ok: bool, data: seq<byte>)
      modifies this
      ensures ok == (n <= |old(input)|)
      ensures if ok then data == old(input)[..n] && input == old(input)[n..] else data == old(input) && input == []
    {
      data := [];
      while |data| < n
        invariant |data| <= n && old(input) == data + input
        decreases n - |data|
      {
        var more := ReadAsync(n - |data|);
        if more == [] {
          return false, data;
        }
        data := data + more;
      }
      ok := true;
    }

    method ReadPacketAsync() returns (r: Read)
      modifies this
      ensures r == ReadPacket(old(input))
      ensures r.Got? ==> input == r.rest
    {
      ghost var start := input;
      var ok, first, second := true, [], [];
      while true
        invariant AfterMagic(input) == AfterMagic(start)
        decreases |input|
      {
        ok, first := ReadExactly(1);
        if !ok { return EndOfStream; }
        if first[0] != MAGIC0 { continue; }
        ok, second := ReadExactly(1);
        if !ok { return EndOfStream; }
        if second[0] == MAGIC1 { break; }
      }
      ghost var after := input;
      var header;
      ok, header := ReadExactly(6);
      if !ok { return EndOfStream; }
      var length := WordAt(header[..], 4);
      if length > MAX_PAYLOAD { return InvalidData; }
      var rest;
      ok, rest := ReadExactly(length + 2);
      if !ok { return EndOfStream; }
      var wire := [MAGIC0, MAGIC1] + header + rest;
      assert wire == [MAGIC0, MAGIC1] + after[..8 + length];
      var decoded := Decode(wire);
      r := match decoded case Ok(p) => Got(p, input) case _ => InvalidData;
    }
  }

  // ----- resynchronisation after stray bytes -----

  /** The walk over the gap for a magic ends on a first magic byte that still waits for its partner. */
  predicate Holding(gap: seq<byte>) {
    if gap == [] then false
    else if gap[0] != MAGIC0 then Holding(gap[1..])
    else if |gap| == 1 then true
    else gap[1] != MAGIC1 && Holding(gap[2..])
  }

  /** The walk finds no magic in the gap and holds nothing at its end. */
  predicate WalkedOver(gap: seq<byte>) {
    AfterMagic(gap).None? && !Holding(gap)
  }

  /** The walk stops inside the gap, or goes on behind it, with or without the next byte. */
  lemma {:induction false} ReaderAfterGap(gap: seq<byte>, after: seq<byte>)
    requires after != [] && after[0] != MAGIC1
    ensures AfterMagic(gap + after) ==
            match AfterMagic(gap) {
              case Some(rest) => Some(rest + after)
              case None => AfterMagic(if Holding(gap) then after[1..] else after)
            }
    decreases |gap|
  {
    var s := gap + after;
    if gap == [] {
      assert s == after;
    } else if gap[0] != MAGIC0 {
      assert s[1..] == gap[1..] + after;
      ReaderAfterGap(gap[1..], after);
    } else if |gap| == 1 {
      assert s[2..] == after[1..];
    } else {
      assert s[0] == gap[0] && s[1] == gap[1] && s[2..] == gap[2..] + after;
      if gap[1] != MAGIC1 {
        ReaderAfterGap(gap[2..], after);
      }
    }
  }

  /** The protocol promises resynchronisation on the next valid magic. After any gap the bridge finds the next packet
      exactly when its walk over the gap finds no magic there and holds no first magic byte at the end. */
  lemma FindsPacketIff(gap: seq<byte>, p: Packet, tail: seq<byte>)
    requires Encodable(p)
    ensures ReadPacket(gap + (Encode(p) + tail)) == Got(p, tail) <==> WalkedOver(gap)
  {
    var after := Encode(p) + tail;
    var s := gap + after;
    ReaderAfterGap(gap, after);
    if WalkedOver(gap) {
      RoundTrip(p);
      assert AfterMagic(after) == Some(after[2..]);
      ReadsWire(s, Encode(p), tail);
    } else {
      ConsumesBytes(s);
      MagicConsumes(after[1..]);
    }
  }

  predicate AllMagic(gap: seq<byte>) {
    forall i :: 0 <= i < |gap| ==> gap[i] == MAGIC0
  }

  /** How many copies of the first magic byte the gap ends in. */
  function TrailingMagics(gap: seq<byte>): nat {
    if AllMagic(gap) then |gap| else TrailingMagics(gap[1..])
  }

  lemma TrailingOfCons(first: byte, rest: seq<byte>)
    ensures TrailingMagics([first] + rest) ==
            if first == MAGIC0 && AllMagic(rest) then 1 + |rest| else TrailingMagics(rest)
  {
    var gap := [first] + rest;
    assert gap[1..] == rest;
    if first == MAGIC0 && AllMagic(rest) {
      assert AllMagic(gap);
    } else if AllMagic(rest) {
      assert gap[0] != MAGIC0;
    } else {
      assert exists i :: 0 <= i < |rest| && rest[i] != MAGIC0 && gap[i + 1] != MAGIC0;
    }
  }

  /** Without a magic pair in the gap the walk holds a byte exactly when the gap ends in an odd number of them. */
  lemma {:induction false} HoldsOddMagics(gap: seq<byte>)
    requires NoMagicPair(gap)
    ensures AfterMagic(gap).None? && Holding(gap) == (TrailingMagics(gap) % 2 == 1)
    decreases |gap|
  {
    if gap == [] {
    } else {
      assert gap == [gap[0]] + gap[1..];
      TrailingOfCons(gap[0], gap[1..]);
      if gap[0] != MAGIC0 {
        HoldsOddMagics(gap[1..]);
      } else if |gap| > 1 {
        assert gap[1..] == [gap[1]] + gap[2..];
        TrailingOfCons(gap[1], gap[2..]);
        HoldsOddMagics(gap[2..]);
      }
    }
  }

  /** So after a gap without a magic pair the packet is found exactly when the gap ends in an even number of 49h. */
  lemma FindsAfterCleanGap(gap: seq<byte>, p: Packet, tail: seq<byte>)
    requires NoMagicPair(gap) && Encodable(p)
    ensures ReadPacket(gap + (Encode(p) + tail)) == Got(p, tail) <==> TrailingMagics(gap) % 2 == 0
  {
    HoldsOddMagics(gap);
    FindsPacketIff(gap, p, tail);
  }

  lemma ReadsWire(s: seq<byte>, wire: seq<byte>, tail: seq<byte>)
    requires Accepts(wire) && AfterMagic(s) == Some((wire + tail)[2..])
    ensures ReadPacket(s) == Got(Decode(wire).packet, tail)
  {
    AfterWireMagic(wire, tail);
  }

  lemma AfterWireMagic(wire: seq<byte>, tail: seq<byte>)
    requires Accepts(wire)
    ensures var t := (wire + tail)[2..];
      && |t| >= |wire| - 2 && WordAt(t, 4) == LengthField(wire) && [MAGIC0, MAGIC1] + t[..|wire| - 2] == wire
      && t[|wire| - 2..] == tail
  {
    var t := (wire + tail)[2..];
    assert t[4] == wire[6] && t[5] == wire[7];
    assert [wire[0], wire[1]] + wire[2..] == wire && t[..|wire| - 2] == wire[2..];
  }

  /** The shortest gap that breaks it: one stray 49h, which the resident framer and the Python decoder survive. */
  lemma StrayMagicLosesPacket(p: Packet, tail: seq<byte>)
    requires Encodable(p) && NoMagicPair(tail)
    ensures var w := [MAGIC0] + (Encode(p) + tail);
      && ReadPacket(w) != Got(p, tail)
      && Scan(w).0 == [p]
      && Parsed(AcceptAll(IDLE, w).1) == [p]
  {
    assert TrailingMagics([MAGIC0]) == 1;
    FindsAfterCleanGap([MAGIC0], p, tail);
    StrayMagicIsSkipped(p, tail);
  }

  lemma StrayMagicIsSkipped(p: Packet, tail: seq<byte>)
    requires Encodable(p) && NoMagicPair(tail)
    ensures var w := [MAGIC0] + (Encode(p) + tail); Scan(w).0 == [p] && Parsed(AcceptAll(IDLE, w).1) == [p]
  {
    var parts := OnePart([MAGIC0], p, tail);
    FramersAgree(parts, tail);
  }

  lemma OnePart(gap: seq<byte>, p: Packet, tail: seq<byte>) returns (parts: seq<Part>)
    requires Encodable(p)
    ensures parts == [Part(gap, p)] && Layout(parts, tail) == gap + (Encode(p) + tail) && Packets(parts) == [p]
  {
    parts := [Part(gap, p)];
    assert parts[1..] == [];
  }

  // ----- a packet whose transmission stopped half-way -----

  /** A stream that begins with the magic is read as one frame, whatever its header says. */
  lemma ReadsFromMagic(s: seq<byte>)
    requires StartsWithMagic(s)
    ensures ReadPacket(s) ==
            if |s| < 8 then EndOfStream
            else if LengthField(s) > MAX_PAYLOAD then InvalidData
            else if |s| < 10 + LengthField(s) then EndOfStream
            else match Decode(s[..10 + LengthField(s)]) {
              case Ok(p) => Got(p, s[10 + LengthField(s)..])
              case _ => InvalidData
            }
  {
    var t := s[2..];
    assert AfterMagic(s) == Some(t);
    if |s| >= 8 {
      assert t[4] == s[6] && t[5] == s[7];
      if |s| >= 10 + LengthField(s) {
        var n := 8 + LengthField(s);
        assert [MAGIC0, MAGIC1] + t[..n] == s[..2 + n] && t[n..] == s[2 + n..];
      }
    }
  }

  /** Nothing is read from the part alone. */
  lemma HalfSentAlone(wire: seq<byte>, k: nat)
    requires Accepts(wire) && k < |wire|
    ensures ReadPacket(wire[..k]) == EndOfStream
  {
    if k >= 2 {
      ReadsFromMagic(wire[..k]);
    }
  }

  /** With the header sent, the bytes that follow complete the frame: if it decodes a packet is read, if not the
      connection is dropped, and either way those bytes are gone. */
  lemma HalfSentCompleted(wire: seq<byte>, k: nat, more: seq<byte>)
    requires Accepts(wire) && 8 <= k < |wire|
    ensures var missing := |wire| - k;
      ReadPacket(wire[..k] + more) ==
      if |more| < missing then EndOfStream
      else match Decode(wire[..k] + more[..missing]) {
        case Ok(p) => Got(p, more[missing..])
        case _ => InvalidData
      }
  {
    var s, missing := wire[..k] + more, |wire| - k;
    assert s[6] == wire[6] && s[7] == wire[7];
    ReadsFromMagic(s);
    if |more| >= missing {
      assert s[..|wire|] == wire[..k] + more[..missing] && s[|wire|..] == more[missing..];
    }
  }

  /** With only check bytes missing the packet is read after all exactly when the bytes that follow are those bytes. */
  lemma HalfSentTaken(wire: seq<byte>, k: nat, more: seq<byte>)
    requires Accepts(wire) && |wire| - 2 <= k < |wire| && |more| >= |wire| - k
    ensures ReadPacket(wire[..k] + more).Got? <==> more[..|wire| - k] == wire[k..]
  {
    var q := wire[..k] + more[..|wire| - k];
    HalfSentCompleted(wire, k, more);
    assert wire == wire[..k] + wire[k..];
    if more[..|wire| - k] == wire[k..] {
      assert q == wire;
    } else {
      assert q[k..] != wire[k..];
      EndFlips(wire, q, k);
      BurstRejected(wire, q, 8 * (|wire| - 2));
    }
  }

  ghost predicate AllWalkedOver(parts: seq<Part>) {
    forall i :: 0 <= i < |parts| ==> WalkedOver(parts[i].gap)
  }

  /** When every gap meets the condition the serve loop reads every packet, in order. */
  lemma {:induction false} ServesStream(parts: seq<Part>, last: seq<byte>)
    requires AllEncodable(parts) && AllWalkedOver(parts) && AfterMagic(last).None?
    ensures Serve(Layout(parts, last)) == Packets(parts)
    decreases |parts|
  {
    if parts == [] {
    } else {
      FindsPacketIff(parts[0].gap, parts[0].packet, Layout(parts[1..], last));
      assert WalkedOver(parts[0].gap);
      ServesStream(parts[1..], last);
      assert Packets(parts) == [parts[0].packet] + Packets(parts[1..]);
    }
  }

  ghost predicate EvenGaps(parts: seq<Part>) {
    forall i :: 0 <= i < |parts| ==> TrailingMagics(parts[i].gap) % 2 == 0
  }

  /** The C, C# and Python readers find the same packets on every stream whose gaps hold no magic pair and end in an
      even number of first magic bytes. */
  lemma ReadersAgree(parts: seq<Part>, last: seq<byte>)
    requires AllEncodable(parts) && CleanGaps(parts) && EvenGaps(parts) && NoMagicPair(last)
    ensures var w := Layout(parts, last);
      Serve(w) == Scan(w).0 == Parsed(AcceptAll(IDLE, w).1) == Packets(parts)
  {
    forall i | 0 <= i < |parts| ensures WalkedOver(parts[i].gap) {
      HoldsOddMagics(parts[i].gap);
    }
    HoldsOddMagics(last);
    ServesStream(parts, last);
    FramersAgree(parts, last);
  }
}
