/** dos/pc98/foreground.c: the byte-at-a-time framer of the resident program. */
module Framing {
  import opened Bytes
  import opened Codec
  import opened StreamDecoding

  const RX_SIZE: u16 := 522

  /** The bytes collected so far and the announced frame size, zero while unknown. */
  datatype Rx = Rx(bytes: seq<byte>, expected: u16)

  const IDLE := Rx([], 0)

  /** The frame size announced by a header, in 16-bit arithmetic. */
  function Announced(bytes: seq<byte>): u16
    requires |bytes| >= 8
  {
    (10 + WordAt(bytes, 6)) % 0x1_0000
  }

  /** One received byte; the second component is a completed frame, handed to the packet handler. */
  function Accept(s: Rx, value: byte): (Rx, Option<seq<byte>>) {
    if |s.bytes| == 0 && value != MAGIC0 then (s, None)
    else if |s.bytes| == 1 && value != MAGIC1 then
      (if value == MAGIC0 then s else s.(bytes := []), None)
    else if |s.bytes| >= RX_SIZE then (IDLE, None)
    else
      var bytes := s.bytes + [value];
      var expected := if |bytes| == 8 then Announced(bytes) else s.expected;
      if |bytes| == 8 && expected > RX_SIZE then (IDLE, None)
      else if expected != 0 && |bytes| == expected then (IDLE, Some(bytes))
      else (Rx(bytes, expected), None)
  }

  /** Every byte of `data` in order, with the frames completed on the way. */
  function AcceptAll(s: Rx, data: seq<byte>): (Rx, seq<seq<byte>>)
    decreases |data|
  {
    if data == [] then (s, [])
    else
      var (next, frame) := Accept(s, data[0]);
      var (last, frames) := AcceptAll(next, data[1..]);
      (last, (if frame.Some? then [frame.value] else []) + frames)
  }

  class Framer {
    const packet: array<byte>
    var count: u16
    var expected: u16
    ghost var state: Rx

    ghost predicate Valid()
      reads this, packet
    {
      packet.Length == RX_SIZE && count <= RX_SIZE && state == Rx(packet[..count], expected)
    }

    constructor ()
      ensures Valid() && fresh(packet) && state == IDLE
    {
      packet := new byte[RX_SIZE];
      count, expected, state := 0, 0, IDLE;
    }

    /** reset_link's part: forget what was collected. */
    method Reset()
      requires Valid()
      modifies this
      ensures Valid() && state == IDLE
    {
      count, expected, state := 0, 0, IDLE;
    }

    method AcceptByte(value: byte) returns (frame: Option<seq<byte>>)
      requires Valid()
      modifies this, packet
      ensures Valid()
      ensures (state, frame) == Accept(old(state), value)
      ensures frame.Some? ==> |frame.value| <= RX_SIZE && packet[..|frame.value|] == frame.value
    {
      frame := None;
      state := Accept(state, value).0;
      if count == 0 && value != MAGIC0 {
        return;
      }
      if count == 1 && value != MAGIC1 {
        count := if value == MAGIC0 then 1 else 0;
        return;
      }
      if count >= RX_SIZE {
        count, expected := 0, 0;
        return;
      }
      packet[count] := value;
      count := count + 1;
      assert packet[..count] == old(packet[..count]) + [value];
      if count == 8 {
        expected := (10 + WordAt(packet[..count], 6)) % 0x1_0000;
        if expected > RX_SIZE {
          count, expected := 0, 0;
        }
      }
      if expected != 0 && count == expected {
        frame := Some(packet[..count]);
        count, expected := 0, 0;
      }
    }
  }

  // ----- safety for every byte stream -----

  /** What holds between any two bytes, whatever was received. */
  ghost predicate Sound(s: Rx) {
    && |s.bytes| <= RX_SIZE
    && (|s.bytes| >= 1 ==> s.bytes[0] == MAGIC0)
    && (|s.bytes| >= 2 ==> s.bytes[1] == MAGIC1)
    && (|s.bytes| < 8 ==> s.expected == 0)
    && (|s.bytes| >= 8 ==> s.expected == Announced(s.bytes) <= RX_SIZE && (s.expected < 8 || |s.bytes| < s.expected))
  }

  /** Soundness is kept by every byte, also when ten plus the length field wraps past 65535; a completed frame has
      the size its header announced. */
  lemma AcceptKeepsSound(s: Rx, value: byte)
    requires Sound(s)
    ensures Sound(Accept(s, value).0)
    ensures var frame := Accept(s, value).1;
      frame.Some? ==> 8 <= |frame.value| <= RX_SIZE && |frame.value| == Announced(frame.value)
  {
  }

  lemma {:induction false} AcceptAllKeepsSound(s: Rx, data: seq<byte>)
    requires Sound(s)
    ensures Sound(AcceptAll(s, data).0)
    decreases |data|
  {
    if data == [] {
    } else {
      AcceptKeepsSound(s, data[0]);
      AcceptAllKeepsSound(Accept(s, data[0]).0, data[1..]);
    }
  }

  lemma {:induction false} AcceptAllConcat(s: Rx, a: seq<byte>, b: seq<byte>)
    ensures var (mid, first) := AcceptAll(s, a);
      AcceptAll(s, a + b) == (AcceptAll(mid, b).0, first + AcceptAll(mid, b).1)
    decreases |a|
  {
    if a == [] {
      assert a + b == b;
      assert [] + AcceptAll(s, b).1 == AcceptAll(s, b).1;
    } else {
      assert (a + b)[1..] == a[1..] + b;
      var (next, frame) := Accept(s, a[0]);
      AcceptAllConcat(next, a[1..], b);
      var head := if frame.Some? then [frame.value] else [];
      var (mid, more) := AcceptAll(next, a[1..]);
      assert head + (more + AcceptAll(mid, b).1) == (head + more) + AcceptAll(mid, b).1;
    }
  }

  // ----- resynchronisation -----

  /** From any partial frame at most 523 minus its size further bytes, 521 at worst, bring back the hunt. */
  lemma {:induction false} Resynchronises(s: Rx, data: seq<byte>) returns (k: nat)
    requires Sound(s) && |s.bytes| >= 2 && |data| >= 523 - |s.bytes|
    ensures k <= 523 - |s.bytes| && AcceptAll(s, data[..k]).0 == IDLE
    decreases 523 - |s.bytes|
  {
    AcceptKeepsSound(s, data[0]);
    var next := Accept(s, data[0]).0;
    if next == IDLE {
      k := 1;
    } else {
      var j := Resynchronises(next, data[1..]);
      k := j + 1;
      assert data[..k][1..] == data[1..][..j];
    }
  }

  /** The bound is met: a header whose length field makes the sum wrap to 0..7 holds the framer for all of it. */
  lemma {:induction false} WrappedHeaderHolds(s: Rx, data: seq<byte>)
    requires Sound(s) && |s.bytes| >= 8 && s.expected < 8
    requires |data| <= 522 - |s.bytes|
    ensures |AcceptAll(s, data).0.bytes| == |s.bytes| + |data|
    decreases |data|
  {
    if data == [] {
    } else {
      AcceptKeepsSound(s, data[0]);
      WrappedHeaderHolds(Accept(s, data[0]).0, data[1..]);
    }
  }

  // ----- the hunt -----

  /** No two neighbouring bytes are the magic. */
  ghost predicate NoMagicPair(gap: seq<byte>) {
    forall i :: 0 <= i < |gap| - 1 ==> !(gap[i] == MAGIC0 && gap[i + 1] == MAGIC1)
  }

  /** Hunting for a magic, possibly with its first byte already seen. */
  predicate Hunting(s: Rx) {
    s == IDLE || s == Rx([MAGIC0], 0)
  }

  lemma {:induction false} GapIsSkipped(s: Rx, gap: seq<byte>)
    requires Hunting(s) && NoMagicPair(s.bytes + gap)
    ensures Hunting(AcceptAll(s, gap).0) && AcceptAll(s, gap).1 == []
    decreases |gap|
  {
    if gap == [] {
    } else {
      var next := Accept(s, gap[0]).0;
      assert (s.bytes + gap)[|s.bytes|] == gap[0];
      assert s == IDLE ==> s.bytes + [gap[0]] == [gap[0]];
      assert s != IDLE ==> (s.bytes + gap)[0] == MAGIC0 && gap[0] != MAGIC1;
      assert Hunting(next) && Accept(s, gap[0]).1.None?;
      forall i | 0 <= i < |next.bytes + gap[1..]| - 1
        ensures !((next.bytes + gap[1..])[i] == MAGIC0 && (next.bytes + gap[1..])[i + 1] == MAGIC1)
      {
        var t := next.bytes + gap[1..];
        var o := |s.bytes| + 1 - |next.bytes|;
        assert t[i] == (s.bytes + gap)[i + o] && t[i + 1] == (s.bytes + gap)[i + 1 + o];
      }
      GapIsSkipped(next, gap[1..]);
    }
  }

  // ----- what is handed over, for every byte stream -----

  /** How many bytes a magic pair claims, once the header is there: a frame of the announced size, the header alone when
      that is too much, or a whole buffer and the byte after it when the 16-bit sum wrapped below the header's size. */
  function ClaimSize(s: seq<byte>): nat
    requires |s| >= 8
  {
    if Announced(s) > RX_SIZE then 8 else if Announced(s) >= 8 then Announced(s) else RX_SIZE + 1
  }

  predicate IsClaim(s: seq<byte>) {
    StartsWithMagic(s) && |s| >= 8 && |s| == ClaimSize(s)
  }

  predicate Unfinished(s: seq<byte>) {
    StartsWithMagic(s) && (|s| < 8 || |s| < ClaimSize(s))
  }

  /** Bytes skipped in the hunt, then bytes claimed. */
  datatype Claim = Claim(gap: seq<byte>, taken: seq<byte>)

  /** The claims and the gaps before them, in the order of the stream. */
  function Claimed(claims: seq<Claim>, last: seq<byte>): seq<byte> {
    if claims == [] then last else claims[0].gap + (claims[0].taken + Claimed(claims[1..], last))
  }

  /** Every claim starts at the first pair after the one before it; the stream ends hunting or inside a claim. */
  ghost predicate IsReading(claims: seq<Claim>, gap: seq<byte>, rest: seq<byte>) {
    && (forall i :: 0 <= i < |claims| ==> NoMagicPair(claims[i].gap) && IsClaim(claims[i].taken))
    && NoMagicPair(gap) && (rest == [] || Unfinished(rest))
  }

  /** The claims that announced a frame. */
  function Handed(claims: seq<Claim>): seq<seq<byte>> {
    if claims == [] then []
    else HandedFrom(claims[0].taken) + Handed(claims[1..])
  }

  function HandedFrom(taken: seq<byte>): seq<seq<byte>> {
    if |taken| >= 8 && 8 <= Announced(taken) <= RX_SIZE then [taken] else []
  }

  /** The framer after the first k bytes of a claim. */
  function Inside(w: seq<byte>, k: nat): Rx
    requires k <= |w|
  {
    Rx(w[..k], if k < 8 then 0 else Announced(w))
  }

  lemma ByteOfClaim(w: seq<byte>, k: nat)
    requires (IsClaim(w) || Unfinished(w)) && 2 <= k < |w|
    ensures Accept(Inside(w, k), w[k]) ==
            if k + 1 == |w| && IsClaim(w)
            then (IDLE, if HandedFrom(w) == [] then None else Some(w))
            else (Inside(w, k + 1), None)
  {
    assert w[..k] + [w[k]] == w[..k + 1];
    if k + 1 == |w| {
      assert w[..k + 1] == w;
    }
  }

  lemma {:induction false} ClaimIsCollected(w: seq<byte>, k: nat)
    requires (IsClaim(w) || Unfinished(w)) && 2 <= k <= |w| && (k == |w| ==> Unfinished(w))
    ensures AcceptAll(Inside(w, k), w[k..]) == if IsClaim(w) then (IDLE, HandedFrom(w)) else (Inside(w, |w|), [])
    decreases |w| - k
  {
    if k < |w| {
      ByteOfClaim(w, k);
      assert w[k..][1..] == w[k + 1..];
      if k + 1 < |w| || !IsClaim(w) {
        ClaimIsCollected(w, k + 1);
        var more := AcceptAll(Inside(w, k + 1), w[k + 1..]).1;
        assert [] + more == more;
      } else {
        assert w[k + 1..] == [] && AcceptAll(IDLE, []) == (IDLE, []);
        assert HandedFrom(w) + [] == HandedFrom(w);
      }
    }
  }

  lemma ClaimIsTaken(s: Rx, w: seq<byte>)
    requires Hunting(s) && (IsClaim(w) || Unfinished(w))
    ensures AcceptAll(s, w) == if IsClaim(w) then (IDLE, HandedFrom(w)) else (Inside(w, |w|), [])
  {
    assert s == IDLE ==> s.bytes + [w[0]] == [MAGIC0];
    assert [MAGIC0] + [w[1]] == w[..2];
    assert Accept(s, w[0]) == (Rx([MAGIC0], 0), None);
    assert Accept(Rx([MAGIC0], 0), w[1]) == (Inside(w, 2), None);
    assert w[1..][1..] == w[2..];
    ClaimIsCollected(w, 2);
    var more := AcceptAll(Inside(w, 2), w[2..]).1;
    assert [] + ([] + more) == more;
  }

  /** What the framer hands over: the claims that announced a frame, in order, and nothing else. */
  lemma {:induction false} ClaimsAreHandedOver(claims: seq<Claim>, gap: seq<byte>, rest: seq<byte>)
    requires IsReading(claims, gap, rest)
    ensures var (end, frames) := AcceptAll(IDLE, Claimed(claims, gap + rest));
      frames == Handed(claims) && if rest == [] then Hunting(end) else end == Inside(rest, |rest|)
  {
    var first := if claims == [] then gap else claims[0].gap;
    assert IDLE.bytes + first == first;
    GapIsSkipped(IDLE, first);
    var hunting := AcceptAll(IDLE, first).0;
    if claims == [] {
      AcceptAllConcat(IDLE, gap, rest);
      if rest != [] {
        ClaimIsTaken(hunting, rest);
      }
    } else {
      var taken, tail := claims[0].taken, Claimed(claims[1..], gap + rest);
      AcceptAllConcat(IDLE, first, taken + tail);
      AcceptAllConcat(hunting, taken, tail);
      ClaimIsTaken(hunting, taken);
      ClaimsAreHandedOver(claims[1..], gap, rest);
    }
  }

  lemma {:induction false} FirstPair(data: seq<byte>) returns (i: nat)
    ensures i <= |data| && NoMagicPair(data[..i]) && (i < |data| ==> StartsWithMagic(data[i..]))
  {
    if |data| < 2 {
      i := |data|;
    } else if StartsWithMagic(data) {
      i := 0;
    } else {
      var j := FirstPair(data[1..]);
      i := j + 1;
      assert data[1..][j..] == data[i..];
      forall k | 0 <= k < i - 1 ensures !(data[k] == MAGIC0 && data[k + 1] == MAGIC1) {
        if k > 0 {
          assert data[1..][..j][k - 1] == data[k] && data[1..][..j][k] == data[k + 1];
        }
      }
    }
  }

  /** Every stream has such a reading. */
  lemma {:induction false} EveryStreamIsClaimed(data: seq<byte>)
      returns (claims: seq<Claim>, gap: seq<byte>, rest: seq<byte>)
    ensures IsReading(claims, gap, rest) && data == Claimed(claims, gap + rest)
    decreases |data|
  {
    var i := FirstPair(data);
    var w := data[i..];
    if w == [] || |w| < 8 || |w| < ClaimSize(w) {
      claims, gap, rest := [], data[..i], w;
    } else {
      var n := ClaimSize(w);
      var more: seq<Claim>;
      more, gap, rest := EveryStreamIsClaimed(w[n..]);
      var first := Claim(data[..i], w[..n]);
      claims := [first] + more;
      assert claims[1..] == more && data == data[..i] + (w[..n] + w[n..]);
    }
  }

  /** A stray header announcing 522 bytes swallows a valid packet behind it. */
  lemma StrayHeaderSwallows(p: Packet)
    requires |p.payload| < 504
    ensures AcceptAll(IDLE, [MAGIC0, MAGIC1, 1, 5, 0, 0, 0, 2] + Encode(p)).1 == []
  {
    var rest := [MAGIC0, MAGIC1, 1, 5, 0, 0, 0, 2] + Encode(p);
    assert [] + rest == rest;
    ClaimsAreHandedOver([], [], rest);
  }

  // ----- delivery -----

  /** From the hunt a whole frame is handed over, and the hunt goes on. */
  lemma FrameIsDelivered(s: Rx, wire: seq<byte>)
    requires Hunting(s) && WellShaped(wire)
    ensures AcceptAll(s, wire) == (IDLE, [wire])
  {
    ClaimIsTaken(s, wire);
  }

  ghost predicate CleanGaps(parts: seq<Part>) {
    forall i :: 0 <= i < |parts| ==> NoMagicPair(parts[i].gap)
  }

  function Wires(parts: seq<Part>): seq<seq<byte>>
    requires AllEncodable(parts)
  {
    if parts == [] then [] else [Encode(parts[0].packet)] + Wires(parts[1..])
  }

  lemma EncodingIsWellShaped(p: Packet)
    requires Encodable(p)
    ensures WellShaped(Encode(p)) && Accepts(Encode(p))
  {
    RoundTrip(p);
  }

  /** Packets separated by gaps without a magic pair, which may end in the first magic byte, are handed over exactly
      and in order. Cutting the stream into several calls changes nothing, by AcceptAllConcat. */
  lemma {:induction false} Delivery(s: Rx, parts: seq<Part>, last: seq<byte>)
    requires s == IDLE && AllEncodable(parts) && CleanGaps(parts) && NoMagicPair(last)
    ensures var (end, frames) := AcceptAll(s, Layout(parts, last));
      Hunting(end) && frames == Wires(parts)
  {
    if parts == [] {
      assert s.bytes + last == last;
      GapIsSkipped(s, last);
    } else {
      var gap, wire, tail := parts[0].gap, Encode(parts[0].packet), Layout(parts[1..], last);
      EncodingIsWellShaped(parts[0].packet);
      assert s.bytes + gap == gap;
      GapIsSkipped(s, gap);
      AcceptAllConcat(s, gap, wire + tail);
      var hunting := AcceptAll(s, gap).0;
      AcceptAllConcat(hunting, wire, tail);
      FrameIsDelivered(hunting, wire);
      Delivery(IDLE, parts[1..], last);
    }
  }

  // ----- the resident framer and the Python decoder read the same packets -----

  lemma CleanGapIsSkipped(gap: seq<byte>, wire: seq<byte>, tail: seq<byte>)
    requires NoMagicPair(gap) && WellShaped(wire)
    ensures Skipped(gap, wire + tail)
  {
    forall j | 0 <= j < |gap| ensures !Begins(gap[j..] + (wire + tail)) && !Stalls(gap[j..] + (wire + tail)) {
      var s := gap[j..] + (wire + tail);
      assert s[0] == gap[j] && s[1] == (if j + 1 < |gap| then gap[j + 1] else wire[0]);
      BeginsIsHeadPacket(s);
    }
  }

  lemma {:induction false} NothingInTheLastGap(gap: seq<byte>)
    requires NoMagicPair(gap)
    ensures Scan(gap).0 == []
  {
    ScanStep(gap);
    if !Stalls(gap) {
      assert !StartsWithMagic(gap);
      NothingInTheLastGap(gap[1..]);
    }
  }

  lemma {:induction false} ScanOfCleanStream(parts: seq<Part>, last: seq<byte>)
    requires AllEncodable(parts) && CleanGaps(parts) && NoMagicPair(last)
    ensures Scan(Layout(parts, last)).0 == Packets(parts)
  {
    if parts == [] {
      NothingInTheLastGap(last);
    } else {
      var p, tail := parts[0].packet, Layout(parts[1..], last);
      EncodingIsWellShaped(p);
      CleanGapIsSkipped(parts[0].gap, Encode(p), tail);
      ScanSkips(parts[0].gap, Encode(p) + tail);
      ScanTakes(p, tail);
      ScanOfCleanStream(parts[1..], last);
      assert Packets(parts) == [p] + Packets(parts[1..]);
    }
  }

  /** What ime_packet_parse makes of the frames handed over: refused frames are dropped. */
  function Parsed(frames: seq<seq<byte>>): seq<Packet> {
    if frames == [] then []
    else (match Decode(frames[0]) case Ok(p) => [p] case _ => []) + Parsed(frames[1..])
  }

  lemma {:induction false} ParsedWires(parts: seq<Part>)
    requires AllEncodable(parts)
    ensures Parsed(Wires(parts)) == Packets(parts)
  {
    if parts == [] {
    } else {
      RoundTrip(parts[0].packet);
      ParsedWires(parts[1..]);
      assert Packets(parts) == [parts[0].packet] + Packets(parts[1..]);
    }
  }

  /** On every stream whose gaps hold no magic pair the two framers find the same packets. */
  lemma FramersAgree(parts: seq<Part>, last: seq<byte>)
    requires AllEncodable(parts) && CleanGaps(parts) && NoMagicPair(last)
    ensures Parsed(AcceptAll(IDLE, Layout(parts, last)).1) == Scan(Layout(parts, last)).0 == Packets(parts)
  {
    Delivery(IDLE, parts, last);
    ParsedWires(parts);
    ScanOfCleanStream(parts, last);
  }
}
