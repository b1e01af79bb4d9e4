/** Packets and their wire form, shared by the C, C# and Python code. */
module Codec {
  import opened Bytes
  import opened Crc
  import FlippedBits

  const MAGIC0: byte := 0x49
  const MAGIC1: byte := 0x44
  const VERSION: byte := 1
  const MAX_PAYLOAD := 512

  datatype Packet = Packet(kind: byte, sequence: u16, payload: seq<byte>)

  datatype Decoded = Ok(packet: Packet) | ShortPacket | InvalidHeader | InvalidLength | CrcMismatch

  predicate Encodable(p: Packet) {
    |p.payload| <= MAX_PAYLOAD
  }

  function Header(p: Packet): seq<byte>
    requires Encodable(p)
  {
    [MAGIC0, MAGIC1, VERSION, p.kind, Lo(p.sequence), Hi(p.sequence), Lo(|p.payload|), Hi(|p.payload|)]
  }

  function Encode(p: Packet): (wire: seq<byte>)
    requires Encodable(p)
    ensures |wire| == 10 + |p.payload|
  {
    var body := Header(p) + p.payload;
    body + [Lo(Crc16(body)), Hi(Crc16(body))]
  }

  /** The wire form, byte by byte: "ID", version 1, kind, sequence and length low byte first, at most 512 bytes of
      payload, and the check of all that, low byte first. */
  lemma WireForm(p: Packet)
    ensures Encodable(p) <==> |p.payload| <= 512
    ensures Encodable(p) ==>
              var w, n := Encode(p), |p.payload|;
              var check := Crc16(w[..8 + n]);
              && w[..8] == [0x49, 0x44, 0x01, p.kind, p.sequence % 256, p.sequence / 256, n % 256, n / 256]
              && w[8..8 + n] == p.payload && w[8 + n..] == [check % 256, check / 256]
  {
    if Encodable(p) {
      assert Encode(p)[..8 + |p.payload|] == Header(p) + p.payload;
    }
  }

  /** The length field of a packet that has at least its header. */
  function LengthField(data: seq<byte>): u16
    requires |data| >= 8
  {
    WordAt(data, 6)
  }

  function Decode(data: seq<byte>): Decoded {
    if |data| < 10 then ShortPacket
    else if data[0] != MAGIC0 || data[1] != MAGIC1 || data[2] != VERSION then InvalidHeader
    else
      var length := LengthField(data);
      if length > MAX_PAYLOAD || |data| != 8 + length + 2 then InvalidLength
      else if WordAt(data, 8 + length) != Crc16(data[..8 + length]) then CrcMismatch
      else Ok(Packet(data[3], WordAt(data, 4), data[8..8 + length]))
  }

  predicate Accepts(data: seq<byte>) {
    Decode(data).Ok?
  }

  /** Everything that is asked of a frame apart from its check bytes. */
  predicate WellShaped(data: seq<byte>) {
    && |data| >= 10
    && data[0] == MAGIC0 && data[1] == MAGIC1 && data[2] == VERSION
    && LengthField(data) <= MAX_PAYLOAD && |data| == 10 + LengthField(data)
  }

  /** What was encoded is decoded again. */
  lemma RoundTrip(p: Packet)
    requires Encodable(p)
    ensures Decode(Encode(p)) == Ok(p)
  {
    var wire := Encode(p);
    assert wire[..8 + |p.payload|] == Header(p) + p.payload;
    assert wire[8..8 + |p.payload|] == p.payload;
  }

  lemma DecodedIsEncoded(data: seq<byte>)
    requires Accepts(data)
    ensures Encodable(Decode(data).packet) && data == Encode(Decode(data).packet)
  {
    var p, n := Decode(data).packet, LengthField(data);
    DecodedHeader(data);
    FrameParts(data, n);
    var body := data[..8 + n];
    SplitsWord(data[8 + n], data[9 + n]);
    assert Encode(p) == body + [Lo(Crc16(body)), Hi(Crc16(body))];
  }

  lemma FrameParts(data: seq<byte>, n: nat)
    requires |data| == 10 + n
    ensures data == data[..8 + n] + [data[8 + n], data[9 + n]] && data[..8 + n] == data[..8] + data[8..8 + n]
  {
  }

  lemma DecodedHeader(data: seq<byte>)
    requires Accepts(data)
    ensures Encodable(Decode(data).packet) && data[..8] == Header(Decode(data).packet)
  {
    SplitsWord(data[4], data[5]);
    SplitsWord(data[6], data[7]);
  }

  lemma SplitsWord(lo: byte, hi: byte)
    ensures Lo(lo + 256 * hi) == lo && Hi(lo + 256 * hi) == hi
  {
  }

  /** Decoding accepts exactly the encodings: no two byte strings stand for the same packet. */
  lemma DecodeExact(data: seq<byte>, p: Packet)
    ensures Decode(data) == Ok(p) <==> Encodable(p) && data == Encode(p)
  {
    if Decode(data) == Ok(p) {
      DecodedIsEncoded(data);
    }
    if Encodable(p) {
      RoundTrip(p);
    }
  }

  /** A frame is accepted exactly when it is well shaped and the register over all of it ends at zero. */
  lemma AcceptsIffRegisterZero(data: seq<byte>)
    ensures Accepts(data) <==> WellShaped(data) && Crc16(data) == 0
  {
    if WellShaped(data) {
      var n := LengthField(data);
      assert data == data[..8 + n] + [data[8 + n], data[9 + n]];
      FrameCheck(data[..8 + n], data[8 + n], data[9 + n]);
    }
  }

  /** Two different accepted frames of one length never differ only inside 16 consecutive bits. */
  lemma BurstRejected(p: seq<byte>, q: seq<byte>, k: nat)
    requires Accepts(p) && |p| == |q| && p != q
    requires forall i :: 0 <= i < 8 * |p| && Flips(p, q)[i] ==> k <= i < k + 16
    ensures !Accepts(q)
  {
    AcceptsIffRegisterZero(p);
    AcceptsIffRegisterZero(q);
    if Accepts(q) {
      BurstDetected(p, q, k);
    }
  }

  /** Seventeen bits are too many: from every accepted frame the pattern makes another one, wherever it falls among
      payload and check bytes. */
  lemma SeventeenBitBurstAccepted(p: seq<byte>, i: nat)
    requires Accepts(p) && 8 <= i && i + 3 <= |p|
    ensures var q := p[..i] + (Patterned(p[i], p[i + 1], p[i + 2]) + p[i + 3..]);
      q != p && Accepts(q)
  {
    var x, y := [p[i], p[i + 1], p[i + 2]], Patterned(p[i], p[i + 1], p[i + 2]);
    var q := p[..i] + (y + p[i + 3..]);
    assert p == p[..i] + (x + p[i + 3..]);
    PatternChanges(p[i], p[i + 1], p[i + 2]);
    assert q[i..i + 3] == y && p[i..i + 3] == x;
    SeventeenBitBurstMissed(p[..i], p[i], p[i + 1], p[i + 2], p[i + 3..]);
    AcceptsIffRegisterZero(p);
    AcceptsIffRegisterZero(q);
    assert forall j :: 0 <= j < 8 ==> q[j] == p[j];
  }

  /** One, two or three flipped bits in an accepted frame are always rejected, wherever they are. */
  lemma FewFlipsRejected(p: seq<byte>, q: seq<byte>)
    requires Accepts(p) && |p| == |q| && 1 <= Ones(Flips(p, q)) <= 3
    ensures !Accepts(q)
  {
    AcceptsIffRegisterZero(p);
    AcceptsIffRegisterZero(q);
    if Accepts(q) {
      FlippedBits.NoChangeNoFlips(p);
      FlippedBits.FewFlipsDetected(p, q);
    }
  }

  /** Every accepted frame has an even number of one bits, so an odd number of flips is always rejected. */
  lemma OddFlipsRejected(p: seq<byte>, q: seq<byte>)
    requires Accepts(p) && |p| == |q|
    ensures Ones(Bits(p)) % 2 == 0
    ensures Ones(Flips(p, q)) % 2 == 1 ==> !Accepts(q)
  {
    AcceptsIffRegisterZero(p);
    AcceptsIffRegisterZero(q);
    ZeroMeansEven(p);
    if Accepts(q) {
      OddFlipsDetected(p, q);
    }
  }

  // ----- dos/common/protocol.c -----

  method WriteHeader(out: array<byte>, kind: byte, sequence: u16, length: u16)
    requires out.Length >= 8
    modifies out
    ensures out[..8] == [MAGIC0, MAGIC1, VERSION, kind, Lo(sequence), Hi(sequence), Lo(length), Hi(length)]
    ensures out[8..] == old(out[8..])
  {
    out[0] := MAGIC0;
    out[1] := MAGIC1;
    out[2] := VERSION;
    out[3] := kind;
    out[4] := Lo(sequence);
    out[5] := Hi(sequence);
    out[6] := Lo(length);
    out[7] := Hi(length);
  }

  method WritePayload(out: array<byte>, payload: seq<byte>)
    requires out.Length >= 8 + |payload|
    modifies out
    ensures out[..8] == old(out[..8]) && out[8..8 + |payload|] == payload
    ensures out[8 + |payload|..] == old(out[8 + |payload|..])
  {
    var i := 0;
    while i < |payload|
      invariant i <= |payload|
      invariant out[..8] == old(out[..8])
      invariant out[8..8 + i] == payload[..i]
      invariant out[8 + i..] == old(out[8 + i..])
    {
      out[8 + i] := payload[i];
      i := i + 1;
    }
  }

  method WriteCheck(out: array<byte>, n: nat)
    requires out.Length >= n + 2
    modifies out
    ensures out[..n] == old(out[..n]) && out[n + 2..] == old(out[n + 2..])
    ensures var crc := Crc16(out[..n]); out[n] == Lo(crc) && out[n + 1] == Hi(crc)
  {
    var crc := ImeCrc16(out, n);
    out[n] := Lo(crc);
    out[n + 1] := Hi(crc);
    assert out[..n] == old(out[..n]);
  }

  /** Build a packet at the start of `out`; zero and nothing written when the payload is too long. */
  method PacketBuild(out: array<byte>, kind: byte, sequence: u16, payload: seq<byte>) returns (n: u16)
    requires |payload| <= MAX_PAYLOAD ==> out.Length >= 10 + |payload|
    modifies out
    ensures var p := Packet(kind, sequence, payload);
      if Encodable(p) then n == 10 + |payload| && out[..n] == Encode(p) && out[n..] == old(out[10 + |payload|..])
      else n == 0 && out[..] == old(out[..])
  {
    if |payload| > MAX_PAYLOAD {
      return 0;
    }
    var length := |payload|;
    n := 10 + length;
    WriteHeader(out, kind, sequence, length);
    ghost var rest := out[8..];
    WritePayload(out, payload);
    assert out[..8 + length] == out[..8] + out[8..8 + length];
    assert out[n..] == rest[2 + length..];
    ghost var body := out[..8 + length];
    WriteCheck(out, 8 + length);
    assert out[..n] == body + [out[8 + length], out[9 + length]];
  }

  /** Parse the first `packetLength` bytes. */
  method PacketParse(packet: array<byte>, packetLength: u16)
      returns (ok: bool, kind: byte, sequence: u16, payload: seq<byte>)
    requires packetLength <= packet.Length
    ensures ok <==> Accepts(packet[..packetLength])
    ensures ok ==> Decode(packet[..packetLength]) == Ok(Packet(kind, sequence, payload))
  {
    ok, kind, sequence, payload := false, 0, 0, [];
    if packetLength < 10 || packet[0] != MAGIC0 || packet[1] != MAGIC1 || packet[2] != VERSION {
      return;
    }
    var length := WordAt(packet[..packetLength], 6);
    var expected := (10 + length) % 0x1_0000;
    if length > MAX_PAYLOAD || packetLength != expected {
      return;
    }
    var actual := WordAt(packet[..packetLength], 8 + length);
    var crc := ImeCrc16(packet, 8 + length);
    assert packet[..packetLength][..8 + length] == packet[..8 + length];
    if actual != crc {
      return;
    }
    ok, kind, sequence, payload := true, packet[3], WordAt(packet[..packetLength], 4), packet[8..8 + length];
  }
}
