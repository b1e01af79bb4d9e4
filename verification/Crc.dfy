/** The frame check: CRC-16 with polynomial A001h (reflected), initial value FFFFh and no final xor.
    The byte-at-a-time register loop is related to a bit-serial shift register over booleans, and the
    error-detection theorems are proved about the latter. */
module Crc {
  import opened Bytes

  // ----- the register loop -----

  function BitStep(c: u16): u16 {
    Bound(c / 2, 0xA001);
    if c % 2 == 1 then Xor(c / 2, 0xA001) else c / 2
  }

  function Steps(c: u16, n: nat): u16 {
    if n == 0 then c else BitStep(Steps(c, n - 1))
  }

  function ByteStep(c: u16, b: byte): u16 {
    Bound(c, b);
    Steps(Xor(c, b), 8)
  }

  function Run(c: u16, data: seq<byte>): u16 {
    if data == [] then c else ByteStep(Run(c, data[..|data| - 1]), data[|data| - 1])
  }

  /** The register after the first n bytes of a message. */
  function CrcOf(data: seq<byte>, n: nat): u16
    requires n <= |data|
    decreases n, 0
  {
    if n == 0 then 0xFFFF else CrcWithin(data, n - 1, 8)
  }

  /** The register after i bytes and k steps of the byte that follows. */
  function CrcWithin(data: seq<byte>, i: nat, k: nat): u16
    requires i < |data|
    decreases i, k + 1
  {
    Bound(CrcOf(data, i), data[i]);
    if k == 0 then Xor(CrcOf(data, i), data[i]) else BitStep(CrcWithin(data, i, k - 1))
  }

  function Crc16(data: seq<byte>): u16 {
    CrcOf(data, |data|)
  }

  lemma {:induction false} CrcWithinIsSteps(data: seq<byte>, i: nat, k: nat)
    requires i < |data|
    ensures Xor(CrcOf(data, i), data[i]) < 0x1_0000
    ensures CrcWithin(data, i, k) == Steps(Xor(CrcOf(data, i), data[i]), k)
  {
    Bound(CrcOf(data, i), data[i]);
    if k == 0 {
    } else {
      CrcWithinIsSteps(data, i, k - 1);
    }
  }

  lemma {:induction false} CrcOfIsRun(data: seq<byte>, n: nat)
    requires n <= |data|
    ensures CrcOf(data, n) == Run(0xFFFF, data[..n])
  {
    if n == 0 {
    } else {
      CrcOfIsRun(data, n - 1);
      CrcWithinIsSteps(data, n - 1, 8);
      assert data[..n][..n - 1] == data[..n - 1];
    }
  }

  lemma Crc16IsRun(data: seq<byte>)
    ensures Crc16(data) == Run(0xFFFF, data)
  {
    CrcOfIsRun(data, |data|);
    assert data[..|data|] == data;
  }

  lemma Bound(a: u16, b: u16)
    ensures Xor(a, b) < 0x1_0000
  {
    Powers();
    XorBound(a, b, 16);
  }

  /** dos/common/protocol.c and tools/protocol.py: the nested shift loop over the first `length` bytes. */
  method ImeCrc16(data: array<byte>, length: nat) returns (crc: u16)
    requires length <= data.Length
    ensures crc == Crc16(data[..length])
  {
    crc := 0xFFFF;
    ghost var message := data[..length];
    var i := 0;
    while i < length
      invariant i <= length
      invariant crc == CrcOf(message, i)
    {
      Bound(crc, data[i]);
      crc := Xor(crc, data[i]);
      var bit := 0;
      while bit < 8
        invariant bit <= 8
        invariant crc == CrcWithin(message, i, bit)
      {
        Bound(crc / 2, 0xA001);
        crc := if crc % 2 == 1 then Xor(crc / 2, 0xA001) else crc / 2;
        bit := bit + 1;
      }
      i := i + 1;
    }
  }

  // ----- the bit-serial reference -----

  function Zeros(n: nat): (z: seq<bool>)
    ensures |z| == n && forall i :: 0 <= i < n ==> !z[i]
  {
    seq(n, _ => false)
  }

  type register = r: seq<bool> | |r| == 16 witness Zeros(16)

  /** The places at which A001h has a one. */
  function Taps(): (t: register)
    ensures forall i :: 0 <= i < 16 ==> t[i] == (i == 0 || i == 13 || i == 15)
  {
    seq(16, i => i == 0 || i == 13 || i == 15)
  }

  /** Shift right by one; the bit shifted out, combined with the input bit, decides the feedback. */
  function Shift(r: register, input: bool): (s: register)
    ensures s[15] == (r[0] != input)
    ensures forall i :: 0 <= i < 15 ==> s[i] == (r[i + 1] != (s[15] && (i == 0 || i == 13)))
  {
    seq(16, i requires 0 <= i < 16 => (i < 15 && r[i + 1]) != (r[0] != input && (i == 0 || i == 13 || i == 15)))
  }

  function Serial(r: register, bits: seq<bool>): register {
    if bits == [] then r else Shift(Serial(r, bits[..|bits| - 1]), bits[|bits| - 1])
  }

  function Register(c: u16): register {
    BitsOf(c, 16)
  }

  /** The bits of the data in the order the register consumes them: each byte least significant bit first. */
  function Bits(data: seq<byte>): (bits: seq<bool>)
    ensures |bits| == 8 * |data|
  {
    if data == [] then [] else Bits(data[..|data| - 1]) + BitsOf(data[|data| - 1], 8)
  }

  lemma TapsAreThePolynomial()
    ensures BitsOf(0xA001, 16) == Taps()
  {
    WordBits(0x01, 0xA0);
    EightBits(0x01);
    EightBits(0xA0);
  }

  lemma BitsOfZero(n: nat)
    ensures BitsOf(0, n) == Zeros(n)
  {
    forall i | 0 <= i < n ensures !Bit(0, i) {
      BitHigh(0, 0, i);
    }
  }

  lemma RegisterHalf(c: u16)
    ensures BitsOf(c / 2, 16) == Register(c)[1..] + [false]
  {
    Powers();
    BitHigh(c / 2, 15, 15);
    forall i | 0 <= i < 15 ensures Bit(c / 2, i) == Register(c)[1..][i] {
      assert Bit(c / 2, i) == Bit(c, i + 1);
    }
  }

  lemma RegisterStep(c: u16)
    ensures Register(BitStep(c)) == Shift(Register(c), false)
  {
    RegisterHalf(c);
    TapsAreThePolynomial();
    BitsOfXor(c / 2, 0xA001, 16);
    assert Register(c)[0] == (c % 2 == 1);
    if c % 2 == 1 {
      assert XorBits(Register(c)[1..] + [false], Taps()) == Shift(Register(c), false);
    } else {
      assert Register(c)[1..] + [false] == Shift(Register(c), false);
    }
  }

  // ----- linearity -----

  lemma ShiftLinear(r: register, s: register, p: bool, q: bool)
    ensures Shift(XorBits(r, s), p != q) == XorBits(Shift(r, p), Shift(s, q))
  {
  }

  lemma {:induction false} SerialLinear(r: register, s: register, x: seq<bool>, y: seq<bool>)
    requires |x| == |y|
    ensures Serial(XorBits(r, s), XorBits(x, y)) == XorBits(Serial(r, x), Serial(s, y))
  {
    if x == [] {
    } else {
      var n := |x| - 1;
      SerialLinear(r, s, x[..n], y[..n]);
      assert XorBits(x, y)[..n] == XorBits(x[..n], y[..n]);
      ShiftLinear(Serial(r, x[..n]), Serial(s, y[..n]), x[n], y[n]);
    }
  }

  lemma {:induction false} SerialConcat(r: register, x: seq<bool>, y: seq<bool>)
    ensures Serial(r, x + y) == Serial(Serial(r, x), y)
  {
    if y == [] {
      assert x + y == x;
    } else {
      var n := |y| - 1;
      assert (x + y)[..|x + y| - 1] == x + y[..n];
      SerialConcat(r, x, y[..n]);
    }
  }

  // ----- the byte loop is the bit-serial register -----

  lemma ShiftOwnBit(r: register, x: register)
    ensures Shift(XorBits(r, x), false) == XorBits(Shift(r, x[0]), x[1..] + [false])
  {
  }

  lemma SerialSnoc(r: register, bits: seq<bool>, b: bool)
    ensures Serial(r, bits + [b]) == Shift(Serial(r, bits), b)
  {
    assert (bits + [b])[..|bits|] == bits;
  }

  lemma StepOnBits(s: u16, r: register, rest: u16)
    requires Register(s) == XorBits(r, Register(rest))
    ensures Register(BitStep(s)) == XorBits(Shift(r, Bit(rest, 0)), Register(rest / 2))
  {
    RegisterStep(s);
    ShiftOwnBit(r, Register(rest));
    RegisterHalf(rest);
  }

  lemma BitsOfSnoc(x: u16, n: nat)
    requires n > 0
    ensures Bit(x, n - 1) == Bit(Shr(x, n - 1), 0) && Shr(x, n) == Shr(x, n - 1) / 2 < 0x1_0000
    ensures BitsOf(x, n) == BitsOf(x, n - 1) + [Bit(x, n - 1)]
  {
    ShrBound(x, n);
    ShrHalf(x, n - 1);
  }

  /** Xoring a value into the register first is the same as shifting its bits in one at a time. */
  lemma {:induction false} StepsAreSerial(c: u16, x: u16, n: nat)
    ensures Xor(c, x) < 0x1_0000
    ensures Register(Steps(Xor(c, x), n)) == XorBits(Serial(Register(c), BitsOf(x, n)), BitsOf(Shr(x, n), 16))
  {
    Bound(c, x);
    if n == 0 {
      BitsOfXor(c, x, 16);
    } else {
      var r := Serial(Register(c), BitsOf(x, n - 1));
      StepsAreSerial(c, x, n - 1);
      ShrBound(x, n - 1);
      StepOnBits(Steps(Xor(c, x), n - 1), r, Shr(x, n - 1));
      BitsOfSnoc(x, n);
      SerialSnoc(Register(c), BitsOf(x, n - 1), Bit(x, n - 1));
    }
  }

  lemma {:induction false} ShrBound(x: u16, n: nat)
    ensures Shr(x, n) < 0x1_0000
  {
    if n == 0 {
    } else {
      ShrBound(x / 2, n - 1);
    }
  }

  lemma XorZeros(r: register)
    ensures XorBits(r, Zeros(16)) == r
  {
  }

  lemma HighBits(b: byte)
    ensures BitsOf(Shr(b, 8), 16) == Zeros(16)
  {
    ShrSmall(b);
    BitsOfZero(16);
  }

  // Here and below a parameter that a requires pins to one value keeps a literal out of recursive functions, which
  // the solver would otherwise unroll.
  lemma StepsOfByte(c: u16, b: byte, n: nat)
    requires n == 8
    ensures Xor(c, b) < 0x1_0000
    ensures Register(Steps(Xor(c, b), n)) == Serial(Register(c), BitsOf(b, n))
  {
    StepsAreSerial(c, b, n);
    HighBits(b);
    XorZeros(Serial(Register(c), BitsOf(b, n)));
  }

  lemma ByteIsSerial(c: u16, b: byte)
    ensures Register(ByteStep(c, b)) == Serial(Register(c), BitsOf(b, 8))
  {
    StepsOfByte(c, b, 8);
  }

  /** The nested byte loop computes the same register as shifting in the message's bits one by one. */
  lemma {:induction false} RunIsSerial(c: u16, data: seq<byte>)
    ensures Register(Run(c, data)) == Serial(Register(c), Bits(data))
  {
    if data == [] {
    } else {
      var n := |data| - 1;
      RunIsSerial(c, data[..n]);
      ByteIsSerial(Run(c, data[..n]), data[n]);
      SerialConcat(Register(c), Bits(data[..n]), BitsOf(data[n], 8));
    }
  }

  lemma {:induction false} RunConcat(c: u16, a: seq<byte>, b: seq<byte>)
    ensures Run(c, a + b) == Run(Run(c, a), b)
  {
    if b == [] {
      assert a + b == a;
    } else {
      assert (a + b)[..|a + b| - 1] == a + b[..|b| - 1];
      RunConcat(c, a, b[..|b| - 1]);
    }
  }

  // ----- a frame passes exactly when the register ends at zero -----

  lemma {:induction false} FeedSelf(r: register, k: nat)
    requires k <= 16
    ensures Serial(r, r[..k]) == r[k..] + Zeros(k)
  {
    if k == 0 {
    } else {
      FeedSelf(r, k - 1);
      assert r[..k][..k - 1] == r[..k - 1];
    }
  }

  /** Only the j low places of the register are set. */
  predicate Below(r: register, j: nat) {
    forall i :: j <= i < 16 ==> !r[i]
  }

  lemma BelowBefore(r: register, bit: bool, j: nat)
    requires 0 < j <= 16 && Below(Shift(r, bit), j - 1)
    ensures Below(r, j)
  {
    forall i | j <= i < 16 ensures !r[i] {
      assert !Shift(r, bit)[i - 1];
    }
  }

  /** Working backwards from a zero register: j bits before the end only the j low places can be set. */
  lemma {:induction false} BackFromZero(w: seq<bool>, n: nat)
    requires n <= |w| <= 16 && Serial(Zeros(16), w) == Zeros(16)
    ensures Below(Serial(Zeros(16), w[..n]), |w| - n)
    decreases |w| - n
  {
    if n == |w| {
      assert w[..n] == w;
    } else {
      BackFromZero(w, n + 1);
      assert w[..n + 1] == w[..n] + [w[n]];
      SerialSnoc(Zeros(16), w[..n], w[n]);
      BelowBefore(Serial(Zeros(16), w[..n]), w[n], |w| - n);
    }
  }

  lemma OnlyZeroStaysBelow(bit: bool, j: nat)
    requires j < 16 && Below(Shift(Zeros(16), bit), j)
    ensures !bit && Shift(Zeros(16), bit) == Zeros(16)
  {
    assert !Shift(Zeros(16), bit)[15];
  }

  lemma BitAfterZeros(a: seq<bool>, bit: bool, j: nat)
    requires Serial(Zeros(16), a) == Zeros(16) && j < 16 && Below(Serial(Zeros(16), a + [bit]), j)
    ensures !bit && Serial(Zeros(16), a + [bit]) == Zeros(16)
  {
    SerialSnoc(Zeros(16), a, bit);
    OnlyZeroStaysBelow(bit, j);
  }

  lemma NextBitIsZero(w: seq<bool>, k: nat)
    requires k < |w| <= 16 && Serial(Zeros(16), w[..k]) == Zeros(16)
    requires Below(Serial(Zeros(16), w[..k + 1]), |w| - (k + 1))
    ensures Serial(Zeros(16), w[..k + 1]) == Zeros(16) && !w[k]
  {
    assert w[..k + 1] == w[..k] + [w[k]];
    BitAfterZeros(w[..k], w[k], |w| - (k + 1));
  }

  /** Before every bit of the window only as many low places are set as bits are left. */
  ghost predicate Fades(w: seq<bool>) {
    forall n :: 0 <= n <= |w| ==> Below(Serial(Zeros(16), w[..n]), |w| - n)
  }

  lemma {:induction false} FadingWindow(w: seq<bool>, k: nat)
    requires k <= |w| <= 16 && Fades(w)
    ensures Serial(Zeros(16), w[..k]) == Zeros(16) && forall i :: 0 <= i < k ==> !w[i]
  {
    if k == 0 {
    } else {
      FadingWindow(w, k - 1);
      NextBitIsZero(w, k - 1);
    }
  }

  /** Sixteen or fewer bits bring the zero register back to zero only if all of them are zero. */
  lemma ShortWindow(w: seq<bool>)
    requires |w| <= 16 && Serial(Zeros(16), w) == Zeros(16)
    ensures forall i :: 0 <= i < |w| ==> !w[i]
  {
    forall n | 0 <= n <= |w| ensures Below(Serial(Zeros(16), w[..n]), |w| - n) {
      BackFromZero(w, n);
    }
    FadingWindow(w, |w|);
  }

  lemma SameRegister(a: u16, b: u16)
    requires Register(a) == Register(b)
    ensures a == b
  {
    Powers();
    forall i | 0 <= i < 16 ensures Bit(a, i) == Bit(b, i) {
      assert Register(a)[i] == Register(b)[i];
    }
    BitsInjective(a, b, 16);
  }

  lemma RegisterZero(c: u16)
    ensures c == 0 <==> Register(c) == Zeros(16)
  {
    BitsOfZero(16);
    assert Register(0) == Zeros(16);
    if Register(c) == Zeros(16) {
      SameRegister(c, 0);
    }
  }

  lemma SixteenBitsToZero(r: register, w: seq<bool>)
    requires |w| == 16
    ensures Serial(r, w) == Zeros(16) <==> w == r
  {
    FeedSelf(r, 16);
    assert r[..16] == r && r[16..] + Zeros(16) == Zeros(16);
    SerialLinear(r, r, w, r);
    assert XorBits(r, r) == Zeros(16) && XorBits(Serial(r, w), Zeros(16)) == Serial(r, w);
    if Serial(r, w) == Zeros(16) {
      var d := XorBits(w, r);
      ShortWindow(d);
      forall i | 0 <= i < 16 ensures w[i] == r[i] {
        assert !d[i];
      }
    }
  }

  lemma BitsOfPair(x: byte, y: byte)
    ensures Bits([x, y]) == BitsOf(x + 256 * y, 16)
  {
    WordBits(x, y);
    assert [x, y][..1] == [x];
    assert Bits([x]) == Bits([]) + BitsOf(x, 8);
  }

  /** A frame carries the right check bytes exactly when the register over the whole frame ends at zero. */
  lemma FrameCheck(data: seq<byte>, x: byte, y: byte)
    ensures Crc16(data) == x + 256 * y <==> Crc16(data + [x, y]) == 0
  {
    var c := Crc16(data);
    Crc16IsRun(data);
    Crc16IsRun(data + [x, y]);
    RunConcat(0xFFFF, data, [x, y]);
    RunIsSerial(c, [x, y]);
    BitsOfPair(x, y);
    SixteenBitsToZero(Register(c), Register(x + 256 * y));
    RegisterZero(Crc16(data + [x, y]));
    if Register(x + 256 * y) == Register(c) {
      SameRegister(x + 256 * y, c);
    }
  }

  // ----- error detection -----

  /** The positions at which two equally long messages differ, as a bit string. */
  function Flips(p: seq<byte>, q: seq<byte>): (d: seq<bool>)
    requires |p| == |q|
    ensures |d| == 8 * |p|
  {
    XorBits(Bits(p), Bits(q))
  }

  lemma {:induction false} BitsConcat(a: seq<byte>, b: seq<byte>)
    ensures Bits(a + b) == Bits(a) + Bits(b)
  {
    if b == [] {
      assert a + b == a;
    } else {
      var n := |b| - 1;
      assert (a + b)[..|a + b| - 1] == a + b[..n];
      BitsConcat(a, b[..n]);
      Assoc(Bits(a), Bits(b[..n]), BitsOf(b[n], 8));
    }
  }

  /** Messages that begin alike differ only after their common beginning. */
  lemma EndFlips(p: seq<byte>, q: seq<byte>, k: nat)
    requires |p| == |q| && k <= |p| && p[..k] == q[..k]
    ensures forall i :: 0 <= i < 8 * |p| && Flips(p, q)[i] ==> 8 * k <= i
  {
    assert p == p[..k] + p[k..] && q == q[..k] + q[k..];
    BitsConcat(p[..k], p[k..]);
    BitsConcat(q[..k], q[k..]);
  }

  lemma FlipsFeedZero(p: seq<byte>, q: seq<byte>)
    requires |p| == |q| && Crc16(p) == 0
    ensures Crc16(q) == 0 <==> Serial(Zeros(16), Flips(p, q)) == Zeros(16)
  {
    var r := Register(0xFFFF);
    Crc16IsRun(p);
    Crc16IsRun(q);
    RunIsSerial(0xFFFF, p);
    RunIsSerial(0xFFFF, q);
    SerialLinear(r, r, Bits(p), Bits(q));
    assert XorBits(r, r) == Zeros(16);
    RegisterZero(Crc16(p));
    RegisterZero(Crc16(q));
    assert XorBits(Zeros(16), Register(Crc16(q))) == Register(Crc16(q));
  }

  lemma {:induction false} ZerosKeepZero(n: nat)
    ensures Serial(Zeros(16), Zeros(n)) == Zeros(16)
  {
    if n == 0 {
    } else {
      ZerosKeepZero(n - 1);
      assert Zeros(n)[..n - 1] == Zeros(n - 1);
    }
  }

  lemma ShiftKeepsNonzero(s: register)
    requires Shift(s, false) == Zeros(16)
    ensures s == Zeros(16)
  {
    var t := Shift(s, false);
    assert !t[15];
    forall i | 0 <= i < 16 ensures !s[i] {
      if i > 0 {
        assert !t[i - 1];
      }
    }
  }

  lemma {:induction false} ZerosKeepNonzero(r: register, n: nat)
    requires Serial(r, Zeros(n)) == Zeros(16)
    ensures r == Zeros(16)
  {
    if n == 0 {
    } else {
      var s := Serial(r, Zeros(n - 1));
      assert Zeros(n)[..n - 1] == Zeros(n - 1);
      ShiftKeepsNonzero(s);
      ZerosKeepNonzero(r, n - 1);
    }
  }

  lemma {:induction false} BitsDetermineData(p: seq<byte>, q: seq<byte>)
    requires |p| == |q| && Bits(p) == Bits(q)
    ensures p == q
  {
    if p == [] {
    } else {
      var n := |p| - 1;
      assert Bits(p)[..8 * n] == Bits(p[..n]) && Bits(q)[..8 * n] == Bits(q[..n]);
      Powers();
      forall i | 0 <= i < 8 ensures Bit(p[n], i) == Bit(q[n], i) {
        assert Bits(p)[8 * n + i] == Bits(q)[8 * n + i];
      }
      BitsInjective(p[n], q[n], 8);
      BitsDetermineData(p[..n], q[..n]);
      assert p == p[..n] + [p[n]] && q == q[..n] + [q[n]];
    }
  }

  lemma ZerosAround(lead: nat, w: seq<bool>, tail: nat)
    requires forall i :: 0 <= i < |w| ==> !w[i]
    ensures Zeros(lead) + w + Zeros(tail) == Zeros(lead + |w| + tail)
  {
  }

  lemma WindowFeedsNonzero(lead: nat, w: seq<bool>, tail: nat)
    requires |w| <= 16 && Serial(Zeros(16), Zeros(lead) + w + Zeros(tail)) == Zeros(16)
    ensures Zeros(lead) + w + Zeros(tail) == Zeros(lead + |w| + tail)
  {
    var z := Zeros(16);
    var head := Zeros(lead) + w;
    SerialConcat(z, head, Zeros(tail));
    ZerosKeepNonzero(Serial(z, head), tail);
    SerialConcat(z, Zeros(lead), w);
    ZerosKeepZero(lead);
    ShortWindow(w);
    ZerosAround(lead, w, tail);
  }

  lemma SplitAtWindow(d: seq<bool>, k: nat) returns (lead: nat, w: seq<bool>, tail: nat)
    requires forall i :: 0 <= i < |d| && d[i] ==> k <= i < k + 16
    ensures |w| <= 16 && d == Zeros(lead) + w + Zeros(tail)
  {
    lead := if k < |d| then k else |d|;
    var to := if k + 16 < |d| then k + 16 else |d|;
    w, tail := d[lead..to], |d| - to;
  }

  lemma NarrowIsZero(d: seq<bool>, k: nat)
    requires Serial(Zeros(16), d) == Zeros(16)
    requires forall i :: 0 <= i < |d| && d[i] ==> k <= i < k + 16
    ensures d == Zeros(|d|)
  {
    var lead, w, tail := SplitAtWindow(d, k);
    WindowFeedsNonzero(lead, w, tail);
  }

  /** No error confined to 16 consecutive bits goes unnoticed. */
  lemma BurstDetected(p: seq<byte>, q: seq<byte>, k: nat)
    requires |p| == |q| && Crc16(p) == 0 && Crc16(q) == 0
    requires forall i :: 0 <= i < 8 * |p| && Flips(p, q)[i] ==> k <= i < k + 16
    ensures p == q
  {
    FlipsFeedZero(p, q);
    NarrowIsZero(Flips(p, q), k);
    NoFlips(p, q);
  }

  lemma NoFlips(p: seq<byte>, q: seq<byte>)
    requires |p| == |q| && Flips(p, q) == Zeros(8 * |p|)
    ensures p == q
  {
    forall i | 0 <= i < 8 * |p| ensures Bits(p)[i] == Bits(q)[i] {
      assert !Flips(p, q)[i];
    }
    BitsDetermineData(p, q);
  }

  lemma BitsOfTriple(a: byte, b: byte, c: byte)
    ensures Bits([a, b, c]) == BitsOf(a, 8) + BitsOf(b, 8) + BitsOf(c, 8)
  {
    assert [a, b, c][..2] == [a, b] && [a, b][..1] == [a] && [a][..0] == [];
    assert Bits([a, b]) == Bits([a]) + BitsOf(b, 8);
    assert Bits([a]) == Bits([]) + BitsOf(a, 8);
  }

  lemma PolynomialFeedsZero()
    ensures Serial(Zeros(16), [true] + Taps() + Zeros(7)) == Zeros(16)
  {
    SerialConcat(Zeros(16), [true] + Taps(), Zeros(7));
    SerialConcat(Zeros(16), [true], Taps());
    SerialSnoc(Zeros(16), [], true);
    assert [] + [true] == [true];
    assert Shift(Zeros(16), true) == Taps();
    FeedSelf(Taps(), 16);
    assert Taps()[..16] == Taps() && Taps()[16..] + Zeros(16) == Zeros(16);
    ZerosKeepZero(7);
  }

  lemma PatternBits()
    ensures [true] + Taps() + Zeros(7) == BitsOf(0x03, 8) + BitsOf(0x40, 8) + BitsOf(0x01, 8)
  {
    EightBits(0x03);
    EightBits(0x40);
    EightBits(0x01);
  }

  lemma PatternFlips(a: byte, b: byte, c: byte, x: byte, y: byte, z: byte)
    requires x == Xor(a, 0x03) && y == Xor(b, 0x40) && z == Xor(c, 0x01)
    ensures Bits([x, y, z]) == XorBits(Bits([a, b, c]), [true] + Taps() + Zeros(7))
  {
    BitsOfTriple(a, b, c);
    BitsOfTriple(x, y, z);
    BitsOfXor(a, 0x03, 8);
    BitsOfXor(b, 0x40, 8);
    BitsOfXor(c, 0x01, 8);
    PatternBits();
  }

  lemma PatternInvisible(v: u16, p: seq<byte>, q: seq<byte>)
    requires |p| == |q| == 3 && Bits(q) == XorBits(Bits(p), [true] + Taps() + Zeros(7))
    ensures Run(v, p) == Run(v, q)
  {
    var r := Register(v);
    SerialLinear(r, Zeros(16), Bits(p), [true] + Taps() + Zeros(7));
    PolynomialFeedsZero();
    assert XorBits(r, Zeros(16)) == r && XorBits(Serial(r, Bits(p)), Zeros(16)) == Serial(r, Bits(p));
    RunIsSerial(v, p);
    RunIsSerial(v, q);
    SameRegister(Run(v, p), Run(v, q));
  }

  function Patterned(a: byte, b: byte, c: byte): seq<byte> {
    Powers();
    XorBound(a, 0x03, 8);
    XorBound(b, 0x40, 8);
    XorBound(c, 0x01, 8);
    [Xor(a, 0x03), Xor(b, 0x40), Xor(c, 0x01)]
  }

  /** Sixteen is the best possible: flipping the bits 03h 40h 01h, which span 17 places, of any three neighbouring
      bytes of a message leaves the check value as it was. */
  lemma SeventeenBitBurstMissed(head: seq<byte>, a: byte, b: byte, c: byte, tail: seq<byte>)
    ensures Crc16(head + ([a, b, c] + tail)) == Crc16(head + (Patterned(a, b, c) + tail))
  {
    var p, q := [a, b, c], Patterned(a, b, c);
    PatternFlips(a, b, c, q[0], q[1], q[2]);
    PatternInvisible(Run(0xFFFF, head), p, q);
    Crc16IsRun(head + (p + tail));
    Crc16IsRun(head + (q + tail));
    RunConcat(0xFFFF, head, p + tail);
    RunConcat(0xFFFF, head, q + tail);
    RunConcat(Run(0xFFFF, head), p, tail);
    RunConcat(Run(0xFFFF, head), q, tail);
  }

  lemma PatternChanges(a: byte, b: byte, c: byte)
    ensures Patterned(a, b, c) != [a, b, c]
  {
    XorHalves(c, 0x01);
  }

  function Ones(bits: seq<bool>): nat {
    if bits == [] then 0 else Ones(bits[..|bits| - 1]) + if bits[|bits| - 1] then 1 else 0
  }

  lemma {:induction false} OnesConcat(a: seq<bool>, b: seq<bool>)
    ensures Ones(a + b) == Ones(a) + Ones(b)
  {
    if b == [] {
      assert a + b == a;
    } else {
      assert (a + b)[..|a + b| - 1] == a + b[..|b| - 1];
      OnesConcat(a, b[..|b| - 1]);
    }
  }

  lemma {:induction false} OnesXor(a: seq<bool>, b: seq<bool>)
    requires |a| == |b|
    ensures Ones(XorBits(a, b)) % 2 == (Ones(a) + Ones(b)) % 2
  {
    if a == [] {
    } else {
      var n := |a| - 1;
      assert XorBits(a, b)[..n] == XorBits(a[..n], b[..n]);
      OnesXor(a[..n], b[..n]);
    }
  }

  lemma {:induction false} OnesOfZeros(n: nat)
    ensures Ones(Zeros(n)) == 0
  {
    if n == 0 {
    } else {
      OnesOfZeros(n - 1);
      assert Zeros(n)[..n - 1] == Zeros(n - 1);
    }
  }

  lemma OnesOfTaps()
    ensures Ones(Taps()) == 3
  {
    var one := [true];
    assert one[..0] == [] && Ones(one) == 1;
    assert Taps() == one + (Zeros(12) + (one + (Zeros(1) + one)));
    OnesConcat(Zeros(1), one);
    OnesConcat(one, Zeros(1) + one);
    OnesConcat(Zeros(12), one + (Zeros(1) + one));
    OnesConcat(one, Zeros(12) + (one + (Zeros(1) + one)));
    OnesOfZeros(1);
    OnesOfZeros(12);
  }

  lemma {:induction false} OnesOfAll(bits: seq<bool>)
    requires forall i :: 0 <= i < |bits| ==> bits[i]
    ensures Ones(bits) == |bits|
  {
    if bits == [] {
    } else {
      OnesOfAll(bits[..|bits| - 1]);
    }
  }

  lemma OnesOfInitial(c: u16)
    requires c == 0xFFFF
    ensures Ones(Register(c)) == 16
  {
    WordBits(0xFF, 0xFF);
    EightBits(0xFF);
    OnesOfAll(Register(c));
  }

  lemma ShiftParity(r: register, input: bool)
    ensures Ones(Shift(r, input)) % 2 == (Ones(r) + if input then 1 else 0) % 2
  {
    OnesConcat(r[1..], [false]);
    OnesConcat([r[0]], r[1..]);
    assert [r[0]] + r[1..] == r;
    assert Ones([false]) == 0 && Ones([r[0]]) == if r[0] then 1 else 0;
    OnesOfTaps();
    OnesOfZeros(16);
    var feedback := if r[0] != input then Taps() else Zeros(16);
    OnesXor(r[1..] + [false], feedback);
    assert Shift(r, input) == XorBits(r[1..] + [false], feedback);
  }

  lemma {:induction false} SerialParity(r: register, bits: seq<bool>)
    ensures Ones(Serial(r, bits)) % 2 == (Ones(r) + Ones(bits)) % 2
  {
    if bits == [] {
    } else {
      var n := |bits| - 1;
      SerialParity(r, bits[..n]);
      ShiftParity(Serial(r, bits[..n]), bits[n]);
    }
  }

  lemma ParityFrom(c: u16, data: seq<byte>)
    ensures Ones(Register(Run(c, data))) % 2 == (Ones(Register(c)) + Ones(Bits(data))) % 2
  {
    RunIsSerial(c, data);
    SerialParity(Register(c), Bits(data));
  }

  /** The bit parity of the register always equals the bit parity of the data consumed. */
  lemma CrcParity(data: seq<byte>)
    ensures Ones(Register(Crc16(data))) % 2 == Ones(Bits(data)) % 2
  {
    Crc16IsRun(data);
    ParityFrom(0xFFFF, data);
    OnesOfInitial(0xFFFF);
  }

  /** A frame whose register ends at zero has an even number of one bits. */
  lemma ZeroMeansEven(data: seq<byte>)
    requires Crc16(data) == 0
    ensures Ones(Bits(data)) % 2 == 0
  {
    CrcParity(data);
    RegisterZero(0);
    OnesOfZeros(16);
  }

  lemma EvenSum(a: nat, b: nat)
    requires a % 2 == 0 && b % 2 == 0
    ensures (a + b) % 2 == 0
  {
  }

  /** An odd number of flipped bits is always noticed. */
  lemma OddFlipsDetected(p: seq<byte>, q: seq<byte>)
    requires |p| == |q| && Crc16(p) == 0 && Crc16(q) == 0
    ensures Ones(Flips(p, q)) % 2 == 0
  {
    ZeroMeansEven(p);
    ZeroMeansEven(q);
    EvenSum(Ones(Bits(p)), Ones(Bits(q)));
    OnesXor(Bits(p), Bits(q));
  }
}
