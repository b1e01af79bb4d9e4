/** The check value of the CRC, which fixes polynomial, initial value and bit order: the register is computed a byte at
    a time by a closed form of eight shifts. */
module CheckValue {
  import opened Bytes
  import opened Crc

  /** The binary places of a byte, lowest first. */
  function Octet(b: byte): (places: seq<bool>)
    ensures |places| == 8
  {
    [b % 2 == 1, b / 2 % 2 == 1, b / 4 % 2 == 1, b / 8 % 2 == 1,
     b / 16 % 2 == 1, b / 32 % 2 == 1, b / 64 % 2 == 1, b / 128 % 2 == 1]
  }

  /** Eight shifts at once: f holds the feedback of each. */
  function EightShifts(r: seq<bool>, f: seq<bool>): (s: seq<bool>)
    requires |r| == 16 && |f| == 8
    ensures |s| == 16
  {
    [r[8] != f[7], r[9], r[10], r[11], r[12], r[13], r[14] != f[0], r[15] != f[1],
     f[0] != f[2], f[1] != f[3], f[2] != f[4], f[3] != f[5], f[4] != f[6], f[5] != f[7], f[6], f[7]]
  }

  /** The feedback while a byte is fed: the parity of the places that have met so far. */
  function Feedback(r: seq<bool>, b: seq<bool>): (f: seq<bool>)
    requires |r| >= 8 && |b| >= 8
    ensures |f| == 8
  {
    var f0 := r[0] != b[0];
    var f1 := f0 != (r[1] != b[1]);
    var f2 := f1 != (r[2] != b[2]);
    var f3 := f2 != (r[3] != b[3]);
    var f4 := f3 != (r[4] != b[4]);
    var f5 := f4 != (r[5] != b[5]);
    var f6 := f5 != (r[6] != b[6]);
    [f0, f1, f2, f3, f4, f5, f6, f6 != (r[7] != b[7])]
  }

  lemma OneShift(r: register, bit: bool)
    ensures var f := r[0] != bit;
      Shift(r, bit) == [r[1] != f, r[2], r[3], r[4], r[5], r[6], r[7], r[8], r[9], r[10], r[11], r[12], r[13],
                        r[14] != f, r[15], f]
  {
  }

  lemma SerialTwo(r: register, b: seq<bool>)
    requires |b| == 2
    ensures Serial(r, b) == Shift(Shift(r, b[0]), b[1])
  {
    SerialSnoc(r, [], b[0]);
    SerialSnoc(r, [b[0]], b[1]);
    assert [] + [b[0]] == [b[0]] && [b[0]] + [b[1]] == b;
  }

  lemma TwoShifts(r: register, b: seq<bool>)
    requires |b| == 2
    ensures var f0 := r[0] != b[0];
      var f1 := f0 != (r[1] != b[1]);
      Serial(r, b) == [r[2] != f1, r[3], r[4], r[5], r[6], r[7], r[8], r[9], r[10], r[11], r[12], r[13],
                       r[14] != f0, r[15] != f1, f0, f1]
  {
    SerialTwo(r, b);
    OneShift(r, b[0]);
    OneShift(Shift(r, b[0]), b[1]);
  }

  lemma FourShifts(r: register, b: seq<bool>)
    requires |b| == 4
    ensures var f0 := r[0] != b[0];
      var f1 := f0 != (r[1] != b[1]);
      var f2 := f1 != (r[2] != b[2]);
      var f3 := f2 != (r[3] != b[3]);
      Serial(r, b) == [r[4] != f3, r[5], r[6], r[7], r[8], r[9], r[10], r[11], r[12], r[13],
                       r[14] != f0, r[15] != f1, f0 != f2, f1 != f3, f2, f3]
  {
    assert b == b[..2] + b[2..];
    SerialConcat(r, b[..2], b[2..]);
    TwoShifts(r, b[..2]);
    TwoShifts(Serial(r, b[..2]), b[2..]);
  }

  lemma ByteIsEightShifts(r: register, b: seq<bool>)
    requires |b| == 8
    ensures Serial(r, b) == EightShifts(r, Feedback(r, b))
  {
    assert b == b[..4] + b[4..];
    SerialConcat(r, b[..4], b[4..]);
    FourShifts(r, b[..4]);
    FourShifts(Serial(r, b[..4]), b[4..]);
  }

  lemma PlacesOfWord(c: u16, lo: byte, hi: byte)
    requires c == lo + 256 * hi
    ensures Register(c) == Octet(lo) + Octet(hi)
  {
    WordBits(lo, hi);
    EightBits(lo);
    EightBits(hi);
  }

  /** The register after the bytes of data, eight shifts at a time. */
  function Fold(r: register, data: seq<byte>): register {
    if data == [] then r
    else
      var before := Fold(r, data[..|data| - 1]);
      EightShifts(before, Feedback(before, Octet(data[|data| - 1])))
  }

  lemma {:induction false} RunIsFold(c: u16, data: seq<byte>)
    ensures Register(Run(c, data)) == Fold(Register(c), data)
  {
    if data == [] {
    } else {
      var front, b := data[..|data| - 1], data[|data| - 1];
      RunIsFold(c, front);
      EightBits(b);
      ByteIsSerial(Run(c, front), b);
      ByteIsEightShifts(Register(Run(c, front)), Octet(b));
    }
  }

  lemma OneMoreByte(r: register, data: seq<byte>, x: register, b: byte, o: seq<bool>, s: register)
      returns (more: seq<byte>)
    requires Fold(r, data) == x && o == Octet(b) && s == EightShifts(x, Feedback(x, o))
    ensures more == data + [b] && Fold(r, more) == s
  {
    more := data + [b];
    assert more[..|data|] == data;
  }

  const I := true
  const O := false

  lemma BeforeDigits(c: u16)
    requires c == 0xFFFF
    ensures Register(c) == [I, I, I, I, I, I, I, I, I, I, I, I, I, I, I, I]
  {
    PlacesOfWord(c, 0xFF, 0xFF);
    assert Octet(0xFF) == [I, I, I, I, I, I, I, I];
  }

  lemma AfterDigits(c: u16)
    requires Register(c) == [I, I, I, O, I, I, O, O, I, I, O, I, O, O, I, O]
    ensures c == 0x4B37
  {
    PlacesOfWord(0x4B37, 0x37, 0x4B);
    assert Octet(0x37) == [I, I, I, O, I, I, O, O] && Octet(0x4B) == [I, I, O, I, O, O, I, O];
    SameRegister(c, 0x4B37);
  }

  lemma FirstThree(r: register) returns (m: seq<byte>)
    requires r == [I, I, I, I, I, I, I, I, I, I, I, I, I, I, I, I]
    ensures m == [0x31, 0x32, 0x33] && Fold(r, m) == [I, O, I, O, I, I, I, O, O, I, O, I, I, I, I, O]
  {
    m := [];
    m := OneMoreByte(r, m, [I, I, I, I, I, I, I, I, I, I, I, I, I, I, I, I], 0x31,
                     [I, O, O, O, I, I, O, O], [O, I, I, I, I, I, I, O, O, O, I, O, I, O, O, I]);
    m := OneMoreByte(r, m, [O, I, I, I, I, I, I, O, O, O, I, O, I, O, O, I], 0x32,
                     [O, I, O, O, I, I, O, O], [I, O, I, O, I, O, O, I, I, O, I, O, I, I, I, I]);
    m := OneMoreByte(r, m, [I, O, I, O, I, O, O, I, I, O, I, O, I, I, I, I], 0x33,
                     [I, I, O, O, I, I, O, O], [I, O, I, O, I, I, I, O, O, I, O, I, I, I, I, O]);
  }

  lemma NextThree(r: register, m0: seq<byte>) returns (m: seq<byte>)
    requires Fold(r, m0) == [I, O, I, O, I, I, I, O, O, I, O, I, I, I, I, O]
    ensures m == m0 + [0x34] + [0x35] + [0x36] && Fold(r, m) == [O, O, I, O, O, I, I, I, O, I, O, O, I, I, O, O]
  {
    m := m0;
    m := OneMoreByte(r, m, [I, O, I, O, I, I, I, O, O, I, O, I, I, I, I, O], 0x34,
                     [O, O, I, O, I, I, O, O], [O, I, O, I, I, I, O, I, O, O, O, O, I, I, O, O]);
    m := OneMoreByte(r, m, [O, I, O, I, I, I, O, I, O, O, O, O, I, I, O, O], 0x35,
                     [I, O, I, O, I, I, O, O], [I, O, O, O, I, I, I, O, O, O, I, O, O, I, O, I]);
    m := OneMoreByte(r, m, [I, O, O, O, I, I, I, O, O, O, I, O, O, I, O, I], 0x36,
                     [O, I, I, O, I, I, O, O], [O, O, I, O, O, I, I, I, O, I, O, O, I, I, O, O]);
  }

  lemma LastThree(r: register, m0: seq<byte>) returns (m: seq<byte>)
    requires Fold(r, m0) == [O, O, I, O, O, I, I, I, O, I, O, O, I, I, O, O]
    ensures m == m0 + [0x37] + [0x38] + [0x39] && Fold(r, m) == [I, I, I, O, I, I, O, O, I, I, O, I, O, O, I, O]
  {
    m := m0;
    m := OneMoreByte(r, m, [O, O, I, O, O, I, I, I, O, I, O, O, I, I, O, O], 0x37,
                     [I, I, I, O, I, I, O, O], [I, I, O, O, I, I, I, O, I, O, I, I, I, O, O, I]);
    m := OneMoreByte(r, m, [I, I, O, O, I, I, I, O, I, O, I, I, I, O, O, I], 0x38,
                     [O, O, O, I, I, I, O, O], [I, O, I, I, I, O, I, I, I, I, I, O, I, I, O, O]);
    m := OneMoreByte(r, m, [I, O, I, I, I, O, I, I, I, I, I, O, I, I, O, O], 0x39,
                     [I, O, O, I, I, I, O, O], [I, I, I, O, I, I, O, O, I, I, O, I, O, O, I, O]);
  }

  lemma CheckOf(data: seq<byte>, start: u16)
    requires start == 0xFFFF && data == [0x31, 0x32, 0x33, 0x34, 0x35, 0x36, 0x37, 0x38, 0x39]
    ensures Run(start, data) == 0x4B37
  {
    BeforeDigits(start);
    var r := Register(start);
    var m := FirstThree(r);
    m := NextThree(r, m);
    m := LastThree(r, m);
    assert m == data;
    RunIsFold(start, data);
    AfterDigits(Run(start, data));
  }

  /** The check value of the digits 1 to 9. */
  lemma DigitsCheck()
    ensures Crc16([0x31, 0x32, 0x33, 0x34, 0x35, 0x36, 0x37, 0x38, 0x39]) == 0x4B37
  {
    var digits := [0x31, 0x32, 0x33, 0x34, 0x35, 0x36, 0x37, 0x38, 0x39];
    Crc16IsRun(digits);
    CheckOf(digits, 0xFFFF);
  }
}
