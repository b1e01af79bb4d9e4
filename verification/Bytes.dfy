/** Bytes, 16-bit words and their little-endian layout, with the bitwise operations the code uses on them. */
module Bytes {

  datatype Option<+T> = None | Some(value: T)

  type byte = x: int | 0 <= x < 0x100
  type u16 = x: int | 0 <= x < 0x1_0000

  function Lo(n: u16): byte { n % 256 }

  function Hi(n: u16): byte { n / 256 }

  /** The word whose low byte is at i. */
  function WordAt(data: seq<byte>, i: nat): u16
    requires i + 1 < |data|
  {
    var lo: u16, hi: u16 := data[i], data[i + 1];
    lo + 256 * hi
  }

  const CR: byte := 0x0d
  const LF: byte := 0x0a

  function Concat<T>(parts: seq<seq<T>>): seq<T> {
    if parts == [] then [] else parts[0] + Concat(parts[1..])
  }

  lemma Assoc<T>(a: seq<T>, b: seq<T>, c: seq<T>)
    ensures a + (b + c) == (a + b) + c
  {
  }

  /** Bitwise exclusive or of unsigned numbers. */
  function Xor(a: nat, b: nat): nat
    decreases a + b
  {
    if a == 0 && b == 0 then 0
    else (if a % 2 == b % 2 then 0 else 1) + 2 * Xor(a / 2, b / 2)
  }

  function Pow2(n: nat): nat {
    if n == 0 then 1 else 2 * Pow2(n - 1)
  }

  /** c shifted right by n. */
  function Shr(c: nat, n: nat): nat {
    if n == 0 then c else Shr(c / 2, n - 1)
  }

  /** h shifted left by n. */
  function Shl(h: nat, n: nat): nat {
    if n == 0 then h else 2 * Shl(h, n - 1)
  }

  predicate Bit(c: nat, i: nat) {
    Shr(c, i) % 2 == 1
  }

  /** The n low bits of c, least significant first. */
  function BitsOf(c: nat, n: nat): (bits: seq<bool>)
    ensures |bits| == n
    ensures forall i :: 0 <= i < n ==> bits[i] == Bit(c, i)
  {
    seq(n, i requires 0 <= i < n => Bit(c, i))
  }

  function XorBits(a: seq<bool>, b: seq<bool>): (x: seq<bool>)
    requires |a| == |b|
    ensures |x| == |a|
    ensures forall i :: 0 <= i < |a| ==> x[i] == (a[i] != b[i])
  {
    seq(|a|, i requires 0 <= i < |a| => a[i] != b[i])
  }

  lemma XorHalves(a: nat, b: nat)
    ensures Xor(a, b) / 2 == Xor(a / 2, b / 2) && (Xor(a, b) % 2 == 1) == (a % 2 != b % 2)
  {
  }

  lemma {:induction false} BitXor(a: nat, b: nat, i: nat)
    ensures Bit(Xor(a, b), i) == (Bit(a, i) != Bit(b, i))
  {
    var x := Xor(a, b);
    XorHalves(a, b);
    if i == 0 {
    } else {
      BitXor(a / 2, b / 2, i - 1);
      assert Bit(x, i) == Bit(x / 2, i - 1);
    }
  }

  /** Exclusive or works place by place. */
  lemma BitsOfXor(a: nat, b: nat, n: nat)
    ensures BitsOf(Xor(a, b), n) == XorBits(BitsOf(a, n), BitsOf(b, n))
  {
    forall i | 0 <= i < n ensures BitsOf(Xor(a, b), n)[i] == XorBits(BitsOf(a, n), BitsOf(b, n))[i] {
      BitXor(a, b, i);
    }
  }

  lemma {:induction false} XorBound(a: nat, b: nat, n: nat)
    requires a < Pow2(n) && b < Pow2(n)
    ensures Xor(a, b) < Pow2(n)
  {
    if n == 0 {
    } else {
      XorBound(a / 2, b / 2, n - 1);
    }
  }

  /** Numbers below 2^n are determined by their n low bits. */
  lemma {:induction false} BitsInjective(a: nat, b: nat, n: nat)
    requires a < Pow2(n) && b < Pow2(n)
    requires forall i | 0 <= i < n :: Bit(a, i) == Bit(b, i)
    ensures a == b
  {
    if n == 0 {
    } else {
      assert Bit(a, 0) == Bit(b, 0);
      forall i | 0 <= i < n - 1 ensures Bit(a / 2, i) == Bit(b / 2, i) {
        assert Bit(a, i + 1) == Bit(b, i + 1);
      }
      BitsInjective(a / 2, b / 2, n - 1);
    }
  }

  lemma {:induction false} BitHigh(c: nat, n: nat, i: nat)
    requires c < Pow2(n) && n <= i
    ensures !Bit(c, i)
  {
    if i == 0 {
    } else {
      if n > 0 {
        BitHigh(c / 2, n - 1, i - 1);
      } else {
        BitHigh(0, 0, i - 1);
      }
    }
  }

  lemma {:induction false} ShrHalf(c: nat, n: nat)
    ensures Shr(c, n) / 2 == Shr(c, n + 1)
  {
    if n == 0 {
    } else {
      ShrHalf(c / 2, n - 1);
    }
  }

  lemma {:induction false} BitLow(a: nat, h: nat, n: nat, i: nat)
    requires i < n
    ensures Bit(a + Shl(h, n), i) == Bit(a, i)
  {
    assert (a + Shl(h, n)) / 2 == a / 2 + Shl(h, n - 1);
    if i == 0 {
    } else {
      BitLow(a / 2, h, n - 1, i - 1);
    }
  }

  lemma {:induction false} BitShifted(a: nat, h: nat, n: nat, i: nat)
    requires a < Pow2(n)
    ensures Bit(a + Shl(h, n), n + i) == Bit(h, i)
  {
    if n == 0 {
    } else {
      assert (a + Shl(h, n)) / 2 == a / 2 + Shl(h, n - 1);
      BitShifted(a / 2, h, n - 1, i);
    }
  }

  lemma ShlByte(h: nat)
    ensures Shl(h, 8) == 256 * h
  {
    assert Shl(h, 1) == 2 * h;
    assert Shl(h, 2) == 4 * h;
    assert Shl(h, 3) == 8 * h;
    assert Shl(h, 4) == 16 * h;
    assert Shl(h, 5) == 32 * h;
    assert Shl(h, 6) == 64 * h;
    assert Shl(h, 7) == 128 * h;
  }

  /** The 16 bits of a word are the bits of its low byte followed by those of its high byte. */
  lemma WordBits(lo: byte, hi: byte)
    ensures BitsOf(lo + 256 * hi, 16) == BitsOf(lo, 8) + BitsOf(hi, 8)
  {
    Powers();
    ShlByte(hi);
    forall i | 0 <= i < 16 ensures Bit(lo + 256 * hi, i) == (BitsOf(lo, 8) + BitsOf(hi, 8))[i] {
      if i < 8 {
        BitLow(lo, hi, 8, i);
      } else {
        BitShifted(lo, hi, 8, i - 8);
      }
    }
  }

  lemma ShrSmall(b: nat)
    ensures Shr(b, 1) == b / 2 && Shr(b, 2) == b / 4 && Shr(b, 3) == b / 8 && Shr(b, 4) == b / 16
    ensures Shr(b, 5) == b / 32 && Shr(b, 6) == b / 64 && Shr(b, 7) == b / 128 && Shr(b, 8) == b / 256
  {
    ShrHalf(b, 0);
    ShrHalf(b, 1);
    ShrHalf(b, 2);
    ShrHalf(b, 3);
    ShrHalf(b, 4);
    ShrHalf(b, 5);
    ShrHalf(b, 6);
    ShrHalf(b, 7);
  }

  lemma EightBits(b: byte)
    ensures BitsOf(b, 8) == [b % 2 == 1, b / 2 % 2 == 1, b / 4 % 2 == 1, b / 8 % 2 == 1,
                             b / 16 % 2 == 1, b / 32 % 2 == 1, b / 64 % 2 == 1, b / 128 % 2 == 1]
  {
    ShrSmall(b);
  }

  lemma Powers()
    ensures Pow2(8) == 0x100 && Pow2(15) == 0x8000 && Pow2(16) == 0x1_0000
  {
  }
}
