/** Two flipped bits. The check misses them exactly when the register, set in its lowest place and shifted as often as
    the flips are apart, comes back to itself. The polynomial is (x + 1)(x^15 + x + 1); the sequence below is that of
    the second factor, and its period is shown to be 32767. */
module FlippedBits {
  import opened Bytes
  import opened Crc

  const PERIOD := 32767

  // ----- from flips to the register -----

  /** The register with only its lowest place set, after n shifts. */
  function State(n: nat): register {
    if n == 0 then [true] + Zeros(15) else Shift(State(n - 1), false)
  }

  lemma {:induction false} StateAfter(r: register, n: nat, m: nat)
    requires r == State(m)
    ensures Serial(r, Zeros(n)) == State(m + n)
  {
    if n == 0 {
    } else {
      StateAfter(r, n - 1, m);
      assert Zeros(n)[..n - 1] == Zeros(n - 1);
    }
  }

  lemma {:induction false} NoOnes(d: seq<bool>)
    requires Ones(d) == 0
    ensures d == Zeros(|d|)
  {
    if d == [] {
    } else {
      NoOnes(d[..|d| - 1]);
    }
  }

  lemma {:induction false} OneOne(d: seq<bool>) returns (lead: nat, tail: nat)
    requires Ones(d) == 1
    ensures d == Zeros(lead) + [true] + Zeros(tail)
  {
    var n := |d| - 1;
    if d[n] {
      NoOnes(d[..n]);
      lead, tail := n, 0;
    } else {
      lead, tail := OneOne(d[..n]);
      tail := tail + 1;
      assert d == d[..n] + [false];
    }
  }

  lemma {:induction false} TwoOnes(d: seq<bool>) returns (lead: nat, apart: nat, tail: nat)
    requires Ones(d) == 2
    ensures d == ((Zeros(lead) + [true]) + (Zeros(apart) + [true])) + Zeros(tail)
  {
    var n := |d| - 1;
    assert d == d[..n] + [d[n]];
    if d[n] {
      lead, apart := OneOne(d[..n]);
      tail := 0;
    } else {
      lead, apart, tail := TwoOnes(d[..n]);
      tail := tail + 1;
    }
  }

  /** After the first flip the register is that of the sequence, one shift on. */
  lemma FirstFlip(lead: nat)
    ensures Serial(Zeros(16), Zeros(lead) + [true]) == State(1)
  {
    ZerosKeepZero(lead);
    SerialSnoc(Zeros(16), Zeros(lead), true);
    assert State(1) == Shift(State(0), false);
    assert Shift(Zeros(16), true) == State(1);
  }

  lemma SecondFlip(apart: nat, r: register)
    requires r == State(1)
    ensures Serial(r, Zeros(apart) + [true]) == Shift(State(apart + 1), true)
  {
    StateAfter(r, apart, 1);
    SerialSnoc(r, Zeros(apart), true);
  }

  /** Two flips that go unnoticed bring the register back. */
  lemma MissedMeansReturn(lead: nat, apart: nat, tail: nat)
    requires Serial(Zeros(16), ((Zeros(lead) + [true]) + (Zeros(apart) + [true])) + Zeros(tail)) == Zeros(16)
    ensures State(apart + 1) == State(0)
  {
    var z, first, second := Zeros(16), Zeros(lead) + [true], Zeros(apart) + [true];
    SerialConcat(z, first + second, Zeros(tail));
    ZerosKeepNonzero(Serial(z, first + second), tail);
    SerialConcat(z, first, second);
    FirstFlip(lead);
    SecondFlip(apart, Serial(z, first));
    OnlyLowestClears(State(apart + 1));
  }

  lemma OnlyLowestClears(r: register)
    requires Shift(r, true) == Zeros(16)
    ensures r == State(0)
  {
    var s := Shift(r, true);
    assert !s[15];
    forall i | 1 <= i < 16 ensures !r[i] {
      assert !s[i - 1];
    }
  }

  // ----- the sequence of lowest places -----

  function Low(n: nat): bool {
    State(n)[0]
  }

  /** Neighbouring lowest places added. */
  function G(n: nat): bool {
    Low(n) != Low(n + 1)
  }

  /** Between the taps places move down by one. */
  lemma {:induction false} Slides(n: nat, k: nat)
    requires k <= 12 && k <= n
    ensures G(n) == State(n - k)[1 + k]
  {
    if k == 0 {
    } else {
      Slides(n, k - 1);
    }
  }

  lemma Enters(n: nat)
    ensures State(n + 3)[13] == (Low(n + 2) != Low(n))
  {
    assert State(n + 1)[15] == Low(n);
    assert State(n + 2)[14] == Low(n);
  }

  /** x^15 + x + 1. */
  lemma GRecurs(n: nat)
    ensures G(n + 15) == (G(n + 1) != G(n))
  {
    Enters(n);
    Slides(n + 15, 12);
  }

  // Parameters pinned by a requires, here and in GLaw, keep literals out of recursive functions.
  lemma FirstShifts(r: register, s: register)
    requires r == State(1) && s == State(2)
    ensures r == Taps() && s[13]
  {
    assert State(1) == Shift(State(0), false) && State(2) == Shift(State(1), false);
  }

  lemma GBegins(n: nat)
    requires n <= 14
    ensures G(n) == (n >= 13)
  {
    FirstShifts(State(1), State(2));
    Slides(n, if n == 0 then 0 else if n == 14 then 12 else n - 1);
  }

  // ----- sequences of the second factor -----

  /** x^15 + x + 1 at n, with x^s for x. */
  predicate Law(g: nat -> bool, n: nat, s: nat) {
    g(n + 15 * s) == (g(n + s) != g(n))
  }

  ghost predicate Lawful(g: nat -> bool, s: nat) {
    forall n: nat :: Law(g, n, s)
  }

  /** Squaring in characteristic two. */
  lemma Squares(g: nat -> bool, s: nat, t: nat)
    requires Lawful(g, s) && t == 2 * s
    ensures Lawful(g, t)
  {
    forall n: nat ensures Law(g, n, t) {
      assert Law(g, n, s) && Law(g, n + s, s) && Law(g, n + 15 * s, s);
      assert n + s + 15 * s == n + 15 * s + s;
    }
  }

  ghost predicate LawfulPowers(g: nat -> bool) {
    && Lawful(g, 1) && Lawful(g, 2) && Lawful(g, 4) && Lawful(g, 8) && Lawful(g, 16) && Lawful(g, 32)
    && Lawful(g, 64) && Lawful(g, 128) && Lawful(g, 256) && Lawful(g, 512) && Lawful(g, 1024) && Lawful(g, 2048)
  }

  lemma AllPowers(g: nat -> bool)
    requires Lawful(g, 1)
    ensures LawfulPowers(g)
  {
    Squares(g, 1, 2);
    Squares(g, 2, 4);
    Squares(g, 4, 8);
    Squares(g, 8, 16);
    Squares(g, 16, 32);
    Squares(g, 32, 64);
    Squares(g, 64, 128);
    Squares(g, 128, 256);
    Squares(g, 256, 512);
    Squares(g, 512, 1024);
    Squares(g, 1024, 2048);
  }

  /** x^16 = x^2 + x. */
  lemma Sixteenth(g: nat -> bool, n: nat, s: nat)
    requires Lawful(g, s)
    ensures g(n + 16 * s) == (g(n + 2 * s) != g(n + s))
  {
    assert Law(g, n + s, s);
  }

  /** x^256 = x^4 + x. */
  lemma Power256(g: nat -> bool, n: nat, s: nat)
    requires Lawful(g, s) && Lawful(g, 2 * s) && Lawful(g, 16 * s)
    ensures g(n + 256 * s) == (g(n + 4 * s) != g(n + s))
  {
    Sixteenth(g, n, 16 * s);
    Sixteenth(g, n, 2 * s);
    Sixteenth(g, n, s);
  }

  /** x^32768 = x. */
  lemma FullPeriod(g: nat -> bool, n: nat)
    requires LawfulPowers(g)
    ensures g(n + 32768) == g(n + 1)
  {
    Power256(g, n, 128);
    Sixteenth(g, n, 32);
    Sixteenth(g, n, 8);
    Sixteenth(g, n, 4);
    Sixteenth(g, n, 2);
    Sixteenth(g, n, 1);
  }

  // ----- periods -----

  predicate Same(g: nat -> bool, n: nat, d: nat) {
    g(n + d) == g(n)
  }

  /** From the second place on. */
  ghost predicate Period(g: nat -> bool, d: nat) {
    forall n: nat :: n >= 1 ==> Same(g, n, d)
  }

  lemma PeriodLess(g: nat -> bool, a: nat, b: nat)
    requires Period(g, a) && Period(g, b) && a >= b
    ensures Period(g, a - b)
  {
    var d := a - b;
    forall n: nat | n >= 1 ensures Same(g, n, d) {
      assert Same(g, n, a) && Same(g, n + d, b);
    }
  }

  lemma {:induction false} PeriodTimes(g: nat -> bool, d: nat, k: nat)
    requires Period(g, d)
    ensures Period(g, k * d)
  {
    if k == 0 {
    } else {
      PeriodTimes(g, d, k - 1);
      forall n: nat | n >= 1 ensures Same(g, n, k * d) {
        assert Same(g, n, (k - 1) * d) && Same(g, n + (k - 1) * d, d);
        assert n + (k - 1) * d + d == n + k * d;
      }
    }
  }

  /** Euclid: two periods are multiples of a third. */
  lemma {:induction false} CommonPeriod(g: nat -> bool, a: nat, b: nat) returns (d: nat, x: nat, y: nat)
    requires Period(g, a) && Period(g, b) && a > 0 && b > 0
    ensures Period(g, d) && a == x * d && b == y * d
    decreases a + b
  {
    if a == b {
      d, x, y := a, 1, 1;
    } else if a > b {
      PeriodLess(g, a, b);
      d, x, y := CommonPeriod(g, a - b, b);
      assert x * d + y * d == (x + y) * d;
      x := x + y;
    } else {
      PeriodLess(g, b, a);
      d, x, y := CommonPeriod(g, a, b - a);
      assert x * d + y * d == (x + y) * d;
      y := x + y;
    }
  }

  /** 32767 is 7 times 31 times 151. */
  lemma SmallDivisors(c: nat, d: nat)
    requires c * d == PERIOD && c < 182
    ensures c in {1, 7, 31, 151}
  {
  }

  /** The sequence starts with thirteen zeros and two ones. */
  ghost predicate Impulse(g: nat -> bool) {
    (forall n :: 0 <= n < 13 ==> !g(n)) && g(13) && g(14)
  }

  lemma No217(g: nat -> bool)
    requires LawfulPowers(g) && Impulse(g)
    ensures !Period(g, 217)
  {
    assert Law(g, 12, 1) && Law(g, 5, 1) && Law(g, 4, 16);
    assert !Same(g, 27, 217);
  }

  lemma No1057(g: nat -> bool)
    requires LawfulPowers(g) && Impulse(g)
    ensures !Period(g, 1057)
  {
    assert Law(g, 9, 1) && Law(g, 2, 1) && Law(g, 5, 4) && Law(g, 13, 4);
    assert Law(g, 1, 8) && Law(g, 65, 8) && Law(g, 121, 64);
    assert !Same(g, 24, 1057);
  }

  lemma No4681(g: nat -> bool)
    requires LawfulPowers(g) && Impulse(g)
    ensures !Period(g, 4681)
  {
    assert Law(g, 2, 1) && Law(g, 6, 1) && Law(g, 10, 1) && Law(g, 3, 2) && Law(g, 7, 2) && Law(g, 11, 2);
    assert Law(g, 5, 4) && Law(g, 21, 4) && Law(g, 37, 4) && Law(g, 0, 8) && Law(g, 17, 16) && Law(g, 81, 16);
    assert Law(g, 1, 64) && Law(g, 257, 64) && Law(g, 961, 256);
    assert !Same(g, 120, 4681);
  }

  /** A proper divisor of 32767 divides 217, 1057 or 4681. */
  lemma NoDivisor(g: nat -> bool, d: nat, y: nat)
    requires LawfulPowers(g) && Impulse(g) && y * d == PERIOD && d < PERIOD
    ensures !Period(g, d)
  {
    No217(g);
    No1057(g);
    No4681(g);
    if Period(g, d) {
      if d < 182 {
        SmallDivisors(d, y);
        PeriodTimes(g, d, if d == 151 then 31 else if d == 1 then 4681 else if d == 7 then 151 else 151);
      } else {
        assert y < 182;
        SmallDivisors(y, d);
      }
    }
  }

  /** Nothing below 32767 is a period. */
  lemma NoPeriod(g: nat -> bool, m: nat)
    requires LawfulPowers(g) && Impulse(g) && 0 < m < PERIOD
    ensures !Period(g, m)
  {
    if Period(g, m) {
      forall n: nat | n >= 1 ensures Same(g, n, PERIOD) {
        FullPeriod(g, n - 1);
      }
      var d, x, y := CommonPeriod(g, m, PERIOD);
      assert x > 0 && d <= m;
      NoDivisor(g, d, y);
    }
  }

  // ----- two flips -----

  lemma GLaw(n: nat, s: nat)
    requires s == 1
    ensures Law(G, n, s)
  {
    GRecurs(n);
  }

  lemma GIsLawful()
    ensures LawfulPowers(G)
  {
    forall n: nat ensures Law(G, n, 1) {
      GLaw(n, 1);
    }
    AllPowers(G);
  }

  lemma GIsImpulse()
    ensures Impulse(G)
  {
    forall n: nat | n <= 14 ensures G(n) == (n >= 13) {
      GBegins(n);
    }
  }

  lemma Returned(m: nat, n: nat, start: nat)
    requires State(m) == State(start) && start == 0
    ensures State(n + m) == State(n)
  {
    StateAfter(State(m), n, m);
    StateAfter(State(m), n, start);
    assert m + n == n + m && start + n == n;
  }

  lemma SameAfterReturn(m: nat, n: nat)
    requires State(m) == State(0)
    ensures Same(G, n, m)
  {
    Returned(m, n, 0);
    Slides(n, 0);
    Slides(n + m, 0);
  }

  /** The register first comes back after 32767 shifts or later. */
  lemma NoEarlyReturn(m: nat)
    requires 0 < m < PERIOD
    ensures State(m) != State(0)
  {
    if State(m) == State(0) {
      forall n: nat | n >= 1 ensures Same(G, n, m) {
        SameAfterReturn(m, n);
      }
      GIsLawful();
      GIsImpulse();
      NoPeriod(G, m);
    }
  }

  /** Two flipped bits are always noticed in messages of at most 4095 bytes. */
  lemma TwoFlipsDetected(p: seq<byte>, q: seq<byte>)
    requires |p| == |q| <= 4095 && Crc16(p) == 0 && Crc16(q) == 0
    ensures Ones(Flips(p, q)) != 2
  {
    FlipsFeedZero(p, q);
    if Ones(Flips(p, q)) == 2 {
      var lead, apart, tail := TwoOnes(Flips(p, q));
      MissedMeansReturn(lead, apart, tail);
      NoEarlyReturn(apart + 1);
    }
  }

  lemma NoChangeNoFlips(p: seq<byte>)
    ensures Ones(Flips(p, p)) == 0
  {
    OnesOfZeros(8 * |p|);
    assert Flips(p, p) == Zeros(8 * |p|);
  }

  /** So are one, two or three: different messages of one length that both pass differ in at least four bits. */
  lemma FewFlipsDetected(p: seq<byte>, q: seq<byte>)
    requires |p| == |q| <= 4095 && Crc16(p) == 0 && Crc16(q) == 0
    ensures p == q || Ones(Flips(p, q)) >= 4
  {
    TwoFlipsDetected(p, q);
    OddFlipsDetected(p, q);
    if Ones(Flips(p, q)) == 0 {
      NoOnes(Flips(p, q));
      NoFlips(p, q);
    }
  }
}
