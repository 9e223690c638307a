/** How few flipped bits the CRC can miss: any two go unnoticed exactly when they are a multiple of 32767 bits apart,
    so that in a frame of the protocol one, two or three flipped bits never do. */
module CrcDistance {
  import opened Crc
  import opened CrcDetection

  // ---------------------------------------------------------------- powers of x

  /** What n steps make of the register's highest bit: x to the n, modulo the generator. */
  function Power(n: nat): bv16 { ShiftN(n, 0x8000) }

  lemma {:induction false} ShiftNAdd(m: nat, n: nat, c: bv16)
    ensures ShiftN(m + n, c) == ShiftN(n, ShiftN(m, c))
    decreases m
  {
    hide Shift;
    if m > 0 { ShiftNAdd(m - 1, n, Shift(c)); }
  }

  lemma {:induction false} ShiftNLinear(n: nat, a: bv16, b: bv16)
    ensures ShiftN(n, Xor(a, b)) == Xor(ShiftN(n, a), ShiftN(n, b))
  {
    hide Shift, Xor;
    if n > 0 {
      ShiftLinear(a, b);
      ShiftNLinear(n - 1, Shift(a), Shift(b));
    }
  }

  lemma PowerAdd(m: nat, n: nat)
    ensures Power(m + n) == ShiftN(n, Power(m))
  {
    ShiftNAdd(m, n, 0x8000);
  }

  lemma LowPowers()
    ensures Power(0) == 0x8000 && Power(1) == 0x4000 && Power(2) == 0x2000 && Power(3) == 0x1000
    ensures Power(4) == 0x0800 && Power(5) == 0x0400 && Power(6) == 0x0200 && Power(7) == 0x0100
  {
    OneMore(0); OneMore(1); OneMore(2); OneMore(3); OneMore(4); OneMore(5); OneMore(6);
    hide ShiftN;
  }

  lemma HighPowers()
    ensures Power(8) == 0x0080 && Power(9) == 0x0040 && Power(10) == 0x0020 && Power(11) == 0x0010
    ensures Power(12) == 0x0008 && Power(13) == 0x0004 && Power(14) == 0x0002 && Power(15) == 0x0001
    ensures Power(16) == POLY
  {
    LowPowers();
    OneMore(7); OneMore(8); OneMore(9); OneMore(10); OneMore(11); OneMore(12); OneMore(13); OneMore(14); OneMore(15);
    hide Power;
  }

  lemma OneMore(n: nat)
    ensures Power(n + 1) == Shift(Power(n))
  {
    hide Shift;
    PowerAdd(n, 1);
    assert ShiftN(1, Power(n)) == ShiftN(0, Shift(Power(n)));
  }

  /** The generator, x^16 + x^15 + x^2 + 1, is zero. */
  lemma PowerRecurrence(n: nat)
    ensures Power(n + 16) == Xor(Xor(Power(n + 15), Power(n + 2)), Power(n))
  {
    hide Xor, Power;
    GeneratorIsZero();
    PowerAdd(16, n);
    PowerAdd(15, n);
    PowerAdd(2, n);
    PowerAdd(0, n);
    ShiftNLinear(n, Xor(Power(15), Power(2)), Power(0));
    ShiftNLinear(n, Power(15), Power(2));
  }

  lemma GeneratorIsZero()
    ensures Power(16) == Xor(Xor(Power(15), Power(2)), Power(0))
  {
    LowPowers();
    HighPowers();
    hide Power;
  }

  // ---------------------------------------------------------------- modulo x^15 + x + 1

  /** x^n times x + 1, which leaves x^15 + x + 1 of the generator. */
  function Pulse(n: nat): bv16 { Xor(Power(n + 1), Power(n)) }

  lemma PulseRecurrence(n: nat)
    ensures Pulse(n + 15) == Xor(Pulse(n + 1), Pulse(n))
  {
    hide Power, Xor;
    PowerRecurrence(n);
    assert Power(n + 15 + 1) == Power(n + 16) && Power(n + 1 + 1) == Power(n + 2);
    Collapse(Power(n + 15), Power(n + 2), Power(n + 1), Power(n));
  }

  lemma Collapse(d: bv16, c: bv16, b: bv16, a: bv16)
    ensures Xor(Xor(Xor(d, c), a), d) == Xor(Xor(c, b), Xor(b, a))
  {}

  lemma PulseSixteen(n: nat)
    ensures Pulse(n + 16) == Xor(Pulse(n + 2), Pulse(n + 1))
  {
    PulseRecurrence(n + 1);
    hide Pulse;
    assert n + 1 + 15 == n + 16 && n + 1 + 1 == n + 2;
  }

  function Pow2(k: nat): (p: nat)
    ensures p >= 1
  {
    if k == 0 then 1 else 2 * Pow2(k - 1)
  }

  /** A sum of x, x^2, x^4 and x^8. */
  datatype Sum = Sum(one: bool, two: bool, four: bool, eight: bool)

  function If(c: bool, x: bv16): bv16 { if c then x else 0 }

  function Mix(c: Sum, x1: bv16, x2: bv16, x4: bv16, x8: bv16): bv16 {
    Xor(Xor(If(c.one, x1), If(c.two, x2)), Xor(If(c.four, x4), If(c.eight, x8)))
  }

  function SumAt(c: Sum, n: nat): bv16 { Mix(c, Pulse(n + 1), Pulse(n + 2), Pulse(n + 4), Pulse(n + 8)) }

  /** Squaring doubles the exponents of a sum, and x^16 is x^2 + x. */
  function Squared(c: Sum): Sum { Sum(c.eight, c.one != c.eight, c.two, c.four) }

  /** x to the power 2^k as such a sum. */
  function PowerOfTwo(k: nat): Sum {
    if k == 0 then Sum(true, false, false, false) else Squared(PowerOfTwo(k - 1))
  }

  lemma XorTwice(a: bv16, b: bv16, m: bv16)
    ensures Xor(Xor(a, m), Xor(b, m)) == Xor(a, b)
  {
    hide Xor;
    XorExchange(a, m, b, m);
    XorEqual(m, m);
    XorUnit(Xor(a, b));
  }

  lemma FirstRows(a2: bv16, b4: bv16, p: bv16, q: bv16, r: bv16, s: bv16, t: bv16)
    ensures Xor(Xor(Xor(a2, p), Xor(q, r)), Xor(Xor(p, b4), Xor(s, t)))
         == Xor(Xor(a2, b4), Xor(Xor(q, r), Xor(s, t)))
  {
    hide Xor;
    XorExchange(Xor(a2, p), Xor(q, r), Xor(p, b4), Xor(s, t));
    XorCommutes(p, b4);
    XorTwice(a2, b4, p);
  }

  lemma LastRows(c8: bv16, d16: bv16, q: bv16, r: bv16, s: bv16, t: bv16, u: bv16)
    ensures Xor(Xor(Xor(q, s), Xor(c8, u)), Xor(Xor(r, t), Xor(u, d16)))
         == Xor(Xor(c8, d16), Xor(Xor(q, s), Xor(r, t)))
  {
    hide Xor;
    XorExchange(Xor(q, s), Xor(c8, u), Xor(r, t), Xor(u, d16));
    XorCommutes(u, d16);
    XorTwice(c8, d16, u);
    XorCommutes(Xor(Xor(q, s), Xor(r, t)), Xor(c8, d16));
  }

  /** In the square of a sum every mixed term comes twice. */
  lemma MixedTermsCancel(a2: bv16, b4: bv16, c8: bv16, d16: bv16,
                         p: bv16, q: bv16, r: bv16, s: bv16, t: bv16, u: bv16)
    ensures Xor(Xor(Xor(Xor(a2, p), Xor(q, r)), Xor(Xor(p, b4), Xor(s, t))),
                Xor(Xor(Xor(q, s), Xor(c8, u)), Xor(Xor(r, t), Xor(u, d16))))
         == Xor(Xor(a2, b4), Xor(c8, d16))
  {
    hide Xor;
    FirstRows(a2, b4, p, q, r, s, t);
    LastRows(c8, d16, q, r, s, t, u);
    XorExchange(q, r, s, t);
    XorTwice(Xor(a2, b4), Xor(c8, d16), Xor(Xor(q, r), Xor(s, t)));
  }

  lemma Row(k: bool, c: Sum, x1: bv16, x2: bv16, x4: bv16, x8: bv16)
    ensures If(k, Mix(c, x1, x2, x4, x8))
         == Xor(Xor(If(k && c.one, x1), If(k && c.two, x2)), Xor(If(k && c.four, x4), If(k && c.eight, x8)))
  {}

  lemma Sixteen(c: Sum, x1: bv16, x2: bv16, x4: bv16, x8: bv16)
    ensures Xor(Xor(If(c.one, x2), If(c.two, x4)), Xor(If(c.four, x8), If(c.eight, Xor(x2, x1))))
         == Mix(Squared(c), x1, x2, x4, x8)
  {
    hide Xor, If;
    IfXor(c.eight, x2, x1);
    IfDiffer(c.one, c.eight, x2);
    Regroup(If(c.one, x2), If(c.two, x4), If(c.four, x8), If(c.eight, x2), If(c.eight, x1));
  }

  lemma Regroup(a: bv16, b: bv16, d: bv16, e: bv16, f: bv16)
    ensures Xor(Xor(a, b), Xor(d, Xor(e, f))) == Xor(Xor(f, Xor(a, e)), Xor(b, d))
  {
    hide Xor;
    XorCommutes(d, Xor(e, f));
    XorExchange(a, b, Xor(e, f), d);
    XorAssociates(a, e, f);
    XorCommutes(f, Xor(a, e));
  }

  lemma IfXor(k: bool, a: bv16, b: bv16)
    ensures If(k, Xor(a, b)) == Xor(If(k, a), If(k, b))
  {}

  lemma IfDiffer(k: bool, l: bool, a: bv16)
    ensures If(k != l, a) == Xor(If(k, a), If(l, a))
  {
    hide Xor;
    XorUnit(a);
    XorUnit(0);
  }

  lemma MixSquared(c: Sum, x1: bv16, x2: bv16, x3: bv16, x4: bv16, x5: bv16, x6: bv16, x8: bv16, x9: bv16,
                   x10: bv16, x12: bv16)
    ensures Mix(c, Mix(c, x2, x3, x5, x9), Mix(c, x3, x4, x6, x10), Mix(c, x5, x6, x8, x12),
                Mix(c, x9, x10, x12, Xor(x2, x1)))
         == Mix(Squared(c), x1, x2, x4, x8)
  {
    hide Xor, If, Squared;
    Row(c.one, c, x2, x3, x5, x9);
    Row(c.two, c, x3, x4, x6, x10);
    Row(c.four, c, x5, x6, x8, x12);
    Row(c.eight, c, x9, x10, x12, Xor(x2, x1));
    MixedTermsCancel(If(c.one, x2), If(c.two, x4), If(c.four, x8), If(c.eight, Xor(x2, x1)),
                     If(c.one && c.two, x3), If(c.one && c.four, x5), If(c.one && c.eight, x9),
                     If(c.two && c.four, x6), If(c.two && c.eight, x10), If(c.four && c.eight, x12));
    Sixteen(c, x1, x2, x4, x8);
  }

  /** Repeated squaring: moving on by 2^k steps is the sum that x to the power 2^k is. */
  lemma {:induction false} PulsePowerOfTwo(k: nat, n: nat)
    ensures Pulse(n + Pow2(k)) == SumAt(PowerOfTwo(k), n)
    decreases k
  {
    hide Pulse, Mix, Xor, Squared;
    if k == 0 {
      SomeMixes(Pulse(n + 1), Pulse(n + 2), Pulse(n + 4), Pulse(n + 8));
    } else {
      var a := Pow2(k - 1);
      var c := PowerOfTwo(k - 1);
      PulsePowerOfTwo(k - 1, n + a);
      PulsePowerOfTwo(k - 1, n + 1);
      PulsePowerOfTwo(k - 1, n + 2);
      PulsePowerOfTwo(k - 1, n + 4);
      PulsePowerOfTwo(k - 1, n + 8);
      PulseSixteen(n);
      MixSquared(c, Pulse(n + 1), Pulse(n + 2), Pulse(n + 3), Pulse(n + 4), Pulse(n + 5), Pulse(n + 6), Pulse(n + 8),
                 Pulse(n + 9), Pulse(n + 10), Pulse(n + 12));
      assert n + a + a == n + Pow2(k);
    }
  }

  lemma Sums()
    ensures PowerOfTwo(5) == Sum(false, true, true, false) && PowerOfTwo(6) == Sum(false, false, true, true)
    ensures PowerOfTwo(8) == Sum(true, false, true, false) && PowerOfTwo(9) == Sum(false, true, false, true)
    ensures PowerOfTwo(10) == Sum(true, true, true, false) && PowerOfTwo(12) == Sum(true, true, true, true)
    ensures PowerOfTwo(15) == Sum(true, false, false, false)
  {
    assert PowerOfTwo(3) == Sum(false, false, false, true);
    assert PowerOfTwo(6) == Sum(false, false, true, true);
    assert PowerOfTwo(9) == Sum(false, true, false, true);
    assert PowerOfTwo(12) == Sum(true, true, true, true);
  }

  lemma TwoPowers()
    ensures Pow2(5) == 32 && Pow2(6) == 64 && Pow2(8) == 256 && Pow2(9) == 512
    ensures Pow2(10) == 1024 && Pow2(12) == 4096 && Pow2(15) == 32768
  {
    assert Pow2(3) == 8;
    assert Pow2(6) == 64;
    assert Pow2(9) == 512;
    assert Pow2(12) == 4096;
  }

  /** The steps taken at once that the period needs. */
  lemma Strides(n: nat)
    ensures Pulse(n + 32) == Xor(Pulse(n + 2), Pulse(n + 4))
    ensures Pulse(n + 64) == Xor(Pulse(n + 4), Pulse(n + 8))
    ensures Pulse(n + 256) == Xor(Pulse(n + 1), Pulse(n + 4))
    ensures Pulse(n + 512) == Xor(Pulse(n + 2), Pulse(n + 8))
    ensures Pulse(n + 1024) == Xor(Xor(Pulse(n + 1), Pulse(n + 2)), Pulse(n + 4))
    ensures Pulse(n + 4096) == Xor(Xor(Pulse(n + 1), Pulse(n + 2)), Xor(Pulse(n + 4), Pulse(n + 8)))
    ensures Pulse(n + 32768) == Pulse(n + 1)
  {
    hide Pulse, Xor, Mix;
    Sums();
    TwoPowers();
    PulsePowerOfTwo(5, n);
    PulsePowerOfTwo(6, n);
    PulsePowerOfTwo(8, n);
    PulsePowerOfTwo(9, n);
    PulsePowerOfTwo(10, n);
    PulsePowerOfTwo(12, n);
    PulsePowerOfTwo(15, n);
    hide PowerOfTwo, Pow2;
    SomeMixes(Pulse(n + 1), Pulse(n + 2), Pulse(n + 4), Pulse(n + 8));
  }

  lemma SomeMixes(x1: bv16, x2: bv16, x4: bv16, x8: bv16)
    ensures Mix(Sum(true, false, false, false), x1, x2, x4, x8) == x1
    ensures Mix(Sum(false, true, true, false), x1, x2, x4, x8) == Xor(x2, x4)
    ensures Mix(Sum(false, false, true, true), x1, x2, x4, x8) == Xor(x4, x8)
    ensures Mix(Sum(true, false, true, false), x1, x2, x4, x8) == Xor(x1, x4)
    ensures Mix(Sum(false, true, false, true), x1, x2, x4, x8) == Xor(x2, x8)
    ensures Mix(Sum(true, true, true, false), x1, x2, x4, x8) == Xor(Xor(x1, x2), x4)
    ensures Mix(Sum(true, true, true, true), x1, x2, x4, x8) == Xor(Xor(x1, x2), Xor(x4, x8))
  {
    hide Xor;
    XorUnit(x1);
    XorUnit(x2);
    XorUnit(x4);
    XorUnit(x8);
    XorUnit(0);
    XorUnit(Xor(x4, x8));
    XorCommutes(0, x2);
  }

  // ---------------------------------------------------------------- the period

  function PulseAt(n: nat, d: nat): bv16 { Pulse(n + 1 + d) }

  ghost predicate Period(d: nat) { forall n: nat :: PulseAt(n, d) == PulseAt(n, 0) }

  lemma FullPeriod()
    ensures Period(32767)
  {
    hide Pulse;
    forall n: nat ensures PulseAt(n, 32767) == PulseAt(n, 0) {
      Strides(n);
      assert n + 1 + 32767 == n + 32768;
    }
  }

  lemma PeriodSum(a: nat, b: nat)
    requires Period(a) && Period(b)
    ensures Period(a + b)
  {
    hide Pulse;
    forall n: nat ensures PulseAt(n, a + b) == PulseAt(n, 0) {
      assert PulseAt(n, a + b) == PulseAt(n + a, b) == PulseAt(n + a, 0) == PulseAt(n, a);
    }
  }

  lemma PeriodDifference(a: nat, b: nat)
    requires Period(a + b) && Period(b)
    ensures Period(a)
  {
    hide Pulse;
    forall n: nat ensures PulseAt(n, a) == PulseAt(n, 0) {
      assert PulseAt(n, a) == PulseAt(n + a, 0) == PulseAt(n + a, b) == PulseAt(n, a + b);
    }
  }

  lemma {:induction false} PeriodTimes(a: nat, k: nat)
    requires Period(a)
    ensures Period(k * a)
    decreases k
  {
    hide Pulse, Period;
    if k == 0 {
      NoSteps();
    } else {
      PeriodTimes(a, k - 1);
      PeriodSum((k - 1) * a, a);
      assert (k - 1) * a + a == k * a;
    }
  }

  lemma NoSteps()
    ensures Period(0)
  {}

  lemma PeriodCombination(a: nat, s: int, b: nat, t: int, g: nat)
    requires Period(a) && Period(b) && a * s + b * t == g
    ensures Period(g)
  {
    hide Pulse, Period;
    if s >= 0 && t >= 0 {
      PeriodTimes(a, s);
      PeriodTimes(b, t);
      PeriodSum(s * a, t * b);
    } else if s >= 0 {
      PeriodTimes(a, s);
      PeriodTimes(b, -t);
      assert g + (-t) * b == s * a;
      PeriodDifference(g, (-t) * b);
    } else if t >= 0 {
      PeriodTimes(a, -s);
      PeriodTimes(b, t);
      assert g + (-s) * a == t * b;
      PeriodDifference(g, (-s) * a);
    } else {
      assert a * s <= 0 && b * t <= 0;
      NoSteps();
    }
  }

  lemma LowPulses()
    ensures Pulse(0) == 0xC000 && Pulse(1) == 0x6000 && Pulse(2) == 0x3000 && Pulse(3) == 0x1800
    ensures Pulse(4) == 0x0C00 && Pulse(5) == 0x0600 && Pulse(6) == 0x0300 && Pulse(7) == 0x0180
    ensures Pulse(8) == 0x00C0 && Pulse(9) == 0x0060 && Pulse(10) == 0x0030 && Pulse(11) == 0x0018
    ensures Pulse(12) == 0x000C && Pulse(13) == 0x0006 && Pulse(14) == 0x0003
  {
    LowPowers();
    HighPowers();
    hide Power;
  }

  lemma OnePeriodOn(d: nat, n: nat)
    requires n >= 1
    ensures Period(d) ==> Pulse(n + d) == Pulse(n)
  {
    hide Pulse;
    assert PulseAt(n - 1, 0) == Pulse(n) && PulseAt(n - 1, d) == Pulse(n + d);
  }

  /** With the period 217, x^256 = x^4 + x would be x^39 = x^11 + x^9. */
  lemma Not217()
    ensures !Period(217)
  {
    hide Pulse, Period, Xor;
    LowPulses();
    Strides(1);
    Strides(8);
    assert Xor(0x3000, 0x0600) != Xor(0x0030, 0x000C) by { Values217(); }
    OnePeriodOn(217, 40);
  }

  lemma Values217()
    ensures Xor(0x3000, 0x0600) != Xor(0x0030, 0x000C)
  {}

  lemma Not1057()
    ensures !Period(1057)
  {
    hide Pulse, Period, Xor;
    LowPulses();
    Strides(3);
    Strides(4);
    Strides(6);
    Strides(34);
    Values1057();
    OnePeriodOn(1057, 1);
  }

  lemma Values1057()
    ensures Xor(Xor(Xor(0x0600, 0x0180), Xor(0x0300, 0x00C0)), Xor(0x00C0, 0x0030)) != 0x6000
  {}

  lemma MiddlePulses()
    ensures Pulse(17) == 0x2800 && Pulse(18) == 0x1400 && Pulse(20) == 0x0500 && Pulse(21) == 0x0280
    ensures Pulse(22) == 0x0140 && Pulse(23) == 0x00A0 && Pulse(24) == 0x0050 && Pulse(26) == 0x0014
    ensures Pulse(27) == 0x000A && Pulse(28) == 0x0005 && Pulse(30) == 0xF000 && Pulse(34) == 0x0F00
  {
    hide Pulse, Xor;
    LowPulses();
    MiddleValues();
    PulseRecurrence(0);
    PulseRecurrence(1);
    PulseRecurrence(2);
    PulseRecurrence(3);
    PulseRecurrence(4);
    PulseRecurrence(5);
    PulseRecurrence(6);
    PulseRecurrence(7);
    PulseRecurrence(8);
    PulseRecurrence(9);
    PulseRecurrence(11);
    PulseRecurrence(12);
    PulseRecurrence(13);
    PulseRecurrence(15);
    PulseRecurrence(19);
  }

  lemma MiddleValues()
    ensures Xor(0x6000, 0xC000) == 0xA000 && Xor(0x3000, 0x6000) == 0x5000 && Xor(0x1800, 0x3000) == 0x2800
    ensures Xor(0x0C00, 0x1800) == 0x1400 && Xor(0x0600, 0x0C00) == 0x0A00 && Xor(0x0300, 0x0600) == 0x0500
    ensures Xor(0x0180, 0x0300) == 0x0280 && Xor(0x00C0, 0x0180) == 0x0140 && Xor(0x0060, 0x00C0) == 0x00A0
    ensures Xor(0x0030, 0x0060) == 0x0050 && Xor(0x000C, 0x0018) == 0x0014 && Xor(0x0006, 0x000C) == 0x000A
    ensures Xor(0x0003, 0x0006) == 0x0005 && Xor(0x5000, 0xA000) == 0xF000 && Xor(0x0500, 0x0A00) == 0x0F00
  {}

  lemma Not4681()
    ensures !Period(4681)
  {
    hide Pulse, Period, Xor;
    LowPulses();
    MiddlePulses();
    Strides(13);
    Strides(19);
    Strides(14);
    Strides(20);
    Strides(16);
    Strides(22);
    Strides(26);
    Values64();
    Strides(75);
    Strides(76);
    Strides(78);
    Strides(82);
    Values512();
    Strides(586);
    Values4096();
    OnePeriodOn(4681, 1);
  }

  lemma Values64()
    ensures Xor(0x2800, 0x0280) == 0x2A80 && Xor(0x00A0, 0x000A) == 0x00AA && Xor(0x1400, 0x0140) == 0x1540
    ensures Xor(0x0050, 0x0005) == 0x0055 && Xor(0x0500, 0x0050) == 0x0550 && Xor(0x0014, 0xF000) == 0xF014
    ensures Xor(0xF000, 0x0F00) == 0xFF00
  {}

  lemma Values512()
    ensures Xor(0x2A80, 0x00AA) == 0x2A2A && Xor(0x1540, 0x0055) == 0x1515
    ensures Xor(0x0550, 0xF014) == 0xF544 && Xor(0x0055, 0xFF00) == 0xFF55
  {}

  lemma Values4096()
    ensures Xor(Xor(0x2A2A, 0x1515), Xor(0xF544, 0xFF55)) != 0x6000
  {}

  // ---------------------------------------------------------------- no shorter period: 32767 is 7 * 31 * 151

  /** The greatest common divisor, as a combination and as a factor of both. */
  lemma {:induction false} Bezout(a: nat, b: nat) returns (g: nat, s: int, t: int, u: nat, v: nat)
    requires a > 0 || b > 0
    ensures g > 0 && a * s + b * t == g && a == g * u && b == g * v
    decreases b
  {
    if b == 0 {
      g, s, t, u, v := a, 1, 0, 1, 0;
    } else {
      var q, r := a / b, a % b;
      var s', t', u', v';
      g, s', t', u', v' := Bezout(b, r);
      s, t, u, v := t', s' - q * t', q * u' + v', u';
      BezoutStep(a, b, q, r, g, s', t', u', v');
    }
  }

  lemma BezoutStep(a: nat, b: nat, q: nat, r: nat, g: nat, s: int, t: int, u: nat, v: nat)
    requires a == q * b + r && b * s + r * t == g && b == g * u && r == g * v
    ensures a * t + b * (s - q * t) == g && a == g * (q * u + v)
  {
    assert a * t == q * b * t + r * t;
    assert b * (s - q * t) == b * s - q * b * t;
    assert g * (q * u + v) == q * (g * u) + g * v;
  }

  lemma SmallDivisors(g: nat, v: nat)
    requires g * v == 151 || g * v == 31 || g * v == 7
    ensures g == 1 || v == 1
  {
    BothLarge(g, v);
    assert g == 0 ==> g * v == 0;
    assert v == 0 ==> g * v == 0;
  }

  lemma BothLarge(g: nat, v: nat)
    ensures g >= 13 && v >= 13 ==> g * v >= 169
  {
    assert g * v == 169 + 13 * (v - 13) + 13 * (g - 13) + (g - 13) * (v - 13);
  }

  /** From any shorter period one of the three largest divisors of 32767 would be one. */
  lemma DivisorPeriod(d: nat)
    requires Period(d) && 0 < d < 32767
    ensures Period(217) || Period(1057) || Period(4681)
  {
    hide Period, Pulse;
    FullPeriod();
    var g, s, t, u, v := Bezout(d, 151);
    SmallDivisors(g, v);
    if g == 1 {
      assert d * (217 * s) + 32767 * t == 217 * (d * s + 151 * t);
      PeriodCombination(d, 217 * s, 32767, t, 217);
    } else {
      var h := u;
      g, s, t, u, v := Bezout(h, 31);
      SmallDivisors(g, v);
      if g == 1 {
        assert d * (7 * s) + 32767 * t == 1057 * (h * s + 31 * t);
        PeriodCombination(d, 7 * s, 32767, t, 1057);
      } else {
        var k := u;
        g, s, t, u, v := Bezout(k, 7);
        SmallDivisors(g, v);
        assert d * s + 32767 * t == 4681 * (k * s + 7 * t);
        PeriodCombination(d, s, 32767, t, 4681);
      }
    }
  }

  /** The periods are the multiples of 32767. */
  lemma PeriodIff(d: nat)
    ensures Period(d) <==> d % 32767 == 0
  {
    hide Period, Pulse;
    var q, r := d / 32767, d % 32767;
    FullPeriod();
    PeriodTimes(32767, q);
    assert d == r + q * 32767;
    if Period(d) {
      PeriodDifference(r, q * 32767);
      if r > 0 {
        DivisorPeriod(r);
        Not217();
        Not1057();
        Not4681();
      }
    }
  }

  // ---------------------------------------------------------------- when the register returns

  lemma {:induction false} StepsKeepParity(n: nat, c: bv16)
    ensures Ones(ShiftN(n, c)) % 2 == Ones(c) % 2
  {
    hide Shift, Ones;
    if n > 0 {
      ShiftParity(c);
      StepsKeepParity(n - 1, Shift(c));
    }
  }

  lemma SameParity(m: nat, n: nat)
    ensures Ones(Power(m)) % 2 == Ones(Power(n)) % 2
  {
    hide Ones, ShiftN;
    StepsKeepParity(m, 0x8000);
    StepsKeepParity(n, 0x8000);
  }

  /** Only x^15 + x + 1 is left alone by a step, and it has three ones. */
  lemma FixedPoint(c: bv16)
    requires Shift(c) == c && Ones(c) % 2 == 0
    ensures c == 0
  {
    hide Ones;
    FixedPoints(c);
    OnesOfFixedPoint();
  }

  lemma FixedPoints(c: bv16)
    requires Shift(c) == c
    ensures c == 0 || c == 0xC001
  {}

  lemma OnesOfFixedPoint()
    ensures Ones(0xC001) % 2 == 1
  {
    hide Ones, Xor, Shift, Power;
    LowPowers();
    HighPowers();
    SameParity(0, 15);
    SameParity(1, 15);
    OnesOfUnit(true);
    OnesOfXor(0x8000, 0x4000);
    OnesOfXor(0xC000, 0x0001);
    ThreeOnes();
  }

  lemma ThreeOnes()
    ensures Xor(0x8000, 0x4000) == 0xC000 && Xor(0xC000, 0x0001) == 0xC001 && Unit(true) == 0x0001
  {}

  lemma XorCross(a: bv16, b: bv16, c: bv16, d: bv16)
    requires Xor(a, b) == Xor(c, d)
    ensures Xor(a, c) == Xor(b, d)
  {
    hide Xor;
    XorEqual(Xor(a, b), Xor(c, d));
    XorExchange(a, b, c, d);
    XorEqual(Xor(a, c), Xor(b, d));
  }

  lemma PeriodReturns(d: nat)
    requires Period(d)
    ensures Power(1 + d) == Power(1)
  {
    hide Power, Shift, Period, Ones, Xor;
    var c := Xor(Power(1 + d), Power(1));
    OnePeriodOn(d, 1);
    assert Xor(Power(1 + d + 1), Power(1 + d)) == Xor(Power(2), Power(1));
    XorCross(Power(1 + d + 1), Power(1 + d), Power(2), Power(1));
    OneMore(1 + d);
    OneMore(1);
    ShiftLinear(Power(1 + d), Power(1));
    SameParity(1 + d, 1);
    OnesOfXor(Power(1 + d), Power(1));
    FixedPoint(c);
    XorEqual(Power(1 + d), Power(1));
  }

  lemma ReturnsPeriod(d: nat)
    requires Power(d) == Power(0)
    ensures Period(d)
  {
    hide Power, Xor;
    forall n: nat ensures PulseAt(n, d) == PulseAt(n, 0) {
      PowerAdd(d, n + 1);
      PowerAdd(0, n + 1);
      PowerAdd(d, n + 2);
      PowerAdd(0, n + 2);
      assert d + (n + 1) == n + 1 + d && d + (n + 2) == n + 1 + d + 1;
    }
  }

  /** A single one is back after exactly the multiples of 32767 steps. */
  lemma OneReturnsIff(d: nat)
    ensures ShiftN(d, 1) == 1 <==> d % 32767 == 0
  {
    hide Power, Period, ShiftN;
    HighPowers();
    PowerAdd(15, d);
    PeriodIff(d);
    if ShiftN(d, 1) == 1 {
      PowerAdd(d, 15);
      PowerAdd(0, 15);
      ShiftNInjective(15, Power(d), Power(0));
      ReturnsPeriod(d);
    }
    if Period(d) {
      PeriodReturns(d);
      PowerAdd(1 + d, 14);
      PowerAdd(1, 14);
      assert 1 + d + 14 == 15 + d;
    }
  }

  // ---------------------------------------------------------------- two flipped bits

  lemma {:induction false} ZerosShift(c: bv16, n: nat)
    ensures RunBits(c, Zeros(n)) == ShiftN(n, c)
    decreases n
  {
    hide Shift, Xor;
    if n > 0 {
      assert Zeros(n)[1..] == Zeros(n - 1);
      XorUnit(c);
      ZerosShift(Shift(c), n - 1);
    }
  }

  lemma OneBit(c: bv16)
    ensures RunBits(c, [true]) == Shift(Xor(c, 1))
  {
    assert [true][1..] == [];
    assert RunBits(FeedBit(c, true), []) == FeedBit(c, true);
  }

  /** The pattern has exactly two ones, at i and j. */
  ghost predicate TwoOnes(w: Bits, i: nat, j: nat) {
    i < j < |w| && forall k :: 0 <= k < |w| ==> (w[k] <==> k == i || k == j)
  }

  lemma TwoOnesResidue(w: Bits, i: nat, j: nat)
    requires TwoOnes(w, i, j)
    ensures RunBits(0, w) == 0 <==> ShiftN(j - i, 1) == 1
  {
    hide RunBits, Shift, ShiftN, Xor;
    var first, gap, last := Zeros(i), Zeros(j - i - 1), Zeros(|w| - j - 1);
    assert w == first + ([true] + (gap + ([true] + last)));
    RunBitsConcat(0, first, [true] + (gap + ([true] + last)));
    RunZeros(0, i);
    RunBitsConcat(0, [true], gap + ([true] + last));
    OneBit(0);
    XorUnit(1);
    RunBitsConcat(Shift(1), gap, [true] + last);
    ZerosShift(Shift(1), j - i - 1);
    StepFirst(j - i);
    var y := ShiftN(j - i, 1);
    RunBitsConcat(y, [true], last);
    OneBit(y);
    RunZeros(Shift(Xor(y, 1)), |w| - j - 1);
    ShiftedToZero(Xor(y, 1));
    XorEqual(y, 1);
  }

  lemma StepFirst(n: nat)
    requires n > 0
    ensures ShiftN(n, 1) == ShiftN(n - 1, Shift(1))
  {}

  lemma ShiftedToZero(c: bv16)
    ensures Shift(c) == 0 <==> c == 0
  {}

  /** Two flipped bits of a frame that passes go unnoticed exactly when they are a multiple of 32767 bits apart. */
  lemma TwoFlipsUndetectedIff(frame: Bytes, e: Bytes, i: nat, j: nat)
    requires |frame| == |e| >= 2 && CrcOk(frame)
    requires TwoOnes(BitsOf(e), i, j)
    ensures CrcOk(XorBytes(frame, e)) <==> (j - i) % 32767 == 0
  {
    hide CrcOk, RunBits, BitsOf, ShiftN;
    ErrorUndetected(frame, e);
    TwoOnesResidue(BitsOf(e), i, j);
    OneReturnsIff(j - i);
  }

  lemma {:induction false} CountNone(w: Bits)
    requires Count(w) == 0
    ensures forall k :: 0 <= k < |w| ==> !w[k]
  {
    if w != [] {
      CountNone(w[1..]);
      assert forall k :: 0 < k < |w| ==> w[k] == w[1..][k - 1];
    }
  }

  lemma {:induction false} CountOne(w: Bits) returns (i: nat)
    requires Count(w) == 1
    ensures i < |w| && forall k :: 0 <= k < |w| ==> (w[k] <==> k == i)
  {
    assert forall k :: 0 < k < |w| ==> w[k] == w[1..][k - 1];
    if w[0] {
      CountNone(w[1..]);
      i := 0;
    } else {
      i := CountOne(w[1..]);
      i := i + 1;
    }
  }

  lemma {:induction false} CountTwo(w: Bits) returns (i: nat, j: nat)
    requires Count(w) == 2
    ensures TwoOnes(w, i, j)
  {
    assert forall k :: 0 < k < |w| ==> w[k] == w[1..][k - 1];
    if w[0] {
      var l := CountOne(w[1..]);
      i, j := 0, l + 1;
    } else {
      var k, l := CountTwo(w[1..]);
      i, j := k + 1, l + 1;
    }
  }

  /** So in a frame of at most 4095 bytes, far more than the protocol allows, one, two or three flipped bits are always
      noticed. Four are not: SeventeenBitsCanSlip flips four. */
  lemma ThreeFlipsDetected(frame: Bytes, e: Bytes)
    requires 2 <= |frame| == |e| <= 4095 && CrcOk(frame)
    requires 1 <= Count(BitsOf(e)) <= 3
    ensures !CrcOk(XorBytes(frame, e))
  {
    hide CrcOk, RunBits, BitsOf, Count;
    if Count(BitsOf(e)) == 2 {
      var i, j := CountTwo(BitsOf(e));
      TwoFlipsUndetectedIff(frame, e, i, j);
    } else {
      OddErrorDetected(frame, e);
    }
  }
}
