/** What the CRC detects: the register seen one bit at a time, division by the generator polynomial,
    and the error patterns that leave the check passing. */
module CrcDetection {
  import opened Crc

  type Bits = seq<bool>

  // ---------------------------------------------------------------- bits, lowest first

  function HalfN(n: nat, x: bv16): bv16 {
    if n == 0 then x else HalfN(n - 1, Half(x))
  }

  /** The n lowest bits of x, in the order they go over the wire. */
  function BitsLow(n: nat, x: bv16): (w: Bits)
    ensures |w| == n
  {
    if n == 0 then [] else [Low(x)] + BitsLow(n - 1, Half(x))
  }

  /** A message as the string of bits that goes over the wire. */
  function BitsOf(m: Bytes): (w: Bits)
    ensures |w| == 8 * |m|
  {
    if m == [] then [] else ByteBits(m[0]) + BitsOf(m[1..])
  }

  function ByteBits(b: bv8): (w: Bits)
    ensures |w| == 8
  {
    BitsLow(8, b as bv16)
  }

  function Zeros(n: nat): (w: Bits)
    ensures |w| == n
  {
    seq(n, i => false)
  }

  function XorBits(u: Bits, v: Bits): (w: Bits)
    requires |u| == |v|
    ensures |w| == |u|
  {
    seq(|u|, i requires 0 <= i < |u| => u[i] != v[i])
  }

  function XorBytes(m: Bytes, k: Bytes): (r: Bytes)
    requires |m| == |k|
    ensures |r| == |m|
  {
    if m == [] then [] else [XorByte(m[0], k[0])] + XorBytes(m[1..], k[1..])
  }

  function XorByte(a: bv8, b: bv8): bv8 { a ^ b }

  function Count(w: Bits): nat {
    if w == [] then 0 else (if w[0] then 1 else 0) + Count(w[1..])
  }

  // ---------------------------------------------------------------- the register, bit by bit

  function Unit(v: bool): bv16 { if v then 1 else 0 }

  function FeedBit(c: bv16, v: bool): bv16 { Shift(Xor(c, Unit(v))) }

  function RunBits(c: bv16, w: Bits): bv16
    decreases |w|
  {
    if w == [] then c else RunBits(FeedBit(c, w[0]), w[1..])
  }

  lemma {:induction false} RunBitsConcat(c: bv16, u: Bits, v: Bits)
    ensures RunBits(c, u + v) == RunBits(RunBits(c, u), v)
    decreases |u|
  {
    hide FeedBit;
    if u == [] {
      assert u + v == v;
    } else {
      assert (u + v)[1..] == u[1..] + v;
      RunBitsConcat(FeedBit(c, u[0]), u[1..], v);
    }
  }

  lemma {:induction false} RunZeros(c: bv16, n: nat)
    ensures RunBits(c, Zeros(n)) == 0 <==> c == 0
    decreases n
  {
    hide Shift, Xor, Unit;
    if n > 0 {
      assert Zeros(n)[1..] == Zeros(n - 1);
      RunZeros(FeedBit(c, false), n - 1);
      FeedZeroBit(c);
    }
  }

  lemma FeedZeroBit(c: bv16)
    ensures FeedBit(c, false) == 0 <==> c == 0
  {}

  lemma XorExchange(a: bv16, b: bv16, x: bv16, y: bv16)
    ensures Xor(Xor(a, b), Xor(x, y)) == Xor(Xor(a, x), Xor(b, y))
  {
    hide Xor;
    XorAssociates(a, b, Xor(x, y));
    XorAssociates(b, x, y);
    XorCommutes(b, x);
    XorAssociates(x, b, y);
    XorAssociates(a, x, Xor(b, y));
  }

  lemma UnitXor(u: bool, v: bool)
    ensures Unit(u != v) == Xor(Unit(u), Unit(v))
  {}

  lemma FeedBitLinear(c: bv16, d: bv16, u: bool, v: bool)
    ensures FeedBit(Xor(c, d), u != v) == Xor(FeedBit(c, u), FeedBit(d, v))
  {
    hide Shift, Xor, Unit;
    UnitXor(u, v);
    XorExchange(c, d, Unit(u), Unit(v));
    ShiftLinear(Xor(c, Unit(u)), Xor(d, Unit(v)));
  }

  lemma {:induction false} RunBitsLinear(c: bv16, d: bv16, u: Bits, v: Bits)
    requires |u| == |v|
    ensures RunBits(Xor(c, d), XorBits(u, v)) == Xor(RunBits(c, u), RunBits(d, v))
    decreases |u|
  {
    hide FeedBit, Xor;
    if u != [] {
      FeedBitLinear(c, d, u[0], v[0]);
      assert XorBits(u, v)[1..] == XorBits(u[1..], v[1..]);
      RunBitsLinear(FeedBit(c, u[0]), FeedBit(d, v[0]), u[1..], v[1..]);
    }
  }

  // ---------------------------------------------------------------- bits against bytes

  lemma SplitLowBit(x: bv16)
    ensures Xor(Unit(Low(x)), x & 0xFFFE) == x && Shift(x & 0xFFFE) == Half(x)
  {
    if Low(x) {} else {}
  }

  lemma StepBit(c: bv16, x: bv16)
    ensures Shift(Xor(c, x)) == Xor(FeedBit(c, Low(x)), Half(x))
  {
    hide Shift, Xor, Half, Unit, Low;
    SplitLowBit(x);
    var e := x & 0xFFFE;
    XorAssociates(c, Unit(Low(x)), e);
    ShiftLinear(Xor(c, Unit(Low(x))), e);
  }

  /** n turns of the loop consume the n lowest bits of x and leave the others above them. */
  lemma {:induction false} RunBitsLow(n: nat, c: bv16, x: bv16)
    ensures ShiftN(n, Xor(c, x)) == Xor(RunBits(c, BitsLow(n, x)), HalfN(n, x))
  {
    hide Shift, Xor, Half, Low, FeedBit;
    if n > 0 {
      StepBit(c, x);
      assert BitsLow(n, x)[1..] == BitsLow(n - 1, Half(x));
      RunBitsLow(n - 1, FeedBit(c, Low(x)), Half(x));
    }
  }

  lemma HalfEight(x: bv16)
    ensures HalfN(8, x) == x >> 8
  {
    var x1 := Half(x);
    var x2 := Half(x1);
    var x3 := Half(x2);
    var x4 := Half(x3);
    var x5 := Half(x4);
    var x6 := Half(x5);
    var x7 := Half(x6);
    assert HalfN(8, x) == HalfN(7, x1) == HalfN(6, x2) == HalfN(5, x3) == HalfN(4, x4)
        == HalfN(3, x5) == HalfN(2, x6) == HalfN(1, x7) == HalfN(0, Half(x7));
  }

  lemma HalfAdd(m: nat, n: nat, x: bv16)
    ensures HalfN(m + n, x) == HalfN(n, HalfN(m, x))
  {
    hide Half;
    if m > 0 { HalfAdd(m - 1, n, Half(x)); }
  }

  lemma HalfSixteen(x: bv16)
    ensures HalfN(16, x) == 0
  {
    hide HalfN;
    HalfAdd(8, 8, x);
    HalfEight(x);
    HalfEight(x >> 8);
    ShiftedOut(x);
  }

  lemma ShiftedOut(x: bv16)
    ensures (x >> 8) >> 8 == 0
  {}

  lemma ByteFits(b: bv8)
    ensures HalfN(8, b as bv16) == 0
  {
    HalfEight(b as bv16);
  }

  lemma FeedAsBits(c: bv16, b: bv8)
    ensures Feed(c, b) == RunBits(c, BitsLow(8, b as bv16))
  {
    hide Shift, ShiftN, Xor, RunBits, BitsLow;
    RunBitsLow(8, c, b as bv16);
    ByteFits(b);
    XorUnit(RunBits(c, BitsLow(8, b as bv16)));
  }

  /** The bytewise loop computes the bit-serial register over the message's bits, lowest bit of each byte first. */
  lemma {:induction false} RunIsBitSerial(c: bv16, m: Bytes)
    ensures Run(c, m) == RunBits(c, BitsOf(m))
    decreases |m|
  {
    hide Feed, FeedBit, BitsLow;
    if m != [] {
      FeedAsBits(c, m[0]);
      RunBitsConcat(c, ByteBits(m[0]), BitsOf(m[1..]));
      RunIsBitSerial(Feed(c, m[0]), m[1..]);
    }
  }

  // ---------------------------------------------------------------- error patterns

  lemma {:induction false} BitsLowXor(n: nat, x: bv16, y: bv16)
    ensures BitsLow(n, Xor(x, y)) == XorBits(BitsLow(n, x), BitsLow(n, y))
  {
    hide Half, Low, Xor;
    if n > 0 {
      HalfXor(x, y);
      LowXor(x, y);
      BitsLowXor(n - 1, Half(x), Half(y));
    }
  }

  lemma HalfXor(x: bv16, y: bv16)
    ensures Half(Xor(x, y)) == Xor(Half(x), Half(y))
  {}

  lemma LowXor(x: bv16, y: bv16)
    ensures Low(Xor(x, y)) == (Low(x) != Low(y))
  {}

  lemma WidenXor(a: bv8, b: bv8)
    ensures XorByte(a, b) as bv16 == Xor(a as bv16, b as bv16)
  {}

  lemma ByteBitsXor(a: bv8, b: bv8)
    ensures ByteBits(XorByte(a, b)) == XorBits(ByteBits(a), ByteBits(b))
  {
    hide BitsLow, Xor, XorByte;
    WidenXor(a, b);
    BitsLowXor(8, a as bv16, b as bv16);
  }

  lemma {:induction false} BitsOfXor(m: Bytes, k: Bytes)
    requires |m| == |k|
    ensures BitsOf(XorBytes(m, k)) == XorBits(BitsOf(m), BitsOf(k))
  {
    hide ByteBits, XorByte;
    if m != [] {
      ByteBitsXor(m[0], k[0]);
      BitsOfXor(m[1..], k[1..]);
    }
  }

  /** Exactly which errors slip through: adding the error pattern e to a frame that passes leaves it passing
      if and only if the register, started from zero, returns to zero on e. Nothing else about the frame matters. */
  lemma ErrorUndetected(frame: Bytes, e: Bytes)
    requires |frame| == |e| >= 2
    requires CrcOk(frame)
    ensures CrcOk(XorBytes(frame, e)) <==> RunBits(0, BitsOf(e)) == 0
  {
    hide Shift, ShiftN, Xor, Word, BitsLow, RunBits, CrcOk;
    ZeroResidue(frame);
    ZeroResidue(XorBytes(frame, e));
    RunIsBitSerial(INIT, frame);
    RunIsBitSerial(INIT, XorBytes(frame, e));
    BitsOfXor(frame, e);
    XorUnit(INIT);
    RunBitsLinear(INIT, 0, BitsOf(frame), BitsOf(e));
    XorUnit(RunBits(0, BitsOf(e)));
  }

  // ---------------------------------------------------------------- sixteen bits at most

  /** The word whose lowest bits are w. */
  function Pack(w: Bits): bv16 {
    if w == [] then 0 else Push(Pack(w[1..]), w[0])
  }

  function Push(p: bv16, v: bool): bv16 { (p << 1) | Unit(v) }

  lemma PackStep(p: bv16, v: bool)
    ensures Low(Push(p, v)) == v
    ensures p & 0x8000 == 0 ==> Half(Push(p, v)) == p
  {}

  lemma {:induction false} HalfOfZero(n: nat)
    ensures HalfN(n, 0) == 0
  {
    if n > 0 { HalfOfZero(n - 1); }
  }

  lemma TopBitClear(k: nat, x: bv16)
    requires k <= 15 && HalfN(k, x) == 0
    ensures x & 0x8000 == 0
  {
    hide Half, HalfN;
    HalfAdd(k, 15 - k, x);
    HalfOfZero(15 - k);
    HalfAdd(8, 7, x);
    HalfEight(x);
    HalfSeven(x >> 8);
    TopBit(x);
  }

  lemma HalfSeven(x: bv16)
    ensures HalfN(7, x) == x >> 7
  {
    var x1 := Half(x);
    var x2 := Half(x1);
    var x3 := Half(x2);
    var x4 := Half(x3);
    var x5 := Half(x4);
    var x6 := Half(x5);
    assert HalfN(7, x) == HalfN(6, x1) == HalfN(5, x2) == HalfN(4, x3) == HalfN(3, x4)
        == HalfN(2, x5) == HalfN(1, x6) == HalfN(0, Half(x6));
  }

  lemma TopBit(x: bv16)
    ensures (x >> 8) >> 7 == 0 ==> x & 0x8000 == 0
  {}

  lemma {:induction false} PackInverts(w: Bits)
    requires |w| <= 16
    ensures BitsLow(|w|, Pack(w)) == w && HalfN(|w|, Pack(w)) == 0
  {
    hide Half, Low, Push;
    if w != [] {
      PackInverts(w[1..]);
      TopBitClear(|w| - 1, Pack(w[1..]));
      PackStep(Pack(w[1..]), w[0]);
    }
  }

  /** Sixteen or fewer bits bring the zero register back to zero only if they are all zero. */
  lemma ShortPatternDetected(w: Bits)
    requires |w| <= 16 && RunBits(0, w) == 0
    ensures w == Zeros(|w|)
  {
    hide RunBits, BitsLow, HalfN, Pack, Xor, Shift;
    var x := Pack(w);
    PackInverts(w);
    RunBitsLow(|w|, 0, x);
    XorUnit(x);
    XorUnit(0);
    ShiftNInjective(|w|, x, 0);
    ShiftNZero(|w|);
    ZeroBits(|w|);
  }

  lemma {:induction false} ShiftNZero(n: nat)
    ensures ShiftN(n, 0) == 0
  {
    if n > 0 { ShiftNZero(n - 1); }
  }

  lemma {:induction false} ZeroBits(n: nat)
    ensures BitsLow(n, 0) == Zeros(n)
  {
    if n > 0 { ZeroBits(n - 1); }
  }

  /** All the ones of e lie among the sixteen bits from position p on. */
  ghost predicate WithinSixteen(e: Bits, p: nat) {
    forall i :: 0 <= i < |e| && e[i] ==> p <= i < p + 16
  }

  lemma BurstResidue(e: Bits, p: nat)
    requires WithinSixteen(e, p) && RunBits(0, e) == 0
    ensures e == Zeros(|e|)
  {
    hide RunBits;
    var n := |e|;
    if p < n {
      var q := if p + 16 < n then p + 16 else n;
      var w := e[p..q];
      assert e == Zeros(p) + w + Zeros(n - q);
      RunBitsConcat(0, Zeros(p) + w, Zeros(n - q));
      RunBitsConcat(0, Zeros(p), w);
      RunZeros(0, p);
      RunZeros(RunBits(0, w), n - q);
      ShortPatternDetected(w);
    }
  }

  lemma {:induction false} BitsLowOfZero(n: nat, x: bv16)
    requires BitsLow(n, x) == Zeros(n) && HalfN(n, x) == 0
    ensures x == 0
  {
    if n > 0 {
      assert BitsLow(n, x)[0] == Zeros(n)[0];
      assert BitsLow(n - 1, Half(x)) == BitsLow(n, x)[1..] == Zeros(n - 1);
      BitsLowOfZero(n - 1, Half(x));
    }
  }

  lemma {:induction false} BitsOfZero(e: Bytes)
    requires BitsOf(e) == Zeros(8 * |e|)
    ensures forall i :: 0 <= i < |e| ==> e[i] == 0
  {
    if e != [] {
      var w, r := ByteBits(e[0]), BitsOf(e[1..]);
      assert w == (w + r)[..8] == Zeros(8);
      assert r == (w + r)[8..] == Zeros(8 * |e[1..]|);
      ByteFits(e[0]);
      BitsLowOfZero(8, e[0] as bv16);
      BitsOfZero(e[1..]);
    }
  }

  /** Burst detection: in a frame of any length that passes, every non-empty error pattern confined to sixteen
      consecutive bits of the wire order, CRC bytes included, makes the check fail. */
  lemma BurstDetected(frame: Bytes, e: Bytes, p: nat)
    requires |frame| == |e| >= 2
    requires CrcOk(frame)
    requires exists i :: 0 <= i < |e| && e[i] != 0
    requires WithinSixteen(BitsOf(e), p)
    ensures !CrcOk(XorBytes(frame, e))
  {
    hide CrcOk, RunBits, BitsOf;
    ErrorUndetected(frame, e);
    if RunBits(0, BitsOf(e)) == 0 {
      BurstResidue(BitsOf(e), p);
      BitsOfZero(e);
    }
  }

  // ---------------------------------------------------------------- parity

  lemma {:induction false} CountConcat(u: Bits, v: Bits)
    ensures Count(u + v) == Count(u) + Count(v)
  {
    if u == [] {
      assert u + v == v;
    } else {
      assert (u + v)[1..] == u[1..] + v;
      CountConcat(u[1..], v);
    }
  }

  lemma {:induction false} CountXor(u: Bits, v: Bits)
    requires |u| == |v|
    ensures Count(XorBits(u, v)) % 2 == (Count(u) + Count(v)) % 2
  {
    if u != [] {
      assert XorBits(u, v)[1..] == XorBits(u[1..], v[1..]);
      CountXor(u[1..], v[1..]);
    }
  }

  lemma {:induction false} BitsLowSnoc(n: nat, x: bv16)
    ensures BitsLow(n + 1, x) == BitsLow(n, x) + [Low(HalfN(n, x))]
  {
    hide Half, Low;
    if n > 0 { BitsLowSnoc(n - 1, Half(x)); }
  }

  /** The number of ones in the register. */
  function Ones(c: bv16): nat { Count(BitsLow(16, c)) }

  lemma OnesOfHalf(c: bv16)
    ensures Ones(c) == (if Low(c) then 1 else 0) + Ones(Half(c))
  {
    hide Half, Low;
    BitsLowSnoc(15, Half(c));
    assert HalfN(15, Half(c)) == HalfN(16, c);
    HalfSixteen(c);
    NoLowBit();
    CountConcat(BitsLow(15, Half(c)), [false]);
    assert BitsLow(16, c)[1..] == BitsLow(15, Half(c));
  }

  lemma NoLowBit()
    ensures !Low(0)
  {}

  lemma EightBits(x: bv16)
    ensures var x2 := Half(Half(x));
            var x4 := Half(Half(x2));
            var x6 := Half(Half(x4));
            BitsLow(8, x) == [Low(x), Low(Half(x)), Low(x2), Low(Half(x2)),
                              Low(x4), Low(Half(x4)), Low(x6), Low(Half(x6))]
  {
    hide Low, Half, BitsLow;
    var x2 := Half(Half(x));
    var x4 := Half(Half(x2));
    TwoBits(6, x);
    TwoBits(4, x2);
    TwoBits(2, x4);
    TwoBits(0, Half(Half(x4)));
    var x6 := Half(Half(x4));
    NoBits(Half(Half(x6)));
    Eight(Low(x), Low(Half(x)), Low(x2), Low(Half(x2)), Low(x4), Low(Half(x4)), Low(x6), Low(Half(x6)));
  }

  lemma Eight(a: bool, b: bool, c: bool, d: bool, e: bool, f: bool, g: bool, h: bool)
    ensures [a, b] + ([c, d] + ([e, f] + ([g, h] + []))) == [a, b, c, d, e, f, g, h]
  {}

  lemma TwoBits(n: nat, x: bv16)
    ensures BitsLow(n + 2, x) == [Low(x), Low(Half(x))] + BitsLow(n, Half(Half(x)))
  {
    hide Low, Half;
    assert BitsLow(n + 1, Half(x)) == [Low(Half(x))] + BitsLow(n, Half(Half(x)));
  }

  lemma NoBits(x: bv16)
    ensures BitsLow(0, x) == []
  {}

  /** The polynomial as it stands in the register, lowest bit first. */
  lemma PolyBits()
    ensures BitsLow(16, POLY) ==
            [true, false, false, false, false, false, false, false,
             false, false, false, false, false, true, false, true]
  {
    hide BitsLow, HalfN;
    BitsLowAdd(8, 8, POLY);
    HalfEight(POLY);
    EightBits(0xA001);
    EightBits(0xA0);
    assert BitsLow(8, 0xA001) == [true, false, false, false, false, false, false, false];
    assert BitsLow(8, 0xA0) == [false, false, false, false, false, true, false, true];
  }

  lemma {:induction false} BitsLowAdd(m: nat, n: nat, x: bv16)
    ensures BitsLow(m + n, x) == BitsLow(m, x) + BitsLow(n, HalfN(m, x))
  {
    hide Half, Low;
    if m > 0 { BitsLowAdd(m - 1, n, Half(x)); }
  }

  lemma OnesOfPoly()
    ensures Ones(POLY) == 3
  {
    hide BitsLow;
    PolyBits();
    var lower := [true, false, false, false, false, false, false, false];
    var upper := [false, false, false, false, false, true, false, true];
    assert BitsLow(16, POLY) == lower + upper;
    CountConcat(lower, upper);
    assert Count(lower) == 1;
    assert Count(upper) == 2;
  }

  lemma OnesOfInit()
    ensures Ones(INIT) == 16
  {
    hide BitsLow, HalfN;
    BitsLowAdd(8, 8, INIT);
    HalfEight(INIT);
    EightBits(0xFFFF);
    EightBits(0xFF);
    var ff := [true, true, true, true, true, true, true, true];
    assert BitsLow(8, 0xFFFF) == ff;
    assert BitsLow(8, 0xFF) == ff;
    CountConcat(ff, ff);
  }

  lemma OnesOfXor(a: bv16, b: bv16)
    ensures Ones(Xor(a, b)) % 2 == (Ones(a) + Ones(b)) % 2
  {
    hide Xor, BitsLow;
    BitsLowXor(16, a, b);
    CountXor(BitsLow(16, a), BitsLow(16, b));
  }

  lemma ShiftParity(c: bv16)
    ensures Ones(Shift(c)) % 2 == Ones(c) % 2
  {
    hide Xor, Low, Half, Ones;
    OnesOfHalf(c);
    OnesOfXor(Half(c), POLY);
    OnesOfPoly();
  }

  lemma OnesOfUnit(v: bool)
    ensures Ones(Unit(v)) == if v then 1 else 0
  {
    hide BitsLow;
    ZeroBits(16);
    ZeroBits(15);
    BitsLowAdd(1, 15, 1);
    UnitBits();
    CountZeros(16);
    CountZeros(15);
  }

  lemma UnitBits()
    ensures BitsLow(1, 1) == [true] && HalfN(1, 1) == 0
  {}

  lemma {:induction false} CountZeros(n: nat)
    ensures Count(Zeros(n)) == 0
  {
    if n > 0 {
      assert Zeros(n)[1..] == Zeros(n - 1);
      CountZeros(n - 1);
    }
  }

  lemma {:induction false} RunBitsParity(c: bv16, w: Bits)
    ensures Ones(RunBits(c, w)) % 2 == (Ones(c) + Count(w)) % 2
    decreases |w|
  {
    hide Shift, Xor, Unit, Ones;
    if w != [] {
      OnesOfXor(c, Unit(w[0]));
      OnesOfUnit(w[0]);
      ShiftParity(Xor(c, Unit(w[0])));
      RunBitsParity(FeedBit(c, w[0]), w[1..]);
    }
  }

  /** The CRC of a message has an odd number of ones exactly when the message has. */
  lemma CrcParity(m: Bytes)
    ensures Ones(Crc16(m)) % 2 == Count(BitsOf(m)) % 2
  {
    hide Ones, BitsOf, RunBits;
    OnesOfInit();
    RunIsBitSerial(INIT, m);
    RunBitsParity(INIT, BitsOf(m));
  }

  /** Flipping any odd number of bits of a frame that passes makes the check fail. */
  lemma OddErrorDetected(frame: Bytes, e: Bytes)
    requires |frame| == |e| >= 2
    requires CrcOk(frame)
    requires Count(BitsOf(e)) % 2 == 1
    ensures !CrcOk(XorBytes(frame, e))
  {
    hide CrcOk, RunBits, BitsOf, BitsLow;
    ErrorUndetected(frame, e);
    RunBitsParity(0, BitsOf(e));
    ZeroBits(16);
    CountZeros(16);
  }

  // ---------------------------------------------------------------- division by the generator

  /** x^16 + x^15 + x^2 + 1, highest power first: the order in which the wire carries the bits. */
  const GENERATOR: Bits :=
    [true, true, false, false, false, false, false, false, false,
     false, false, false, false, false, true, false, true]

  /** The product of the polynomial q and the generator, over the two-element field. */
  function Times(q: Bits): (w: Bits)
    ensures |w| == |q| + 16
  {
    if q == [] then Zeros(16)
    else XorBits(if q[0] then GENERATOR + Zeros(|q| - 1) else Zeros(|q| + 16), [false] + Times(q[1..]))
  }

  lemma GeneratorResidue()
    ensures RunBits(0, GENERATOR) == 0
  {
    hide BitsLow, HalfN, Xor, Shift, ShiftN;
    PolyBits();
    assert GENERATOR == [true] + BitsLow(16, POLY);
    RunBitsConcat(0, [true], BitsLow(16, POLY));
    FirstOne();
    RunBitsLow(16, POLY, POLY);
    XorUnit(POLY);
    HalfSixteen(POLY);
    ShiftNZero(16);
    XorUnit(RunBits(POLY, BitsLow(16, POLY)));
  }

  lemma FirstOne()
    ensures RunBits(0, [true]) == POLY
  {
    assert [true][1..] == [];
    assert RunBits(FeedBit(0, true), []) == FeedBit(0, true);
  }

  lemma GeneratorShifted(n: nat)
    ensures RunBits(0, GENERATOR + Zeros(n)) == 0
  {
    hide RunBits;
    GeneratorResidue();
    RunBitsConcat(0, GENERATOR, Zeros(n));
    RunZeros(0, n);
  }

  lemma LeadingZero(w: Bits)
    ensures RunBits(0, [false] + w) == RunBits(0, w)
  {
    hide RunBits;
    assert [false] == Zeros(1);
    RunBitsConcat(0, Zeros(1), w);
    RunZeros(0, 1);
  }

  lemma XorResidue(u: Bits, v: Bits)
    requires |u| == |v|
    ensures RunBits(0, XorBits(u, v)) == Xor(RunBits(0, u), RunBits(0, v))
  {
    hide RunBits, Xor;
    XorUnit(0);
    RunBitsLinear(0, 0, u, v);
  }

  lemma {:induction false} MultipleHasNoResidue(q: Bits)
    ensures RunBits(0, Times(q)) == 0
  {
    hide RunBits, Xor;
    if q == [] {
      RunZeros(0, 16);
    } else {
      var head := if q[0] then GENERATOR + Zeros(|q| - 1) else Zeros(|q| + 16);
      GeneratorShifted(|q| - 1);
      RunZeros(0, |q| + 16);
      LeadingZero(Times(q[1..]));
      MultipleHasNoResidue(q[1..]);
      XorResidue(head, [false] + Times(q[1..]));
      XorUnit(0);
    }
  }

  /** Long division: a pattern without residue is the generator times the quotient returned. */
  lemma {:induction false} Divide(e: Bits) returns (q: Bits)
    requires |e| >= 16 && RunBits(0, e) == 0
    ensures |q| == |e| - 16 && Times(q) == e
    decreases |e|
  {
    hide RunBits, Xor;
    if |e| == 16 {
      ShortPatternDetected(e);
      q := [];
    } else {
      var n := |e| - 17;
      var head := if e[0] then GENERATOR + Zeros(n) else Zeros(n + 17);
      GeneratorShifted(n);
      RunZeros(0, n + 17);
      XorResidue(head, e);
      XorUnit(0);
      var rest := XorBits(head, e)[1..];
      assert XorBits(head, e) == [false] + rest;
      LeadingZero(rest);
      var t := Divide(rest);
      q := [e[0]] + t;
      assert q[1..] == t;
      assert XorBits(head, [false] + rest) == e;
    }
  }

  /** The undetected error patterns are exactly the multiples of the generator polynomial. */
  lemma UndetectedIffMultiple(frame: Bytes, e: Bytes)
    requires |frame| == |e| >= 2
    requires CrcOk(frame)
    ensures CrcOk(XorBytes(frame, e)) <==> exists q :: |q| == 8 * |e| - 16 && Times(q) == BitsOf(e)
  {
    hide CrcOk, RunBits, Times, BitsOf;
    ErrorUndetected(frame, e);
    if CrcOk(XorBytes(frame, e)) {
      var q := Divide(BitsOf(e));
    } else {
      forall q | Times(q) == BitsOf(e) ensures false {
        MultipleHasNoResidue(q);
      }
    }
  }

  /** Sixteen is the limit: the generator itself is a burst of seventeen bits, and it goes unnoticed
      wherever it starts on a byte boundary. */
  lemma SeventeenBitsCanSlip(frame: Bytes, before: nat)
    requires |frame| >= before + 3
    requires CrcOk(frame)
    ensures var e := ZeroBytes(before) + [0x03, 0x40, 0x01] + ZeroBytes(|frame| - before - 3);
            CrcOk(XorBytes(frame, e)) && XorBytes(frame, e) != frame
  {
    hide CrcOk, RunBits, BitsOf;
    var after := |frame| - before - 3;
    var e := ZeroBytes(before) + [0x03, 0x40, 0x01] + ZeroBytes(after);
    BitsOfConcat(ZeroBytes(before) + [0x03, 0x40, 0x01], ZeroBytes(after));
    BitsOfConcat(ZeroBytes(before), [0x03, 0x40, 0x01]);
    ThreeBytes();
    BitsOfZeroBytes(before);
    BitsOfZeroBytes(after);
    var g := GENERATOR + Zeros(7 + 8 * after);
    assert BitsOf(e) == Zeros(8 * before) + g;
    RunBitsConcat(0, Zeros(8 * before), g);
    RunZeros(0, 8 * before);
    GeneratorShifted(7 + 8 * after);
    ErrorUndetected(frame, e);
    XorBytesAt(frame, e, before);
    FlippedByte(frame[before]);
  }

  lemma FlippedByte(b: bv8)
    ensures XorByte(b, 0x03) != b
  {}

  lemma {:induction false} XorBytesAt(m: Bytes, k: Bytes, i: nat)
    requires |m| == |k| && i < |m|
    ensures XorBytes(m, k)[i] == XorByte(m[i], k[i])
  {
    if i > 0 { XorBytesAt(m[1..], k[1..], i - 1); }
  }

  function ZeroBytes(n: nat): (m: Bytes)
    ensures |m| == n
  {
    seq(n, i => 0)
  }

  lemma {:induction false} BitsOfConcat(m: Bytes, k: Bytes)
    ensures BitsOf(m + k) == BitsOf(m) + BitsOf(k)
  {
    hide ByteBits;
    if m == [] {
      assert m + k == k;
    } else {
      assert (m + k)[1..] == m[1..] + k;
      BitsOfConcat(m[1..], k);
    }
  }

  lemma {:induction false} BitsOfZeroBytes(n: nat)
    ensures BitsOf(ZeroBytes(n)) == Zeros(8 * n)
  {
    hide BitsLow;
    if n > 0 {
      assert ZeroBytes(n)[1..] == ZeroBytes(n - 1);
      ZeroBits(8);
      BitsOfZeroBytes(n - 1);
    }
  }

  lemma ThreeBytes()
    ensures BitsOf([0x03, 0x40, 0x01]) == GENERATOR + Zeros(7)
  {
    hide ByteBits;
    assert [0x03, 0x40, 0x01] == [0x03] + ([0x40] + [0x01]);
    BitsOfConcat([0x03], [0x40] + [0x01]);
    BitsOfConcat([0x40], [0x01]);
    OneByte(0x03);
    OneByte(0x40);
    OneByte(0x01);
    BitsOf03();
    BitsOf40();
    BitsOf01();
  }

  lemma OneByte(b: bv8)
    ensures BitsOf([b]) == ByteBits(b)
  {
    assert [b][1..] == [];
  }

  lemma BitsOf03()
    ensures ByteBits(0x03) == [true, true, false, false, false, false, false, false]
  {
    hide BitsLow;
    EightBits(0x03);
    assert BitsLow(8, 0x03) == [true, true, false, false, false, false, false, false];
  }

  lemma BitsOf40()
    ensures ByteBits(0x40) == [false, false, false, false, false, false, true, false]
  {
    hide BitsLow;
    EightBits(0x40);
    assert BitsLow(8, 0x40) == [false, false, false, false, false, false, true, false];
  }

  lemma BitsOf01()
    ensures ByteBits(0x01) == [true, false, false, false, false, false, false, false]
  {
    hide BitsLow;
    EightBits(0x01);
    assert BitsLow(8, 0x01) == [true, false, false, false, false, false, false, false];
  }
}
