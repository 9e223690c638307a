/** CRC-16/MODBUS (MODBUS over Serial Line V1.02, section 6.2.2): the bytewise computation,
    the comparison made at the end of a frame, and when that comparison succeeds. */
module Crc {

  type Bytes = seq<bv8>

  const INIT: bv16 := 0xFFFF
  const POLY: bv16 := 0xA001

  // ---------------------------------------------------------------- the register

  predicate Low(c: bv16) { c & 1 != 0 }

  function Half(c: bv16): bv16 { c >> 1 }

  function Xor(a: bv16, b: bv16): bv16 { a ^ b }

  /** One turn of the inner loop: shift right, and fold the polynomial in when a one falls out. */
  function Shift(c: bv16): bv16 {
    if Low(c) then Xor(Half(c), POLY) else Half(c)
  }

  function ShiftN(n: nat, c: bv16): bv16 {
    if n == 0 then c else ShiftN(n - 1, Shift(c))
  }

  function Feed(c: bv16, b: bv8): bv16 { ShiftN(8, Xor(c, b as bv16)) }

  /** The register after the bytes m, started from c. */
  function Run(c: bv16, m: Bytes): bv16
    decreases |m|
  {
    if m == [] then c else Run(Feed(c, m[0]), m[1..])
  }

  function Crc16(m: Bytes): bv16 { Run(INIT, m) }

  /** The loops of crc16_modbus. */
  method Crc16Modbus(data: Bytes) returns (crc: bv16)
    ensures crc == Crc16(data)
  {
    hide Xor, Half, Low;
    crc := INIT;
    for i := 0 to |data|
      invariant Run(crc, data[i..]) == Crc16(data)
    {
      assert data[i..][1..] == data[i + 1..];
      crc := Xor(crc, data[i] as bv16);
      ghost var start := crc;
      for k := 0 to 8
        invariant ShiftN(8 - k, crc) == ShiftN(8, start)
      {
        if Low(crc) {
          crc := Xor(Half(crc), POLY);
        } else {
          crc := Half(crc);
        }
      }
    }
  }

  function Word(lo: bv8, hi: bv8): bv16 {
    (lo as bv16) | ((hi as bv16) << 8)
  }

  /** The splitter's comparison: the last two bytes, low byte first, are the CRC of the bytes before them. */
  predicate CrcOk(frame: Bytes)
    requires |frame| >= 2
  {
    var n := |frame|;
    Crc16(frame[..n - 2]) == Word(frame[n - 2], frame[n - 1])
  }

  /** A body with its CRC appended, low byte first, as a device sends it. */
  function Seal(body: Bytes): Bytes {
    var c := Crc16(body);
    body + [LowByte(c), HighByte(c)]
  }

  function LowByte(c: bv16): bv8 { (c & 0xFF) as bv8 }

  function HighByte(c: bv16): bv8 { (c >> 8) as bv8 }

  lemma Recombine(c: bv16)
    ensures Word(LowByte(c), HighByte(c)) == c
  {}

  /** Sealing is the only way to pass the check: a frame passes exactly when it is its own body, sealed. */
  lemma SealPasses(frame: Bytes)
    requires |frame| >= 2
    ensures CrcOk(frame) <==> frame == Seal(frame[..|frame| - 2])
  {
    hide Crc16, Word, LowByte, HighByte;
    var n := |frame|;
    var body := frame[..n - 2];
    var c := Crc16(body);
    Recombine(c);
    assert frame == body + [frame[n - 2], frame[n - 1]];
    WordInjective(frame[n - 2], frame[n - 1], LowByte(c), HighByte(c));
  }

  lemma WordInjective(lo: bv8, hi: bv8, lo': bv8, hi': bv8)
    ensures Word(lo, hi) == Word(lo', hi') <==> lo == lo' && hi == hi'
  {}

  // ---------------------------------------------------------------- algebra of the register

  lemma ShiftInjective(a: bv16, b: bv16)
    ensures Shift(a) == Shift(b) ==> a == b
  {}

  lemma {:induction false} ShiftNInjective(n: nat, a: bv16, b: bv16)
    ensures ShiftN(n, a) == ShiftN(n, b) ==> a == b
  {
    if n > 0 {
      ShiftNInjective(n - 1, Shift(a), Shift(b));
      ShiftInjective(a, b);
    }
  }

  lemma ShiftLinearOddOdd(a: bv16, b: bv16)
    requires Low(a) && Low(b)
    ensures Shift(Xor(a, b)) == Xor(Shift(a), Shift(b))
  {}

  lemma ShiftLinearOddEven(a: bv16, b: bv16)
    requires Low(a) && !Low(b)
    ensures Shift(Xor(a, b)) == Xor(Shift(a), Shift(b))
  {}

  lemma ShiftLinearEvenEven(a: bv16, b: bv16)
    requires !Low(a) && !Low(b)
    ensures Shift(Xor(a, b)) == Xor(Shift(a), Shift(b))
  {}

  lemma XorCommutes(a: bv16, b: bv16)
    ensures Xor(a, b) == Xor(b, a)
  {}

  lemma XorAssociates(a: bv16, b: bv16, c: bv16)
    ensures Xor(Xor(a, b), c) == Xor(a, Xor(b, c))
  {}

  lemma XorEqual(a: bv16, b: bv16)
    ensures Xor(a, b) == 0 <==> a == b
  {
    if a == b {} else {}
  }

  lemma XorUnit(a: bv16)
    ensures Xor(a, 0) == a && Xor(0, a) == a && Xor(a, a) == 0
  {}

  lemma ShiftLinear(a: bv16, b: bv16)
    ensures Shift(Xor(a, b)) == Xor(Shift(a), Shift(b))
  {
    hide *;
    XorCommutes(a, b);
    XorCommutes(Shift(a), Shift(b));
    if Low(a) {
      if Low(b) { ShiftLinearOddOdd(a, b); } else { ShiftLinearOddEven(a, b); }
    } else {
      if Low(b) { ShiftLinearOddEven(b, a); } else { ShiftLinearEvenEven(a, b); }
    }
  }

  lemma {:induction false} RunConcat(c: bv16, m: Bytes, k: Bytes)
    ensures Run(c, m + k) == Run(Run(c, m), k)
    decreases |m|
  {
    hide Feed;
    if m == [] {
      assert m + k == k;
    } else {
      assert (m + k)[1..] == m[1..] + k;
      RunConcat(Feed(c, m[0]), m[1..], k);
    }
  }

  // ---------------------------------------------------------------- zero residue

  lemma EightShiftsOfHighByte(h: bv16)
    requires h & 0x00FF == 0
    ensures ShiftN(8, h) == h >> 8
  {
    var c1 := Shift(h);
    var c2 := Shift(c1);
    var c3 := Shift(c2);
    var c4 := Shift(c3);
    var c5 := Shift(c4);
    var c6 := Shift(c5);
    var c7 := Shift(c6);
    assert ShiftN(8, h) == ShiftN(7, c1) == ShiftN(6, c2) == ShiftN(5, c3) == ShiftN(4, c4)
        == ShiftN(3, c5) == ShiftN(2, c6) == ShiftN(1, c7) == ShiftN(0, Shift(c7));
  }

  lemma HighByteUp(h: bv16)
    requires h & 0xFF00 == 0
    ensures (h << 8) & 0x00FF == 0 && (h << 8) >> 8 == h
  {}

  lemma RunTwo(c: bv16, lo: bv8, hi: bv8)
    ensures Run(c, [lo, hi]) == Feed(Feed(c, lo), hi)
  {
    hide Feed;
    assert [lo, hi][1..] == [hi];
    assert [hi][1..] == [];
    assert Run(Feed(c, lo), [hi]) == Run(Feed(Feed(c, lo), hi), []);
  }

  lemma FeedZero(d: bv16, hi: bv8)
    ensures Feed(d, hi) == 0 <==> d == hi as bv16
  {
    hide Shift, ShiftN, Xor;
    EightShiftsOfHighByte(0);
    ShiftNInjective(8, Xor(d, hi as bv16), 0);
    XorEqual(d, hi as bv16);
  }

  function Raised(hi: bv8): (r: bv16)
    ensures r & 0x00FF == 0 && r >> 8 == hi as bv16
  {
    HighByteUp(hi as bv16);
    (hi as bv16) << 8
  }

  lemma FeedLowWord(c: bv16, lo: bv8, hi: bv8)
    ensures Xor(c, lo as bv16) == Raised(hi) <==> c == Word(lo, hi)
  {
    if c == Word(lo, hi) {
    } else {
      XorEqual(c, Word(lo, hi));
    }
  }

  lemma FeedLow(c: bv16, lo: bv8, hi: bv8)
    ensures Feed(c, lo) == hi as bv16 <==> c == Word(lo, hi)
  {
    hide Shift, ShiftN, Xor, Word;
    FeedLowWord(c, lo, hi);
    EightShiftsOfHighByte(Raised(hi));
    ShiftNInjective(8, Xor(c, lo as bv16), Raised(hi));
  }

  /** The trailing comparison succeeds exactly when the register, run over the whole frame with its CRC
      included, ends at zero. */
  lemma ZeroResidue(frame: Bytes)
    requires |frame| >= 2
    ensures CrcOk(frame) <==> Crc16(frame) == 0
  {
    hide Feed, Word;
    var n := |frame|;
    var body, lo, hi := frame[..n - 2], frame[n - 2], frame[n - 1];
    assert frame == body + [lo, hi];
    RunConcat(INIT, body, [lo, hi]);
    RunTwo(Crc16(body), lo, hi);
    FeedLow(Crc16(body), lo, hi);
    FeedZero(Feed(Crc16(body), lo), hi);
  }

  // ---------------------------------------------------------------- the standard check value

  /** One byte in, spelled out. */
  predicate FeedsTo(c: bv16, b: bv8, d: bv16) {
    Shift(Shift(Shift(Shift(Shift(Shift(Shift(Shift(Xor(c, b as bv16))))))))) == d
  }

  lemma Fed(c: bv16, b: bv8, d: bv16)
    requires FeedsTo(c, b, d)
    ensures Feed(c, b) == d
  {
    hide Shift;
    var x := Xor(c, b as bv16);
    var x4 := Shift(Shift(Shift(Shift(x))));
    assert ShiftN(8, x) == ShiftN(7, Shift(x)) == ShiftN(6, Shift(Shift(x))) == ShiftN(5, Shift(Shift(Shift(x))));
    assert ShiftN(4, x4) == ShiftN(3, Shift(x4)) == ShiftN(2, Shift(Shift(x4))) == ShiftN(1, Shift(Shift(Shift(x4))))
        == ShiftN(0, Shift(Shift(Shift(Shift(x4)))));
  }

  lemma {:induction false} RunSnoc(c: bv16, m: Bytes, b: bv8)
    ensures Run(c, m + [b]) == Feed(Run(c, m), b)
  {
    hide Feed;
    RunConcat(c, m, [b]);
    assert [b][1..] == [];
    assert Run(Run(c, m), [b]) == Run(Feed(Run(c, m), b), []);
  }

  lemma CheckSteps()
    ensures Feed(0xFFFF, 0x31) == 0x947E
    ensures Feed(0x947E, 0x32) == 0xF595
    ensures Feed(0xF595, 0x33) == 0x7A75
    ensures Feed(0x7A75, 0x34) == 0x30BA
    ensures Feed(0x30BA, 0x35) == 0xA471
    ensures Feed(0xA471, 0x36) == 0x32E4
    ensures Feed(0x32E4, 0x37) == 0x9D73
    ensures Feed(0x9D73, 0x38) == 0x37DD
    ensures Feed(0x37DD, 0x39) == 0x4B37
  {
    Fed(0xFFFF, 0x31, 0x947E);
    Fed(0x947E, 0x32, 0xF595);
    Fed(0xF595, 0x33, 0x7A75);
    Fed(0x7A75, 0x34, 0x30BA);
    Fed(0x30BA, 0x35, 0xA471);
    Fed(0xA471, 0x36, 0x32E4);
    Fed(0x32E4, 0x37, 0x9D73);
    Fed(0x9D73, 0x38, 0x37DD);
    Fed(0x37DD, 0x39, 0x4B37);
  }

  /** CRC-16/MODBUS of the nine digits "123456789". */
  lemma CheckValue()
    ensures Crc16([0x31, 0x32, 0x33, 0x34, 0x35, 0x36, 0x37, 0x38, 0x39]) == 0x4B37
  {
    hide Feed;
    CheckSteps();
    var m0: Bytes := [];
    var m1 := m0 + [0x31];
    RunSnoc(INIT, m0, 0x31);
    var m2 := m1 + [0x32];
    RunSnoc(INIT, m1, 0x32);
    var m3 := m2 + [0x33];
    RunSnoc(INIT, m2, 0x33);
    var m4 := m3 + [0x34];
    RunSnoc(INIT, m3, 0x34);
    var m5 := m4 + [0x35];
    RunSnoc(INIT, m4, 0x35);
    var m6 := m5 + [0x36];
    RunSnoc(INIT, m5, 0x36);
    var m7 := m6 + [0x37];
    RunSnoc(INIT, m6, 0x37);
    var m8 := m7 + [0x38];
    RunSnoc(INIT, m7, 0x38);
    var m9 := m8 + [0x39];
    RunSnoc(INIT, m8, 0x39);
    assert m9 == [0x31, 0x32, 0x33, 0x34, 0x35, 0x36, 0x37, 0x38, 0x39];
  }
}
