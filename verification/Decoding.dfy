/** From a frame to readings: register decoding as configured for a listening device. */
module Decoding {
  import opened ByteNumbers
  import opened Crc
  import opened Framing
  import opened Positions
  import opened Wrappers

  datatype DataType = Uint16 | Int16 | Uint32 | Int32 | Float32 | Float64

  /** One entry of a device's register configuration. */
  datatype RegisterEntry = RegisterEntry(
    address: nat, dataType: Option<string>, channelCode: string, scale: Option<real>, unit: string)

  /** IEEE 754 decoding is left abstract: what the registers of a float stand for. */
  datatype Floats = Floats(single: (nat, nat) -> real, double: (nat, nat, nat, nat) -> real)

  datatype Adapter = Adapter(slaveId: int, deviceCode: string, registers: seq<RegisterEntry>, floats: Floats)

  datatype RawReading = RawReading(
    deviceCode: string, channelCode: string, timestamp: int, value: real, unit: string, quality: string)

  type Registers = s: seq<nat> | forall i :: 0 <= i < |s| ==> s[i] < 0x10000

  // ---------------------------------------------------------------- decoders

  /** The decoder table; a missing or unknown name falls back to uint16. */
  function TypeOf(e: RegisterEntry): DataType {
    match e.dataType
    case None => Uint16
    case Some(name) =>
      if name == "int16" then Int16
      else if name == "uint32" then Uint32
      else if name == "int32" then Int32
      else if name == "float32" then Float32
      else if name == "float64" then Float64
      else Uint16
  }

  function Width(t: DataType): (w: nat)
    ensures 1 <= w <= 4
  {
    match t
    case Uint16 | Int16 => 1
    case Uint32 | Int32 | Float32 => 2
    case Float64 => 4
  }

  function DecodeUint16(regs: Registers): real
    requires |regs| == 1
  {
    regs[0] as real
  }

  function DecodeInt16(regs: Registers): real
    requires |regs| == 1
  {
    var val: int := regs[0];
    (if val >= 0x8000 then val - 0x10000 else val) as real
  }

  function DecodeUint32(regs: Registers): real
    requires |regs| == 2
  {
    (regs[0] * 0x10000 + regs[1]) as real
  }

  function DecodeInt32(regs: Registers): real
    requires |regs| == 2
  {
    var val: int := regs[0] * 0x10000 + regs[1];
    (if val >= 0x8000_0000 then val - 0x1_0000_0000 else val) as real
  }

  function Decode(t: DataType, regs: Registers, fl: Floats): real
    requires |regs| == Width(t)
  {
    match t
    case Uint16 => DecodeUint16(regs)
    case Int16 => DecodeInt16(regs)
    case Uint32 => DecodeUint32(regs)
    case Int32 => DecodeInt32(regs)
    case Float32 => fl.single(regs[0], regs[1])
    case Float64 => fl.double(regs[0], regs[1], regs[2], regs[3])
  }

  /** The integers a type can carry. */
  predicate InRange(t: DataType, v: int) {
    match t
    case Uint16 => 0 <= v < 0x10000
    case Int16 => -0x8000 <= v < 0x8000
    case Uint32 => 0 <= v < 0x1_0000_0000
    case Int32 => -0x8000_0000 <= v < 0x8000_0000
    case _ => false
  }

  /** Two's complement, most significant register first, as a device puts it on the wire. */
  function Encode(t: DataType, v: int): (regs: Registers)
    requires InRange(t, v)
    ensures |regs| == Width(t)
  {
    if Width(t) == 1 then [v % 0x10000]
    else
      var u := v % 0x1_0000_0000;
      [u / 0x10000, u % 0x10000]
  }

  /** The integer decoders invert two's complement over the whole range of each type... */
  lemma DecodeInvertsEncode(t: DataType, v: int, fl: Floats)
    requires InRange(t, v)
    ensures Decode(t, Encode(t, v), fl) == v as real
  {
    match t
    case Uint16 => assert v % 0x10000 == v;
    case Int16 => assert v % 0x10000 == if v < 0 then v + 0x10000 else v;
    case Uint32 => assert v % 0x1_0000_0000 == v;
    case Int32 => assert v % 0x1_0000_0000 == if v < 0 then v + 0x1_0000_0000 else v;
  }

  lemma TwoRegisters(hi: nat, lo: nat)
    requires hi < 0x10000 && lo < 0x10000
    ensures (hi * 0x10000 + lo) / 0x10000 == hi && (hi * 0x10000 + lo) % 0x10000 == lo
  {}

  lemma Wrapped16(u: int)
    requires 0 <= u < 0x10000
    ensures u % 0x10000 == u && (u - 0x10000) % 0x10000 == u
  {}

  lemma Wrapped32(u: int)
    requires 0 <= u < 0x1_0000_0000
    ensures u % 0x1_0000_0000 == u && (u - 0x1_0000_0000) % 0x1_0000_0000 == u
  {}

  /** ...and every register content stands for an integer in that range. */
  lemma EncodeInvertsDecode(t: DataType, regs: Registers, fl: Floats) returns (v: int)
    requires t.Uint16? || t.Int16? || t.Uint32? || t.Int32?
    requires |regs| == Width(t)
    ensures InRange(t, v) && Encode(t, v) == regs && Decode(t, regs, fl) == v as real
  {
    var u: int := regs[0];
    Wrapped16(u);
    if Width(t) == 2 {
      TwoRegisters(regs[0], regs[1]);
      u := regs[0] * 0x10000 + regs[1];
      Wrapped32(u);
    }
    match t
    case Uint16 => v := u;
    case Int16 => v := if u >= 0x8000 then u - 0x10000 else u;
    case Uint32 => v := u;
    case Int32 => v := if u >= 0x8000_0000 then u - 0x1_0000_0000 else u;
  }

  // ---------------------------------------------------------------- registers in a frame

  function ByteOf(n: nat): (b: bv8)
    requires n < 256
    ensures b as int == n
  {
    ByteRoundTrip(n);
    n as bv8
  }

  function Value(b: bv8): (n: nat)
    ensures n < 256
  {
    b as int
  }

  function RegisterOf(hi: bv8, lo: bv8): (n: nat)
    ensures n < 0x10000
  {
    Value(hi) * 256 + Value(lo)
  }

  /** Big-endian bytes of a list of registers. */
  function PutRegisters(regs: Registers): (data: Bytes)
    ensures |data| == 2 * |regs|
  {
    if regs == [] then []
    else [ByteOf(regs[0] / 256), ByteOf(regs[0] % 256)] + PutRegisters(regs[1..])
  }

  /** The complete registers in data; an odd last byte is ignored. */
  function GetRegisters(data: Bytes): (regs: Registers)
    ensures |regs| == |data| / 2
  {
    if |data| < 2 then []
    else [RegisterOf(data[0], data[1])] + GetRegisters(data[2..])
  }

  /** The register read is what shifting the high byte up and or-ing the low one in computes. */
  lemma RegisterIsWord(hi: bv8, lo: bv8)
    ensures Word(lo, hi) as int == RegisterOf(hi, lo)
  {
    WordAsInt(hi, lo);
    OrCommutes(lo as bv16, (hi as bv16) << 8);
  }

  lemma WordAsInt(hi: bv8, lo: bv8)
    ensures (((hi as bv16) << 8) | (lo as bv16)) as int == (hi as int) * 256 + (lo as int)
  {}

  lemma OrCommutes(a: bv16, b: bv16)
    ensures a | b == b | a
  {}

  lemma BytesOfRegister(r: nat)
    requires r < 0x10000
    ensures RegisterOf(ByteOf(r / 256), ByteOf(r % 256)) == r
  {}

  /** Reading undoes writing, whether or not an odd byte trails. */
  lemma {:induction false} GetInvertsPut(regs: Registers, odd: Bytes)
    requires |odd| <= 1
    ensures GetRegisters(PutRegisters(regs) + odd) == regs
  {
    hide ByteOf, RegisterOf;
    if regs != [] {
      BytesOfRegister(regs[0]);
      GetInvertsPut(regs[1..], odd);
      assert (PutRegisters(regs) + odd)[2..] == PutRegisters(regs[1..]) + odd;
    }
  }

  // ---------------------------------------------------------------- _decode_frame

  predicate Fits(e: RegisterEntry, count: nat) {
    e.address + Width(TypeOf(e)) <= count
  }

  function ScaleOf(e: RegisterEntry): real {
    match e.scale case None => 1.0 case Some(x) => x
  }

  function ReadingFor(a: Adapter, e: RegisterEntry, regs: Registers, ts: int): RawReading
    requires Fits(e, |regs|)
  {
    var value := Decode(TypeOf(e), regs[e.address..e.address + Width(TypeOf(e))], a.floats) * ScaleOf(e);
    RawReading(a.deviceCode, e.channelCode, ts, value, e.unit, "good")
  }

  function ReadingsFor(a: Adapter, entries: seq<RegisterEntry>, regs: Registers, ts: int): seq<RawReading> {
    if entries == [] then []
    else
      (if Fits(entries[0], |regs|) then [ReadingFor(a, entries[0], regs, ts)] else [])
      + ReadingsFor(a, entries[1..], regs, ts)
  }

  function DataOf(frame: Bytes): Bytes
    requires |frame| >= 3
  {
    var end := 3 + Value(frame[2]);
    frame[3..if end <= |frame| then end else |frame|]
  }

  predicate Concerns(a: Adapter, frame: Bytes) {
    |frame| >= 5 && Value(frame[0]) == a.slaveId && frame[1] & 0x80 == 0 && frame[1] == READ_HOLDING
  }

  function DecodeFrame(a: Adapter, frame: Bytes, ts: int): seq<RawReading> {
    if Concerns(a, frame) then ReadingsFor(a, a.registers, GetRegisters(DataOf(frame)), ts) else []
  }

  lemma {:induction false} ReadingsForSnoc(a: Adapter, entries: seq<RegisterEntry>, n: nat, regs: Registers, ts: int)
    requires n < |entries|
    ensures Fits(entries[n], |regs|) ==>
              ReadingsFor(a, entries[..n + 1], regs, ts) ==
              ReadingsFor(a, entries[..n], regs, ts) + [ReadingFor(a, entries[n], regs, ts)]
    ensures !Fits(entries[n], |regs|) ==>
              ReadingsFor(a, entries[..n + 1], regs, ts) == ReadingsFor(a, entries[..n], regs, ts)
    decreases n
  {
    if n == 0 {
      assert entries[..1][1..] == [];
      assert entries[..0] == [];
    } else {
      assert entries[..n + 1][1..] == entries[1..][..n];
      assert entries[..n][1..] == entries[1..][..n - 1];
      ReadingsForSnoc(a, entries[1..], n - 1, regs, ts);
    }
  }

  lemma NoEntries(a: Adapter, regs: Registers, ts: int)
    ensures ReadingsFor(a, a.registers[..0], regs, ts) == []
  {}

  method DecodeFrameLoop(a: Adapter, frame: Bytes, ts: int) returns (readings: seq<RawReading>)
    ensures readings == DecodeFrame(a, frame, ts)
  {
    hide GetRegisters, Decode, TypeOf, Width, ReadingsFor;
    if |frame| < 5 || Value(frame[0]) != a.slaveId {
      return [];
    }
    var func := frame[1];
    if func & 0x80 != 0 {
      return [];
    }
    if func != READ_HOLDING {
      return [];
    }
    var regs := GetRegisters(DataOf(frame));
    readings := [];
    NoEntries(a, regs, ts);
    for i := 0 to |a.registers|
      invariant readings == ReadingsFor(a, a.registers[..i], regs, ts)
    {
      var e := a.registers[i];
      var count := Width(TypeOf(e));
      ReadingsForSnoc(a, a.registers, i, regs, ts);
      if e.address + count > |regs| {
        assert !Fits(e, |regs|);
        continue;
      }
      var value := Decode(TypeOf(e), regs[e.address..e.address + count], a.floats) * ScaleOf(e);
      var reading := RawReading(a.deviceCode, e.channelCode, ts, value, e.unit, "good");
      assert reading == ReadingFor(a, e, regs, ts);
      readings := readings + [reading];
    }
    assert a.registers[..|a.registers|] == a.registers;
  }

  // ---------------------------------------------------------------- what a frame yields

  /** The configuration entries a response of count registers can serve, in configuration order. */
  function Served(entries: seq<RegisterEntry>, count: nat): (es: seq<RegisterEntry>)
    ensures forall e :: e in es <==> e in entries && Fits(e, count)
  {
    if entries == [] then []
    else (if Fits(entries[0], count) then [entries[0]] else []) + Served(entries[1..], count)
  }

  lemma {:induction false} ReadingsAreServed(a: Adapter, entries: seq<RegisterEntry>, regs: Registers, ts: int)
    ensures var rs := ReadingsFor(a, entries, regs, ts);
            var es := Served(entries, |regs|);
            |rs| == |es| && forall i :: 0 <= i < |rs| ==> rs[i] == ReadingFor(a, es[i], regs, ts)
  {
    if entries != [] {
      ReadingsAreServed(a, entries[1..], regs, ts);
    }
  }

  /** What a device seals is what the adapter reads: the same registers, an odd byte after them dropped. */
  lemma SentRegisters(a: Adapter, slave: bv8, regs: Registers, odd: Bytes)
    requires |regs| <= 127 && |odd| <= 1 && a.slaveId == Value(slave)
    ensures var frame := Seal(ResponseBody(slave, PutRegisters(regs) + odd));
            WellFormed(frame) && Concerns(a, frame) && GetRegisters(DataOf(frame)) == regs
  {
    hide WellFormed, Seal, ResponseBody, PutRegisters, GetRegisters, DataOf;
    var data := PutRegisters(regs) + odd;
    ResponseWellFormed(slave, data);
    ResponseOnBytes(slave, data);
    NotAnException();
    GetInvertsPut(regs, odd);
  }

  lemma ResponseOnBytes(slave: bv8, data: Bytes)
    requires |data| < 256
    ensures var frame := Seal(ResponseBody(slave, data));
            |frame| >= 5 && frame[0] == slave && frame[1] == READ_HOLDING && DataOf(frame) == data
  {
    hide Seal;
    ByteRoundTrip(|data|);
    var body := ResponseBody(slave, data);
    var frame := Seal(body);
    SealedBytes(body);
    assert frame[2] == |data| as bv8;
    assert frame[3..3 + |data|] == data;
  }

  lemma SealedBytes(body: Bytes)
    ensures |Seal(body)| == |body| + 2 && forall i :: 0 <= i < |body| ==> Seal(body)[i] == body[i]
  {}

  /** Register round trip: the registers a device sends in a function-03 response come out as readings, one for
      each configured entry they cover, in configuration order, each decoded from its own registers.
      An odd byte after them changes nothing. */
  lemma RegisterRoundTrip(a: Adapter, slave: bv8, regs: Registers, odd: Bytes, ts: int)
    requires |regs| <= 127 && |odd| <= 1 && a.slaveId == Value(slave)
    ensures var frame := Seal(ResponseBody(slave, PutRegisters(regs) + odd));
            var rs := DecodeFrame(a, frame, ts);
            var es := Served(a.registers, |regs|);
            && WellFormed(frame)
            && |rs| == |es|
            && forall i :: 0 <= i < |rs| ==> rs[i] == ReadingFor(a, es[i], regs, ts)
  {
    hide WellFormed, Seal, ResponseBody, PutRegisters, Concerns, DataOf, GetRegisters, Served, ReadingFor, ReadingsFor;
    SentRegisters(a, slave, regs, odd);
    ReadingsAreServed(a, a.registers, regs, ts);
  }

  lemma NotAnException()
    ensures READ_HOLDING & 0x80 == 0
  {}

  lemma {:induction false} ServedHolds(entries: seq<RegisterEntry>, i: nat, count: nat) returns (k: nat)
    requires i < |entries| && Fits(entries[i], count)
    ensures k < |Served(entries, count)| && Served(entries, count)[k] == entries[i]
  {
    if i == 0 {
      k := 0;
    } else {
      var rest := ServedHolds(entries[1..], i - 1, count);
      k := rest + if Fits(entries[0], count) then 1 else 0;
    }
  }

  lemma ServedCons(entries: seq<RegisterEntry>, count: nat)
    requires entries != []
    ensures Served(entries, count)
         == (if Fits(entries[0], count) then [entries[0]] else []) + Served(entries[1..], count)
  {}

  lemma {:induction false} ServedInOrder(entries: seq<RegisterEntry>, i: nat, j: nat, count: nat)
    returns (k: nat, l: nat)
    requires i < j < |entries| && Fits(entries[i], count) && Fits(entries[j], count)
    ensures k < l < |Served(entries, count)|
    ensures Served(entries, count)[k] == entries[i] && Served(entries, count)[l] == entries[j]
  {
    hide Fits, Served;
    var rest := entries[1..];
    ServedCons(entries, count);
    assert rest[j - 1] == entries[j];
    if i == 0 {
      var there := ServedHolds(rest, j - 1, count);
      k, l := 0, there + 1;
    } else {
      assert rest[i - 1] == entries[i];
      var m, n := ServedInOrder(rest, i - 1, j - 1, count);
      var first := if Fits(entries[0], count) then 1 else 0;
      k, l := m + first, n + first;
    }
  }

  function IntegerReading(a: Adapter, e: RegisterEntry, v: int, ts: int): RawReading {
    RawReading(a.deviceCode, e.channelCode, ts, v as real * ScaleOf(e), e.unit, "good")
  }

  lemma IntegerRead(a: Adapter, e: RegisterEntry, regs: Registers, v: int, ts: int)
    requires Fits(e, |regs|) && InRange(TypeOf(e), v)
    requires regs[e.address..e.address + Width(TypeOf(e))] == Encode(TypeOf(e), v)
    ensures ReadingFor(a, e, regs, ts) == IntegerReading(a, e, v, ts)
  {
    DecodeInvertsEncode(TypeOf(e), v, a.floats);
  }

  lemma IntegerInRegisters(a: Adapter, slave: bv8, i: nat, v: int, regs: Registers, odd: Bytes, ts: int)
    requires i < |a.registers| && a.slaveId == Value(slave) && |odd| <= 1 && |regs| <= 127
    requires InRange(TypeOf(a.registers[i]), v) && Fits(a.registers[i], |regs|)
    requires var e := a.registers[i]; regs[e.address..e.address + Width(TypeOf(e))] == Encode(TypeOf(e), v)
    ensures IntegerReading(a, a.registers[i], v, ts)
              in DecodeFrame(a, Seal(ResponseBody(slave, PutRegisters(regs) + odd)), ts)
  {
    hide *;
    var e := a.registers[i];
    var rs := DecodeFrame(a, Seal(ResponseBody(slave, PutRegisters(regs) + odd)), ts);
    IntegerRead(a, e, regs, v, ts);
    RegisterRoundTrip(a, slave, regs, odd, ts);
    var k := ServedHolds(a.registers, i, |regs|);
    assert rs[k] == ReadingFor(a, e, regs, ts);
  }

  /** An integer that a device puts into its registers at the address of a configured entry, whatever it puts around it,
      comes out of the sealed response as that integer times the entry's scale, under the entry's code and unit. */
  lemma IntegerOnTheWire(a: Adapter, slave: bv8, i: nat, v: int, before: Registers, after: Registers, odd: Bytes,
                         ts: int)
    requires i < |a.registers| && a.slaveId == Value(slave) && |odd| <= 1
    requires InRange(TypeOf(a.registers[i]), v) && |before| == a.registers[i].address
    requires |before| + Width(TypeOf(a.registers[i])) + |after| <= 127
    ensures var e := a.registers[i];
            var regs := before + Encode(TypeOf(e), v) + after;
            IntegerReading(a, e, v, ts) in DecodeFrame(a, Seal(ResponseBody(slave, PutRegisters(regs) + odd)), ts)
  {
    hide *;
    var e := a.registers[i];
    var wire := Encode(TypeOf(e), v);
    var regs: Registers := before + wire + after;
    assert |regs| == |before| + |wire| + |after|;
    assert regs[e.address..e.address + |wire|] == wire;
    FitsAt(e, |regs|);
    IntegerInRegisters(a, slave, i, v, regs, odd, ts);
  }

  lemma FitsAt(e: RegisterEntry, count: nat)
    ensures Fits(e, count) <==> e.address + Width(TypeOf(e)) <= count
  {}

  /** Frames of other devices and exception responses yield nothing. */
  lemma OthersYieldNothing(a: Adapter, slave: bv8, func: bv8, code: bv8, data: Bytes, ts: int)
    requires |data| < 256
    ensures DecodeFrame(a, Seal(ExceptionBody(slave, func, code)), ts) == []
    ensures a.slaveId != Value(slave) ==> DecodeFrame(a, Seal(ResponseBody(slave, data)), ts) == []
  {
    hide Crc16;
    HighBitSet(func);
    assert Seal(ExceptionBody(slave, func, code))[1] == func | 0x80;
    assert Seal(ResponseBody(slave, data))[0] == slave;
  }

  // ---------------------------------------------------------------- the readings of any frame, on its bytes

  /** The registers cover the entry: a float64 takes four of them, the other 32-bit types two, and all else one. */
  predicate Covered(e: RegisterEntry, count: nat) {
    e.address + (if e.dataType == Some("float64") then 4
                 else if e.dataType in {Some("uint32"), Some("int32"), Some("float32")} then 2
                 else 1) <= count
  }

  lemma FitsIfCovered(e: RegisterEntry, count: nat)
    ensures Fits(e, count) <==> Covered(e, count)
  {}

  /** The reading of an entry, from the registers r at its address: what the name of its type says, scaled. A missing
      or unknown name says uint16, a missing scale 1. */
  predicate ReadAs(e: RegisterEntry, r: Registers, fl: Floats, x: real) {
    var scale := if e.scale.Some? then e.scale.value else 1.0;
    if e.dataType == Some("float64") then |r| >= 4 && x == fl.double(r[0], r[1], r[2], r[3]) * scale
    else if e.dataType == Some("float32") then |r| >= 2 && x == fl.single(r[0], r[1]) * scale
    else if e.dataType == Some("uint32") then |r| >= 2 && x == (r[0] * 65536 + r[1]) as real * scale
    else if e.dataType == Some("int32") then
      var wrapped: int := if |r| >= 1 && r[0] >= 32768 then 4294967296 else 0;
      |r| >= 2 && x == (r[0] * 65536 + r[1] - wrapped) as real * scale
    else if e.dataType == Some("int16") then
      var wrapped: int := if |r| >= 1 && r[0] >= 32768 then 65536 else 0;
      |r| >= 1 && x == (r[0] - wrapped) as real * scale
    else |r| >= 1 && x == r[0] as real * scale
  }

  lemma TypeByName(e: RegisterEntry)
    ensures TypeOf(e) == if e.dataType == Some("float64") then Float64
                         else if e.dataType == Some("float32") then Float32
                         else if e.dataType == Some("uint32") then Uint32
                         else if e.dataType == Some("int32") then Int32
                         else if e.dataType == Some("int16") then Int16
                         else Uint16
  {}

  lemma DecodeByType(t: DataType, r: Registers, fl: Floats)
    requires |r| >= Width(t)
    ensures Decode(t, r[..Width(t)], fl) ==
            match t
            case Uint16 => r[0] as real
            case Int16 => (r[0] as int - if r[0] >= 32768 then 65536 else 0) as real
            case Uint32 => (r[0] * 65536 + r[1]) as real
            case Int32 => (r[0] as int * 65536 + r[1] - if r[0] >= 32768 then 4294967296 else 0) as real
            case Float32 => fl.single(r[0], r[1])
            case Float64 => fl.double(r[0], r[1], r[2], r[3])
  {
    if Width(t) == 2 {
      HighRegister(r[0], r[1]);
    }
  }

  lemma ReadingByName(a: Adapter, e: RegisterEntry, regs: Registers, ts: int)
    requires Fits(e, |regs|)
    ensures var r := ReadingFor(a, e, regs, ts);
            && r == RawReading(a.deviceCode, e.channelCode, ts, r.value, e.unit, "good")
            && ReadAs(e, regs[e.address..], a.floats, r.value)
  {
    hide TypeOf, Decode;
    var r := regs[e.address..];
    assert r[..Width(TypeOf(e))] == regs[e.address..e.address + Width(TypeOf(e))];
    DecodeByType(TypeOf(e), r, a.floats);
    TypeByName(e);
  }

  lemma HighRegister(hi: nat, lo: nat)
    requires hi < 65536 && lo < 65536
    ensures hi * 65536 + lo >= 0x8000_0000 <==> hi >= 32768
  {}

  lemma {:induction false} ServedPositions(entries: seq<RegisterEntry>, count: nat) returns (at: seq<nat>)
    ensures Ascending(at, |entries|) && Picks(Served(entries, count), entries, at)
    ensures forall i: nat :: i in at <==> i < |entries| && Fits(entries[i], count)
  {
    hide Fits, Served, InFront, Ascending, Picks;
    if entries == [] {
      at := [];
      ServedNothing(count);
      NothingPicked<RegisterEntry>();
    } else {
      var rest := ServedPositions(entries[1..], count);
      ServedCons(entries, count);
      at := InFront(Fits(entries[0], count), rest);
      InFrontAscends(Fits(entries[0], count), rest, |entries| - 1);
      InFrontPicks(Fits(entries[0], count), Served(entries[1..], count), entries, rest);
    }
  }

  lemma ServedNothing(count: nat)
    ensures Served([], count) == []
  {}

  /** The registers of a response, byte by byte: as many whole ones as it announces and holds. */
  predicate RegistersOf(frame: Bytes, regs: Registers) {
    && |frame| >= 5
    && |regs| == (if frame[2] as int <= |frame| - 3 then frame[2] as int else |frame| - 3) / 2
    && forall k :: 0 <= k < |regs| ==> regs[k] == frame[3 + 2 * k] as int * 256 + frame[4 + 2 * k] as int
  }

  lemma {:induction false} GetRegistersAt(data: Bytes, k: nat)
    requires k < |data| / 2
    ensures GetRegisters(data)[k] == data[2 * k] as int * 256 + data[2 * k + 1] as int
  {
    if k > 0 { GetRegistersAt(data[2..], k - 1); }
  }

  lemma RegistersOnBytes(frame: Bytes)
    requires |frame| >= 5
    ensures RegistersOf(frame, GetRegisters(DataOf(frame)))
  {
    hide GetRegisters;
    var data := DataOf(frame);
    forall k | 0 <= k < |data| / 2
      ensures GetRegisters(data)[k] == frame[3 + 2 * k] as int * 256 + frame[4 + 2 * k] as int {
      GetRegistersAt(data, k);
    }
  }

  /** What any frame yields: nothing unless it is a response of the adapter's device to function 3, and then one reading
      for each entry its registers cover, in configuration order, under the entry's code and unit. */
  lemma FrameReadings(a: Adapter, frame: Bytes, ts: int) returns (regs: Registers, at: seq<nat>)
    ensures |frame| < 5 || frame[0] as int != a.slaveId || frame[1] != 3 ==> DecodeFrame(a, frame, ts) == []
    ensures |frame| >= 5 && frame[0] as int == a.slaveId && frame[1] == 3 ==>
              var rs := DecodeFrame(a, frame, ts);
              && RegistersOf(frame, regs) && |rs| == |at| && Ascending(at, |a.registers|)
              && (forall i: nat :: i in at <==> i < |a.registers| && Covered(a.registers[i], |regs|))
              && forall k :: 0 <= k < |rs| ==>
                   var e := a.registers[at[k]];
                   && rs[k] == RawReading(a.deviceCode, e.channelCode, ts, rs[k].value, e.unit, "good")
                   && e.address <= |regs| && ReadAs(e, regs[e.address..], a.floats, rs[k].value)
  {
    hide GetRegisters, DataOf, Served, ReadingsFor, ReadingFor, Fits, Covered, ReadAs, RegistersOf;
    ThreeIsNoException();
    regs, at := [], [];
    if Concerns(a, frame) {
      regs := GetRegisters(DataOf(frame));
      RegistersOnBytes(frame);
      ReadingsAreServed(a, a.registers, regs, ts);
      at := ServedPositions(a.registers, |regs|);
      forall i: nat ensures i in at <==> i < |a.registers| && Covered(a.registers[i], |regs|) {
        if i < |a.registers| {
          FitsIfCovered(a.registers[i], |regs|);
        }
      }
      var rs := DecodeFrame(a, frame, ts);
      forall k | 0 <= k < |rs|
        ensures var e := a.registers[at[k]];
                && rs[k] == RawReading(a.deviceCode, e.channelCode, ts, rs[k].value, e.unit, "good")
                && e.address <= |regs| && ReadAs(e, regs[e.address..], a.floats, rs[k].value) {
        var e := a.registers[at[k]];
        assert Served(a.registers, |regs|)[k] in Served(a.registers, |regs|);
        FitsAt(e, |regs|);
        ReadingByName(a, e, regs, ts);
      }
    }
  }

  /** So for the registers a device seals into a response. */
  lemma SealedReadings(a: Adapter, slave: bv8, regs: Registers, odd: Bytes, ts: int) returns (at: seq<nat>)
    requires |regs| <= 127 && |odd| <= 1 && a.slaveId == slave as int
    ensures var rs := DecodeFrame(a, Seal(ResponseBody(slave, PutRegisters(regs) + odd)), ts);
            && |rs| == |at| && Ascending(at, |a.registers|)
            && (forall i: nat :: i in at <==> i < |a.registers| && Covered(a.registers[i], |regs|))
            && forall k :: 0 <= k < |rs| ==>
                 var e := a.registers[at[k]];
                 && rs[k] == RawReading(a.deviceCode, e.channelCode, ts, rs[k].value, e.unit, "good")
                 && e.address <= |regs| && ReadAs(e, regs[e.address..], a.floats, rs[k].value)
  {
    hide GetRegisters, DataOf, ReadAs, Covered, Seal, ResponseBody, PutRegisters, DecodeFrame, WellFormed;
    var frame := Seal(ResponseBody(slave, PutRegisters(regs) + odd));
    SentRegisters(a, slave, regs, odd);
    ConcernsOnBytes(a, frame);
    RegistersOnBytes(frame);
    var found;
    found, at := FrameReadings(a, frame, ts);
    assert found == regs;
  }

  lemma ConcernsOnBytes(a: Adapter, frame: Bytes)
    ensures Concerns(a, frame) <==> |frame| >= 5 && frame[0] as int == a.slaveId && frame[1] == 3
  {
    ThreeIsNoException();
  }

  // ---------------------------------------------------------------- streams

  /** The clock is read once for each frame: the readings it gives, 0 where the list ends. */
  type Clock = seq<int>

  function Tick(clock: Clock): int { if clock == [] then 0 else clock[0] }

  function Later(clock: Clock, n: nat): Clock { if n <= |clock| then clock[n..] else [] }

  function DecodeAll(a: Adapter, frames: seq<Bytes>, clock: Clock): seq<RawReading> {
    if frames == [] then []
    else DecodeFrame(a, frames[0], Tick(clock)) + DecodeAll(a, frames[1..], Later(clock, 1))
  }

  /** Each frame is decoded at its own clock reading, and the clock moves on with every frame. */
  lemma EachFrameItsTime(a: Adapter, frame: Bytes, frames: seq<Bytes>, ts: int, clock: Clock)
    ensures DecodeAll(a, [frame] + frames, [ts] + clock) == DecodeFrame(a, frame, ts) + DecodeAll(a, frames, clock)
  {
    hide DecodeFrame;
    assert ([frame] + frames)[1..] == frames && Later([ts] + clock, 1) == clock;
  }

  lemma {:induction false} DecodeAllConcat(a: Adapter, fs: seq<Bytes>, gs: seq<Bytes>, clock: Clock)
    ensures DecodeAll(a, fs + gs, clock) == DecodeAll(a, fs, clock) + DecodeAll(a, gs, Later(clock, |fs|))
  {
    hide DecodeFrame;
    if fs == [] {
      assert fs + gs == gs && Later(clock, 0) == clock;
    } else {
      assert (fs + gs)[1..] == fs[1..] + gs;
      assert Later(Later(clock, 1), |fs| - 1) == Later(clock, |fs|);
      DecodeAllConcat(a, fs[1..], gs, Later(clock, 1));
    }
  }

  lemma DecodeAllOne(a: Adapter, frame: Bytes, clock: Clock)
    ensures DecodeAll(a, [frame], clock) == DecodeFrame(a, frame, Tick(clock))
  {
    assert DecodeAll(a, [frame], clock) == DecodeFrame(a, frame, Tick(clock)) + DecodeAll(a, [], Later(clock, 1));
  }

  /** One frame more. */
  lemma DecodeAllSnoc(a: Adapter, frames: seq<Bytes>, i: nat, clock: Clock)
    requires i < |frames|
    ensures DecodeAll(a, frames[..i + 1], clock)
         == DecodeAll(a, frames[..i], clock) + DecodeFrame(a, frames[i], Tick(Later(clock, i)))
  {
    hide DecodeFrame;
    assert frames[..i + 1] == frames[..i] + [frames[i]];
    DecodeAllConcat(a, frames[..i], [frames[i]], clock);
    DecodeAllOne(a, frames[i], Later(clock, i));
  }

  method DecodeStream(a: Adapter, data: Bytes, clock: Clock) returns (readings: seq<RawReading>)
    ensures readings == DecodeAll(a, Split(data).frames, clock)
  {
    hide DecodeFrame, Split;
    var frames, _ := SplitRtuFrames(data);
    readings := [];
    for i := 0 to |frames|
      invariant readings == DecodeAll(a, frames[..i], clock)
    {
      var rs := DecodeFrameLoop(a, frames[i], Tick(Later(clock, i)));
      DecodeAllSnoc(a, frames, i, clock);
      readings := readings + rs;
    }
    assert frames[..|frames|] == frames;
  }

  /** The frame makes the adapter report something: it is a response of its device that covers a configured entry. */
  predicate Yields(a: Adapter, frame: Bytes) {
    Concerns(a, frame) && exists e :: e in a.registers && Fits(e, |DataOf(frame)| / 2)
  }

  lemma {:induction false} NoReadingsIff(a: Adapter, entries: seq<RegisterEntry>, regs: Registers, ts: int)
    ensures ReadingsFor(a, entries, regs, ts) == [] <==> !exists e :: e in entries && Fits(e, |regs|)
  {
    if entries != [] {
      NoReadingsIff(a, entries[1..], regs, ts);
      assert forall e :: e in entries <==> e == entries[0] || e in entries[1..];
    }
  }

  lemma YieldsIff(a: Adapter, frame: Bytes, ts: int)
    ensures DecodeFrame(a, frame, ts) != [] <==> Yields(a, frame)
  {
    if Concerns(a, frame) {
      NoReadingsIff(a, a.registers, GetRegisters(DataOf(frame)), ts);
    }
  }

  /** Frames decode to nothing exactly when none of them makes the adapter report something. */
  lemma {:induction false} DecodeNothingIff(a: Adapter, frames: seq<Bytes>, clock: Clock)
    ensures DecodeAll(a, frames, clock) == [] <==> forall f :: f in frames ==> !Yields(a, f)
  {
    hide DecodeFrame, Yields;
    if frames != [] {
      YieldsIff(a, frames[0], Tick(clock));
      DecodeNothingIff(a, frames[1..], Later(clock, 1));
      assert forall f :: f in frames <==> f == frames[0] || f in frames[1..];
    }
  }

  /** A reading without the clock value stamped on it. */
  function Untimed(rs: seq<RawReading>): (us: seq<RawReading>)
    ensures |us| == |rs|
  {
    if rs == [] then [] else [rs[0].(timestamp := 0)] + Untimed(rs[1..])
  }

  lemma {:induction false} UntimedConcat(rs: seq<RawReading>, qs: seq<RawReading>)
    ensures Untimed(rs + qs) == Untimed(rs) + Untimed(qs)
  {
    if rs == [] {
      assert rs + qs == qs;
    } else {
      assert (rs + qs)[1..] == rs[1..] + qs;
      UntimedConcat(rs[1..], qs);
    }
  }

  lemma {:induction false} UntimedReadings(a: Adapter, entries: seq<RegisterEntry>, regs: Registers, ts: int)
    ensures Untimed(ReadingsFor(a, entries, regs, ts)) == ReadingsFor(a, entries, regs, 0)
  {
    if entries != [] {
      UntimedReadings(a, entries[1..], regs, ts);
      if Fits(entries[0], |regs|) {
        var r := ReadingFor(a, entries[0], regs, ts);
        assert Untimed([r]) == [r.(timestamp := 0)] + Untimed([]);
        UntimedConcat([r], ReadingsFor(a, entries[1..], regs, ts));
      } else {
        assert [] + ReadingsFor(a, entries[1..], regs, ts) == ReadingsFor(a, entries[1..], regs, ts);
      }
    }
  }

  /** The clock affects nothing but the timestamps. */
  lemma {:induction false} UntimedDecode(a: Adapter, frames: seq<Bytes>, clock: Clock)
    ensures Untimed(DecodeAll(a, frames, clock)) == DecodeAll(a, frames, [])
  {
    if frames != [] {
      UntimedConcat(DecodeFrame(a, frames[0], Tick(clock)), DecodeAll(a, frames[1..], Later(clock, 1)));
      if Concerns(a, frames[0]) {
        UntimedReadings(a, a.registers, GetRegisters(DataOf(frames[0])), Tick(clock));
      }
      UntimedDecode(a, frames[1..], Later(clock, 1));
    }
  }
}
