/** Cutting RTU frames out of a byte stream: split_rtu_frames, and what it promises about any stream,
    however it is chunked, damaged or cut short. */
module Framing {
  import opened ByteNumbers
  import opened Crc

  const READ_HOLDING: bv8 := 0x03

  /** Every candidate is at most this long: three header bytes, 255 data bytes, two CRC bytes. */
  const MAX_FRAME := 260

  datatype Splitting = Splitting(frames: seq<Bytes>, rest: Bytes)

  /** What the loop does at the head of the bytes left: wait for more, drop one byte, or take a frame. */
  datatype Verdict = Wait | Drop | Take(len: nat)

  /** The frame length the header announces, if its function code lets one be inferred. */
  datatype Head = Unknown | Candidate(len: nat)

  function HeadOf(s: Bytes): (h: Head)
    requires |s| >= 3
    ensures h.Candidate? ==> 5 <= h.len <= MAX_FRAME
  {
    if s[1] & 0x80 != 0 then Candidate(5)
    else if s[1] == READ_HOLDING then Candidate(3 + (s[2] as int) + 2)
    else Unknown
  }

  function Look(s: Bytes): (v: Verdict)
    ensures v.Take? ==> 5 <= v.len <= |s|
    ensures v.Drop? ==> |s| >= 5
    ensures v.Wait? ==> |s| < MAX_FRAME
  {
    if |s| < 5 then Wait
    else match HeadOf(s)
      case Unknown => Drop
      case Candidate(len) =>
        if |s| < len then Wait
        else if CrcOk(s[..len]) then Take(len)
        else Drop
  }

  function Split(s: Bytes): Splitting
    decreases |s|
  {
    match Look(s)
    case Wait => Splitting([], s)
    case Drop => Split(s[1..])
    case Take(len) =>
      var tail := Split(s[len..]);
      Splitting([s[..len]] + tail.frames, tail.rest)
  }

  /** The loop of split_rtu_frames. It ends because every turn but the last shortens rest. */
  method SplitRtuFrames(buf: Bytes) returns (frames: seq<Bytes>, rest: Bytes)
    ensures Splitting(frames, rest) == Split(buf)
  {
    hide Split, Crc16, Word, Look, SoFar;
    frames := [];
    rest := buf;
    NothingYet(buf);
    while |rest| >= 5
      invariant SoFar(buf, frames, rest)
      decreases |rest|
    {
      LookAt(rest);
      var frameLen: nat;
      var func := rest[1];
      if func & 0x80 != 0 {
        frameLen := 5;
      } else if func == READ_HOLDING {
        frameLen := 3 + (rest[2] as int) + 2;
      } else {
        DropOne(buf, frames, rest);
        rest := rest[1..];
        continue;
      }
      if |rest| < frameLen {
        break;
      }
      var frame := rest[..frameLen];
      var n := |frame|;
      var crc := Crc16Modbus(frame[..n - 2]);
      if crc == Word(frame[n - 2], frame[n - 1]) {
        TakeOne(buf, frames, rest);
        frames := frames + [frame];
        rest := rest[frameLen..];
      } else {
        DropOne(buf, frames, rest);
        rest := rest[1..];
      }
    }
    LookShort(rest);
    NothingMore(buf, frames, rest);
  }

  /** The loop invariant: the frames found so far, and then those of the bytes left. */
  ghost predicate SoFar(buf: Bytes, frames: seq<Bytes>, rest: Bytes) {
    Split(buf) == Splitting(frames + Split(rest).frames, Split(rest).rest)
  }

  lemma NothingYet(buf: Bytes)
    ensures SoFar(buf, [], buf)
  {
    assert [] + Split(buf).frames == Split(buf).frames;
  }

  lemma DropOne(buf: Bytes, frames: seq<Bytes>, rest: Bytes)
    requires SoFar(buf, frames, rest) && Look(rest) == Drop
    ensures SoFar(buf, frames, rest[1..])
  {
    hide Look;
  }

  lemma TakeOne(buf: Bytes, frames: seq<Bytes>, rest: Bytes)
    requires SoFar(buf, frames, rest) && Look(rest).Take?
    ensures SoFar(buf, frames + [rest[..Look(rest).len]], rest[Look(rest).len..])
  {
    hide Look, Split;
    SplitStep(rest);
    var len := Look(rest).len;
    assert frames + [rest[..len]] + Split(rest[len..]).frames == frames + ([rest[..len]] + Split(rest[len..]).frames);
  }

  lemma NothingMore(buf: Bytes, frames: seq<Bytes>, rest: Bytes)
    requires SoFar(buf, frames, rest) && Look(rest) == Wait
    ensures Splitting(frames, rest) == Split(buf)
  {
    hide Look, Split;
    SplitStep(rest);
    assert frames + [] == frames;
  }

  lemma LookShort(s: Bytes)
    ensures |s| < 5 ==> Look(s) == Wait
  {}

  lemma LookAt(s: Bytes)
    requires |s| >= 5
    ensures HeadOf(s) == Unknown ==> Look(s) == Drop
    ensures HeadOf(s).Candidate? && |s| < HeadOf(s).len ==> Look(s) == Wait
    ensures HeadOf(s).Candidate? && |s| >= HeadOf(s).len ==>
              var frame := s[..HeadOf(s).len];
              var n := |frame|;
              Look(s) == if Crc16(frame[..n - 2]) == Word(frame[n - 2], frame[n - 1]) then Take(n) else Drop
  {}

  lemma SplitStep(s: Bytes)
    ensures Look(s) == Wait ==> Split(s) == Splitting([], s)
    ensures Look(s) == Drop ==> Split(s) == Split(s[1..])
    ensures Look(s).Take? ==>
              var tail := Split(s[Look(s).len..]);
              Split(s) == Splitting([s[..Look(s).len]] + tail.frames, tail.rest)
  {}

  // ---------------------------------------------------------------- the decisions, on the bytes

  /** No decision yet: fewer than five bytes, or a response to function 3 that announces more data than is there. */
  predicate Short(s: Bytes) {
    |s| < 5 || (s[1] == 3 && |s| < 5 + s[2] as int)
  }

  /** No frame starts here: the function code is neither 3 nor an exception, or the whole candidate is there and is not
      its own body, sealed. */
  predicate Junk(s: Bytes) {
    && |s| >= 5
    && (|| (s[1] != 3 && s[1] & 0x80 == 0)
        || (s[1] & 0x80 != 0 && s[..5] != Seal(s[..3]))
        || (s[1] == 3 && |s| >= 5 + s[2] as int && s[..5 + s[2] as int] != Seal(s[..3 + s[2] as int])))
  }

  lemma ThreeIsNoException()
    ensures READ_HOLDING == 3 && READ_HOLDING & 0x80 == 0
  {}

  lemma CandidateSealed(s: Bytes, len: nat)
    requires 5 <= len <= |s|
    ensures CrcOk(s[..len]) <==> s[..len] == Seal(s[..len - 2])
  {
    SealPasses(s[..len]);
    assert s[..len][..len - 2] == s[..len - 2];
  }

  lemma LookOnBytes(s: Bytes)
    ensures Look(s) == Wait <==> Short(s)
    ensures Look(s) == Drop <==> Junk(s)
  {
    hide CrcOk, Seal;
    ThreeIsNoException();
    if |s| >= 5 {
      CandidateSealed(s, 5);
      if |s| >= 5 + s[2] as int {
        CandidateSealed(s, 5 + s[2] as int);
      }
    }
  }

  /** What the splitter does at the head of any bytes, with nothing in between: it stops exactly on what is short of a
      decision, drops one byte exactly where no frame starts, and otherwise takes the sealed candidate. */
  lemma SplitOnBytes(s: Bytes)
    ensures Split(s) == Splitting([], s) <==> Short(s)
    ensures Junk(s) ==> Split(s) == Split(s[1..])
    ensures !Short(s) && !Junk(s) ==>
              var len := if s[1] == 3 then 5 + s[2] as int else 5;
              && len <= |s| && s[..len] == Seal(s[..len - 2])
              && Split(s).frames == [s[..len]] + Split(s[len..]).frames && Split(s).rest == Split(s[len..]).rest
  {
    hide Look, Split, CrcOk, Seal;
    LookOnBytes(s);
    SplitStep(s);
    RestSettled(s);
    ThreeIsNoException();
    TakenLength(s);
    if !Short(s) && !Junk(s) {
      CandidateSealed(s, Look(s).len);
    }
  }

  lemma TakenLength(s: Bytes)
    ensures Look(s).Take? ==> Look(s).len == if s[1] == 3 then 5 + s[2] as int else 5
  {
    ThreeIsNoException();
  }

  // ---------------------------------------------------------------- well-formed frames

  predicate WellFormed(f: Bytes) {
    |f| >= 5 && HeadOf(f) == Candidate(|f|) && CrcOk(f)
  }

  /** The body of a read-holding-registers response (section 6.3 of the MODBUS Application Protocol V1.1b3). */
  function ResponseBody(slave: bv8, data: Bytes): Bytes
    requires |data| < 256
  {
    [slave, READ_HOLDING, |data| as bv8] + data
  }

  /** The body of an exception response (section 7 of the same standard). */
  function ExceptionBody(slave: bv8, func: bv8, code: bv8): Bytes {
    [slave, func | 0x80, code]
  }

  lemma HighBitSet(func: bv8)
    ensures (func | 0x80) & 0x80 != 0
    ensures func & 0x80 != 0 ==> func | 0x80 == func
  {}

  lemma ResponseWellFormed(slave: bv8, data: Bytes)
    requires |data| < 256
    ensures WellFormed(Seal(ResponseBody(slave, data)))
  {
    hide CrcOk, Crc16;
    var body := ResponseBody(slave, data);
    ByteRoundTrip(|data|);
    var f := Seal(body);
    assert f[..|f| - 2] == body;
    SealPasses(f);
    assert f[1] == READ_HOLDING && f[2] == |data| as bv8;
  }

  lemma ExceptionWellFormed(slave: bv8, func: bv8, code: bv8)
    ensures WellFormed(Seal(ExceptionBody(slave, func, code)))
  {
    hide CrcOk, Crc16;
    var body := ExceptionBody(slave, func, code);
    var f := Seal(body);
    assert f[..|f| - 2] == body;
    SealPasses(f);
    HighBitSet(func);
    assert f[1] == func | 0x80;
  }

  /** The splitter's frames are the sealed responses and the sealed exceptions, and nothing else. */
  lemma WellFormedIff(f: Bytes)
    ensures WellFormed(f) <==>
            || (exists slave, data | |data| < 256 :: f == Seal(ResponseBody(slave, data)))
            || (exists slave, func, code :: f == Seal(ExceptionBody(slave, func, code)))
  {
    hide CrcOk, Crc16, Seal;
    forall slave, data | |data| < 256 && f == Seal(ResponseBody(slave, data)) ensures WellFormed(f) {
      ResponseWellFormed(slave, data);
    }
    forall slave, func, code | f == Seal(ExceptionBody(slave, func, code)) ensures WellFormed(f) {
      ExceptionWellFormed(slave, func, code);
    }
    if WellFormed(f) {
      SealPasses(f);
      var body := f[..|f| - 2];
      if f[1] & 0x80 != 0 {
        HighBitSet(f[1]);
        assert body == ExceptionBody(f[0], f[1], f[2]);
      } else {
        var data := body[3..];
        assert body == ResponseBody(f[0], data);
      }
    }
  }

  lemma LookAtFrame(f: Bytes, more: Bytes)
    requires WellFormed(f)
    ensures Look(f + more) == Take(|f|)
  {
    assert (f + more)[..|f|] == f;
  }

  /** What has been decided on some bytes stays decided when more arrive. */
  lemma LookExtends(a: Bytes, b: Bytes)
    ensures Look(a) != Wait ==> Look(a + b) == Look(a)
  {
    if Look(a) != Wait {
      assert HeadOf(a + b) == HeadOf(a);
      if HeadOf(a).Candidate? {
        assert (a + b)[..HeadOf(a).len] == a[..HeadOf(a).len];
      }
    }
  }

  // ---------------------------------------------------------------- chunk invariance

  /** Splitting a longer stream continues from the remainder of the shorter one. */
  lemma {:induction false} SplitConcat(a: Bytes, b: Bytes)
    ensures var s := Split(a);
            var t := Split(s.rest + b);
            Split(a + b) == Splitting(s.frames + t.frames, t.rest)
    decreases |a|
  {
    hide Look, Split;
    LookExtends(a, b);
    SplitStep(a);
    SplitStep(a + b);
    match Look(a)
    case Wait =>
      assert [] + Split(a + b).frames == Split(a + b).frames;
    case Drop =>
      assert (a + b)[1..] == a[1..] + b;
      SplitConcat(a[1..], b);
    case Take(len) =>
      assert (a + b)[len..] == a[len..] + b;
      assert (a + b)[..len] == a[..len];
      SplitConcat(a[len..], b);
      var tail := Split(a[len..]);
      assert [a[..len]] + tail.frames + Split(tail.rest + b).frames
          == [a[..len]] + (tail.frames + Split(tail.rest + b).frames);
  }

  function Flatten(chunks: seq<Bytes>): Bytes {
    if chunks == [] then [] else chunks[0] + Flatten(chunks[1..])
  }

  /** Running the splitter chunk by chunk, putting the remainder in front of the next chunk. */
  function Carry(carried: Bytes, chunks: seq<Bytes>): Splitting
    decreases |chunks|
  {
    if chunks == [] then Splitting([], carried)
    else
      var s := Split(carried + chunks[0]);
      var t := Carry(s.rest, chunks[1..]);
      Splitting(s.frames + t.frames, t.rest)
  }

  predicate Settled(rest: Bytes) { Split(rest) == Splitting([], rest) }

  lemma {:induction false} RestSettled(s: Bytes)
    ensures Settled(Split(s).rest) && Look(Split(s).rest) == Wait
    decreases |s|
  {
    hide Look;
    match Look(s)
    case Wait =>
    case Drop => RestSettled(s[1..]);
    case Take(len) => RestSettled(s[len..]);
  }

  lemma {:induction false} CarryIsSplit(carried: Bytes, chunks: seq<Bytes>)
    requires Settled(carried)
    ensures Carry(carried, chunks) == Split(carried + Flatten(chunks))
    decreases |chunks|
  {
    hide Split;
    if chunks == [] {
      assert carried + [] == carried;
    } else {
      var s := Split(carried + chunks[0]);
      RestSettled(carried + chunks[0]);
      CarryIsSplit(s.rest, chunks[1..]);
      SplitConcat(carried + chunks[0], Flatten(chunks[1..]));
      assert carried + Flatten(chunks) == carried + chunks[0] + Flatten(chunks[1..]);
    }
  }

  /** However a stream is cut into chunks, the frames, their order and the last remainder are the same. */
  lemma ChunkInvariance(chunks: seq<Bytes>)
    ensures Carry([], chunks) == Split(Flatten(chunks))
  {
    CarryIsSplit([], chunks);
    assert [] + Flatten(chunks) == Flatten(chunks);
  }

  // ---------------------------------------------------------------- conservation

  datatype Piece = Frame(bytes: Bytes) | Dropped(b: bv8)

  function Raw(p: Piece): Bytes {
    match p
    case Frame(f) => f
    case Dropped(b) => [b]
  }

  function RawAll(ps: seq<Piece>): Bytes {
    if ps == [] then [] else Raw(ps[0]) + RawAll(ps[1..])
  }

  function FramesIn(ps: seq<Piece>): seq<Bytes> {
    if ps == [] then []
    else (if ps[0].Frame? then [ps[0].bytes] else []) + FramesIn(ps[1..])
  }

  /** ps accounts for s: in order, whole frames that pass, and single bytes dropped only where the stream
      shows an unknown function code or a complete candidate that fails; what is left is short of a decision. */
  ghost predicate Accounts(s: Bytes, ps: seq<Piece>, rest: Bytes)
    decreases |ps|
  {
    if ps == [] then s == rest && Short(rest)
    else match ps[0]
      case Frame(f) => WellFormed(f) && f <= s && Accounts(s[|f|..], ps[1..], rest)
      case Dropped(b) => Junk(s) && s[0] == b && Accounts(s[1..], ps[1..], rest)
  }

  lemma TakenFrame(s: Bytes)
    requires Look(s).Take?
    ensures WellFormed(s[..Look(s).len])
  {
    var f := s[..Look(s).len];
    assert HeadOf(f) == HeadOf(s);
  }

  lemma {:induction false} BuildAccount(s: Bytes) returns (ps: seq<Piece>)
    ensures Accounts(s, ps, Split(s).rest)
    decreases |s|
  {
    hide Look, WellFormed, Split, Short, Junk;
    SplitStep(s);
    LookOnBytes(s);
    match Look(s)
    case Wait =>
      ps := [];
    case Drop =>
      var qs := BuildAccount(s[1..]);
      ps := [Dropped(s[0])] + qs;
      assert ps[1..] == qs;
    case Take(len) =>
      TakenFrame(s);
      var qs := BuildAccount(s[len..]);
      ps := [Frame(s[..len])] + qs;
      assert ps[1..] == qs;
  }

  /** There is only one account: whatever reads the stream by these rules finds the splitter's frames and remainder. */
  lemma {:induction false} AccountUnique(s: Bytes, ps: seq<Piece>, rest: Bytes)
    requires Accounts(s, ps, rest)
    ensures FramesIn(ps) == Split(s).frames && rest == Split(s).rest
    decreases |ps|
  {
    hide Look, Short, Junk;
    LookOnBytes(s);
    if ps != [] {
      match ps[0]
      case Frame(f) =>
        assert s == f + s[|f|..];
        LookAtFrame(f, s[|f|..]);
        AccountUnique(s[|f|..], ps[1..], rest);
      case Dropped(b) =>
        AccountUnique(s[1..], ps[1..], rest);
    }
  }

  lemma JunkIsThere(s: Bytes)
    ensures Junk(s) ==> |s| >= 5
  {}

  lemma {:induction false} AccountRaw(s: Bytes, ps: seq<Piece>, rest: Bytes)
    requires Accounts(s, ps, rest)
    ensures s == RawAll(ps) + rest
    decreases |ps|
  {
    hide Look, WellFormed, Short, Junk;
    if ps != [] {
      JunkIsThere(s);
      var n := |Raw(ps[0])|;
      assert s == Raw(ps[0]) + s[n..];
      AccountRaw(s[n..], ps[1..], rest);
    }
  }

  /** Nothing is lost or invented: the input is the emitted frames and the dropped bytes, interleaved in order,
      followed by the remainder, which is shorter than one longest frame. */
  lemma Conservation(s: Bytes) returns (ps: seq<Piece>)
    ensures Accounts(s, ps, Split(s).rest)
    ensures FramesIn(ps) == Split(s).frames
    ensures s == RawAll(ps) + Split(s).rest
    ensures |Split(s).rest| < MAX_FRAME && Short(Split(s).rest)
  {
    hide WellFormed, Split, FramesIn, RawAll, Accounts, Short;
    RestSettled(s);
    LookOnBytes(Split(s).rest);
    ps := BuildAccount(s);
    AccountUnique(s, ps, Split(s).rest);
    AccountRaw(s, ps, Split(s).rest);
  }

  /** The bound on the remainder is met: 259 bytes can be held back. */
  lemma LongestRemainder(slave: bv8)
    ensures exists s: Bytes :: |s| == MAX_FRAME - 1 && s[0] == slave && Split(s) == Splitting([], s)
  {
    var s: Bytes := [slave, READ_HOLDING, 255] + seq(256, i => 0);
    assert s[1] == READ_HOLDING && s[2] == 255;
    assert Look(s) == Wait;
    assert |s| == MAX_FRAME - 1 && s[0] == slave && Split(s) == Splitting([], s);
  }

  // ---------------------------------------------------------------- round trip

  /** A stream of whole frames followed by p comes apart into exactly those frames and p,
      if and only if p is still short of a decision. */
  lemma {:induction false} FramingRoundTrip(fs: seq<Bytes>, p: Bytes)
    requires forall i :: 0 <= i < |fs| ==> WellFormed(fs[i])
    ensures Split(Flatten(fs) + p) == Splitting(fs, p) <==> Short(p)
    decreases |fs|
  {
    hide Look, WellFormed, Short;
    if fs == [] {
      assert Flatten(fs) + p == p;
      SplitOnBytes(p);
    } else {
      var tail := Flatten(fs[1..]) + p;
      assert Flatten(fs) + p == fs[0] + tail;
      LookAtFrame(fs[0], tail);
      assert (fs[0] + tail)[|fs[0]|..] == tail && (fs[0] + tail)[..|fs[0]|] == fs[0];
      FramingRoundTrip(fs[1..], p);
      assert fs == [fs[0]] + fs[1..];
    }
  }

  lemma PrefixWaits(p: Bytes, f: Bytes)
    requires WellFormed(f) && p < f
    ensures Short(p)
  {
    ThreeIsNoException();
    if |p| >= 5 {
      assert HeadOf(p) == HeadOf(f);
    }
  }

  /** In particular for any proper prefix of a frame still on its way. */
  lemma FramesThenPrefix(fs: seq<Bytes>, p: Bytes, f: Bytes)
    requires forall i :: 0 <= i < |fs| ==> WellFormed(fs[i])
    requires WellFormed(f) && p < f
    ensures Split(Flatten(fs) + p) == Splitting(fs, p)
  {
    hide Look, WellFormed, Split, Short;
    PrefixWaits(p, f);
    FramingRoundTrip(fs, p);
  }

  // ---------------------------------------------------------------- resynchronisation

  /** At no offset inside g, read with s behind it, does a frame start. */
  ghost predicate JunkBefore(g: Bytes, s: Bytes) {
    forall i :: 0 <= i < |g| ==> Junk(g[i..] + s)
  }

  lemma {:induction false} Resynchronise(g: Bytes, s: Bytes)
    requires JunkBefore(g, s)
    ensures Split(g + s) == Split(s)
    decreases |g|
  {
    hide Look, Split, Junk, Short;
    if g == [] {
      assert g + s == s;
    } else {
      assert g[0..] + s == g + s;
      assert (g + s)[1..] == g[1..] + s;
      SplitOnBytes(g + s);
      forall i | 0 <= i < |g[1..]| ensures Junk(g[1..][i..] + s) {
        assert g[1..][i..] == g[i + 1..];
      }
      Resynchronise(g[1..], s);
    }
  }

  lemma {:induction false} OnlyNothingVanishes(s: Bytes)
    requires Split(s).frames == []
    ensures |Split(s).rest| >= if |s| < 4 then |s| else 4
    decreases |s|
  {
    hide HeadOf, CrcOk;
    match Look(s)
    case Wait =>
    case Drop => OnlyNothingVanishes(s[1..]);
    case Take(len) => assert false;
  }

  /** A good frame behind damaged bytes is recovered, alone and at once, exactly when every offset of the
      damaged bytes is recognisably junk. */
  lemma {:induction false} RecoversIff(g: Bytes, f: Bytes)
    requires WellFormed(f)
    ensures Split(g + f) == Splitting([f], []) <==> JunkBefore(g, f)
    decreases |g|
  {
    hide Look, WellFormed, Junk, Short;
    LookOnBytes(g + f);
    if JunkBefore(g, f) {
      Resynchronise(g, f);
      LookAtFrame(f, []);
      assert f + [] == f;
      assert f[|f|..] == [] && f[..|f|] == f;
      EmptyWaits();
    } else if Split(g + f) == Splitting([f], []) {
      assert g != [];
      match Look(g + f)
      case Wait =>
      case Drop =>
        assert (g + f)[1..] == g[1..] + f;
        RecoversIff(g[1..], f);
        forall i | 0 <= i < |g| ensures Junk(g[i..] + f) {
          if i == 0 {
            assert g[0..] == g;
          } else {
            assert g[i..] == g[1..][i - 1..];
          }
        }
      case Take(len) =>
        var tail := Split((g + f)[len..]);
        assert [(g + f)[..len]] + tail.frames == [f];
        assert tail.frames == [];
        assert f == ([(g + f)[..len]] + tail.frames)[0] == (g + f)[..len];
        OnlyNothingVanishes((g + f)[len..]);
    }
  }

  lemma EmptyWaits()
    ensures Look([]) == Wait
  {}

  /** Recovery is not unconditional: damage to a byte count can hold the next good frame back. */
  lemma DamageCanHoldBack(slave: bv8, data: Bytes)
    requires |data| < 240
    ensures var good := Seal(ResponseBody(slave, data));
            var damaged: Bytes := [slave, READ_HOLDING, 255, 0, 0, 0, 0];
            WellFormed(good) && Split(damaged + good) == Splitting([], damaged + good)
  {
    hide WellFormed, CrcOk;
    var good := Seal(ResponseBody(slave, data));
    var damaged: Bytes := [slave, READ_HOLDING, 255, 0, 0, 0, 0];
    ResponseWellFormed(slave, data);
    var s := damaged + good;
    assert s[1] == READ_HOLDING && s[2] == 255;
    assert |s| < 260;
  }
}
