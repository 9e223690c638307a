/** What the splitter delivers when frames are damaged on the way. */
module DamagedFrames {
  import opened Crc
  import opened CrcDetection
  import opened CrcDistance
  import opened Framing

  lemma {:induction false} DeliveredIsWellFormed(s: Bytes, i: nat)
    requires i < |Split(s).frames|
    ensures WellFormed(Split(s).frames[i])
    decreases |s|
  {
    hide Look, WellFormed;
    match Look(s)
    case Wait => assert false;
    case Drop => DeliveredIsWellFormed(s[1..], i);
    case Take(len) =>
      TakenFrame(s);
      if i > 0 {
        DeliveredIsWellFormed(s[len..], i - 1);
      }
  }

  lemma FrameLength(f: Bytes)
    requires WellFormed(f)
    ensures 5 <= |f| <= 260
  {}

  /** A burst of up to sixteen bits, an odd number of flipped bits, or up to three anywhere: none of them turns a frame
      into something the splitter would deliver, from whatever stream the damaged bytes arrive in. */
  lemma DamageIsNeverDelivered(stream: Bytes, frame: Bytes, e: Bytes, p: nat)
    requires WellFormed(frame) && |e| == |frame|
    requires || Count(BitsOf(e)) % 2 == 1
             || 1 <= Count(BitsOf(e)) <= 3
             || ((exists i :: 0 <= i < |e| && e[i] != 0) && WithinSixteen(BitsOf(e), p))
    ensures XorBytes(frame, e) !in Split(stream).frames
  {
    hide BitsOf, Split, CrcOk, Count;
    FrameLength(frame);
    if Count(BitsOf(e)) % 2 == 1 {
      OddErrorDetected(frame, e);
    } else if 1 <= Count(BitsOf(e)) <= 3 {
      ThreeFlipsDetected(frame, e);
    } else {
      BurstDetected(frame, e, p);
    }
    forall i | 0 <= i < |Split(stream).frames| ensures Split(stream).frames[i] != XorBytes(frame, e) {
      DeliveredIsWellFormed(stream, i);
    }
  }
}
