/** The stand-alone "Hi & Stop" script: per hand slot, a wave of the open
    palm says Hi, and an open palm held still for 40 frames says Stop. Each
    slot keeps a wrist-x FIFO and a still counter; a frame with no hands
    clears both slots. */
module HiWave {
  import opened Landmarks
  import opened WaveDetector

  datatype HiGesture = Hi | Stop

  /** The text on screen: the initial "No Hand Detected", the empty string
      after a hand-less frame, or "<gesture> (<handedness> Hand)". */
  datatype Banner = NoHandDetected | Blank | Showing(gesture: HiGesture, side: Handedness)

  /** Open-palm frames without waving needed before Stop. */
  const StillFrames := 40

  type Counters = s: seq<nat> | |s| == 2 witness [0, 0]

  datatype HiState = HiState(bufs: Buffers, still: Counters, banner: Banner)

  const Initial: HiState := HiState(EmptyBuffers, [0, 0], NoHandDetected)

  /** What hand `t` in slot `idx` says on its own this frame. */
  function OwnGesture(s: HiState, idx: nat, t: TrackedHand): (g: Option<HiGesture>)
    requires idx < 2
  {
    if !OpenPalm(t.marks, t.side) then None
    else if Waving(Push(s.bufs[idx], t.marks[0].x), t.marks) then Some(Hi)
    else if s.still[idx] + 1 >= StillFrames then Some(Stop)
    else None
  }

  /** Loop body for slot `idx`. `gesture` is the frame-wide variable, which
      the script resets once per frame, not once per hand. */
  function HandStep(s: HiState, gesture: Option<HiGesture>, idx: nat, t: TrackedHand)
    : (r: (HiState, Option<HiGesture>))
    requires idx < 2
    ensures r.0.bufs == s.bufs[idx := Push(s.bufs[idx], t.marks[0].x)]
    ensures r.0.still[1 - idx] == s.still[1 - idx]
    ensures r.0.still[idx] ==
              if OpenPalm(t.marks, t.side) && !Waving(Push(s.bufs[idx], t.marks[0].x), t.marks)
              then s.still[idx] + 1 else 0
    ensures r.1 == if OwnGesture(s, idx, t).Some? then OwnGesture(s, idx, t) else gesture
    ensures r.0.banner == if r.1.Some? then Showing(r.1.value, t.side) else s.banner
  {
    var b := Push(s.bufs[idx], t.marks[0].x);
    var waving := Waving(b, t.marks);
    var c := s.still[idx];
    var (c', g') :=
      if OpenPalm(t.marks, t.side) then
        if waving then (0, Some(Hi))
        else (c + 1, if c + 1 >= StillFrames then Some(Stop) else gesture)
      else (0, gesture);
    var banner := if g'.Some? then Showing(g'.value, t.side) else s.banner;
    (HiState(s.bufs[idx := b], s.still[idx := c'], banner), g')
  }

  function Loop(s: HiState, gesture: Option<HiGesture>, hands: seq<TrackedHand>, idx: nat): HiState
    requires idx <= 2
    decreases 2 - idx
  {
    if idx == 2 || idx >= |hands| then s
    else
      var (s', g') := HandStep(s, gesture, idx, hands[idx]);
      Loop(s', g', hands, idx + 1)
  }

  /** One frame of the script exactly as written. */
  function FrameAsWritten(s: HiState, hands: seq<TrackedHand>): HiState
  {
    if |hands| == 0 then HiState(EmptyBuffers, [0, 0], Blank)
    else Loop(s, None, hands, 0)
  }

  /** The same loop with `gesture` reset for every hand, so the banner names
      the hand that made the gesture. */
  function LoopPerHand(s: HiState, hands: seq<TrackedHand>, idx: nat): HiState
    requires idx <= 2
    decreases 2 - idx
  {
    if idx == 2 || idx >= |hands| then s
    else LoopPerHand(HandStep(s, None, idx, hands[idx]).0, hands, idx + 1)
  }

  /** One frame of the Hi/Stop detector. */
  function HiFrame(s: HiState, hands: seq<TrackedHand>): (r: HiState)
    // A hand-less frame clears both slots and blanks the banner.
    ensures |hands| == 0 ==> r == HiState(EmptyBuffers, [0, 0], Blank)
    // Every processed slot receives its wrist sample; others are untouched.
    ensures forall i :: 0 < |hands| && 0 <= i < 2 ==>
              r.bufs[i] == if i < |hands| then Push(s.bufs[i], hands[i].marks[0].x) else s.bufs[i]
    // Still counters: +1 on a still open palm, 0 on a waving or non-open hand.
    ensures forall i :: 0 <= i < 2 && i < |hands| ==>
              r.still[i] == if OpenPalm(hands[i].marks, hands[i].side)
                               && !Waving(Push(s.bufs[i], hands[i].marks[0].x), hands[i].marks)
                            then s.still[i] + 1 else 0
    ensures forall i :: 0 < |hands| && |hands| <= i < 2 ==> r.still[i] == s.still[i]
  {
    if |hands| == 0 then HiState(EmptyBuffers, [0, 0], Blank)
    else
      var s1 := HandStep(s, None, 0, hands[0]).0;
      if |hands| == 1 then s1
      else
        HandStep(s1, None, 1, hands[1]).0
  }

  /** The gestures the first two hands make on their own this frame. */
  function Gestures(s: HiState, hands: seq<TrackedHand>): (gs: (Option<HiGesture>, Option<HiGesture>))
    requires |hands| > 0
  {
    (OwnGesture(s, 0, hands[0]), if |hands| > 1 then OwnGesture(s, 1, hands[1]) else None)
  }

  /** The corrected banner: the gesture of the last hand that made one,
      with that hand's own side; with no gesture it stays. So it changes
      only to a gesture some hand made, and every gesture made reaches it
      unless a later hand overrides it. */
  lemma FrameBanner(s: HiState, hands: seq<TrackedHand>)
    requires |hands| > 0
    ensures var r := HiFrame(s, hands);
            var (g0, g1) := Gestures(s, hands);
            r.banner == if g1.Some? then Showing(g1.value, hands[1].side)
                        else if g0.Some? then Showing(g0.value, hands[0].side)
                        else s.banner
    ensures var r := HiFrame(s, hands);
            r.banner != s.banner ==>
              r.banner.Showing? &&
              exists i :: 0 <= i < 2 && i < |hands| && hands[i].side == r.banner.side
                          && OwnGesture(s, i, hands[i]) == Some(r.banner.gesture)
  {
    if |hands| > 1 {
      var s1 := HandStep(s, None, 0, hands[0]).0;
      assert OwnGesture(s1, 1, hands[1]) == OwnGesture(s, 1, hands[1]);
    }
  }

  /** The script as written: the same buffers and still counters as the
      corrected frame, but a gesture of hand 0 that hand 1 does not
      override is shown with hand 1's side. */
  lemma FrameAsWrittenBanner(s: HiState, hands: seq<TrackedHand>)
    requires |hands| > 0
    ensures var r := FrameAsWritten(s, hands);
            var (g0, g1) := Gestures(s, hands);
            var last := if |hands| > 1 then hands[1].side else hands[0].side;
            r.banner == if g1.Some? then Showing(g1.value, hands[1].side)
                        else if g0.Some? then Showing(g0.value, last)
                        else s.banner
    ensures FrameAsWritten(s, hands).bufs == HiFrame(s, hands).bufs
    ensures FrameAsWritten(s, hands).still == HiFrame(s, hands).still
  {
    var (s1, g1) := HandStep(s, None, 0, hands[0]);
    assert Loop(s, None, hands, 0) == Loop(s1, g1, hands, 1);
    if |hands| > 1 {
      assert OwnGesture(s1, 1, hands[1]) == OwnGesture(s, 1, hands[1]);
      var (s2, g2) := HandStep(s1, g1, 1, hands[1]);
      assert Loop(s1, g1, hands, 1) == Loop(s2, g2, hands, 2) == s2;
      assert s2.bufs == HandStep(s1, None, 1, hands[1]).0.bufs;
      assert s2.still == HandStep(s1, None, 1, hands[1]).0.still;
    } else {
      assert Loop(s1, g1, hands, 1) == s1;
    }
  }

  /** The per-hand loop is the one `HiFrame` describes. */
  lemma FrameIsLoopPerHand(s: HiState, hands: seq<TrackedHand>)
    requires |hands| > 0
    ensures HiFrame(s, hands) == LoopPerHand(s, hands, 0)
  {
  }

  /** Hi means an open palm whose last five wrist samples spread; it resets
      that slot's still counter. Stop means the 40th consecutive still
      open-palm frame or later. */
  lemma OwnGestureMeaning(s: HiState, idx: nat, t: TrackedHand)
    requires idx < 2
    ensures OwnGesture(s, idx, t) == Some(Hi) <==>
            ThumbOut(t.marks, t.side) && (forall f :: 1 <= f <= 4 ==> FingerUp(t.marks, f))
            && |Push(s.bufs[idx], t.marks[0].x)| == BufferLen
            && Waving(Push(s.bufs[idx], t.marks[0].x), t.marks)
    ensures OwnGesture(s, idx, t) == Some(Stop) <==>
            OpenPalm(t.marks, t.side) && !Waving(Push(s.bufs[idx], t.marks[0].x), t.marks)
            && HandStep(s, None, idx, t).0.still[idx] >= StillFrames
  {
    OpenPalmIff(t.marks, t.side);
    assert (forall f :: 1 <= f <= 4 ==> FingerUp(t.marks, f)) <==>
      FingerUp(t.marks, 1) && FingerUp(t.marks, 2) && FingerUp(t.marks, 3) && FingerUp(t.marks, 4);
  }

  function Run(s: HiState, frames: seq<seq<TrackedHand>>): HiState
    decreases |frames|
  {
    if |frames| == 0 then s else Run(HiFrame(s, frames[0]), frames[1..])
  }

  predicate NotStop(b: Banner) { !(b.Showing? && b.gesture == Stop) }

  /** Stop cannot appear until some slot has counted 40 still frames: from
      counters c0, c1 no run shorter than 40 - max(c0, c1) frames shows it. */
  lemma {:induction false} NoStopTooEarly(s: HiState, frames: seq<seq<TrackedHand>>)
    requires NotStop(s.banner)
    requires s.still[0] + |frames| < StillFrames && s.still[1] + |frames| < StillFrames
    ensures NotStop(Run(s, frames).banner)
    decreases |frames|
  {
    if |frames| > 0 {
      var s' := HiFrame(s, frames[0]);
      var hs := frames[0];
      forall i | 0 <= i < 2 && i < |hs|
        ensures OwnGesture(s, i, hs[i]) != Some(Stop)
      {
      }
      assert NotStop(s'.banner);
      assert s'.still[0] <= s.still[0] + 1 && s'.still[1] <= s.still[1] + 1;
      NoStopTooEarly(s', frames[1..]);
    }
  }

  lemma StopNeedsFortyFrames(frames: seq<seq<TrackedHand>>)
    requires |frames| < StillFrames
    ensures NotStop(Run(Initial, frames).banner)
  {
    NoStopTooEarly(Initial, frames);
  }

  /** Successive frames of the script exactly as written. */
  function RunAsWritten(s: HiState, frames: seq<seq<TrackedHand>>): HiState
    decreases |frames|
  {
    if |frames| == 0 then s else RunAsWritten(FrameAsWritten(s, frames[0]), frames[1..])
  }

  /** The same bound for the script as written: its banner may name the
      wrong hand, but it shows Stop no earlier. */
  lemma {:induction false} NoStopTooEarlyAsWritten(s: HiState, frames: seq<seq<TrackedHand>>)
    requires NotStop(s.banner)
    requires s.still[0] + |frames| < StillFrames && s.still[1] + |frames| < StillFrames
    ensures NotStop(RunAsWritten(s, frames).banner)
    decreases |frames|
  {
    if |frames| > 0 {
      var hs := frames[0];
      var s' := FrameAsWritten(s, hs);
      if |hs| > 0 {
        FrameAsWrittenBanner(s, hs);
        forall i | 0 <= i < 2 && i < |hs|
          ensures OwnGesture(s, i, hs[i]) != Some(Stop)
        {
        }
      }
      assert NotStop(s'.banner);
      assert s'.still[0] <= s.still[0] + 1 && s'.still[1] <= s.still[1] + 1;
      NoStopTooEarlyAsWritten(s', frames[1..]);
    }
  }

  lemma StopNeedsFortyFramesAsWritten(frames: seq<seq<TrackedHand>>)
    requires |frames| < StillFrames
    ensures NotStop(RunAsWritten(Initial, frames).banner)
  {
    NoStopTooEarlyAsWritten(Initial, frames);
  }

  // ---- the as-written loop labels with the wrong hand -------------------

  /** Open palm, right hand, wrist at x = 100, y = 50, fingertips at y = 0. */
  function OpenRight(): Hand
  {
    seq(21, i => Point(if i == 4 then 0 else 100, if i in {8, 12, 16, 20} then 0 else 50))
  }

  /** Closed hand: fingertips below their joints, thumb level with joint 3. */
  function ClosedHand(): Hand
  {
    seq(21, i => Point(0, if i in {8, 12, 16, 20} then 50 else 0))
  }

  /** Slot 0 already holds four samples at x = 0. */
  function PrimedState(): HiState
  {
    var four: Buffer := [0, 0, 0, 0];
    var e: Buffer := [];
    HiState([four, e], [0, 0], NoHandDetected)
  }

  lemma OpenRightIsOpenPalm()
    ensures OpenPalm(OpenRight(), Right)
    ensures OpenRight()[0] == Point(100, 50) && OpenRight()[12] == Point(100, 0)
  {
    var h := OpenRight();
    OpenPalmIff(h, Right);
    assert h[4].x == 0 && h[3].x == 100;
    assert h[8].y == 0 && h[6].y == 50 && h[12].y == 0 && h[10].y == 50;
    assert h[16].y == 0 && h[14].y == 50 && h[20].y == 0 && h[18].y == 50;
  }

  lemma ClosedHandIsNotOpen(side: Handedness)
    ensures !OpenPalm(ClosedHand(), side)
  {
    var h := ClosedHand();
    OpenPalmIff(h, side);
    assert h[8].y == 50 && h[6].y == 0;
  }

  lemma PrimedSlotWaves()
    ensures Waving(Push(PrimedState().bufs[0], 100), OpenRight())
  {
    OpenRightIsOpenPalm();
    var b := Push(PrimedState().bufs[0], 100);
    assert b == [0, 0, 0, 0, 100];
    assert Max(b) == 100 && Min(b) == 0;
  }

  /** A waving right hand in slot 0 and a closed left hand in slot 1: the
      script shows "Hi (Left Hand)", naming the hand that did nothing. */
  lemma AsWrittenNamesIdleHand()
    ensures var hands := [TrackedHand(OpenRight(), Right), TrackedHand(ClosedHand(), Left)];
            && OwnGesture(PrimedState(), 0, hands[0]) == Some(Hi)
            && OwnGesture(PrimedState(), 1, hands[1]) == None
            && FrameAsWritten(PrimedState(), hands).banner == Showing(Hi, Left)
            && HiFrame(PrimedState(), hands).banner == Showing(Hi, Right)
  {
    var s := PrimedState();
    var t0, t1 := TrackedHand(OpenRight(), Right), TrackedHand(ClosedHand(), Left);
    var hands := [t0, t1];
    OpenRightIsOpenPalm();
    ClosedHandIsNotOpen(Left);
    PrimedSlotWaves();
    assert OwnGesture(s, 0, t0) == Some(Hi);
    var (s1, g1) := HandStep(s, None, 0, t0);
    assert g1 == Some(Hi) && s1.banner == Showing(Hi, Right);
    assert OwnGesture(s1, 1, t1) == None;
    var (s2, g2) := HandStep(s1, g1, 1, t1);
    assert g2 == Some(Hi) && s2.banner == Showing(Hi, Left);
    assert Loop(s, None, hands, 0) == Loop(s1, g1, hands, 1) == Loop(s2, g2, hands, 2);
    var (s2', g2') := HandStep(s1, None, 1, t1);
    assert s2'.banner == Showing(Hi, Right);
  }
}
