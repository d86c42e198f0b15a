/** The earlier stand-alone classifier script: instead of returning at the
    first match it overwrites one `gesture` variable, so the LAST test that
    fires wins, and it keeps the last non-empty label on screen. */
module GestureV03 {
  import opened Landmarks

  datatype Label = Fist | Peace | Stop | Eat | Shhh | CantHearLeft | CantHearRight | Heart | Medicine

  /** The label drawn on screen between frames. */
  datatype Banner = NoHandDetected | Showing(shown: Label)

  /** Base label from the finger count alone. */
  function BaseLabel(h: Hand): (r: Option<Label>)
  {
    var fs := FingersByHeight(h);
    var total := CountTrue(fs);
    if total == 0 then Some(Fist)
    else if total == 2 && fs[1] && fs[2] then Some(Peace)
    else if total == 5 then Some(Stop)
    else None
  }

  lemma BaseLabelIff(h: Hand)
    ensures BaseLabel(h) == Some(Fist) <==>
            !(h[4].y < h[3].y) && !FingerUp(h, 1) && !FingerUp(h, 2) && !FingerUp(h, 3) && !FingerUp(h, 4)
    ensures BaseLabel(h) == Some(Peace) <==>
            !(h[4].y < h[3].y) && FingerUp(h, 1) && FingerUp(h, 2) && !FingerUp(h, 3) && !FingerUp(h, 4)
    ensures BaseLabel(h) == Some(Stop) <==>
            h[4].y < h[3].y && FingerUp(h, 1) && FingerUp(h, 2) && FingerUp(h, 3) && FingerUp(h, 4)
  {
    CountFive(FingersByHeight(h));
  }

  /** One hand, in source order: base label, then Eat overwrites, Shhh only
      without Eat, then the left-ear and right-ear scans overwrite. */
  function OneHand(h: Hand, face: Face): (r: Option<Label>)
  {
    var g0 := BaseLabel(h);
    var eat := face.mouth.Some? && EatPose(h, face.mouth.value);
    var g1 := if eat then Some(Eat) else g0;
    var g2 := if !eat && face.mouth.Some? && Near(h[8], face.mouth.value, 40) then Some(Shhh) else g1;
    var g3 := if AnyNear(h[8], face.leftEar, 40) then Some(CantHearLeft) else g2;
    if AnyNear(h[8], face.rightEar, 40) then Some(CantHearRight) else g3
  }

  /** The same classification read as a first-match-wins chain: the tests
      written last in the script have the highest priority. */
  lemma OneHandPriority(h: Hand, face: Face)
    ensures OneHand(h, face) ==
      if exists e :: e in face.rightEar && Near(h[8], e, 40) then Some(CantHearRight)
      else if exists e :: e in face.leftEar && Near(h[8], e, 40) then Some(CantHearLeft)
      else if face.mouth.Some? && EatPose(h, face.mouth.value) then Some(Eat)
      else if face.mouth.Some? && Near(h[8], face.mouth.value, 40) then Some(Shhh)
      else BaseLabel(h)
  {
    AnyNearExists(h[8], face.rightEar, 40);
    AnyNearExists(h[8], face.leftEar, 40);
  }

  /** Index of the lowest landmark (largest y); like Python's `max` it is the
      first such landmark in list order. */
  function LowestIndex(s: seq<Point>): (i: nat)
    requires |s| > 0
    ensures i < |s|
    ensures forall j :: 0 <= j < |s| ==> s[j].y <= s[i].y
    ensures forall j :: 0 <= j < i ==> s[j].y < s[i].y
  {
    if |s| == 1 then 0
    else
      var k := LowestIndex(s[..|s| - 1]);
      if s[|s| - 1].y > s[k].y then |s| - 1 else k
  }

  /** Hand 1's lowest landmark touches hand 2's index, middle or ring tip. */
  predicate MedicinePose(h1: Hand, h2: Hand)
  {
    var low := h1[LowestIndex(h1)];
    Near(low, h2[8], 60) || Near(low, h2[12], 60) || Near(low, h2[16], 60)
  }

  function TwoHands(h1: Hand, h2: Hand): (r: Option<Label>)
    ensures r == Some(Heart) <==> HeartPose(h1, h2)
    ensures r == Some(Medicine) <==> !HeartPose(h1, h2) && MedicinePose(h1, h2)
    ensures r.None? <==> !HeartPose(h1, h2) && !MedicinePose(h1, h2)
  {
    var g := if HeartPose(h1, h2) then Some(Heart) else None;
    if g.None? && MedicinePose(h1, h2) then Some(Medicine) else g
  }

  function Classify(hands: seq<Hand>, face: Face): (r: Option<Label>)
    ensures |hands| == 0 || |hands| > 2 ==> r.None?
    // One hand: a one-hand label or none; two hands: Heart, Medicine or none.
    ensures |hands| == 1 ==> r == OneHand(hands[0], face)
    ensures |hands| == 2 ==> r == TwoHands(hands[0], hands[1])
    ensures r.Some? && |hands| == 1 ==> r.value !in {Heart, Medicine}
    ensures r.Some? && |hands| == 2 ==> r.value in {Heart, Medicine}
  {
    if |hands| == 1 then OneHand(hands[0], face)
    else if |hands| == 2 then TwoHands(hands[0], hands[1])
    else None
  }

  /** One pass of the display loop: with no hands the banner reads "No Hand
      Detected"; otherwise it changes only to a newly found label. */
  function Step(banner: Banner, hands: seq<Hand>, face: Face): (r: Banner)
    ensures |hands| == 0 ==> r == NoHandDetected
    ensures |hands| > 0 && Classify(hands, face).None? ==> r == banner
    ensures |hands| > 0 && Classify(hands, face).Some? ==> r == Showing(Classify(hands, face).value)
  {
    if |hands| == 0 then NoHandDetected
    else
      var g := Classify(hands, face);
      if g.Some? then Showing(g.value) else banner
  }

  /** The banner never shows an empty label: once a label has been shown it
      stays until a hand-less frame or another label replaces it. */
  lemma BannerSticky(banner: Banner, hands1: seq<Hand>, face1: Face, hands2: seq<Hand>, face2: Face)
    requires |hands1| > 0 && Classify(hands1, face1).Some?
    requires |hands2| > 0 && Classify(hands2, face2).None?
    ensures Step(Step(banner, hands1, face1), hands2, face2) == Showing(Classify(hands1, face1).value)
  {
  }
}
