/** The geometric gesture classifier used by the main application: a
    first-match-wins predicate chain over one or two hands plus the face
    landmarks, evaluated afresh on every frame. */
module GestureRecognition {
  import opened Landmarks

  datatype Gesture =
    | ThumbsUp | ThumbsDown | Fist | Peace | Stop | Eat | Silence | CantHear  // one hand
    | CoverEyes | Heart | Clap                                                // two hands

  predicate OneHandLabel(g: Gesture)
  {
    !(g.CoverEyes? || g.Heart? || g.Clap?)
  }

  // ---- one hand ---------------------------------------------------------

  predicate ThumbsUpPose(h: Hand)
  {
    h[4].y < h[3].y && OthersFolded(h)
  }

  predicate ThumbsDownPose(h: Hand)
  {
    h[4].y > h[3].y && OthersFolded(h)
  }

  /** Two fingers up and they are the index and the middle. */
  predicate PeaceShape(fs: seq<bool>)
    requires |fs| == 5
  {
    CountTrue(fs) == 2 && fs[1] && fs[2]
  }

  /** Index tip within 40 px of the mouth. */
  predicate SilencePose(h: Hand, mouth: Point)
  {
    Near(h[8], mouth, 40)
  }

  predicate CantHearPose(h: Hand, leftEar: seq<Point>, rightEar: seq<Point>)
  {
    AnyNear(h[8], leftEar + rightEar, 40)
  }

  function DetectOneHand(h: Hand, mouth: Option<Point>, leftEar: seq<Point>, rightEar: seq<Point>)
    : (r: Option<Gesture>)
    ensures r.Some? ==> OneHandLabel(r.value)
  {
    var fs := FingersByHeight(h);
    var total := CountTrue(fs);
    if ThumbsUpPose(h) then Some(ThumbsUp)
    else if ThumbsDownPose(h) then Some(ThumbsDown)
    else if total == 0 then Some(Fist)
    else if PeaceShape(fs) then Some(Peace)
    else if total == 5 then Some(Stop)
    else if mouth.Some? && EatPose(h, mouth.value) then Some(Eat)
    else if mouth.Some? && SilencePose(h, mouth.value) then Some(Silence)
    else if CantHearPose(h, leftEar, rightEar) then Some(CantHear)
    else None
  }

  /** Thumbs_Up is checked first and wins exactly when the thumb tip is above
      joint 3 and the four other tips are strictly below their references. */
  lemma ThumbsUpIff(h: Hand, mouth: Option<Point>, leftEar: seq<Point>, rightEar: seq<Point>)
    ensures DetectOneHand(h, mouth, leftEar, rightEar) == Some(ThumbsUp) <==>
            h[4].y < h[3].y && forall f :: 1 <= f <= 4 ==> h[TipId(f)].y > h[RefId(f)].y
  {
    assert OthersFolded(h) <==> forall f :: 1 <= f <= 4 ==> FingerFolded(h, f);
  }

  /** A hand whose thumb and four fingers are all strictly folded is caught
      as Thumbs_Down before the finger count is looked at. */
  lemma AllFoldedIsThumbsDown(h: Hand, mouth: Option<Point>, leftEar: seq<Point>, rightEar: seq<Point>)
    requires h[4].y > h[3].y
    requires forall f :: 1 <= f <= 4 ==> h[TipId(f)].y > h[RefId(f)].y
    ensures DetectOneHand(h, mouth, leftEar, rightEar) == Some(ThumbsDown)
  {
    assert FingerFolded(h, 1) && FingerFolded(h, 2) && FingerFolded(h, 3) && FingerFolded(h, 4);
  }

  /** Fist is only reachable through a tie: some tip at exactly the height of
      its reference joint. */
  lemma FistNeedsTie(h: Hand, mouth: Option<Point>, leftEar: seq<Point>, rightEar: seq<Point>)
    requires DetectOneHand(h, mouth, leftEar, rightEar) == Some(Fist)
    ensures h[4].y == h[3].y || exists f :: 1 <= f <= 4 && h[TipId(f)].y == h[RefId(f)].y
  {
    var fs := FingersByHeight(h);
    CountFive(fs);
    if h[4].y != h[3].y {
      assert !OthersFolded(h);
      if !FingerFolded(h, 1) { assert h[TipId(1)].y == h[RefId(1)].y; }
      else if !FingerFolded(h, 2) { assert h[TipId(2)].y == h[RefId(2)].y; }
      else if !FingerFolded(h, 3) { assert h[TipId(3)].y == h[RefId(3)].y; }
      else { assert h[TipId(4)].y == h[RefId(4)].y; }
    }
  }

  /** Peace exactly when index and middle are the only fingers up (the thumb
      checks cannot fire then, because the index is up). */
  lemma PeaceIff(h: Hand, mouth: Option<Point>, leftEar: seq<Point>, rightEar: seq<Point>)
    ensures DetectOneHand(h, mouth, leftEar, rightEar) == Some(Peace) <==>
            !(h[4].y < h[3].y) && FingerUp(h, 1) && FingerUp(h, 2) && !FingerUp(h, 3) && !FingerUp(h, 4)
  {
    CountFive(FingersByHeight(h));
  }

  /** Stop exactly when all five fingers are up. */
  lemma StopIff(h: Hand, mouth: Option<Point>, leftEar: seq<Point>, rightEar: seq<Point>)
    ensures DetectOneHand(h, mouth, leftEar, rightEar) == Some(Stop) <==>
            h[4].y < h[3].y && FingerUp(h, 1) && FingerUp(h, 2) && FingerUp(h, 3) && FingerUp(h, 4)
  {
    CountFive(FingersByHeight(h));
  }

  /** The hand shapes that reach the face tests: not a thumbs-up, between one
      and four fingers up, and not the peace sign. */
  predicate PartialHand(h: Hand)
  {
    var fs := FingersByHeight(h);
    !ThumbsUpPose(h) && 0 < CountTrue(fs) < 5 && !PeaceShape(fs)
  }

  /** Eat wins over Silence and Cant_hear, and needs a mouth point, pinched
      index and middle tips, a midpoint below the mouth and within 100 px. */
  lemma EatIff(h: Hand, mouth: Option<Point>, leftEar: seq<Point>, rightEar: seq<Point>)
    ensures DetectOneHand(h, mouth, leftEar, rightEar) == Some(Eat) <==>
            PartialHand(h) && mouth.Some? && EatPose(h, mouth.value)
  {
    CountFive(FingersByHeight(h));
  }

  /** Silence only when Eat did not apply. */
  lemma SilenceIff(h: Hand, mouth: Option<Point>, leftEar: seq<Point>, rightEar: seq<Point>)
    ensures DetectOneHand(h, mouth, leftEar, rightEar) == Some(Silence) <==>
            PartialHand(h) && mouth.Some? && !EatPose(h, mouth.value) && SilencePose(h, mouth.value)
  {
    CountFive(FingersByHeight(h));
  }

  /** Cant_hear last: index tip within 40 px of some ear point, either ear,
      when neither mouth gesture applied. */
  lemma CantHearIff(h: Hand, mouth: Option<Point>, leftEar: seq<Point>, rightEar: seq<Point>)
    ensures DetectOneHand(h, mouth, leftEar, rightEar) == Some(CantHear) <==>
            && PartialHand(h)
            && (mouth.None? || (!EatPose(h, mouth.value) && !SilencePose(h, mouth.value)))
            && exists e :: e in leftEar + rightEar && Near(h[8], e, 40)
  {
    CountFive(FingersByHeight(h));
    AnyNearExists(h[8], leftEar + rightEar, 40);
  }

  /** The face gestures never fire on a closed or fully open hand. */
  lemma FaceGesturesNeedPartialHand(h: Hand, mouth: Option<Point>, leftEar: seq<Point>, rightEar: seq<Point>)
    requires DetectOneHand(h, mouth, leftEar, rightEar) in {Some(Eat), Some(Silence), Some(CantHear)}
    ensures 0 < CountTrue(FingersByHeight(h)) < 5
  {
  }

  // ---- two hands --------------------------------------------------------

  /** Index, middle and ring tips. */
  function Tips(h: Hand): (t: seq<Point>)
    ensures |t| == 3
  {
    [h[8], h[12], h[16]]
  }

  predicate CoverEyesPose(h1: Hand, h2: Hand, leftEye: seq<Point>, rightEye: seq<Point>)
  {
    && |leftEye| > 0 && |rightEye| > 0
    && AnyPairNear(Tips(h1), leftEye, 60)
    && AnyPairNear(Tips(h2), rightEye, 60)
  }

  predicate ClapPose(h1: Hand, h2: Hand)
  {
    Near(h1[0], h2[0], 80) && PairCount(Tips(h1), Tips(h2), 50) >= 3
  }

  function DetectTwoHands(h1: Hand, h2: Hand, leftEye: seq<Point>, rightEye: seq<Point>)
    : (r: Option<Gesture>)
    ensures r.Some? ==> !OneHandLabel(r.value)
  {
    if CoverEyesPose(h1, h2, leftEye, rightEye) then Some(CoverEyes)
    else if HeartPose(h1, h2) then Some(Heart)
    else if ClapPose(h1, h2) then Some(Clap)
    else None
  }

  /** Cover_eyes comes first and needs some hand-1 tip of {8,12,16} within
      60 px of a left-eye point and some hand-2 tip within 60 px of a
      right-eye point. */
  lemma CoverEyesIff(h1: Hand, h2: Hand, leftEye: seq<Point>, rightEye: seq<Point>)
    ensures DetectTwoHands(h1, h2, leftEye, rightEye) == Some(CoverEyes) <==>
            && (exists i, j :: 0 <= i < 3 && 0 <= j < |leftEye| && Near(Tips(h1)[i], leftEye[j], 60))
            && (exists i, j :: 0 <= i < 3 && 0 <= j < |rightEye| && Near(Tips(h2)[i], rightEye[j], 60))
  {
    AnyPairNearExists(Tips(h1), leftEye, 60);
    AnyPairNearExists(Tips(h2), rightEye, 60);
  }

  /** Heart exactly when cover-eyes did not apply and both the thumb tips and
      the pinky tips are within 60 px; the pose ignores hand order. */
  lemma HeartIff(h1: Hand, h2: Hand, leftEye: seq<Point>, rightEye: seq<Point>)
    ensures DetectTwoHands(h1, h2, leftEye, rightEye) == Some(Heart) <==>
            !CoverEyesPose(h1, h2, leftEye, rightEye) && Near(h1[4], h2[4], 60) && Near(h1[20], h2[20], 60)
    ensures HeartPose(h1, h2) <==> HeartPose(h2, h1)
  {
    NearSymmetric(h1[4], h2[4], 60);
    NearSymmetric(h1[20], h2[20], 60);
  }

  /** Clap needs at least three of the (at most nine) tip pairs within 50 px
      and wrists within 80 px, and loses to cover-eyes and heart. */
  lemma ClapIff(h1: Hand, h2: Hand, leftEye: seq<Point>, rightEye: seq<Point>)
    ensures DetectTwoHands(h1, h2, leftEye, rightEye) == Some(Clap) <==>
            && !CoverEyesPose(h1, h2, leftEye, rightEye) && !HeartPose(h1, h2)
            && Near(h1[0], h2[0], 80) && 3 <= PairCount(Tips(h1), Tips(h2), 50) <= 9
  {
  }

  // ---- dispatch ---------------------------------------------------------

  /** `detect_custom_gesture`: one hand uses mouth and ears, two hands use the
      eyes, any other count gives no gesture. */
  function DetectCustomGesture(hands: seq<Hand>, face: Face): (r: Option<Gesture>)
    ensures (|hands| == 0 || |hands| > 2) ==> r.None?
    ensures r.Some? && |hands| == 1 ==> OneHandLabel(r.value)
    ensures r.Some? && |hands| == 2 ==> !OneHandLabel(r.value)
  {
    if |hands| == 1 then DetectOneHand(hands[0], face.mouth, face.leftEar, face.rightEar)
    else if |hands| == 2 then DetectTwoHands(hands[0], hands[1], face.leftEye, face.rightEye)
    else None
  }

  /** With one hand the eye points are never consulted; with two hands the
      mouth and ear points are never consulted. */
  lemma FaceFieldsConsulted(hands: seq<Hand>, f1: Face, f2: Face)
    ensures |hands| == 1 && f1.mouth == f2.mouth && f1.leftEar == f2.leftEar && f1.rightEar == f2.rightEar
            ==> DetectCustomGesture(hands, f1) == DetectCustomGesture(hands, f2)
    ensures |hands| == 2 && f1.leftEye == f2.leftEye && f1.rightEye == f2.rightEye
            ==> DetectCustomGesture(hands, f1) == DetectCustomGesture(hands, f2)
  {
  }
}
