/** Per-frame perception data shared by every classifier: integer pixel
    points, 21-landmark hands with their handedness label, the face
    landmark subset, and the exact-integer distance tests that stand in for
    `math.hypot(dx, dy) < r`. */
module Landmarks {

  datatype Option<+T> = None | Some(value: T)

  /** A pixel position; MediaPipe's normalised coordinates are truncated to
      `int` before any comparison, so every test below is exact. */
  datatype Point = Point(x: int, y: int)

  /** MediaPipe emits 21 landmarks per hand and the list position is the
      landmark id (0 wrist, 3 thumb joint, 4 thumb tip, 8/12/16/20 the other
      tips), so a lookup by id is an index. */
  const HandSize := 21

  type Hand = h: seq<Point> | |h| == HandSize witness seq(21, _ => Point(0, 0))

  /** MediaPipe's handedness label: 'Right' or 'Left'. */
  datatype Handedness = Left | Right

  datatype TrackedHand = TrackedHand(marks: Hand, side: Handedness)

  /** Face landmarks after the per-frame extraction loop: the mouth top point
      when a face was found, and the eye and ear clusters (empty without a
      face). */
  datatype Face = Face(mouth: Option<Point>, leftEye: seq<Point>, rightEye: seq<Point>,
                       leftEar: seq<Point>, rightEar: seq<Point>)

  /** Everything the perception provider reports for one camera frame. */
  datatype Frame = Frame(hands: seq<TrackedHand>, face: Face)

  function Marks(hands: seq<TrackedHand>): (r: seq<Hand>)
    ensures |r| == |hands|
    ensures forall i :: 0 <= i < |hands| ==> r[i] == hands[i].marks
  {
    if |hands| == 0 then [] else [hands[0].marks] + Marks(hands[1..])
  }

  function SqDist(p: Point, q: Point): int
  {
    (p.x - q.x) * (p.x - q.x) + (p.y - q.y) * (p.y - q.y)
  }

  /** `math.hypot(p - q) < r` on integer points. */
  predicate Near(p: Point, q: Point, r: nat)
  {
    SqDist(p, q) < r * r
  }

  lemma NearSymmetric(p: Point, q: Point, r: nat)
    ensures Near(p, q, r) <==> Near(q, p, r)
  {
    assert (p.x - q.x) * (p.x - q.x) == (q.x - p.x) * (q.x - p.x);
    assert (p.y - q.y) * (p.y - q.y) == (q.y - p.y) * (q.y - p.y);
  }

  /** The source's `for ex, ey in pts: if hypot(...) < r: ...` scan. */
  predicate AnyNear(p: Point, pts: seq<Point>, r: nat)
  {
    |pts| > 0 && (Near(p, pts[0], r) || AnyNear(p, pts[1..], r))
  }

  lemma {:induction false} AnyNearExists(p: Point, pts: seq<Point>, r: nat)
    ensures AnyNear(p, pts, r) <==> exists j :: 0 <= j < |pts| && Near(p, pts[j], r)
  {
    if |pts| > 0 {
      AnyNearExists(p, pts[1..], r);
      if AnyNear(p, pts[1..], r) {
        var j :| 0 <= j < |pts[1..]| && Near(p, pts[1..][j], r);
        assert Near(p, pts[j + 1], r);
      }
      if exists j :: 0 <= j < |pts| && Near(p, pts[j], r) {
        var j :| 0 <= j < |pts| && Near(p, pts[j], r);
        if j > 0 {
          assert pts[1..][j - 1] == pts[j];
        }
      }
    }
  }

  /** Two nested scans: some point of `a` within `r` of some point of `b`. */
  predicate AnyPairNear(a: seq<Point>, b: seq<Point>, r: nat)
  {
    |a| > 0 && (AnyNear(a[0], b, r) || AnyPairNear(a[1..], b, r))
  }

  lemma {:induction false} AnyPairNearExists(a: seq<Point>, b: seq<Point>, r: nat)
    ensures AnyPairNear(a, b, r) <==>
            exists i, j :: 0 <= i < |a| && 0 <= j < |b| && Near(a[i], b[j], r)
  {
    if |a| > 0 {
      AnyNearExists(a[0], b, r);
      AnyPairNearExists(a[1..], b, r);
      if AnyPairNear(a[1..], b, r) {
        var i, j :| 0 <= i < |a[1..]| && 0 <= j < |b| && Near(a[1..][i], b[j], r);
        assert Near(a[i + 1], b[j], r);
      }
      if exists i, j :: 0 <= i < |a| && 0 <= j < |b| && Near(a[i], b[j], r) {
        var i, j :| 0 <= i < |a| && 0 <= j < |b| && Near(a[i], b[j], r);
        if i > 0 {
          assert a[1..][i - 1] == a[i];
        }
      }
    }
  }

  /** How many points of `b` lie within `r` of `p`. */
  function RowCount(p: Point, b: seq<Point>, r: nat): (n: nat)
    ensures n <= |b|
  {
    if |b| == 0 then 0 else RowCount(p, b[..|b| - 1], r) + B2I(Near(p, b[|b| - 1], r))
  }

  /** How many pairs (one point of `a`, one of `b`) lie within `r`. */
  function PairCount(a: seq<Point>, b: seq<Point>, r: nat): (n: nat)
    ensures n <= |a| * |b|
  {
    if |a| == 0 then 0
    else
      var n := PairCount(a[..|a| - 1], b, r) + RowCount(a[|a| - 1], b, r);
      assert (|a| - 1) * |b| + |b| == |a| * |b|;
      n
  }

  /** The source's counting loop nest over two tip lists. */
  method CountClosePairs(a: seq<Point>, b: seq<Point>, r: nat) returns (close: nat)
    ensures close == PairCount(a, b, r)
    ensures close <= |a| * |b|
  {
    close := 0;
    var i := 0;
    while i < |a|
      invariant 0 <= i <= |a|
      invariant close == PairCount(a[..i], b, r)
    {
      var j := 0;
      var row := 0;
      while j < |b|
        invariant 0 <= j <= |b|
        invariant row == RowCount(a[i], b[..j], r)
      {
        assert b[..j + 1][..j] == b[..j];
        if Near(a[i], b[j], r) {
          row := row + 1;
        }
        j := j + 1;
      }
      assert b[..j] == b;
      assert a[..i + 1][..i] == a[..i];
      close := close + row;
      i := i + 1;
    }
    assert a[..i] == a;
  }

  /** Number of `true` entries: the source's `sum(fingers)` over 0/1 flags. */
  function CountTrue(s: seq<bool>): (n: nat)
    ensures n <= |s|
  {
    if |s| == 0 then 0 else (if s[0] then 1 else 0) + CountTrue(s[1..])
  }

  function B2I(b: bool): int { if b then 1 else 0 }

  /** For the five finger flags the count is their plain sum. */
  lemma CountFive(s: seq<bool>)
    requires |s| == 5
    ensures CountTrue(s) == B2I(s[0]) + B2I(s[1]) + B2I(s[2]) + B2I(s[3]) + B2I(s[4])
  {
    var t1, t2, t3, t4 := s[1..], s[2..], s[3..], s[4..];
    assert t1[1..] == t2 && t2[1..] == t3 && t3[1..] == t4 && t4[1..] == [];
    assert CountTrue(t4) == B2I(s[4]);
    assert CountTrue(t3) == B2I(s[3]) + CountTrue(t4);
    assert CountTrue(t2) == B2I(s[2]) + CountTrue(t3);
    assert CountTrue(t1) == B2I(s[1]) + CountTrue(t2);
  }

  // ---- finger extension -------------------------------------------------

  /** Tip landmark of non-thumb finger f (1 index, 2 middle, 3 ring,
      4 pinky): 8, 12, 16, 20. */
  function TipId(f: int): int { 4 * f + 4 }

  /** The joint two ids below the tip: 6, 10, 14, 18. */
  function RefId(f: int): int { 4 * f + 2 }

  /** Finger f is extended when its tip is strictly above (smaller y) its
      reference joint. */
  predicate FingerUp(h: Hand, f: int)
    requires 1 <= f <= 4
  {
    h[TipId(f)].y < h[RefId(f)].y
  }

  /** Finger f is strictly folded: tip strictly below its reference joint. */
  predicate FingerFolded(h: Hand, f: int)
    requires 1 <= f <= 4
  {
    h[TipId(f)].y > h[RefId(f)].y
  }

  /** The four non-thumb fingers are all strictly folded. */
  predicate OthersFolded(h: Hand)
  {
    FingerFolded(h, 1) && FingerFolded(h, 2) && FingerFolded(h, 3) && FingerFolded(h, 4)
  }

  /** Finger flags of the face-gesture classifiers: the thumb counts as up
      when its tip is above joint 3 (a y test, no handedness). */
  function FingersByHeight(h: Hand): (fs: seq<bool>)
    ensures |fs| == 5
    ensures fs[0] <==> h[4].y < h[3].y
    ensures forall f :: 1 <= f <= 4 ==> (fs[f] <==> FingerUp(h, f))
  {
    [h[4].y < h[3].y, FingerUp(h, 1), FingerUp(h, 2), FingerUp(h, 3), FingerUp(h, 4)]
  }

  /** Thumb extension of the wave detectors: an x test whose direction
      depends on handedness, because the camera sees the palm mirrored. */
  predicate ThumbOut(h: Hand, side: Handedness)
  {
    if side == Right then h[4].x < h[3].x else h[4].x > h[3].x
  }

  /** Finger flags of the wave detectors. */
  function FingersBySide(h: Hand, side: Handedness): (fs: seq<bool>)
    ensures |fs| == 5
    ensures fs[0] <==> ThumbOut(h, side)
    ensures forall f :: 1 <= f <= 4 ==> (fs[f] <==> FingerUp(h, f))
  {
    [ThumbOut(h, side), FingerUp(h, 1), FingerUp(h, 2), FingerUp(h, 3), FingerUp(h, 4)]
  }

  /** `total_fingers == 5` in the wave detectors: the open palm. */
  predicate OpenPalm(h: Hand, side: Handedness)
  {
    CountTrue(FingersBySide(h, side)) == 5
  }

  lemma OpenPalmIff(h: Hand, side: Handedness)
    ensures OpenPalm(h, side) <==>
            ThumbOut(h, side) && FingerUp(h, 1) && FingerUp(h, 2) && FingerUp(h, 3) && FingerUp(h, 4)
  {
    CountFive(FingersBySide(h, side));
  }

  /** The Eat pose, shared by both classifiers: index and middle tips within
      40 px of each other, their midpoint below the mouth and within 100 px
      of it (all doubled, so the midpoint stays integral). */
  predicate EatPose(h: Hand, mouth: Point)
  {
    var index, middle := h[8], h[12];
    && Near(index, middle, 40)
    && index.y + middle.y > 2 * mouth.y
    && Near(Point(index.x + middle.x, index.y + middle.y), Point(2 * mouth.x, 2 * mouth.y), 200)
  }

  /** The heart pose: both thumb tips and both pinky tips within 60 px. */
  predicate HeartPose(h1: Hand, h2: Hand)
  {
    Near(h1[4], h2[4], 60) && Near(h1[20], h2[20], 60)
  }
}
