/**
 * The arm-direction matcher of the game: which keypoints count as visible,
 * the angle of a shoulder-to-wrist vector, the table of glyph angle ranges
 * and the check that either arm points into the range of an arrow's glyph.
 *
 * The trigonometry (`Math.atan2` and the radians-to-degrees conversion) is
 * not modelled: it enters as a function value returning degrees in
 * [-180, 180], and only the normalisation that follows it is modelled.
 */
module Pose {
  import opened Wrappers

  /** One detector keypoint in video-canvas pixels, with its confidence `score`. */
  datatype Keypoint = Keypoint(x: real, y: real, score: real)

  /** One detected body: the keypoints in the detector's fixed order. */
  datatype Pose = Pose(keypoints: seq<Keypoint>)

  /** The pixel size of the video canvas that visibility is measured against. */
  datatype Canvas = Canvas(width: nat, height: nat)

  /** What `Math.atan2(dy, dx) * (180 / Math.PI)` can return. */
  type Degrees = r: real | -180.0 <= r <= 180.0 witness 0.0

  /**
   * Everything the matcher reads besides the arrow: the latest `poses`
   * (`None` before the detector has produced any), the video canvas and the
   * arctangent in degrees, taking the vertical component first.
   */
  datatype Sensing = Sensing(poses: Option<seq<Pose>>, video: Canvas, atan2Deg: (real, real) -> Degrees)

  /** The eight arrow glyphs, in the order of the `directions` table. */
  datatype Direction = Up | UpRight | Right | DownRight | Down | DownLeft | Left | UpLeft

  const Directions: seq<Direction> := [Up, UpRight, Right, DownRight, Down, DownLeft, Left, UpLeft]

  /** Keypoints below this confidence are treated as not visible. */
  const MinConfidence: real := 0.3

  /** Detector indices of the keypoints the matcher reads. */
  const LeftShoulder: nat := 5
  const RightShoulder: nat := 6
  const LeftWrist: nat := 9
  const RightWrist: nat := 10

  /** An inclusive angle range in degrees. */
  datatype Range = Range(min: real, max: real)

  /** The `angleRanges` table, as written: neighbouring ranges share their end points. */
  function AngleRange(d: Direction): (r: Range)
    ensures -20.0 <= r.min < r.max <= 340.0
    ensures r.max - r.min == 40.0 || r.max - r.min == 50.0
  {
    match d
    case Up => Range(-20.0, 20.0)
    case UpRight => Range(20.0, 70.0)
    case Right => Range(70.0, 110.0)
    case DownRight => Range(110.0, 160.0)
    case Down => Range(160.0, 200.0)
    case DownLeft => Range(200.0, 250.0)
    case Left => Range(250.0, 290.0)
    case UpLeft => Range(290.0, 340.0)
  }

  /** A keypoint is visible when it is confident enough and lies on the video canvas, edges included. */
  predicate IsPointVisible(p: Keypoint, video: Canvas): (r: bool)
    ensures p.score < MinConfidence ==> !r
    ensures p.score >= MinConfidence ==>
      (r <==> 0.0 <= p.x <= video.width as real && 0.0 <= p.y <= video.height as real)
  {
    if p.score < MinConfidence then false
    else
      var xVisible := p.x >= 0.0 && p.x <= video.width as real;
      var yVisible := p.y >= 0.0 && p.y <= video.height as real;
      xVisible && yVisible
  }

  /** The normalisation at the end of the angle computation: negative angles are moved up by one turn. */
  function NormalizeAngle(raw: Degrees): (r: real)
    ensures 0.0 <= r < 360.0
    ensures r - raw == 0.0 || r - raw == 360.0
  {
    if raw < 0.0 then raw + 360.0 else raw
  }

  /** `keypoints[i]`, which is `undefined` past the end of the list. */
  function KeypointAt(kps: seq<Keypoint>, i: nat): (r: Option<Keypoint>)
    ensures r.Some? <==> i < |kps|
    ensures r.Some? ==> r.value == kps[i]
  {
    if i < |kps| then Some(kps[i]) else None
  }

  /** Both points of an arm are present and visible. */
  predicate ArmVisible(shoulder: Option<Keypoint>, wrist: Option<Keypoint>, video: Canvas)
  {
    shoulder.Some? && wrist.Some? && IsPointVisible(shoulder.value, video) && IsPointVisible(wrist.value, video)
  }

  /**
   * The angle of the shoulder-to-wrist vector in [0, 360), with the screen's
   * downward y axis flipped, or `None` when either point is missing or not visible.
   */
  function CalculateAngle(shoulder: Option<Keypoint>, wrist: Option<Keypoint>, video: Canvas, atan2Deg: (real, real) -> Degrees): (r: Option<real>)
    ensures r.Some? <==> ArmVisible(shoulder, wrist, video)
    ensures r.Some? ==> 0.0 <= r.value < 360.0
    ensures r.Some? ==> NormalizeAngle(atan2Deg(-(wrist.value.y - shoulder.value.y), wrist.value.x - shoulder.value.x)) == r.value
  {
    if shoulder.None? || wrist.None? || !IsPointVisible(shoulder.value, video) || !IsPointVisible(wrist.value, video) then
      None
    else
      var dx := wrist.value.x - shoulder.value.x;
      var dy := wrist.value.y - shoulder.value.y;
      Some(NormalizeAngle(atan2Deg(-dy, dx)))
  }

  /** A missing angle is in no range; a range with `min > max` wraps through zero. */
  function IsAngleInRange(angle: Option<real>, min: real, max: real): (r: bool)
    ensures angle.None? ==> !r
    ensures angle.Some? && min <= max ==> (r <==> min <= angle.value && angle.value <= max)
    ensures angle.Some? && min > max ==> (r <==> angle.value >= min || angle.value <= max)
  {
    if angle.None? then false
    else if min > max then angle.value >= min || angle.value <= max
    else angle.value >= min && angle.value <= max
  }

  /** A normalised angle lies in the range the table gives glyph `d`. */
  predicate Matches(angle: real, d: Direction)
  {
    IsAngleInRange(Some(angle), AngleRange(d).min, AngleRange(d).max)
  }

  /** The angle of one arm of the first pose, given the detector indices of its shoulder and wrist. */
  function ArmAngle(s: Sensing, shoulder: nat, wrist: nat): Option<real>
    requires s.poses.Some? && |s.poses.value| > 0
  {
    var kps := s.poses.value[0].keypoints;
    CalculateAngle(KeypointAt(kps, shoulder), KeypointAt(kps, wrist), s.video, s.atan2Deg)
  }

  /** Both keypoints of one arm of the first pose are present and visible. */
  predicate ArmUsable(s: Sensing, shoulder: nat, wrist: nat)
    requires s.poses.Some? && |s.poses.value| > 0
  {
    var kps := s.poses.value[0].keypoints;
    ArmVisible(KeypointAt(kps, shoulder), KeypointAt(kps, wrist), s.video)
  }

  /**
   * The pose check run when an arrow reaches the zone: the first pose's left
   * or right arm points into the angle range of the arrow's glyph.
   */
  function CheckPoseMatchAtTarget(s: Sensing, d: Direction): (r: bool)
    ensures s.poses.None? ==> !r
    ensures s.poses.Some? && s.poses.value == [] ==> !r
    ensures r ==> s.poses.Some? && |s.poses.value| > 0
    ensures r ==> ArmUsable(s, LeftShoulder, LeftWrist) || ArmUsable(s, RightShoulder, RightWrist)
  {
    match s.poses
    case None => false
    case Some(ps) =>
      if |ps| == 0 then false
      else
        var kps := ps[0].keypoints;
        var leftAngle := CalculateAngle(KeypointAt(kps, LeftShoulder), KeypointAt(kps, LeftWrist), s.video, s.atan2Deg);
        var rightAngle := CalculateAngle(KeypointAt(kps, RightShoulder), KeypointAt(kps, RightWrist), s.video, s.atan2Deg);
        var range := AngleRange(d);
        var leftMatch := IsAngleInRange(leftAngle, range.min, range.max);
        var rightMatch := IsAngleInRange(rightAngle, range.min, range.max);
        leftMatch || rightMatch
  }

  /** A pose matches a glyph exactly when one of its two arms has an angle in the glyph's range. */
  lemma PoseMatchIsEitherArm(s: Sensing, d: Direction)
    requires s.poses.Some? && |s.poses.value| > 0
    ensures CheckPoseMatchAtTarget(s, d) <==>
      (exists arm :: arm in {(LeftShoulder, LeftWrist), (RightShoulder, RightWrist)} &&
         ArmAngle(s, arm.0, arm.1).Some? && Matches(ArmAngle(s, arm.0, arm.1).value, d))
  {
    var left := (LeftShoulder, LeftWrist);
    var right := (RightShoulder, RightWrist);
    if CheckPoseMatchAtTarget(s, d) {
      if ArmAngle(s, left.0, left.1).Some? && Matches(ArmAngle(s, left.0, left.1).value, d) {
        assert left in {left, right};
      } else {
        assert right in {left, right};
      }
    }
  }

  /** No glyph's range wraps through zero, so the `min > max` branch is never taken for the table. */
  lemma RangesNeverWrap(d: Direction)
    ensures AngleRange(d).min <= AngleRange(d).max
  {
  }

  /** Reference classifier: the first glyph, in table order, whose range holds a normalised angle up to 340. */
  function GlyphFor(angle: real): Direction
    requires 0.0 <= angle <= 340.0
  {
    if angle <= 20.0 then Up
    else if angle <= 70.0 then UpRight
    else if angle <= 110.0 then Right
    else if angle <= 160.0 then DownRight
    else if angle <= 200.0 then Down
    else if angle <= 250.0 then DownLeft
    else if angle <= 290.0 then Left
    else UpLeft
  }

  /** Every normalised angle from 0 to 340 degrees inclusive matches at least one glyph. */
  lemma CoveredUpTo340(angle: real)
    requires 0.0 <= angle <= 340.0
    ensures Matches(angle, GlyphFor(angle))
  {
  }

  /** Normalised angles strictly between 340 and 360 degrees match no glyph, because `'↑'` starts at -20. */
  lemma NoGlyphAbove340(angle: real, d: Direction)
    requires 340.0 < angle < 360.0
    ensures !Matches(angle, d)
  {
    RangesNeverWrap(d);
  }

  /** The end points neighbouring ranges share. */
  const SharedBoundaries: set<real> := {20.0, 70.0, 110.0, 160.0, 200.0, 250.0, 290.0}

  /** Two different glyphs match the same angle only on a shared end point, where neighbours overlap. */
  lemma OverlapOnlyAtSharedBoundaries(angle: real, d1: Direction, d2: Direction)
    requires d1 != d2 && Matches(angle, d1) && Matches(angle, d2)
    ensures angle in SharedBoundaries
  {
    RangesNeverWrap(d1);
    RangesNeverWrap(d2);
  }

  /** Each shared end point matches both glyphs on either side of it. */
  lemma SharedBoundaryMatchesBothNeighbours(k: nat)
    requires 1 <= k < |Directions|
    ensures AngleRange(Directions[k]).min in SharedBoundaries
    ensures Matches(AngleRange(Directions[k]).min, Directions[k - 1])
    ensures Matches(AngleRange(Directions[k]).min, Directions[k])
  {
  }

  /**
   * An arm held level to the right (shoulder at (0, 0), wrist at (10, 0), both
   * at confidence 0.9) has angle 0, which the table gives to `'↑'` and to no other glyph.
   */
  lemma LevelArmMatchesUp(s: Sensing, kps: seq<Keypoint>)
    requires |kps| > RightWrist
    requires kps[LeftShoulder] == Keypoint(0.0, 0.0, 0.9) && kps[LeftWrist] == Keypoint(10.0, 0.0, 0.9)
    requires s.poses == Some([Pose(kps)]) && s.video.width >= 10
    requires s.atan2Deg(0.0, 10.0) == 0.0
    ensures ArmAngle(s, LeftShoulder, LeftWrist) == Some(0.0)
    ensures CheckPoseMatchAtTarget(s, Up)
    ensures Matches(0.0, Up) && forall d :: d != Up ==> !Matches(0.0, d)
  {
    assert -(0.0 - 0.0) == 0.0;
  }

  /** An arm pointing straight up has angle 90, which the table gives to `'→'` and to no other glyph. */
  lemma RaisedArmMatchesRight()
    ensures Matches(90.0, Right) && forall d :: d != Right ==> !Matches(90.0, d)
  {
  }
}
