/**
 * Arrows and the scoring zones: what one frame does to one arrow (move it,
 * check the pose the first time it overlaps the good zone, score it), and the
 * specification of a whole frame's sweep over the arrow list.
 */
module Arrows {
  import opened Wrappers
  import opened Pose

  /** Movement per frame, leftwards. */
  const ArrowSpeed: int := -5
  const ArrowWidth: int := 50
  /** The vertical position every arrow is drawn at. */
  const ArrowY: int := 50
  /** The centre shared by the three scoring zones. */
  const TargetX: int := 100

  /** A scoring zone: its full width around `TargetX` and the points it awards. */
  datatype Zone = Zone(width: nat, points: nat)

  const Wow: Zone := Zone(30, 100)
  const Perfect: Zone := Zone(60, 70)
  const Good: Zone := Zone(100, 40)
  const Zones: seq<Zone> := [Wow, Perfect, Good]

  /** A live arrow. `checked`: the pose has been checked for it; `scored`: it earned points. */
  datatype Arrow = Arrow(direction: Direction, x: int, y: int, checked: bool, scored: bool)

  /** What every arrow in play satisfies: it stays on its row and is never scored unchecked. */
  predicate WellFormed(a: Arrow)
  {
    a.y == ArrowY && (a.scored ==> a.checked)
  }

  function Abs(n: int): nat
  {
    if n < 0 then -n else n
  }

  /** Distance from the arrow's centre to the zones' centre. */
  function Distance(a: Arrow): (r: nat)
    ensures a.x + ArrowWidth / 2 == TargetX + r || a.x + ArrowWidth / 2 == TargetX - r
  {
    Abs(a.x + ArrowWidth / 2 - TargetX)
  }

  /** A zone contains a distance when the distance is within its half-width, boundary included. */
  predicate Contains(z: Zone, distance: nat)
  {
    distance <= z.width / 2
  }

  /** The arrow's span `[x, x + ArrowWidth]` overlaps the good zone, touching included. */
  predicate InGoodSpan(x: int): (r: bool)
    ensures r <==> 0 <= x <= TargetX + Good.width / 2
  {
    x <= TargetX + Good.width / 2 && x + ArrowWidth >= TargetX - Good.width / 2
  }

  /**
   * The scoring-zone resolver: an arrow already scored, or whose centre is
   * outside the good zone, gets nothing and is unchanged; otherwise it is
   * marked scored and gets the points of the first zone, narrowest first, that
   * contains its centre.
   */
  function CheckScoreZone(a: Arrow): (r: (Arrow, Option<nat>))
    ensures a.scored ==> r == (a, None)
    ensures !a.scored ==> (r.1.Some? <==> Contains(Good, Distance(a)))
    ensures r.1.None? ==> r.0 == a
    ensures r.1.Some? ==> r.0 == a.(scored := true)
    ensures r.1.Some? ==> r.1.value in {Wow.points, Perfect.points, Good.points}
  {
    if a.scored then (a, None)
    else
      var distance := Distance(a);
      if distance <= Wow.width / 2 then (a.(scored := true), Some(Wow.points))
      else if distance <= Perfect.width / 2 then (a.(scored := true), Some(Perfect.points))
      else if distance <= Good.width / 2 then (a.(scored := true), Some(Good.points))
      else (a, None)
  }

  /**
   * The points awarded are those of the narrowest zone containing the centre,
   * which are also the most points any containing zone awards.
   */
  lemma ScoreIsNarrowestZone(a: Arrow)
    requires !a.scored && Contains(Good, Distance(a))
    ensures exists z0 :: z0 in Zones && Contains(z0, Distance(a)) && CheckScoreZone(a).1 == Some(z0.points) &&
                         (forall z :: z in Zones && Contains(z, Distance(a)) ==> z0.width <= z.width && z0.points >= z.points)
  {
    var d := Distance(a);
    if Contains(Wow, d) {
      assert Wow in Zones;
    } else if Contains(Perfect, d) {
      assert Perfect in Zones;
    } else {
      assert Good in Zones;
    }
  }

  /** A centre exactly on a zone's boundary earns that narrower, higher-scoring zone. */
  lemma BoundaryEarnsNarrowerZone(a: Arrow)
    requires !a.scored
    ensures Distance(a) == Wow.width / 2 ==> CheckScoreZone(a).1 == Some(Wow.points)
    ensures Distance(a) == Perfect.width / 2 ==> CheckScoreZone(a).1 == Some(Perfect.points)
    ensures Distance(a) == Good.width / 2 ==> CheckScoreZone(a).1 == Some(Good.points)
    ensures Distance(a) == Good.width / 2 + 1 ==> CheckScoreZone(a).1 == None
  {
  }

  /** The zones are nested around one centre, and narrower zones award more. */
  lemma ZonesNestedAndRewardPrecision()
    ensures Wow.width < Perfect.width < Good.width
    ensures Wow.points > Perfect.points > Good.points > 0
    ensures forall d: nat :: Contains(Wow, d) ==> Contains(Perfect, d)
    ensures forall d: nat :: Contains(Perfect, d) ==> Contains(Good, d)
  {
  }

  /**
   * One arrow's part of a frame: move it, and the first time its span
   * overlaps the good zone mark it checked and, if the pose matches, resolve
   * its zone. The second component is the points added to the score.
   */
  function StepArrow(a: Arrow, s: Sensing): (r: (Arrow, nat))
    ensures r.0.x == a.x + ArrowSpeed && r.0.y == a.y && r.0.direction == a.direction
    ensures r.0.checked == (a.checked || InGoodSpan(a.x + ArrowSpeed))
    ensures !a.checked && InGoodSpan(a.x + ArrowSpeed) && !CheckPoseMatchAtTarget(s, a.direction) ==>
      r == (a.(x := a.x + ArrowSpeed, checked := true), 0)
    ensures !a.checked && InGoodSpan(a.x + ArrowSpeed) && CheckPoseMatchAtTarget(s, a.direction) ==>
      var zone := CheckScoreZone(a.(x := a.x + ArrowSpeed, checked := true));
      r.0 == zone.0 && (zone.1.Some? ==> r.1 == zone.1.value) && (zone.1.None? ==> r.1 == 0)
    ensures (!a.checked && !a.scored && InGoodSpan(a.x + ArrowSpeed) && CheckPoseMatchAtTarget(s, a.direction) &&
             Contains(Good, Distance(a.(x := a.x + ArrowSpeed)))) ==> r.1 > 0 && r.0.scored
    ensures a.checked ==> r.0 == a.(x := a.x + ArrowSpeed) && r.1 == 0
    ensures r.1 in {0, Wow.points, Perfect.points, Good.points}
    ensures r.0.scored != a.scored ==> !a.scored && r.0.scored && r.1 > 0
    ensures r.1 > 0 ==> !a.checked && r.0.checked && r.0.scored && CheckPoseMatchAtTarget(s, a.direction)
    ensures WellFormed(a) ==> WellFormed(r.0)
  {
    var moved := a.(x := a.x + ArrowSpeed);
    if !moved.checked && InGoodSpan(moved.x) then
      var marked := moved.(checked := true);
      if CheckPoseMatchAtTarget(s, marked.direction) then
        var (resolved, zoneScore) := CheckScoreZone(marked);
        (resolved, if zoneScore.Some? then zoneScore.value else 0)
      else (marked, 0)
    else (moved, 0)
  }

  /** An arrow stays in the list while its right edge has not left the canvas. */
  predicate OnScreen(a: Arrow): (r: bool)
    ensures r <==> a.x >= -ArrowWidth
  {
    a.x + ArrowWidth >= 0
  }

  /** The arrows left after one frame, in their original order. */
  function Sweep(arrows: seq<Arrow>, s: Sensing): (r: seq<Arrow>)
    ensures |r| <= |arrows|
    ensures forall b :: b in r ==> OnScreen(b)
  {
    if arrows == [] then []
    else
      var b := StepArrow(arrows[0], s).0;
      (if OnScreen(b) then [b] else []) + Sweep(arrows[1..], s)
  }

  /** The points one frame adds to the score: a multiple of ten, at most the wow points per arrow. */
  function Gain(arrows: seq<Arrow>, s: Sensing): (r: nat)
    ensures r % 10 == 0
    ensures r <= Wow.points * |arrows|
  {
    if arrows == [] then 0 else StepArrow(arrows[0], s).1 + Gain(arrows[1..], s)
  }

  /** The sweep of a suffix starting at `i`: the step of arrow `i` followed by the sweep of the rest. */
  lemma SweepFrom(arrows: seq<Arrow>, i: nat, s: Sensing)
    requires i < |arrows|
    ensures Sweep(arrows[i..], s) ==
      (if OnScreen(StepArrow(arrows[i], s).0) then [StepArrow(arrows[i], s).0] else []) + Sweep(arrows[i + 1..], s)
    ensures Gain(arrows[i..], s) == StepArrow(arrows[i], s).1 + Gain(arrows[i + 1..], s)
  {
    assert arrows[i..][1..] == arrows[i + 1..];
  }

  /** Reference filter: the arrows whose right edge is still on the canvas after moving, in order. */
  function StillOnScreen(arrows: seq<Arrow>): seq<Arrow>
  {
    if arrows == [] then []
    else (if arrows[0].x + ArrowSpeed + ArrowWidth >= 0 then [arrows[0]] else []) + StillOnScreen(arrows[1..])
  }

  /** Reference map: each arrow after its own step. */
  function StepAll(arrows: seq<Arrow>, s: Sensing): (r: seq<Arrow>)
    ensures |r| == |arrows|
    ensures forall i :: 0 <= i < |arrows| ==> r[i] == StepArrow(arrows[i], s).0
  {
    if arrows == [] then [] else [StepArrow(arrows[0], s).0] + StepAll(arrows[1..], s)
  }

  /** The sweep removes exactly the arrows that moved off the canvas and steps every other one, keeping their order. */
  lemma {:induction false} SweepIsFilterThenStep(arrows: seq<Arrow>, s: Sensing)
    ensures Sweep(arrows, s) == StepAll(StillOnScreen(arrows), s)
  {
    if arrows != [] {
      SweepIsFilterThenStep(arrows[1..], s);
      var b := StepArrow(arrows[0], s).0;
      if OnScreen(b) {
        assert StillOnScreen(arrows) == [arrows[0]] + StillOnScreen(arrows[1..]);
        assert StillOnScreen(arrows)[1..] == StillOnScreen(arrows[1..]);
      } else {
        assert StillOnScreen(arrows) == StillOnScreen(arrows[1..]);
      }
    }
  }

  /** The reference filter keeps an arrow exactly when it is still on the canvas after moving. */
  lemma {:induction false} StillOnScreenMembers(arrows: seq<Arrow>, a: Arrow)
    ensures a in StillOnScreen(arrows) <==> a in arrows && a.x + ArrowSpeed + ArrowWidth >= 0
    ensures |StillOnScreen(arrows)| <= |arrows|
  {
    if arrows != [] {
      StillOnScreenMembers(arrows[1..], a);
      assert arrows == [arrows[0]] + arrows[1..];
    }
  }

  /** Sweeping a list in two parts gives the same arrows and points as sweeping it whole: each arrow is handled on its own. */
  lemma {:induction false} SweepSplits(left: seq<Arrow>, right: seq<Arrow>, s: Sensing)
    ensures Sweep(left + right, s) == Sweep(left, s) + Sweep(right, s)
    ensures Gain(left + right, s) == Gain(left, s) + Gain(right, s)
  {
    if left != [] {
      SweepSplits(left[1..], right, s);
      assert (left + right)[1..] == left[1..] + right;
    } else {
      assert left + right == right;
    }
  }

  /** When every arrow is well formed before a frame, every arrow that survives it still is. */
  lemma {:induction false} SweepKeepsWellFormed(arrows: seq<Arrow>, s: Sensing)
    requires forall a :: a in arrows ==> WellFormed(a)
    ensures forall b :: b in Sweep(arrows, s) ==> WellFormed(b)
  {
    if arrows != [] {
      SweepKeepsWellFormed(arrows[1..], s);
    }
  }

  /** A frame adds nothing when every arrow in it has already been checked. */
  lemma {:induction false} GainOnlyFromUnchecked(arrows: seq<Arrow>, s: Sensing)
    requires forall a :: a in arrows ==> a.checked
    ensures Gain(arrows, s) == 0
  {
    if arrows != [] {
      GainOnlyFromUnchecked(arrows[1..], s);
      assert forall a :: a in arrows[1..] ==> a in arrows;
    }
  }

  /** The points an arrow earns over successive frames, until it leaves the canvas. */
  function Lifetime(a: Arrow, frames: seq<Sensing>): nat
    decreases |frames|
  {
    if frames == [] then 0
    else
      var (b, g) := StepArrow(a, frames[0]);
      g + (if OnScreen(b) then Lifetime(b, frames[1..]) else 0)
  }

  /** An arrow already checked never earns points again, whatever the later poses. */
  lemma {:induction false} CheckedArrowEarnsNothing(a: Arrow, frames: seq<Sensing>)
    requires a.checked
    ensures Lifetime(a, frames) == 0
    decreases |frames|
  {
    if frames != [] {
      CheckedArrowEarnsNothing(StepArrow(a, frames[0]).0, frames[1..]);
    }
  }

  /** An arrow is matched and scored at most once: over its whole life it earns the points of one zone or nothing. */
  lemma {:induction false} ScoredAtMostOnce(a: Arrow, frames: seq<Sensing>)
    ensures Lifetime(a, frames) in {0, Wow.points, Perfect.points, Good.points}
    decreases |frames|
  {
    if frames != [] {
      var (b, g) := StepArrow(a, frames[0]);
      if b.checked {
        CheckedArrowEarnsNothing(b, frames[1..]);
      } else {
        ScoredAtMostOnce(b, frames[1..]);
      }
    }
  }

  /**
   * An unchecked arrow to the right of the zone is checked on the first frame
   * its left edge reaches 150, when its centre is 71 to 75 from the target,
   * outside even the good zone: it never earns points, whatever the poses.
   */
  lemma {:induction false} ArrowFromRightNeverScores(a: Arrow, frames: seq<Sensing>)
    requires !a.checked && a.x > TargetX + Good.width / 2
    ensures Lifetime(a, frames) == 0
    decreases |frames|
  {
    if frames != [] {
      var b := StepArrow(a, frames[0]).0;
      if b.checked {
        assert 71 <= Distance(b) <= 75;
        CheckedArrowEarnsNothing(b, frames[1..]);
      } else {
        ArrowFromRightNeverScores(b, frames[1..]);
      }
    }
  }
}
