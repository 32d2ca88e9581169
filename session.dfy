/**
 * The game session: the module-level `isGameRunning`, `score` and `arrows`
 * of the game, gathered into one object whose methods are the start, stop
 * and spawn handlers and the per-frame arrow sweep.
 *
 * The timers that drive these handlers (`setTimeout` every 2 s for spawning,
 * `requestAnimationFrame` for frames) are not modelled: each call of a
 * method stands for one firing of its timer.
 */
module Session {
  import opened Pose
  import opened Arrows

  /** A new arrow: at the right edge of a UI canvas `uiWidth` pixels wide, not yet checked or scored. */
  function SpawnedArrow(d: Direction, uiWidth: nat): (a: Arrow)
    ensures WellFormed(a) && OnScreen(a) && !a.checked && !a.scored
    ensures a.direction == d && a.x + ArrowWidth == uiWidth
  {
    Arrow(d, uiWidth - ArrowWidth, ArrowY, false, false)
  }

  /**
   * On a UI canvas wider than 200 pixels an arrow spawns to the right of the
   * zone, so it earns no points over its whole life, whatever the poses.
   */
  lemma SpawnedArrowNeverScores(d: Direction, uiWidth: nat, frames: seq<Sensing>)
    requires uiWidth > TargetX + Good.width / 2 + ArrowWidth
    ensures Lifetime(SpawnedArrow(d, uiWidth), frames) == 0
  {
    ArrowFromRightNeverScores(SpawnedArrow(d, uiWidth), frames);
  }

  /** One step of the reverse sweep keeps "a prefix not yet visited, then the sweep of the rest". */
  lemma SweepStep(before: seq<Arrow>, i: nat, arrows: seq<Arrow>, arrow: Arrow, s: Sensing)
    requires i < |before|
    requires arrows == before[..i + 1] + Sweep(before[i + 1..], s)
    requires arrow == StepArrow(before[i], s).0
    ensures i < |arrows| && arrows[i] == before[i]
    ensures !OnScreen(arrow) ==> arrows[..i] + arrows[i + 1..] == before[..i] + Sweep(before[i..], s)
    ensures OnScreen(arrow) ==> arrows[i := arrow] == before[..i] + Sweep(before[i..], s)
    ensures Gain(before[i..], s) == StepArrow(before[i], s).1 + Gain(before[i + 1..], s)
  {
    var rest := Sweep(before[i + 1..], s);
    assert before[..i + 1] == before[..i] + [before[i]];
    assert arrows[..i] == before[..i] && arrows[i + 1..] == rest;
    SweepFrom(before, i, s);
    if OnScreen(arrow) {
      assert arrows[i := arrow] == arrows[..i] + [arrow] + arrows[i + 1..];
    }
  }

  class Game {
    var arrows: seq<Arrow>
    var score: int
    var running: bool

    /**
     * The score is a sum of zone points; a stopped game has no arrows and a
     * zero score; every arrow in play is on its row, on the canvas, and
     * scored only if checked.
     */
    ghost predicate Valid()
      reads this
    {
      score >= 0 && score % 10 == 0 &&
      (!running ==> arrows == [] && score == 0) &&
      forall a :: a in arrows ==> WellFormed(a) && OnScreen(a)
    }

    /** The state the game script starts in. */
    constructor ()
      ensures Valid() && !running && score == 0 && arrows == []
    {
      arrows := [];
      score := 0;
      running := false;
    }

    /**
     * Does nothing while running; otherwise starts running with score 0 and
     * spawns the first arrow at once.
     */
    method StartGame(d: Direction, uiWidth: nat)
      requires Valid()
      modifies this
      ensures Valid()
      ensures old(running) ==> running && score == old(score) && arrows == old(arrows)
      ensures !old(running) ==> running && score == 0 && arrows == [SpawnedArrow(d, uiWidth)]
    {
      if running {
        return;
      }
      running := true;
      score := 0;
      GenerateArrow(d, uiWidth);
    }

    /** Stops the game, resets the score and drops every arrow, whatever the state. */
    method StopGame()
      requires Valid()
      modifies this
      ensures Valid()
      ensures !running && score == 0 && arrows == []
    {
      running := false;
      score := 0;
      arrows := [];
    }

    /** While running, appends one new arrow of direction `d`; otherwise does nothing. There is no cap on live arrows. */
    method GenerateArrow(d: Direction, uiWidth: nat)
      requires Valid()
      modifies this`arrows
      ensures Valid()
      ensures running ==> arrows == old(arrows) + [SpawnedArrow(d, uiWidth)]
      ensures !running ==> arrows == old(arrows)
    {
      if !running {
        return;
      }
      arrows := arrows + [SpawnedArrow(d, uiWidth)];
    }

    /** One animation frame: the arrow sweep, only while the game is running. */
    method GameLoop(s: Sensing)
      requires Valid()
      modifies this`arrows, this`score
      ensures Valid()
      ensures !old(running) ==> arrows == old(arrows) && score == old(score)
      ensures old(running) ==> arrows == Sweep(old(arrows), s) && score == old(score) + Gain(old(arrows), s)
    {
      if !running {
        return;
      }
      DrawGameUI(s);
    }

    /**
     * The arrow sweep of one frame, walking the list from the back: each
     * arrow moves 5 to the left; the first time its span overlaps the good
     * zone it is marked checked and, if the pose matches its glyph, its zone
     * points are added to the score; an arrow whose right edge has left the
     * canvas is then removed.
     */
    method DrawGameUI(s: Sensing)
      requires Valid()
      modifies this`arrows, this`score
      ensures Valid()
      ensures arrows == Sweep(old(arrows), s)
      ensures score == old(score) + Gain(old(arrows), s)
    {
      ghost var before := arrows;
      var i := |arrows|;
      while i > 0
        invariant 0 <= i <= |before|
        invariant arrows == before[..i] + Sweep(before[i..], s)
        invariant score == old(score) + Gain(before[i..], s)
        decreases i
      {
        i := i - 1;
        SweepStep(before, i, arrows, StepArrow(before[i], s).0, s);
        var arrow := arrows[i];
        arrow := arrow.(x := arrow.x + ArrowSpeed);
        if !arrow.checked && arrow.x <= TargetX + Good.width / 2 && arrow.x + ArrowWidth >= TargetX - Good.width / 2 {
          arrow := arrow.(checked := true);
          if CheckPoseMatchAtTarget(s, arrow.direction) {
            var resolved := CheckScoreZone(arrow);
            arrow := resolved.0;
            var zoneScore := resolved.1;
            if zoneScore.Some? {
              score := score + zoneScore.value;
            }
          }
        }
        assert arrow == StepArrow(before[i], s).0;
        if arrow.x + ArrowWidth < 0 {
          arrows := arrows[..i] + arrows[i + 1..];
        } else {
          arrows := arrows[i := arrow];
        }
      }
      assert before[0..] == before;
      SweepKeepsWellFormed(before, s);
    }
  }
}
