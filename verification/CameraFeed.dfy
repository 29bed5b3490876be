/** The posture logic of the camera-feed component: a shoulder-tilt
    classifier and the single piece of state ("Good" or "Bad") that every
    pose result carrying landmarks overwrites. */
module CameraFeed {

  import opened Wrappers

  /** One body keypoint in normalized image coordinates. */
  datatype Landmark = Landmark(x: real, y: real)

  /** The verdict shown on screen as "<posture> Posture". */
  datatype Posture = Good | Bad

  /** What the pose estimator hands to the results callback: the landmark
      list, or nothing when no pose was detected in the frame. */
  type PoseResult = Option<seq<Landmark>>

  /** Indices of the two shoulders in the estimator's landmark list. */
  const LeftShoulder: nat := 11
  const RightShoulder: nat := 12

  /** Shoulder height difference above which posture is "Bad". */
  const TiltThreshold: real := 0.1

  /** `Math.abs` on a coordinate difference. */
  function Abs(d: real): (r: real)
    ensures r >= 0.0
    ensures r == d || r == -d
  {
    if d < 0.0 then -d else d
  }

  /** The verdict for two shoulder heights: "Bad" when they differ by
      more than the threshold, "Good" otherwise. */
  function Classify(leftY: real, rightY: real): (p: Posture)
    ensures p == Bad <==> leftY > rightY + TiltThreshold || rightY > leftY + TiltThreshold
  {
    var angle := Abs(leftY - rightY);
    if angle > TiltThreshold then Bad else Good
  }

  /** The verdict `analyzePosture` computes for a landmark list; the list
      must hold both shoulder entries, or reading `.y` fails. */
  function Verdict(landmarks: seq<Landmark>): (p: Posture)
    requires |landmarks| > RightShoulder
    ensures p == Bad <==>
      || landmarks[LeftShoulder].y - landmarks[RightShoulder].y > TiltThreshold
      || landmarks[RightShoulder].y - landmarks[LeftShoulder].y > TiltThreshold
  {
    Classify(landmarks[LeftShoulder].y, landmarks[RightShoulder].y)
  }

  /** A result the callback can analyze: landmarks are present and the
      list reaches the right shoulder. */
  predicate Analyzable(r: PoseResult)
  {
    r.Some? && |r.value| > RightShoulder
  }

  /** The posture after the callback handles one result, starting from `p`:
      no landmarks, or a list too short to hold both shoulders (the
      callback throws before storing anything), leave `p` as it was. */
  function Step(p: Posture, r: PoseResult): (q: Posture)
    ensures r.None? ==> q == p
    ensures r.Some? && |r.value| <= RightShoulder ==> q == p
    ensures r.Some? && |r.value| > RightShoulder ==>
      (q == Bad <==> Abs(r.value[LeftShoulder].y - r.value[RightShoulder].y) > TiltThreshold)
  {
    if Analyzable(r) then Verdict(r.value) else p
  }

  /** The posture after the callback has handled `rs` in order. */
  ghost function PostureAfter(start: Posture, rs: seq<PoseResult>): (q: Posture)
    ensures rs == [] ==> q == start
    ensures rs != [] && Analyzable(rs[|rs| - 1]) ==> q == Verdict(rs[|rs| - 1].value)
  {
    if rs == [] then start
    else Step(PostureAfter(start, rs[..|rs| - 1]), rs[|rs| - 1])
  }

  /** `i` is the index of the latest analyzable result in `rs`. */
  ghost predicate IsLatestAnalyzable(rs: seq<PoseResult>, i: int)
  {
    && 0 <= i < |rs|
    && Analyzable(rs[i])
    && forall j :: i < j < |rs| ==> !Analyzable(rs[j])
  }

  // ---------------------------------------------------------------------
  // Properties of the classifier

  /** A height difference of exactly the threshold is still "Good". */
  lemma BoundaryIsGood(leftY: real, rightY: real)
    requires Abs(leftY - rightY) == TiltThreshold
    ensures Classify(leftY, rightY) == Good
  {
  }

  /** Swapping the shoulders does not change the verdict. */
  lemma ClassifySymmetric(leftY: real, rightY: real)
    ensures Classify(leftY, rightY) == Classify(rightY, leftY)
  {
  }

  /** Level shoulders are always "Good". */
  lemma LevelShouldersAreGood(y: real)
    ensures Classify(y, y) == Good
  {
  }

  /** Only the heights of the two shoulder landmarks decide the verdict:
      every other landmark, and every x coordinate, is irrelevant. */
  lemma VerdictDependsOnlyOnShoulderHeights(a: seq<Landmark>, b: seq<Landmark>)
    requires |a| > RightShoulder && |b| > RightShoulder
    requires a[LeftShoulder].y == b[LeftShoulder].y
    requires a[RightShoulder].y == b[RightShoulder].y
    ensures Verdict(a) == Verdict(b)
  {
  }

  // ---------------------------------------------------------------------
  // Properties of the posture state over a stream of results

  /** The latest analyzable result decides the posture, whatever came
      before it; when there is none, the posture is the starting one. */
  lemma {:induction false} LatestAnalyzableWins(start: Posture, rs: seq<PoseResult>)
    ensures (forall i :: 0 <= i < |rs| ==> !Analyzable(rs[i])) ==> PostureAfter(start, rs) == start
    ensures forall i :: IsLatestAnalyzable(rs, i) ==> PostureAfter(start, rs) == Verdict(rs[i].value)
  {
    if rs != [] {
      var init, last := rs[..|rs| - 1], rs[|rs| - 1];
      assert rs == init + [last];
      LatestAnalyzableWins(start, init);
      if !Analyzable(last) {
        forall i | IsLatestAnalyzable(rs, i)
          ensures IsLatestAnalyzable(init, i)
        {
        }
      }
    }
  }

  /** Once any result was analyzable, the initial posture is forgotten. */
  lemma {:induction false} StartForgotten(s: Posture, t: Posture, rs: seq<PoseResult>, k: int)
    requires 0 <= k < |rs| && Analyzable(rs[k])
    ensures PostureAfter(s, rs) == PostureAfter(t, rs)
  {
    if k < |rs| - 1 && !Analyzable(rs[|rs| - 1]) {
      StartForgotten(s, t, rs[..|rs| - 1], k);
    }
  }

  // ---------------------------------------------------------------------
  // The component's state

  /** The `posture` state of the component and the results callback that
      drives it. `history` records, for the proofs, every result handled. */
  class PostureMonitor {
    var posture: Posture
    ghost var history: seq<PoseResult>

    /** The state is the fold of the callback over every result so far. */
    ghost predicate Valid()
      reads this
    {
      posture == PostureAfter(Good, history)
    }

    /** Before any result arrives the posture is "Good". */
    constructor ()
      ensures Valid()
      ensures posture == Good && history == []
    {
      posture := Good;
      history := [];
    }

    /** `analyzePosture`: classify the shoulders and store the verdict.
        The callback is its only caller, so the result it came from is
        recorded here. */
    method AnalyzePosture(landmarks: seq<Landmark>)
      requires Valid()
      requires |landmarks| > RightShoulder
      modifies this
      ensures Valid() && history == old(history) + [Some(landmarks)]
      ensures posture == Verdict(landmarks)
    {
      var leftShoulder := landmarks[LeftShoulder];
      var rightShoulder := landmarks[RightShoulder];
      var angle := Abs(leftShoulder.y - rightShoulder.y);
      if angle > TiltThreshold {
        posture := Bad;
      } else {
        posture := Good;
      }
      history := history + [Some(landmarks)];
      assert history[..|history| - 1] == old(history);
    }

    /** The `onResults` callback. A result without landmarks is ignored;
        otherwise the verdict is stored. `threw` reports the case where
        the landmark list is present but too short to hold both
        shoulders: reading a shoulder then fails before anything is
        stored. */
    method OnResults(result: PoseResult) returns (threw: bool)
      requires Valid()
      modifies this
      ensures Valid() && history == old(history) + [result]
      ensures threw <==> result.Some? && |result.value| <= RightShoulder
      ensures result.None? || threw ==> posture == old(posture)
      ensures result.Some? && !threw ==> posture == Verdict(result.value)
    {
      threw := false;
      match result {
        case None =>
          history := history + [result];
          assert history[..|history| - 1] == old(history);
        case Some(landmarks) =>
          if |landmarks| <= RightShoulder {
            threw := true;
            history := history + [result];
            assert history[..|history| - 1] == old(history);
          } else {
            AnalyzePosture(landmarks);
          }
      }
    }
  }
}
