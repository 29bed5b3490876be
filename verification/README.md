# Posture check: shoulder-tilt classifier and posture state

This project models the posture logic of the `CameraFeed` component of the
adefifp posture checker. For each camera frame, a pose estimator calls the
component's results callback. When the result carries body landmarks, the
callback reads the left shoulder (landmark 11) and the right shoulder
(landmark 12). It stores "Bad" when their heights differ by more than `0.1`
in normalized image coordinates, and "Good" otherwise. The stored posture
starts as "Good". A result without landmarks leaves it unchanged.

Layout:

- `Wrappers.dfy`: `Option`, which stands for the estimator's optional `poseLandmarks`.
- `CameraFeed.dfy`: the landmark and posture datatypes and the pure classifier
  (`Abs`, `Classify`, `Verdict`). It also holds the callback as a step
  function over results (`Step`, `PostureAfter`) with lemmas about streams of
  results. The class `PostureMonitor` holds the `posture` field, and its
  `AnalyzePosture` and `OnResults` methods update that field.

`PostureMonitor` keeps a ghost `history` of every result handled. Its
invariant `Valid()` says that `posture` is the callback folded over that
history, starting from "Good". Together with `LatestAnalyzableWins`, this
says the displayed posture is the verdict on the latest frame whose
shoulders could be read, or "Good" if there has been no such frame.

The guard `if (results.poseLandmarks)` uses JavaScript truthiness, so an
empty landmark array passes it. `analyzePosture` then reads `.y` of a
missing shoulder and throws before it stores anything. `OnResults` models
this path: its `threw` result is true exactly when the list is shorter
than 13 entries, and the posture is unchanged in that case.
`AnalyzePosture` and `Verdict` require the list to hold both shoulders.

## Model

| member | source | states |
|---|---|---|
| CameraFeed.Abs | adefifp-posture/src/comps/CameraFeed.jsx:81 | `Math.abs` of the shoulder height difference is non-negative and equals the difference or its negation |
| CameraFeed.Classify | adefifp-posture/src/comps/CameraFeed.jsx:81-87 | the verdict is Bad exactly when one shoulder is higher than the other by strictly more than 0.1, otherwise Good |
| CameraFeed.Verdict | adefifp-posture/src/comps/CameraFeed.jsx:79-87 | for a landmark list that holds both shoulders, Bad exactly when landmark 11's y and landmark 12's y differ by more than 0.1 |
| CameraFeed.BoundaryIsGood | adefifp-posture/src/comps/CameraFeed.jsx:83-86 | the threshold is exclusive: a difference of exactly 0.1 is Good |
| CameraFeed.ClassifySymmetric | adefifp-posture/src/comps/CameraFeed.jsx:81 | swapping the left and right shoulder heights gives the same verdict |
| CameraFeed.LevelShouldersAreGood | adefifp-posture/src/comps/CameraFeed.jsx:81 | equal shoulder heights are always Good |
| CameraFeed.VerdictDependsOnlyOnShoulderHeights | adefifp-posture/src/comps/CameraFeed.jsx:79-81 | two landmark lists that agree on the y of landmarks 11 and 12 get the same verdict, whatever their other landmarks and x coordinates |
| CameraFeed.Step | adefifp-posture/src/comps/CameraFeed.jsx:38-43 | the callback on one result: no landmarks, or fewer than 13, leave the posture as it was; otherwise it becomes Bad exactly when the two shoulder heights differ by more than 0.1 |
| CameraFeed.PostureAfter | adefifp-posture/src/comps/CameraFeed.jsx:38-43 | the callback applied to each result in order: with no results the posture is the starting one; when the last result has readable shoulders, the verdict on it is the posture |
| CameraFeed.LatestAnalyzableWins | adefifp-posture/src/comps/CameraFeed.jsx:38-43 | after a stream of results, the posture is the verdict on the latest result whose shoulders could be read; if there is none, it is the starting posture |
| CameraFeed.StartForgotten | adefifp-posture/src/comps/CameraFeed.jsx:39-41 | once any result with readable shoulders has been handled, the posture no longer depends on the initial state |
| CameraFeed.PostureMonitor.constructor | adefifp-posture/src/comps/CameraFeed.jsx:8 | the posture starts as Good, with no results handled |
| CameraFeed.PostureMonitor.AnalyzePosture | adefifp-posture/src/comps/CameraFeed.jsx:78-88 | stores the verdict for the given landmarks, overwriting whatever posture was stored before, records the result in the history and keeps the invariant tying posture to that history |
| CameraFeed.PostureMonitor.OnResults | adefifp-posture/src/comps/CameraFeed.jsx:38-43 | a result without landmarks leaves the posture unchanged; a list too short to hold both shoulders is reported as thrown and leaves it unchanged; otherwise the posture becomes the verdict on that result; the invariant tying posture to the history of results is kept |

## Left out

- Camera access through `getUserMedia` and its error logging (lines 11-24, 54): browser I/O.
- Construction of the MediaPipe `Pose` estimator, its CDN file location, its confidence options and the `Camera` frame loop (lines 26-53): a foreign library and asynchronous plumbing. The estimator's output appears only as an optional landmark list passed to `OnResults`.
- Canvas drawing in `drawResults` (lines 58-77), which the callback calls before `analyzePosture`: a rendering side effect with no influence on the posture.
- The rendered markup (lines 89-96): UI only.
- React state mechanics: `posture` is a plain field, and re-render scheduling is not modelled.
- Coordinates are `real`, not IEEE-754 doubles. Rounding of the subtraction near the `0.1` boundary, NaN and infinities are not modelled.
- Landmark fields other than `x` and `y` (depth, visibility) are not modelled. The code does not read them.
