# Face harmony: landmark guide and score model

A Dafny model of the scoring core of a small face-harmony web app. The user clicks fifteen
facial landmarks on an uploaded photo. Once every landmark is placed, a harmony score from
0 to 100 is computed from four proportion ratios and a left/right symmetry measure. A score
card then shows that score with a tier label and a colour.

Modules, one per concept of the source:

- `JsMath` (`js_math.dfy`): JavaScript numbers over ideal reals. `Num` records whether a
  value stayed finite, since only a division by zero leaves the finite numbers here. It
  also holds `Math.round` (`Round`), `x || 1` (`OrOne`) and the square root behind
  `Math.hypot` (`Sqrt`).
- `Geometry` (`geometry.dfy`): points, `dist` (`Dist`) and `mid` (`Mid`).
- `RatioScores` (`ratio_scores.dfy`): `scoreRatio` (`ScoreRatio`) and `scoreEquality`
  (`ScoreEquality`), both built on the linear fall-off `Falloff`.
- `LandmarkGuide` (`landmark_guide.dfy`): the fifteen-step landmark table (`Steps`) and the
  collector state (`Guide`, a map of placed points and a cursor). It covers click
  placement (`Click`), `ready` (`Ready`), the reset button and the image-change reset
  (`Reset`, `ImageChanged`), and the instruction line (`Instruction`).
- `Metrics` (`metrics.dfy`): the `metrics` computation. It covers the measurements
  (`Measure`), the symmetry score (`SymmetryScore`) and the five sub-scores (`SubScoresOf`).
  It also covers the weighted overall score (`Weighted`), the rounded breakdown
  (`Breakdown`), the raw ratios (`RawOf`) and the report (`Metrics.Metrics`).
- `ScoreCard` (`score_card.dfy`): the tier label and colour chains (`Label`, `Color`),
  checked against an independent threshold table (`InTier`, built from `Threshold` and
  `Above`), which `TierOf` is specified by. It also
  covers the card that renders nothing without metrics (`Render`).

The model follows the code where the code contradicts its own intent. Three places in
`LandmarkGuide.jsx` are written for a cursor that reaches the end of the step table: the
missing-key guard in the click handler (line 69), the closing message (line 169) and the
clamped step number (line 196). The cursor update on line 72 stops the cursor on the last
landmark, so every later click moves the right mouth corner (see Findings).

## Model

| member | source | states |
|---|---|---|
| JsMath.Div | src/components/LandmarkGuide.jsx:118-120 | a quotient is non-finite exactly when the divisor is zero; otherwise it times the divisor gives the dividend |
| JsMath.Round | src/components/LandmarkGuide.jsx:139-147 | `Math.round` lands within half a unit of its argument |
| JsMath.RoundWithin | src/components/LandmarkGuide.jsx:139-147 | a value between two integers rounds to an integer between them |
| JsMath.SqrtOfSquare | src/components/LandmarkGuide.jsx:4 | the square root of a square is the absolute value |
| Geometry.Dist | src/components/LandmarkGuide.jsx:4 | distances are non-negative and a point is at distance zero from itself |
| Geometry.Mid | src/components/LandmarkGuide.jsx:5 | the midpoint is equally far, per coordinate, from both end points |
| Geometry.DistSymmetric | src/components/LandmarkGuide.jsx:4 | distance does not depend on argument order |
| Geometry.DistHorizontal | src/components/LandmarkGuide.jsx:4 | points on one horizontal line are as far apart as their x coordinates |
| Geometry.DistVertical | src/components/LandmarkGuide.jsx:4 | points on one vertical line are as far apart as their y coordinates |
| Geometry.DistShift | src/components/LandmarkGuide.jsx:4 | translating both points keeps their distance |
| Geometry.MidShift | src/components/LandmarkGuide.jsx:5 | the midpoint of translated points is the translated midpoint |
| RatioScores.Falloff | src/components/LandmarkGuide.jsx:11-12 | the fall-off is in [0, 100]; it is 100 exactly at zero deviation and 0 exactly from the tolerance on |
| RatioScores.FalloffLinear | src/components/LandmarkGuide.jsx:11 | inside the tolerance the score falls linearly, 100 × (1 − dev/tol) |
| RatioScores.FalloffMonotone | src/components/LandmarkGuide.jsx:11-12 | a larger deviation never scores higher |
| RatioScores.ScoreRatio | src/components/LandmarkGuide.jsx:8-13 | the score is in [0, 100] and is 0 for non-finite or non-positive values; it is 100 exactly at the ideal and 0 exactly when the relative deviation reaches the tolerance |
| RatioScores.ScoreRatioMonotone | src/components/LandmarkGuide.jsx:8-13 | a value closer to the ideal never scores lower |
| RatioScores.Mean | src/components/LandmarkGuide.jsx:18 | the mean of positive values is positive |
| RatioScores.WorstDev | src/components/LandmarkGuide.jsx:19-20 | the worst deviation is attained by some value and bounds every value's deviation |
| RatioScores.ScoreEquality | src/components/LandmarkGuide.jsx:15-22 | the score is in [0, 100]; it is 0 when any value is non-finite or non-positive, and 100 for the empty list |
| RatioScores.ScoreEqualityFullIffEqual | src/components/LandmarkGuide.jsx:15-22 | a non-empty list of positive values scores 100 exactly when all values are equal |
| RatioScores.ScoreEqualityOfEqualValues | src/components/LandmarkGuide.jsx:15-22 | any number of copies of one positive value scores 100 |
| RatioScores.SumOfPermutation | src/components/LandmarkGuide.jsx:18 | the sum in the average does not depend on the order of the values |
| RatioScores.ScoreEqualityPermutation | src/components/LandmarkGuide.jsx:15-22 | reordering the values does not change the equality score |
| LandmarkGuide.IndexOf | src/components/LandmarkGuide.jsx:24-44 | every landmark occurs in the step table exactly once |
| LandmarkGuide.LabelsAreNotAllPlaced | src/components/LandmarkGuide.jsx:24-44 | no step prompt equals the closing message |
| LandmarkGuide.ReadyIffComplete | src/components/LandmarkGuide.jsx:75 | the guide is ready exactly when every landmark has a point |
| LandmarkGuide.ImageChanged | src/components/LandmarkGuide.jsx:53-56 | a new image clears every point and returns the cursor to the first step |
| LandmarkGuide.Reset | src/components/LandmarkGuide.jsx:162-165 | the reset button clears every point and returns the cursor to the first step |
| LandmarkGuide.Click | src/components/LandmarkGuide.jsx:63-73 | a click stores the point under the current step's landmark and leaves every other point alone; the cursor advances, except on the last step where it stays |
| LandmarkGuide.Instruction | src/components/LandmarkGuide.jsx:169 | the closing message shows exactly when the cursor is past the table, since no prompt equals it; otherwise the current step's prompt shows |
| LandmarkGuide.FifteenClicksReady | src/components/LandmarkGuide.jsx:63-75 | fifteen clicks after a reset make the guide ready, with the cursor on the last step |
| LandmarkGuide.FewerClicksNotReady | src/components/LandmarkGuide.jsx:63-75 | fewer than fifteen clicks after a reset leave the guide not ready, with the cursor at the click count |
| LandmarkGuide.ReadyIffFifteenClicks | src/components/LandmarkGuide.jsx:63-75 | after a reset, the guide is ready exactly when at least fifteen clicks have been made |
| LandmarkGuide.LateClickOverwritesMouthRight | src/components/LandmarkGuide.jsx:68-72 | a click on the last step replaces the right mouth corner and keeps the cursor there |
| LandmarkGuide.ClosingMessageUnreachable | src/components/LandmarkGuide.jsx:63-73 | after a reset, no click sequence ever shows the closing message |
| LandmarkGuide.ClickCorrected | src/components/LandmarkGuide.jsx:72 | the corrected click places the point like the original and always advances the cursor |
| LandmarkGuide.ClickCorrectedAgreesEarly | src/components/LandmarkGuide.jsx:72 | before the last step the corrected click equals the original |
| LandmarkGuide.CorrectedClickAfterLastIsNoOp | src/components/LandmarkGuide.jsx:169 | with the correction, the last click shows the closing message and any further click changes nothing |
| Metrics.Midline | src/components/LandmarkGuide.jsx:97-100 | the midline lies halfway between the cheeks horizontally and between hairline and chin vertically |
| Metrics.PairAsymmetry | src/components/LandmarkGuide.jsx:111-112 | a pair's asymmetry is non-negative and zero exactly when both points are equally far from the midline |
| Metrics.AsymmetriesZeroIffMirrored | src/components/LandmarkGuide.jsx:102-112 | every pair's asymmetry is zero exactly when each pair lies at equal distances on either side of the midline |
| Metrics.MeanAsymmetry | src/components/LandmarkGuide.jsx:114 | the mean asymmetry is non-negative |
| Metrics.SymmetryScore | src/components/LandmarkGuide.jsx:111-121 | the clamped symmetry score is in [0, 100] |
| Metrics.SymmetryFullIffMirrored | src/components/LandmarkGuide.jsx:102-121 | symmetry is 100 exactly when every pair lies symmetrically about the midline |
| Metrics.SymmetryZeroWidthScale | src/components/LandmarkGuide.jsx:113-114 | with coincident cheek points the tolerance is 8% of one pixel |
| Metrics.Measure | src/components/LandmarkGuide.jsx:80-95 | there are three thirds, the average eye width is the mean of both eyes, and every distance (lengths, widths, the three thirds, both eye widths) is non-negative |
| Metrics.ThirdsFullIffEqual | src/components/LandmarkGuide.jsx:117 | positive thirds score 100 exactly when all three are equal |
| Metrics.ScoresOf | src/components/LandmarkGuide.jsx:116-121 | every sub-score is in [0, 100]; a ratio sub-score is 100 exactly when its ratio is ideal and 0 when its denominator is zero |
| Metrics.SubScoresOf | src/components/LandmarkGuide.jsx:77-121 | the five sub-scores of a complete landmark set are in [0, 100] |
| Metrics.Weighted | src/components/LandmarkGuide.jsx:123-136 | sub-scores in [0, 100] give an unrounded overall score in [0, 100] |
| Metrics.WeightsConvex | src/components/LandmarkGuide.jsx:123-129 | the weights are non-negative and add up to one |
| Metrics.Breakdown | src/components/LandmarkGuide.jsx:138-144 | five entries in fixed order with the source's names and tips, each within half a point of its sub-score |
| Metrics.RawOf | src/components/LandmarkGuide.jsx:149-154 | the raw ratios equal the scored ratios when the denominator is non-zero, and the numerator otherwise |
| Metrics.ReportOf | src/components/LandmarkGuide.jsx:131-155 | the overall score is in [0, 100] and is rounded once, within half a point of the weighted sum |
| Metrics.Metrics | src/components/LandmarkGuide.jsx:77-156 | there is no report exactly until the guide is ready; a report has five named entries and scores in [0, 100] |
| Metrics.BreakdownNearWeighted | src/components/LandmarkGuide.jsx:131-144 | the weighted sum of the rounded breakdown is within half a point of the unrounded overall score |
| Metrics.OverallWithinRounding | src/components/LandmarkGuide.jsx:131-147 | the overall score differs by less than one point from the weighted sum of the rounded breakdown |
| Metrics.MirrorSides | src/components/LandmarkGuide.jsx:102-109 | mirroring swaps every left landmark with its right partner (the input transformation the mirror lemmas quantify over, not an operation of the source) |
| Metrics.SymmetryMirrorInvariant | src/components/LandmarkGuide.jsx:97-121 | swapping left and right landmarks keeps the symmetry score |
| Metrics.MeasureMirror | src/components/LandmarkGuide.jsx:80-95 | swapping left and right landmarks swaps the two eye widths and keeps every other measurement |
| Metrics.SubScoresMirrorInvariant | src/components/LandmarkGuide.jsx:77-121 | swapping left and right landmarks keeps all five sub-scores |
| Metrics.ShiftAll | src/components/LandmarkGuide.jsx:80-95 | every landmark moves by the same offset (the input transformation the shift lemmas quantify over, not an operation of the source) |
| Metrics.MeasureShift | src/components/LandmarkGuide.jsx:80-95 | translating every landmark keeps every measurement |
| Metrics.SymmetryShiftInvariant | src/components/LandmarkGuide.jsx:97-121 | translating every landmark keeps the symmetry score |
| Metrics.SubScoresShiftInvariant | src/components/LandmarkGuide.jsx:77-121 | translating every landmark keeps all five sub-scores |
| Metrics.ZeroNoseWidth | src/components/LandmarkGuide.jsx:119-147 | coincident nostril points give a nose–mouth score of 0 and cap the overall score at 80 |
| Metrics.IdealFaceSubScores | src/components/LandmarkGuide.jsx:77-121 | a face with equal thirds, eye gap equal to eye width, mouth 1.6 noses wide, length 1.618 widths and mirrored sides scores 100 on every sub-score |
| Metrics.IdealFaceScoresFull | src/components/LandmarkGuide.jsx:77-156 | that face gets an overall score of 100 and 100 on every breakdown entry |
| ScoreCard.TierOf | src/components/ScoreCard.jsx:8 | every score lies in exactly one tier's range |
| ScoreCard.Label | src/components/ScoreCard.jsx:8 | Exceptional from 85, Great 70–84, Balanced 55–69, Developing 40–54, Room to grow below 40 |
| ScoreCard.Color | src/components/ScoreCard.jsx:9 | emerald from 85, indigo 70–84, sky 55–69, amber 40–54, rose below 40 |
| ScoreCard.LabelMatchesTier | src/components/ScoreCard.jsx:8 | the label chain agrees with the tier table |
| ScoreCard.ColorMatchesTier | src/components/ScoreCard.jsx:9 | the colour chain agrees with the tier table |
| ScoreCard.TiersDistinct | src/components/ScoreCard.jsx:8-9 | different tiers have different labels and different colours |
| ScoreCard.LabelColorAgree | src/components/ScoreCard.jsx:8-9 | two scores share a label exactly when they share a colour, and exactly when they share a tier |
| ScoreCard.TierMonotone | src/components/ScoreCard.jsx:8 | a higher score never gets a lower tier |
| ScoreCard.Render | src/components/ScoreCard.jsx:4-9 | no metrics render nothing; otherwise the card shows the overall score with its tier's label and colour, plus the breakdown |
| ScoreCard.NoCardUntilReady | src/components/ScoreCard.jsx:5 | the card built from the guide's own metrics is empty exactly until every landmark is placed |
| ScoreCard.IdealFaceIsExceptional | src/components/ScoreCard.jsx:8-9 | the ideal face is shown as Exceptional, in emerald |

## Left out

- Capturing the click position from the DOM (`getBoundingClientRect`, client coordinates) is left out. A click is modelled as the point it produces. The guard on missing DOM refs is left out too.
- The image's natural size, the SVG overlay and all JSX markup are left out. They do not affect the score.
- React's state hooks, `useMemo` and `useEffect` are left out. `Metrics.Metrics` is a pure function of the placed points. Forwarding metrics to the parent (`onMetrics`) is not modelled.
- `App.jsx`, the upload section, the header and the how-it-works panel are not part of this model. As a result, the parent keeps its last metrics after the reset button is pressed, and this is not modelled.
- ScoreCard.NoCardUntilReady: speaks of the card built from the guide's own metrics. The guide forwards only non-null metrics (LandmarkGuide.jsx lines 158-160), and the parent keeps its last value, so after a reset the page still shows the previous card until new metrics arrive.
- Floating-point rounding is left out. Arithmetic is over ideal reals. Only division by zero is tracked, as a non-finite value.
- Geometry.Dist: the square root is ghost. It is a chosen non-negative root when one exists, because the verifier cannot exhibit a root for every non-negative real. Distances are only known exactly where a root is named, such as points on one axis. Scale invariance of the scores, and "distance zero implies the same point", are therefore not stated.
- RatioScores.ScoreRatio: requires a positive ideal and a positive tolerance. Every call site passes positive constants; with a zero ideal or tolerance the source would compute `NaN` or a division by zero.
- RatioScores.ScoreEquality: requires a positive tolerance, for the same reason as above.
- RatioScores.Falloff: requires a positive tolerance. The symmetry tolerance is always positive, because a zero face width falls back to one.
- Metrics.RawOf: the raw ratios are only reported. No sub-score reads them, so beyond their relation to the scored ratios nothing further is stated about them.

## Findings

| source | as written | input that shows it | evidently intended | confidence | as-written member | corrected member |
|---|---|---|---|---|---|---|
| src/components/LandmarkGuide.jsx:72 | the cursor advances only while `current < steps.length - 1`, so it never leaves the last step | a sixteenth click after fifteen placements | after the last landmark the cursor moves past the table: the closing message (line 169) appears and later clicks do nothing | not executed | LandmarkGuide.LateClickOverwritesMouthRight | LandmarkGuide.CorrectedClickAfterLastIsNoOp |

With the code as written, the closing instruction on line 169 can never be shown
(`LandmarkGuide.ClosingMessageUnreachable`). Every click after the fifteenth silently
replaces the right mouth corner, which changes the mouth width and hence the score. The
corrected click, `LandmarkGuide.ClickCorrected`, matches the original on the first fourteen
steps (`LandmarkGuide.ClickCorrectedAgreesEarly`). After the last landmark it shows the
closing message, and every further click is a no-op
(`LandmarkGuide.CorrectedClickAfterLastIsNoOp`).
