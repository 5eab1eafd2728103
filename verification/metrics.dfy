/** The `metrics` computation of the landmark guide: measurements taken from the fifteen
    landmarks, five sub-scores, their weighted overall score, and the report handed to
    the score card. */
module Metrics {
  import opened JsMath
  import opened Geometry
  import opened RatioScores
  import opened LandmarkGuide

  /** The five sub-scores, named by what they measure. */
  datatype Metric = FacialThirds | EyeSpacing | NoseMouth | GoldenRatio | Symmetry

  /** The order of the breakdown. */
  const MetricOrder: seq<Metric> := [FacialThirds, EyeSpacing, NoseMouth, GoldenRatio, Symmetry]

  /** The weight table of the overall score. */
  function Weight(m: Metric): real {
    match m
    case FacialThirds => 0.25
    case EyeSpacing => 0.2
    case NoseMouth => 0.2
    case GoldenRatio => 0.15
    case Symmetry => 0.2
  }

  /** The breakdown entry's name. */
  function Name(m: Metric): string {
    match m
    case FacialThirds => "Facial thirds"
    case EyeSpacing => "Eye spacing"
    case NoseMouth => "Nose ↔ Mouth balance"
    case GoldenRatio => "Golden ratio (L/W)"
    case Symmetry => "Left/Right symmetry"
  }

  /** The breakdown entry's fixed advice. */
  function Tip(m: Metric): string {
    match m
    case FacialThirds => "Aim for similar heights from hairline→brow, brow→nose, nose→chin."
    case EyeSpacing => "The gap between eyes ideally ≈ one eye width."
    case NoseMouth => "Mouth width around 1.6× nose width looks balanced."
    case GoldenRatio => "Face length to width close to 1.6 is often perceived as harmonious."
    case Symmetry => "Small left/right differences are totally normal!"
  }

  /** The tolerances and ideals of the ratio sub-scores. */
  const EyeIdeal: real := 1.0
  const EyeTolerance: real := 0.18
  const NoseMouthIdeal: real := 1.6
  const NoseMouthTolerance: real := 0.25
  const GoldenIdeal: real := 1.618
  const GoldenTolerance: real := 0.25
  /** The symmetry tolerance, as a fraction of the face width. */
  const SymmetryFraction: real := 0.08

  /** The left/right pairs compared by the symmetry score. */
  const SymmetryPairs: seq<(Landmark, Landmark)> := [
    (EyeLeftOuter, EyeRightOuter),
    (EyeLeftInner, EyeRightInner),
    (NoseLeft, NoseRight),
    (MouthLeft, MouthRight),
    (CheekLeft, CheekRight),
    (BrowLeft, BrowRight)
  ]

  /** The approximate vertical axis of the face: x halfway between the cheeks, y halfway
      between hairline and chin. */
  function Midline(p: Points): (m: Point)
    requires Complete(p)
    ensures m.x - p[CheekLeft].x == p[CheekRight].x - m.x
    ensures m.y - p[Hairline].y == p[Chin].y - m.y
  {
    Point((p[CheekLeft].x + p[CheekRight].x) / 2.0, (p[Hairline].y + p[Chin].y) / 2.0)
  }

  /** `midDist`: the horizontal distance of a point from the midline. */
  function MidDist(pt: Point, mx: real): real {
    Abs(pt.x - mx)
  }

  /** The asymmetry of one pair: how much farther one side lies from the midline. */
  function PairAsymmetry(p: Points, mx: real, pair: (Landmark, Landmark)): (d: real)
    requires Complete(p)
    ensures d >= 0.0
    ensures d == 0.0 <==> MidDist(p[pair.0], mx) == MidDist(p[pair.1], mx)
  {
    Abs(MidDist(p[pair.0], mx) - MidDist(p[pair.1], mx))
  }

  /** `symDiffs`, one asymmetry per pair. */
  function Asymmetries(p: Points): (a: seq<real>)
    requires Complete(p)
    ensures |a| == |SymmetryPairs|
    ensures forall i :: 0 <= i < |a| ==> a[i] == PairAsymmetry(p, Midline(p).x, SymmetryPairs[i])
  {
    var mx := Midline(p).x;
    seq(|SymmetryPairs|, i requires 0 <= i < |SymmetryPairs| => PairAsymmetry(p, mx, SymmetryPairs[i]))
  }

  /** Every pair's asymmetry is zero exactly when the landmarks are mirrored about the midline. */
  lemma AsymmetriesZeroIffMirrored(p: Points)
    requires Complete(p)
    ensures (forall i :: 0 <= i < |Asymmetries(p)| ==> Asymmetries(p)[i] == 0.0) <==> MirroredAboutMidline(p)
  {
    var a, mx := Asymmetries(p), Midline(p).x;
    forall i | 0 <= i < |a|
      ensures a[i] == 0.0 <==> MidDist(p[SymmetryPairs[i].0], mx) == MidDist(p[SymmetryPairs[i].1], mx)
    {
    }
  }

  function Id(x: real): real {
    x
  }

  /** The mean pair asymmetry. */
  function MeanAsymmetry(p: Points): (d: real)
    requires Complete(p)
    ensures d >= 0.0
  {
    SumOf(Asymmetries(p), Id) / |SymmetryPairs| as real
  }

  /** Every pair lies at equal distances on either side of the midline. */
  predicate MirroredAboutMidline(p: Points)
    requires Complete(p)
  {
    forall i :: 0 <= i < |SymmetryPairs| ==>
      MidDist(p[SymmetryPairs[i].0], Midline(p).x) == MidDist(p[SymmetryPairs[i].1], Midline(p).x)
  }

  /** The symmetry sub-score: the fall-off of the mean asymmetry against 8% of the face
      width, with a face width of zero replaced by one. */
  ghost function SymmetryScore(p: Points): (s: real)
    requires Complete(p)
    ensures 0.0 <= s <= 100.0
  {
    var faceWidth := Dist(p[CheekLeft], p[CheekRight]);
    var scale := OrOne(faceWidth);
    Falloff(MeanAsymmetry(p), SymmetryFraction * scale)
  }

  /** Symmetry scores full marks exactly when every pair is mirrored about the midline. */
  lemma SymmetryFullIffMirrored(p: Points)
    requires Complete(p)
    ensures SymmetryScore(p) == 100.0 <==> MirroredAboutMidline(p)
  {
    var a := Asymmetries(p);
    assert forall i :: 0 <= i < |a| ==> Id(a[i]) == a[i] >= 0.0;
    SumOfZero(a, Id);
    var t := SumOf(a, Id);
    DivOrder(t, 0.0, |SymmetryPairs| as real);
  }

  /** Coinciding cheek points give a zero face width; the scale falls back to one rather
      than dividing by zero. */
  lemma SymmetryZeroWidthScale(p: Points)
    requires Complete(p) && p[CheekLeft] == p[CheekRight]
    ensures SymmetryScore(p) == Falloff(MeanAsymmetry(p), SymmetryFraction)
  {
  }

  /** The measurements the sub-scores are computed from, in pixels of the displayed image. */
  datatype Measurements = Measurements(
    faceLength: real,
    faceWidth: real,
    thirds: seq<real>,
    leftEyeWidth: real,
    rightEyeWidth: real,
    avgEyeWidth: real,
    interocular: real,
    noseWidth: real,
    mouthWidth: real)

  ghost function Measure(p: Points): (m: Measurements)
    requires Complete(p)
    ensures |m.thirds| == 3
    ensures m.avgEyeWidth * 2.0 == m.leftEyeWidth + m.rightEyeWidth
    ensures m.faceLength >= 0.0 && m.faceWidth >= 0.0 && m.interocular >= 0.0
    ensures m.noseWidth >= 0.0 && m.mouthWidth >= 0.0 && m.avgEyeWidth >= 0.0
    ensures m.leftEyeWidth >= 0.0 && m.rightEyeWidth >= 0.0
    ensures forall i :: 0 <= i < 3 ==> m.thirds[i] >= 0.0
  {
    var browMid := Mid(p[BrowLeft], p[BrowRight]);
    var leftEye := Dist(p[EyeLeftOuter], p[EyeLeftInner]);
    var rightEye := Dist(p[EyeRightOuter], p[EyeRightInner]);
    Measurements(
      Dist(p[Hairline], p[Chin]),
      Dist(p[CheekLeft], p[CheekRight]),
      [Dist(p[Hairline], browMid), Dist(browMid, p[NoseBase]), Dist(p[NoseBase], p[Chin])],
      leftEye,
      rightEye,
      (leftEye + rightEye) / 2.0,
      Dist(p[EyeLeftInner], p[EyeRightInner]),
      Dist(p[NoseLeft], p[NoseRight]),
      Dist(p[MouthLeft], p[MouthRight]))
  }

  /** The unrounded sub-scores. */
  datatype SubScores = SubScores(thirds: real, eye: real, noseMouth: real, golden: real, symmetry: real)
  {
    function Get(m: Metric): real {
      match m
      case FacialThirds => thirds
      case EyeSpacing => eye
      case NoseMouth => noseMouth
      case GoldenRatio => golden
      case Symmetry => symmetry
    }
  }

  /** Every sub-score lies in [0, 100]. */
  predicate InRange(s: SubScores) {
    forall m: Metric :: 0.0 <= s.Get(m) <= 100.0
  }

  /** The three thirds as numbers; distances are always finite. */
  function ThirdsAsNums(m: Measurements): seq<Num>
    requires |m.thirds| == 3
  {
    [Finite(m.thirds[0]), Finite(m.thirds[1]), Finite(m.thirds[2])]
  }

  /** Three positive thirds score full marks exactly when they are equal. */
  lemma ThirdsFullIffEqual(m: Measurements)
    requires |m.thirds| == 3
    ensures (forall i :: 0 <= i < 3 ==> m.thirds[i] > 0.0) ==>
      (ScoreEquality(ThirdsAsNums(m), EqualityTolerance) == 100.0 <==> m.thirds[0] == m.thirds[1] == m.thirds[2])
  {
    var thirds := ThirdsAsNums(m);
    if AllPositive(thirds) {
      ScoreEqualityFullIffEqual(thirds, EqualityTolerance);
      if m.thirds[0] == m.thirds[1] == m.thirds[2] {
        assert forall i, j :: 0 <= i < 3 && 0 <= j < 3 ==> thirds[i] == thirds[j];
        assert AllEqual(thirds);
      } else if m.thirds[0] != m.thirds[1] {
        assert thirds[0] != thirds[1];
      } else {
        assert thirds[1] != thirds[2];
      }
    } else {
      assert !(forall i :: 0 <= i < 3 ==> m.thirds[i] > 0.0);
    }
  }

  /** The four measurement-based sub-scores, with the symmetry score supplied. */
  function ScoresOf(m: Measurements, symmetry: real): (s: SubScores)
    requires |m.thirds| == 3 && 0.0 <= symmetry <= 100.0
    ensures InRange(s)
    ensures s.symmetry == symmetry
    ensures m.noseWidth == 0.0 ==> s.noseMouth == 0.0
    ensures m.faceWidth == 0.0 ==> s.golden == 0.0
    ensures m.avgEyeWidth == 0.0 ==> s.eye == 0.0
    ensures s.eye == 100.0 <==> Div(m.interocular, m.avgEyeWidth) == Finite(EyeIdeal)
    ensures s.noseMouth == 100.0 <==> Div(m.mouthWidth, m.noseWidth) == Finite(NoseMouthIdeal)
    ensures s.golden == 100.0 <==> Div(m.faceLength, m.faceWidth) == Finite(GoldenIdeal)
    ensures (forall i :: 0 <= i < 3 ==> m.thirds[i] > 0.0) ==>
      (s.thirds == 100.0 <==> m.thirds[0] == m.thirds[1] == m.thirds[2])
  {
    ThirdsFullIffEqual(m);
    SubScores(
      ScoreEquality(ThirdsAsNums(m), EqualityTolerance),
      ScoreRatio(Div(m.interocular, m.avgEyeWidth), EyeIdeal, EyeTolerance),
      ScoreRatio(Div(m.mouthWidth, m.noseWidth), NoseMouthIdeal, NoseMouthTolerance),
      ScoreRatio(Div(m.faceLength, m.faceWidth), GoldenIdeal, GoldenTolerance),
      symmetry)
  }

  /** The five sub-scores of a complete landmark set. */
  ghost function SubScoresOf(p: Points): (s: SubScores)
    requires Complete(p)
    ensures InRange(s)
  {
    ScoresOf(Measure(p), SymmetryScore(p))
  }

  /** The unrounded overall score: the weighted sum of the sub-scores. */
  function Weighted(s: SubScores): (w: real)
    ensures InRange(s) ==> 0.0 <= w <= 100.0
  {
    assert s.Get(FacialThirds) == s.thirds && s.Get(EyeSpacing) == s.eye;
    assert s.Get(NoseMouth) == s.noseMouth && s.Get(GoldenRatio) == s.golden;
    assert s.Get(Symmetry) == s.symmetry;
    s.thirds * Weight(FacialThirds)
      + s.eye * Weight(EyeSpacing)
      + s.noseMouth * Weight(NoseMouth)
      + s.golden * Weight(GoldenRatio)
      + s.symmetry * Weight(Symmetry)
  }

  /** The weights are non-negative and add up to one, so the overall score is a convex
      combination of the sub-scores. */
  lemma WeightsConvex()
    ensures forall m: Metric :: Weight(m) >= 0.0
    ensures Weight(FacialThirds) + Weight(EyeSpacing) + Weight(NoseMouth)
      + Weight(GoldenRatio) + Weight(Symmetry) == 1.0
  {
  }

  /** One breakdown entry. */
  datatype Entry = Entry(name: string, score: int, tip: string)

  /** The diagnostic ratios; a zero denominator falls back to one. */
  datatype Raw = Raw(thirds: seq<real>, eyeSpacing: real, noseMouth: real, golden: real)

  /** The score report. */
  datatype Report = Report(overall: int, breakdown: seq<Entry>, raw: Raw)

  datatype Option<T> = None | Some(value: T)

  /** The breakdown: one rounded sub-score per metric, in breakdown order. */
  function Breakdown(s: SubScores): (b: seq<Entry>)
    requires InRange(s)
    ensures |b| == |MetricOrder|
    ensures forall i :: 0 <= i < |b| ==>
      && b[i].name == Name(MetricOrder[i])
      && b[i].tip == Tip(MetricOrder[i])
      && 0 <= b[i].score <= 100
      && s.Get(MetricOrder[i]) - 0.5 < b[i].score as real <= s.Get(MetricOrder[i]) + 0.5
  {
    seq(|MetricOrder|, i requires 0 <= i < |MetricOrder| =>
      var m := MetricOrder[i];
      RoundWithin(s.Get(m), 0, 100);
      Entry(Name(m), Round(s.Get(m)), Tip(m)))
  }

  /** The raw ratios: the ratios the sub-scores judge whenever their denominator is
      non-zero, and the numerator itself otherwise. */
  function RawOf(m: Measurements): (r: Raw)
    requires |m.thirds| == 3
    ensures r.thirds == m.thirds
    ensures m.avgEyeWidth != 0.0 ==> Div(m.interocular, m.avgEyeWidth) == Finite(r.eyeSpacing)
    ensures m.noseWidth != 0.0 ==> Div(m.mouthWidth, m.noseWidth) == Finite(r.noseMouth)
    ensures m.faceWidth != 0.0 ==> Div(m.faceLength, m.faceWidth) == Finite(r.golden)
    ensures m.avgEyeWidth == 0.0 ==> r.eyeSpacing == m.interocular
    ensures m.noseWidth == 0.0 ==> r.noseMouth == m.mouthWidth
    ensures m.faceWidth == 0.0 ==> r.golden == m.faceLength
  {
    Raw(m.thirds,
      m.interocular / OrOne(m.avgEyeWidth),
      m.mouthWidth / OrOne(m.noseWidth),
      m.faceLength / OrOne(m.faceWidth))
  }

  /** The report of a set of sub-scores: the overall score rounded once from the
      unrounded sub-scores, the breakdown and the raw ratios. */
  function ReportOf(s: SubScores, m: Measurements): (r: Report)
    requires InRange(s) && |m.thirds| == 3
    ensures 0 <= r.overall <= 100
    ensures Weighted(s) - 0.5 < r.overall as real <= Weighted(s) + 0.5
    ensures r.breakdown == Breakdown(s)
  {
    var w := Weighted(s);
    RoundWithin(w, 0, 100);
    Report(Round(w), Breakdown(s), RawOf(m))
  }

  /** `metrics`: no report until every landmark is placed, then the report of the
      landmark set's sub-scores. */
  ghost function Metrics(points: Points): (r: Option<Report>)
    ensures r.None? <==> !Ready(points)
    ensures r.Some? ==> 0 <= r.value.overall <= 100
    ensures r.Some? ==> |r.value.breakdown| == |MetricOrder|
    ensures r.Some? ==> forall i :: 0 <= i < |MetricOrder| ==>
      r.value.breakdown[i].name == Name(MetricOrder[i]) && 0 <= r.value.breakdown[i].score <= 100
  {
    ReadyIffComplete(points);
    if !Ready(points) then None else Some(ReportOf(SubScoresOf(points), Measure(points)))
  }

  /** The weighted sum of the rounded breakdown. */
  function WeightedBreakdown(b: seq<Entry>): real
    requires |b| == |MetricOrder|
  {
    b[0].score as real * Weight(FacialThirds)
      + b[1].score as real * Weight(EyeSpacing)
      + b[2].score as real * Weight(NoseMouth)
      + b[3].score as real * Weight(GoldenRatio)
      + b[4].score as real * Weight(Symmetry)
  }

  /** The overall score is rounded once from the unrounded sub-scores, so it is within one
      point of the weighted sum of the displayed, rounded, breakdown. */
  lemma OverallWithinRounding(s: SubScores, m: Measurements)
    requires InRange(s) && |m.thirds| == 3
    ensures -1.0 < ReportOf(s, m).overall as real - WeightedBreakdown(ReportOf(s, m).breakdown) < 1.0
  {
    BreakdownNearWeighted(s);
  }

  /** Each entry is within half a point of its sub-score and the weights add up to one,
      so the weighted breakdown is within half a point of the unrounded overall score. */
  lemma BreakdownNearWeighted(s: SubScores)
    requires InRange(s)
    ensures -0.5 < WeightedBreakdown(Breakdown(s)) - Weighted(s) <= 0.5
  {
    var b := Breakdown(s);
    var e0, e1, e2, e3, e4 := b[0].score as real - s.thirds, b[1].score as real - s.eye,
      b[2].score as real - s.noseMouth, b[3].score as real - s.golden, b[4].score as real - s.symmetry;
    assert -0.5 < e0 <= 0.5 && -0.5 < e1 <= 0.5 && -0.5 < e2 <= 0.5;
    assert -0.5 < e3 <= 0.5 && -0.5 < e4 <= 0.5;
    assert WeightedBreakdown(b) - Weighted(s) == 0.25 * e0 + 0.2 * e1 + 0.2 * e2 + 0.15 * e3 + 0.2 * e4;
  }

  /** Swaps every left landmark with its right counterpart. */
  function MirrorKey(k: Landmark): Landmark {
    match k
    case BrowLeft => BrowRight
    case BrowRight => BrowLeft
    case CheekLeft => CheekRight
    case CheekRight => CheekLeft
    case EyeLeftOuter => EyeRightOuter
    case EyeRightOuter => EyeLeftOuter
    case EyeLeftInner => EyeRightInner
    case EyeRightInner => EyeLeftInner
    case NoseLeft => NoseRight
    case NoseRight => NoseLeft
    case MouthLeft => MouthRight
    case MouthRight => MouthLeft
    case _ => k
  }

  /** The landmark set with left and right labels exchanged. */
  function MirrorSides(p: Points): (q: Points)
    requires Complete(p)
    ensures Complete(q)
    ensures forall k :: q[k] == p[MirrorKey(k)]
  {
    map k | k in p :: p[MirrorKey(k)]
  }

  /** Exchanging the left and right labels leaves the symmetry score unchanged. */
  lemma SymmetryMirrorInvariant(p: Points)
    requires Complete(p)
    ensures SymmetryScore(MirrorSides(p)) == SymmetryScore(p)
  {
    var q := MirrorSides(p);
    assert Midline(q).x == Midline(p).x;
    var mx := Midline(p).x;
    forall i | 0 <= i < |SymmetryPairs|
      ensures Asymmetries(q)[i] == Asymmetries(p)[i]
    {
      var pair := SymmetryPairs[i];
      assert q[pair.0] == p[pair.1] && q[pair.1] == p[pair.0];
    }
    assert Asymmetries(q) == Asymmetries(p);
    DistSymmetric(p[CheekLeft], p[CheekRight]);
  }

  /** Exchanging the left and right labels exchanges the two eye widths and keeps
      every other measurement. */
  lemma MeasureMirror(p: Points)
    requires Complete(p)
    ensures var mp, mq := Measure(p), Measure(MirrorSides(p));
      mq == mp.(leftEyeWidth := mp.rightEyeWidth, rightEyeWidth := mp.leftEyeWidth)
  {
    var q := MirrorSides(p);
    MidSymmetric(p[BrowLeft], p[BrowRight]);
    DistSymmetric(p[CheekLeft], p[CheekRight]);
    DistSymmetric(p[EyeLeftInner], p[EyeRightInner]);
    DistSymmetric(p[NoseLeft], p[NoseRight]);
    DistSymmetric(p[MouthLeft], p[MouthRight]);
  }

  /** Exchanging the left and right labels leaves every sub-score unchanged. */
  lemma SubScoresMirrorInvariant(p: Points)
    requires Complete(p)
    ensures SubScoresOf(MirrorSides(p)) == SubScoresOf(p)
  {
    SymmetryMirrorInvariant(p);
    MeasureMirror(p);
    var mp := Measure(p);
    var mq := Measure(MirrorSides(p));
    assert mq.avgEyeWidth == mp.avgEyeWidth;
    assert ScoresOf(mq, SymmetryScore(p)) == ScoresOf(mp, SymmetryScore(p));
  }

  /** The landmark set moved by `(dx, dy)`. */
  function ShiftAll(p: Points, dx: real, dy: real): (q: Points)
    requires Complete(p)
    ensures Complete(q)
    ensures forall k :: q[k] == Shift(p[k], dx, dy)
  {
    map k | k in p :: Shift(p[k], dx, dy)
  }

  /** Moving every landmark by the same offset keeps every measurement. */
  lemma MeasureShift(p: Points, dx: real, dy: real)
    requires Complete(p)
    ensures Measure(ShiftAll(p, dx, dy)) == Measure(p)
  {
    var q := ShiftAll(p, dx, dy);
    MidShift(p[BrowLeft], p[BrowRight], dx, dy);
    var browMid := Mid(p[BrowLeft], p[BrowRight]);
    DistShift(p[Hairline], p[Chin], dx, dy);
    DistShift(p[CheekLeft], p[CheekRight], dx, dy);
    DistShift(p[Hairline], browMid, dx, dy);
    DistShift(browMid, p[NoseBase], dx, dy);
    DistShift(p[NoseBase], p[Chin], dx, dy);
    DistShift(p[EyeLeftOuter], p[EyeLeftInner], dx, dy);
    DistShift(p[EyeRightOuter], p[EyeRightInner], dx, dy);
    DistShift(p[EyeLeftInner], p[EyeRightInner], dx, dy);
    DistShift(p[NoseLeft], p[NoseRight], dx, dy);
    DistShift(p[MouthLeft], p[MouthRight], dx, dy);
  }

  /** Moving every landmark by the same offset keeps the symmetry score. */
  lemma SymmetryShiftInvariant(p: Points, dx: real, dy: real)
    requires Complete(p)
    ensures SymmetryScore(ShiftAll(p, dx, dy)) == SymmetryScore(p)
  {
    var q := ShiftAll(p, dx, dy);
    assert Midline(q).x == Midline(p).x + dx;
    forall i | 0 <= i < |SymmetryPairs|
      ensures Asymmetries(q)[i] == Asymmetries(p)[i]
    {
    }
    assert Asymmetries(q) == Asymmetries(p);
    DistShift(p[CheekLeft], p[CheekRight], dx, dy);
  }

  /** Moving every landmark by the same offset leaves every sub-score unchanged. */
  lemma SubScoresShiftInvariant(p: Points, dx: real, dy: real)
    requires Complete(p)
    ensures SubScoresOf(ShiftAll(p, dx, dy)) == SubScoresOf(p)
  {
    MeasureShift(p, dx, dy);
    SymmetryShiftInvariant(p, dx, dy);
  }

  /** A zero nose width makes `mouthWidth / noseWidth` non-finite: the nose-mouth score is
      0, and the report is still produced with an overall score of at most 80. */
  lemma ZeroNoseWidth(p: Points)
    requires Complete(p) && p[NoseLeft] == p[NoseRight]
    ensures SubScoresOf(p).noseMouth == 0.0
    ensures Metrics(p).Some?
    ensures Metrics(p).value.breakdown[2].score == 0
    ensures Metrics(p).value.overall <= 80
  {
    ReadyIffComplete(p);
    var s := SubScoresOf(p);
    assert Measure(p).noseWidth == 0.0;
    assert s.noseMouth == 0.0;
    assert Weighted(s) <= 80.0;
    RoundWithin(Weighted(s), 0, 80);
  }

  /** A face drawn to every ideal: equal thirds, eye gap equal to the eye width, mouth
      1.6 times the nose, length 1.618 times the width, every pair mirrored. */
  function IdealPoint(k: Landmark): Point {
    match k
    case Hairline => Point(0.0, 0.0)
    case BrowLeft => Point(-700.0, 1618.0)
    case BrowRight => Point(700.0, 1618.0)
    case NoseBase => Point(0.0, 3236.0)
    case Chin => Point(0.0, 4854.0)
    case CheekLeft => Point(-1500.0, 2400.0)
    case CheekRight => Point(1500.0, 2400.0)
    case EyeLeftOuter => Point(-900.0, 1900.0)
    case EyeLeftInner => Point(-300.0, 1900.0)
    case EyeRightInner => Point(300.0, 1900.0)
    case EyeRightOuter => Point(900.0, 1900.0)
    case NoseLeft => Point(-250.0, 3100.0)
    case NoseRight => Point(250.0, 3100.0)
    case MouthLeft => Point(-400.0, 3800.0)
    case MouthRight => Point(400.0, 3800.0)
  }

  const IdealFace: Points := map k: Landmark :: IdealPoint(k)

  /** The vertical distances of the ideal face. */
  lemma IdealFaceHeights()
    ensures Dist(Point(0.0, 0.0), Point(0.0, 4854.0)) == 4854.0
    ensures Dist(Point(0.0, 0.0), Point(0.0, 1618.0)) == 1618.0
    ensures Dist(Point(0.0, 1618.0), Point(0.0, 3236.0)) == 1618.0
    ensures Dist(Point(0.0, 3236.0), Point(0.0, 4854.0)) == 1618.0
  {
    DistVertical(Point(0.0, 0.0), Point(0.0, 4854.0));
    DistVertical(Point(0.0, 0.0), Point(0.0, 1618.0));
    DistVertical(Point(0.0, 1618.0), Point(0.0, 3236.0));
    DistVertical(Point(0.0, 3236.0), Point(0.0, 4854.0));
  }

  /** The horizontal distances of the ideal face. */
  lemma IdealFaceWidths()
    ensures Dist(Point(-1500.0, 2400.0), Point(1500.0, 2400.0)) == 3000.0
    ensures Dist(Point(-900.0, 1900.0), Point(-300.0, 1900.0)) == 600.0
    ensures Dist(Point(900.0, 1900.0), Point(300.0, 1900.0)) == 600.0
    ensures Dist(Point(-300.0, 1900.0), Point(300.0, 1900.0)) == 600.0
    ensures Dist(Point(-250.0, 3100.0), Point(250.0, 3100.0)) == 500.0
    ensures Dist(Point(-400.0, 3800.0), Point(400.0, 3800.0)) == 800.0
  {
    DistHorizontal(Point(-1500.0, 2400.0), Point(1500.0, 2400.0));
    DistHorizontal(Point(-900.0, 1900.0), Point(-300.0, 1900.0));
    DistHorizontal(Point(900.0, 1900.0), Point(300.0, 1900.0));
    DistHorizontal(Point(-300.0, 1900.0), Point(300.0, 1900.0));
    DistHorizontal(Point(-250.0, 3100.0), Point(250.0, 3100.0));
    DistHorizontal(Point(-400.0, 3800.0), Point(400.0, 3800.0));
  }

  /** The measurements of the ideal face. */
  lemma IdealFaceMeasurements()
    ensures Complete(IdealFace)
    ensures Measure(IdealFace) == Measurements(
      4854.0, 3000.0, [1618.0, 1618.0, 1618.0], 600.0, 600.0, 600.0, 600.0, 500.0, 800.0)
  {
    var p := IdealFace;
    assert forall k :: p[k] == IdealPoint(k);
    assert Mid(p[BrowLeft], p[BrowRight]) == Point(0.0, 1618.0);
    IdealFaceHeights();
    IdealFaceWidths();
  }

  /** Every pair of the ideal face is mirrored about its midline. */
  lemma IdealFaceMirrored()
    ensures Complete(IdealFace) && MirroredAboutMidline(IdealFace)
  {
    assert Midline(IdealFace).x == 0.0;
  }

  /** The ideal face scores 100 on symmetry. */
  lemma IdealFaceSymmetry()
    ensures Complete(IdealFace) && SymmetryScore(IdealFace) == 100.0
  {
    IdealFaceMirrored();
    SymmetryFullIffMirrored(IdealFace);
  }

  /** Measurements at every ideal score 100 on each measurement-based sub-score. */
  lemma IdealMeasurementsScoreFull(m: Measurements)
    requires m == Measurements(
      4854.0, 3000.0, [1618.0, 1618.0, 1618.0], 600.0, 600.0, 600.0, 600.0, 500.0, 800.0)
    ensures ScoresOf(m, 100.0) == SubScores(100.0, 100.0, 100.0, 100.0, 100.0)
  {
    ScoreEqualityFullIffEqual(ThirdsAsNums(m), EqualityTolerance);
    assert Div(m.interocular, m.avgEyeWidth) == Finite(EyeIdeal);
    assert Div(m.mouthWidth, m.noseWidth) == Finite(NoseMouthIdeal);
    assert Div(m.faceLength, m.faceWidth) == Finite(GoldenIdeal);
  }

  /** The ideal face scores 100 on every sub-score. */
  lemma IdealFaceSubScores()
    ensures Complete(IdealFace)
    ensures SubScoresOf(IdealFace) == SubScores(100.0, 100.0, 100.0, 100.0, 100.0)
  {
    IdealFaceMeasurements();
    IdealFaceSymmetry();
    IdealMeasurementsScoreFull(Measure(IdealFace));
  }

  /** Full marks on every sub-score give full marks overall and on every entry. */
  lemma FullSubScoresFullReport(s: SubScores)
    requires s == SubScores(100.0, 100.0, 100.0, 100.0, 100.0)
    ensures InRange(s)
    ensures Weighted(s) == 100.0
    ensures forall i :: 0 <= i < |MetricOrder| ==> Breakdown(s)[i].score == 100
  {
    assert forall k: Metric :: s.Get(k) == 100.0;
    var b := Breakdown(s);
    forall i | 0 <= i < |MetricOrder| ensures b[i].score == 100 {
      assert 99.5 < b[i].score as real <= 100.5;
    }
  }

  /** A report built from full sub-scores shows 100 overall and on every entry. */
  lemma FullReport(s: SubScores, m: Measurements)
    requires s == SubScores(100.0, 100.0, 100.0, 100.0, 100.0) && |m.thirds| == 3
    ensures InRange(s)
    ensures ReportOf(s, m).overall == 100
    ensures forall i :: 0 <= i < |MetricOrder| ==> ReportOf(s, m).breakdown[i].score == 100
  {
    FullSubScoresFullReport(s);
  }

  /** The ideal face scores 100 overall and 100 on every breakdown entry. */
  lemma IdealFaceScoresFull()
    ensures Metrics(IdealFace).Some?
    ensures Metrics(IdealFace).value.overall == 100
    ensures forall i :: 0 <= i < |MetricOrder| ==> Metrics(IdealFace).value.breakdown[i].score == 100
  {
    IdealFaceSubScores();
    ReadyIffComplete(IdealFace);
    FullReport(SubScoresOf(IdealFace), Measure(IdealFace));
  }
}
