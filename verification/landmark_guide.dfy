/** The landmark collector of the guide: the fixed table of fifteen prompts, the map of
    placed points, the cursor naming the next prompt, and the click and reset transitions. */
module LandmarkGuide {
  import opened Geometry

  /** The fifteen anatomical points a user marks. */
  datatype Landmark =
    | Hairline | BrowLeft | BrowRight | NoseBase | Chin
    | CheekLeft | CheekRight
    | EyeLeftOuter | EyeLeftInner | EyeRightInner | EyeRightOuter
    | NoseLeft | NoseRight
    | MouthLeft | MouthRight

  /** One prompt: the landmark it asks for and the instruction shown. */
  datatype Step = Step(key: Landmark, prompt: string)

  /** The prompts, in the order the user is asked for them. */
  const Steps: seq<Step> := [
    Step(Hairline, "Top of forehead (approx. hairline center)"),
    Step(BrowLeft, "Left eyebrow peak"),
    Step(BrowRight, "Right eyebrow peak"),
    Step(NoseBase, "Base of nose (columella)"),
    Step(Chin, "Bottom of chin center"),
    Step(CheekLeft, "Left cheek widest point"),
    Step(CheekRight, "Right cheek widest point"),
    Step(EyeLeftOuter, "Left eye outer corner"),
    Step(EyeLeftInner, "Left eye inner corner"),
    Step(EyeRightInner, "Right eye inner corner"),
    Step(EyeRightOuter, "Right eye outer corner"),
    Step(NoseLeft, "Left nostril outer edge"),
    Step(NoseRight, "Right nostril outer edge"),
    Step(MouthLeft, "Left mouth corner"),
    Step(MouthRight, "Right mouth corner")
  ]

  /** The index of the last prompt, `steps.length - 1`. */
  const Last: nat := |Steps| - 1

  /** Shown when the cursor has run past the last prompt. */
  const AllPlaced: string := "All points placed — review your score below!"

  /** The placed points, keyed by landmark. */
  type Points = map<Landmark, Point>

  /** The one position of a landmark in the prompt table. */
  function IndexOf(k: Landmark): (i: nat)
    ensures i < |Steps| && Steps[i].key == k
    ensures forall j :: 0 <= j < |Steps| && Steps[j].key == k ==> j == i
  {
    match k
    case Hairline => 0
    case BrowLeft => 1
    case BrowRight => 2
    case NoseBase => 3
    case Chin => 4
    case CheekLeft => 5
    case CheekRight => 6
    case EyeLeftOuter => 7
    case EyeLeftInner => 8
    case EyeRightInner => 9
    case EyeRightOuter => 10
    case NoseLeft => 11
    case NoseRight => 12
    case MouthLeft => 13
    case MouthRight => 14
  }

  /** `ready`: every prompt of the step table has a placed point. */
  predicate Ready(points: Points) {
    forall i :: 0 <= i < |Steps| ==> Steps[i].key in points
  }

  /** Every landmark has a point. */
  predicate Complete(points: Points) {
    forall k: Landmark :: k in points
  }

  /** Answering every prompt places every landmark, and conversely. */
  lemma ReadyIffComplete(points: Points)
    ensures Ready(points) <==> Complete(points)
  {
    if Ready(points) {
      forall k: Landmark ensures k in points {
        assert Steps[IndexOf(k)].key == k;
      }
    }
  }

  /** The guide's state: the placed points and the cursor `current`. */
  datatype Guide = Guide(points: Points, current: nat)

  /** The cursor names a prompt, so `steps[current]` is defined. */
  predicate Valid(g: Guide) {
    g.current < |Steps|
  }

  /** The reset button: no points, back to the first prompt, whatever the prior state. */
  function Reset(g: Guide): (r: Guide)
    ensures |r.points| == 0 && r.current == 0
    ensures Valid(r) && !Ready(r.points)
  {
    var empty: Points := map[];
    assert Steps[0].key !in empty;
    Guide(empty, 0)
  }

  /** Selecting a new image clears the guide in the same way as the reset button. */
  function ImageChanged(g: Guide): (r: Guide)
    ensures |r.points| == 0 && r.current == 0
    ensures Valid(r) && !Ready(r.points)
  {
    Reset(g)
  }

  /** A click at `p`: the point is stored under the landmark the cursor names, and the
      cursor moves on only while it is before the last prompt. A cursor past the table
      (no landmark to place) leaves the guide as it is. */
  function Click(g: Guide, p: Point): (r: Guide)
    ensures !Valid(g) ==> r == g
    ensures Valid(g) ==> var k := Steps[g.current].key;
      && r.points.Keys == g.points.Keys + {k}
      && r.points[k] == p
      && (forall k' :: k' in g.points && k' != k ==> r.points[k'] == g.points[k'])
    ensures Valid(g) ==> Valid(r)
    ensures g.current < Last ==> r.current == g.current + 1
    ensures g.current == Last ==> r.current == Last
  {
    if g.current >= |Steps| then
      g
    else
      var key := Steps[g.current].key;
      Guide(g.points[key := p], if g.current < |Steps| - 1 then g.current + 1 else g.current)
  }

  /** The state after a sequence of clicks, the last click applied last. */
  function Clicks(g: Guide, pts: seq<Point>): Guide
  {
    if |pts| == 0 then g else Click(Clicks(g, pts[..|pts| - 1]), pts[|pts| - 1])
  }

  /** The instruction under the image: the current prompt's text, or the closing
      message once no prompt is left. */
  function Instruction(g: Guide): (s: string)
    ensures Valid(g) ==> s == Steps[g.current].prompt
    ensures s == AllPlaced <==> !Valid(g)
  {
    if g.current < |Steps| then
      LabelsAreNotAllPlaced(g.current);
      Steps[g.current].prompt
    else
      AllPlaced
  }

  /** No prompt text is the closing message. */
  lemma LabelsAreNotAllPlaced(i: nat)
    requires i < |Steps|
    ensures Steps[i].prompt != AllPlaced
  {
    assert |Steps[i].prompt| < |AllPlaced|;
  }

  /** Two different prompts ask for different landmarks. */
  lemma KeysDistinct(i: nat, j: nat)
    requires i < |Steps| && j < |Steps| && i != j
    ensures Steps[i].key != Steps[j].key
  {
    var k := Steps[i].key;
    assert IndexOf(k) == i;
  }

  /** `g` is the guide after clicking `pts` from a fresh one: click `i` placed landmark
      `i`, nothing else is placed, and the cursor advanced once per click up to the last. */
  predicate Placed(g: Guide, pts: seq<Point>)
    requires |pts| <= |Steps|
  {
    && g.current == (if |pts| < Last then |pts| else Last)
    && (forall i :: 0 <= i < |pts| ==> Steps[i].key in g.points && g.points[Steps[i].key] == pts[i])
    && (forall k :: k in g.points ==> IndexOf(k) < |pts|)
  }

  /** One more click extends `Placed` by the clicked point. */
  lemma PlacedStep(before: Guide, pre: seq<Point>, p: Point)
    requires |pre| < |Steps| && Placed(before, pre)
    ensures Placed(Click(before, p), pre + [p])
  {
    var n := |pre|;
    var pts := pre + [p];
    var g := Click(before, p);
    assert before.current == n;
    assert g.points == before.points[Steps[n].key := p];
    forall i | 0 <= i < |pts|
      ensures Steps[i].key in g.points && g.points[Steps[i].key] == pts[i]
    {
      if i < n {
        KeysDistinct(i, n);
      }
    }
  }

  /** Clicking from a fresh guide at most fifteen times places the points in prompt order. */
  lemma {:induction false} ClicksFromReset(g0: Guide, pts: seq<Point>)
    requires |pts| <= |Steps|
    ensures Placed(Clicks(Reset(g0), pts), pts)
  {
    if |pts| > 0 {
      var pre := pts[..|pts| - 1];
      ClicksFromReset(g0, pre);
      PlacedStep(Clicks(Reset(g0), pre), pre, pts[|pts| - 1]);
      assert pre + [pts[|pts| - 1]] == pts;
    }
  }

  /** Fifteen clicks from a fresh guide answer every prompt and leave the cursor on the last. */
  lemma FifteenClicksReady(g0: Guide, pts: seq<Point>)
    requires |pts| == |Steps|
    ensures Ready(Clicks(Reset(g0), pts).points)
    ensures Clicks(Reset(g0), pts).current == Last
  {
    ClicksFromReset(g0, pts);
  }

  /** Fewer than fifteen clicks leave the last prompt, `mouthRight`, unanswered. */
  lemma FewerClicksNotReady(g0: Guide, pts: seq<Point>)
    requires |pts| < |Steps|
    ensures !Ready(Clicks(Reset(g0), pts).points)
    ensures Clicks(Reset(g0), pts).current == |pts|
  {
    ClicksFromReset(g0, pts);
    PlacedShortNotComplete(Clicks(Reset(g0), pts), pts);
    ReadyIffComplete(Clicks(Reset(g0), pts).points);
  }

  /** Fewer than fifteen placements leave `mouthRight`, the last prompt, unplaced. */
  lemma PlacedShortNotComplete(g: Guide, pts: seq<Point>)
    requires |pts| < |Steps| && Placed(g, pts)
    ensures !Complete(g.points) && g.current == |pts|
  {
    assert IndexOf(MouthRight) == Last;
    assert MouthRight !in g.points;
  }

  /** Once the cursor is on the last prompt, a click replaces the `mouthRight` point and
      keeps the cursor there; it is not ignored. */
  lemma LateClickOverwritesMouthRight(g: Guide, p: Point)
    requires g.current == Last
    ensures Click(g, p) == Guide(g.points[MouthRight := p], Last)
  {
  }

  /** `g` is the guide after clicking `pts`, fifteen points or more, from a fresh one:
      ready, the cursor on the last prompt, the first fourteen clicks in place, and the
      latest click as `mouthRight`. */
  predicate Saturated(g: Guide, pts: seq<Point>)
    requires |pts| >= |Steps|
  {
    && g.current == Last
    && Ready(g.points)
    && (forall i :: 0 <= i < Last ==> g.points[Steps[i].key] == pts[i])
    && MouthRight in g.points
    && g.points[MouthRight] == pts[|pts| - 1]
  }

  /** A click on a saturated guide keeps it saturated. */
  lemma SaturatedStep(before: Guide, pre: seq<Point>, p: Point)
    requires |pre| >= |Steps| && Saturated(before, pre)
    ensures Saturated(Click(before, p), pre + [p])
  {
    var pts := pre + [p];
    var g := Click(before, p);
    LateClickOverwritesMouthRight(before, p);
    forall i | 0 <= i < Last ensures g.points[Steps[i].key] == pts[i] {
      KeysDistinct(i, Last);
    }
  }

  /** The guide after exactly fifteen clicks is saturated. */
  lemma PlacedAllIsSaturated(g: Guide, pts: seq<Point>)
    requires |pts| == |Steps| && Placed(g, pts)
    ensures Saturated(g, pts)
  {
    assert Steps[Last].key == MouthRight;
  }

  /** Clicking beyond fifteen times: the guide stays ready, the cursor stays on the last
      prompt, the first fourteen points are kept, and `mouthRight` is the latest click. */
  lemma {:induction false} ClicksBeyondFifteen(g0: Guide, pts: seq<Point>)
    requires |pts| >= |Steps|
    ensures Saturated(Clicks(Reset(g0), pts), pts)
  {
    if |pts| == |Steps| {
      ClicksFromReset(g0, pts);
      PlacedAllIsSaturated(Clicks(Reset(g0), pts), pts);
    } else {
      var pre, last := pts[..|pts| - 1], pts[|pts| - 1];
      assert pre + [last] == pts;
      var before := Clicks(Reset(g0), pre);
      assert Clicks(Reset(g0), pts) == Click(before, last);
      ClicksBeyondFifteen(g0, pre);
      SaturatedStep(before, pre, last);
    }
  }

  /** A fresh guide is ready after exactly fifteen or more clicks. */
  lemma ReadyIffFifteenClicks(g0: Guide, pts: seq<Point>)
    ensures Ready(Clicks(Reset(g0), pts).points) <==> |pts| >= |Steps|
  {
    if |pts| >= |Steps| {
      ClicksBeyondFifteen(g0, pts);
    } else {
      FewerClicksNotReady(g0, pts);
    }
  }

  /** Every state reachable from a fresh guide has a cursor naming a prompt, so the
      closing message is never shown. */
  lemma {:induction false} ClosingMessageUnreachable(g0: Guide, pts: seq<Point>)
    ensures Valid(Clicks(Reset(g0), pts))
    ensures Instruction(Clicks(Reset(g0), pts)) != AllPlaced
  {
    if |pts| > 0 {
      ClosingMessageUnreachable(g0, pts[..|pts| - 1]);
    }
    LabelsAreNotAllPlaced(Clicks(Reset(g0), pts).current);
  }

  /** The click the closing message and the missing-key guard were written for:
      the cursor also moves past the last prompt, after which clicks have no target. */
  function ClickCorrected(g: Guide, p: Point): (r: Guide)
    ensures !Valid(g) ==> r == g
    ensures Valid(g) ==> r.points == Click(g, p).points && r.current == g.current + 1
  {
    if g.current >= |Steps| then
      g
    else
      Guide(g.points[Steps[g.current].key := p], g.current + 1)
  }

  /** Before the last prompt the corrected click is the click as written. */
  lemma ClickCorrectedAgreesEarly(g: Guide, p: Point)
    requires g.current < Last
    ensures ClickCorrected(g, p) == Click(g, p)
  {
  }

  /** With the corrected click the fifteenth point shows the closing message, and any
      further click is ignored. */
  lemma CorrectedClickAfterLastIsNoOp(g: Guide, p: Point, q: Point)
    requires g.current == Last
    ensures Instruction(ClickCorrected(g, p)) == AllPlaced
    ensures ClickCorrected(ClickCorrected(g, p), q) == ClickCorrected(g, p)
  {
  }
}
