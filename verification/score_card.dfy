/** The score card: the tier label and the gradient colour chosen from the overall score. */
module ScoreCard {
  import opened Metrics
  import opened LandmarkGuide

  /** The five tiers, best first. */
  datatype Tier = Exceptional | Great | Balanced | Developing | RoomToGrow

  /** Position of a tier from the bottom: a better tier has a higher rank. */
  function Rank(t: Tier): nat {
    match t
    case RoomToGrow => 0
    case Developing => 1
    case Balanced => 2
    case Great => 3
    case Exceptional => 4
  }

  /** The lowest score of each tier other than the bottom one. */
  function Threshold(t: Tier): int
    requires t != RoomToGrow
  {
    match t
    case Exceptional => 85
    case Great => 70
    case Balanced => 55
    case Developing => 40
  }

  /** The tier just above `t`. */
  function Above(t: Tier): Tier
    requires t != Exceptional
  {
    match t
    case Great => Exceptional
    case Balanced => Great
    case Developing => Balanced
    case RoomToGrow => Developing
  }

  /** Whether `score` lies in tier `t`: at least the tier's threshold and below the
      threshold of the tier above it. */
  predicate InTier(score: int, t: Tier) {
    (t == RoomToGrow || Threshold(t) <= score) && (t == Exceptional || score < Threshold(Above(t)))
  }

  /** The tier of a score, found as the one tier whose range holds the score. */
  function TierOf(score: int): (t: Tier)
    ensures InTier(score, t)
    ensures forall u: Tier :: InTier(score, u) ==> u == t
  {
    if score >= 85 then Exceptional
    else if score >= 70 then Great
    else if score >= 55 then Balanced
    else if score >= 40 then Developing
    else RoomToGrow
  }

  function TierLabel(t: Tier): string {
    match t
    case Exceptional => "Exceptional"
    case Great => "Great"
    case Balanced => "Balanced"
    case Developing => "Developing"
    case RoomToGrow => "Room to grow"
  }

  function TierColor(t: Tier): string {
    match t
    case Exceptional => "from-emerald-500 to-emerald-600"
    case Great => "from-indigo-500 to-indigo-600"
    case Balanced => "from-sky-500 to-sky-600"
    case Developing => "from-amber-500 to-amber-600"
    case RoomToGrow => "from-rose-500 to-rose-600"
  }

  /** The label chain of the score card. */
  function Label(score: int): (l: string)
    ensures l == "Exceptional" <==> score >= 85
    ensures l == "Great" <==> 70 <= score < 85
    ensures l == "Balanced" <==> 55 <= score < 70
    ensures l == "Developing" <==> 40 <= score < 55
    ensures l == "Room to grow" <==> score < 40
  {
    if score >= 85 then "Exceptional"
    else if score >= 70 then "Great"
    else if score >= 55 then "Balanced"
    else if score >= 40 then "Developing"
    else "Room to grow"
  }

  /** The colour chain of the score card, written with its own thresholds. */
  function Color(score: int): (c: string)
    ensures c == "from-emerald-500 to-emerald-600" <==> score >= 85
    ensures c == "from-indigo-500 to-indigo-600" <==> 70 <= score < 85
    ensures c == "from-sky-500 to-sky-600" <==> 55 <= score < 70
    ensures c == "from-amber-500 to-amber-600" <==> 40 <= score < 55
    ensures c == "from-rose-500 to-rose-600" <==> score < 40
  {
    if score >= 85 then "from-emerald-500 to-emerald-600"
    else if score >= 70 then "from-indigo-500 to-indigo-600"
    else if score >= 55 then "from-sky-500 to-sky-600"
    else if score >= 40 then "from-amber-500 to-amber-600"
    else "from-rose-500 to-rose-600"
  }

  /** The label chain picks the label of the score's tier. */
  lemma LabelMatchesTier(score: int)
    ensures Label(score) == TierLabel(TierOf(score))
  {
  }

  /** The colour chain picks the colour of the score's tier. */
  lemma ColorMatchesTier(score: int)
    ensures Color(score) == TierColor(TierOf(score))
  {
  }

  /** Different tiers have different labels and different colours. */
  lemma TiersDistinct(t: Tier, u: Tier)
    ensures TierLabel(t) == TierLabel(u) <==> t == u
    ensures TierColor(t) == TierColor(u) <==> t == u
  {
    if t != u {
      assert TierLabel(t)[0] != TierLabel(u)[0] || |TierLabel(t)| != |TierLabel(u)|;
      assert TierColor(t)[5] != TierColor(u)[5];
    }
  }

  /** Two scores share a label exactly when they share a colour: the two chains use
      the same thresholds. */
  lemma LabelColorAgree(a: int, b: int)
    ensures Label(a) == Label(b) <==> Color(a) == Color(b)
    ensures Label(a) == Label(b) <==> TierOf(a) == TierOf(b)
  {
    LabelMatchesTier(a);
    LabelMatchesTier(b);
    ColorMatchesTier(a);
    ColorMatchesTier(b);
    TiersDistinct(TierOf(a), TierOf(b));
  }

  /** A higher score never lands in a lower tier. */
  lemma TierMonotone(a: int, b: int)
    requires a <= b
    ensures Rank(TierOf(a)) <= Rank(TierOf(b))
  {
  }

  /** What the score card shows: the overall score, its label and colour, and the breakdown. */
  datatype Card = Card(score: int, tierLabel: string, color: string, breakdown: seq<Entry>)

  /** The score card renders nothing without metrics. */
  function Render(metrics: Option<Report>): (c: Option<Card>)
    ensures c.None? <==> metrics.None?
    ensures c.Some? ==> c.value.score == metrics.value.overall
    ensures c.Some? ==> c.value.tierLabel == TierLabel(TierOf(c.value.score))
    ensures c.Some? ==> c.value.color == TierColor(TierOf(c.value.score))
    ensures c.Some? ==> c.value.breakdown == metrics.value.breakdown
  {
    match metrics
    case None => None
    case Some(r) =>
      LabelMatchesTier(r.overall);
      ColorMatchesTier(r.overall);
      Some(Card(r.overall, Label(r.overall), Color(r.overall), r.breakdown))
  }

  /** The card built from the guide's own metrics is empty until every landmark is placed. */
  lemma NoCardUntilReady(points: Points)
    ensures Render(Metrics.Metrics(points)).None? <==> !Ready(points)
  {
  }

  /** The ideal face earns the top tier. */
  lemma IdealFaceIsExceptional()
    ensures Render(Metrics.Metrics(IdealFace)).Some?
    ensures Render(Metrics.Metrics(IdealFace)).value.tierLabel == "Exceptional"
    ensures Render(Metrics.Metrics(IdealFace)).value.color == "from-emerald-500 to-emerald-600"
  {
    IdealFaceScoresFull();
  }
}
