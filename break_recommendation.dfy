/** BreakUrgency and the immutable BreakRecommendation value object with its builder. */
module Recommendations {
  import opened Wrappers
  import opened JavaTime
  import opened IntensityMetrics

  datatype BreakUrgency = Low | Medium | High | Critical

  /** The enum constant names, as BreakUrgency.valueOf matches them. */
  function UrgencyName(u: BreakUrgency): string {
    match u
    case Low => "LOW"
    case Medium => "MEDIUM"
    case High => "HIGH"
    case Critical => "CRITICAL"
  }

  /** name() is injective, which is what lets valueOf invert it. */
  lemma UrgencyNamesDistinct(u: BreakUrgency, v: BreakUrgency)
    ensures UrgencyName(u) == UrgencyName(v) <==> u == v
  {
    if u != v {
      assert UrgencyName(u)[0] != UrgencyName(v)[0] || |UrgencyName(u)| != |UrgencyName(v)|;
    }
  }

  datatype BreakRecommendation = BreakRecommendation(
    timestamp: Instant,
    urgency: BreakUrgency,
    reason: string,
    suggestedBreakDuration: Duration,
    metrics: ActivityIntensityMetrics)

  /** getDurationMinutes(): (int) suggestedBreakDuration.toMinutes(). */
  function DurationMinutes(r: BreakRecommendation): int {
    ToInt32(ToMinutes(r.suggestedBreakDuration))
  }

  /** equals(): timestamp, urgency and reason; the duration and metrics are ignored. */
  predicate SameRecommendation(a: BreakRecommendation, b: BreakRecommendation) {
    a.timestamp == b.timestamp && a.urgency == b.urgency && a.reason == b.reason
  }

  /** Which field build() found null; it checks them in declaration order. */
  datatype MissingField = MissingTimestamp | MissingUrgency | MissingReason | MissingDuration | MissingMetrics

  /** BreakRecommendation.Builder; every field starts out null. */
  datatype RecommendationBuilder = RecommendationBuilder(
    timestamp: Option<Instant>,
    urgency: Option<BreakUrgency>,
    reason: Option<string>,
    suggestedBreakDuration: Option<Duration>,
    metrics: Option<ActivityIntensityMetrics>)
  {
    function WithTimestamp(t: Instant): RecommendationBuilder { this.(timestamp := Some(t)) }
    function WithUrgency(u: BreakUrgency): RecommendationBuilder { this.(urgency := Some(u)) }
    function WithReason(s: string): RecommendationBuilder { this.(reason := Some(s)) }
    function WithSuggestedBreakDuration(d: Duration): RecommendationBuilder { this.(suggestedBreakDuration := Some(d)) }

    /** durationMinutes(int minutes): Duration.ofMinutes(minutes). */
    function WithDurationMinutes(minutes: int): RecommendationBuilder
      requires Int32Min <= minutes <= Int32Max
    {
      this.(suggestedBreakDuration := Some(OfMinutes(minutes)))
    }

    function WithMetrics(m: ActivityIntensityMetrics): RecommendationBuilder { this.(metrics := Some(m)) }
  }

  function NewRecommendationBuilder(): RecommendationBuilder {
    RecommendationBuilder(None, None, None, None, None)
  }

  /** build(): succeeds exactly when all five fields are set, and then the getters return
      what was set; otherwise it reports the first null field in declaration order. */
  function BuildRecommendation(b: RecommendationBuilder): (r: Result<BreakRecommendation, MissingField>)
    ensures r.Success? <==> b.timestamp.Some? && b.urgency.Some? && b.reason.Some?
                            && b.suggestedBreakDuration.Some? && b.metrics.Some?
    ensures r.Success? ==>
              && Some(r.value.timestamp) == b.timestamp
              && Some(r.value.urgency) == b.urgency
              && Some(r.value.reason) == b.reason
              && Some(r.value.suggestedBreakDuration) == b.suggestedBreakDuration
              && Some(r.value.metrics) == b.metrics
    ensures r == Failure(MissingTimestamp) <==> b.timestamp.None?
    ensures r == Failure(MissingUrgency) <==> b.timestamp.Some? && b.urgency.None?
    ensures r == Failure(MissingReason) <==> b.timestamp.Some? && b.urgency.Some? && b.reason.None?
    ensures r == Failure(MissingDuration)
        <==> b.timestamp.Some? && b.urgency.Some? && b.reason.Some? && b.suggestedBreakDuration.None?
    ensures r == Failure(MissingMetrics)
        <==> b.timestamp.Some? && b.urgency.Some? && b.reason.Some? && b.suggestedBreakDuration.Some?
             && b.metrics.None?
  {
    if b.timestamp.None? then Failure(MissingTimestamp)
    else if b.urgency.None? then Failure(MissingUrgency)
    else if b.reason.None? then Failure(MissingReason)
    else if b.suggestedBreakDuration.None? then Failure(MissingDuration)
    else if b.metrics.None? then Failure(MissingMetrics)
    else Success(BreakRecommendation(b.timestamp.value, b.urgency.value, b.reason.value,
                                     b.suggestedBreakDuration.value, b.metrics.value))
  }

  /** The recommendation every strategy builds: all five fields set, the duration given
      in whole minutes through durationMinutes(). */
  function MakeRecommendation(now: Instant, urgency: BreakUrgency, reason: string, minutes: int,
                              metrics: ActivityIntensityMetrics): (r: BreakRecommendation)
    requires Int32Min <= minutes <= Int32Max
    ensures BuildRecommendation(NewRecommendationBuilder().WithTimestamp(now).WithUrgency(urgency)
              .WithDurationMinutes(minutes).WithReason(reason).WithMetrics(metrics)) == Success(r)
    ensures DurationMinutes(r) == minutes
  {
    DurationMinutesRoundTrip(NewRecommendationBuilder(), minutes);
    BreakRecommendation(now, urgency, reason, OfMinutes(minutes), metrics)
  }

  /** durationMinutes(m) followed by getDurationMinutes() gives m back, for every int m:
      m minutes is 60m seconds, toMinutes() divides back exactly (also for negative m,
      where Java truncates toward zero) and the (int) cast leaves an int unchanged. */
  lemma DurationMinutesRoundTrip(b: RecommendationBuilder, m: int)
    requires Int32Min <= m <= Int32Max
    ensures forall r :: BuildRecommendation(b.WithDurationMinutes(m)) == Success(r) ==> DurationMinutes(r) == m
  {
    var d := OfMinutes(m);
    if m < 0 {
      assert -(m * 60) == (-m) * 60;
      assert ((-m) * 60) / 60 == -m;
    }
    assert ToMinutes(d) == m;
    ToInt32OfInt32(m);
  }

  /** Equality looks at timestamp, urgency and reason only: changing the duration or the
      metrics keeps a recommendation equal, changing any of the three does not. */
  lemma SameRecommendationIgnoresDurationAndMetrics(a: BreakRecommendation, d: Duration, m: ActivityIntensityMetrics)
    ensures SameRecommendation(a, a.(suggestedBreakDuration := d, metrics := m))
    ensures forall b :: SameRecommendation(a, b) <==> (a.timestamp, a.urgency, a.reason) == (b.timestamp, b.urgency, b.reason)
  {
  }
}
