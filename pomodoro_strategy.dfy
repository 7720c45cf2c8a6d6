/** PomodoroIntensityStrategy: sums the aggregated counts found in the events' metadata
    over a nominal 25-minute window and classifies the resulting rate. */
module PomodoroStrategy {
  import opened Wrappers
  import opened JavaTime
  import opened JavaText
  import opened ActivityEvents
  import opened IntensityMetrics
  import opened Recommendations
  import opened AnalysisStrategy

  const PomodoroMinutes: int := 25
  const ShortBreakMinutes: int := 5
  const LongBreakMinutes: int := 10

  const TotalCountKey: string := "total_count"
  const KeyboardCountKey: string := "keyboard_count"
  const MouseCountKey: string := "mouse_count"

  /** getLongFromMetadata: the number stored under key, or 0 when the key is missing or
      its value is not a Number. */
  function LongFromMetadata(metadata: Metadata, key: string): int {
    if key in metadata && metadata[key].Some? then metadata[key].value else 0
  }

  /** What one event contributes to the count named by key; an event whose metadata map
      is null contributes 0. */
  function EventCount(e: ActivityEvent, key: string): int {
    match e.metadata
    case None => 0
    case Some(m) => LongFromMetadata(m, key)
  }

  /** The count named by key, summed over the events in order. */
  function SumCounts(events: seq<ActivityEvent>, key: string): int {
    if events == [] then 0
    else SumCounts(events[..|events| - 1], key) + EventCount(events[|events| - 1], key)
  }

  /** Totals are additive over concatenation, so the order and grouping of the events
      does not matter for the sum. */
  lemma {:induction false} SumCountsAppend(a: seq<ActivityEvent>, b: seq<ActivityEvent>, key: string)
    ensures SumCounts(a + b, key) == SumCounts(a, key) + SumCounts(b, key)
    decreases |b|
  {
    if b == [] {
      assert a + b == a;
    } else {
      assert (a + b)[..|a + b| - 1] == a + b[..|b| - 1];
      SumCountsAppend(a, b[..|b| - 1], key);
    }
  }

  /** Events without a numeric value under key add nothing to its sum. */
  lemma {:induction false} SumCountsOfNonNumeric(events: seq<ActivityEvent>, key: string)
    requires forall i :: 0 <= i < |events| ==> EventCount(events[i], key) == 0
    ensures SumCounts(events, key) == 0
  {
    if events != [] {
      SumCountsOfNonNumeric(events[..|events| - 1], key);
    }
  }

  /** The metrics calculateMetrics builds: the three sums over a 25-minute window. */
  function PomodoroMetrics(events: seq<ActivityEvent>): (m: ActivityIntensityMetrics)
    ensures m.timeWindow == OfMinutes(PomodoroMinutes)
  {
    MakeMetrics(SumCounts(events, TotalCountKey), SumCounts(events, KeyboardCountKey),
                SumCounts(events, MouseCountKey), OfMinutes(PomodoroMinutes))
  }

  /** calculateMetrics: the accumulating for-loop over the events. */
  method CalculateMetrics(events: seq<ActivityEvent>) returns (m: ActivityIntensityMetrics)
    ensures m.totalEvents == SumCounts(events, TotalCountKey)
    ensures m.keyboardEvents == SumCounts(events, KeyboardCountKey)
    ensures m.mouseEvents == SumCounts(events, MouseCountKey)
    ensures m == PomodoroMetrics(events)
  {
    var totalEvents, keyboardCount, mouseCount := 0, 0, 0;
    for i := 0 to |events|
      invariant totalEvents == SumCounts(events[..i], TotalCountKey)
      invariant keyboardCount == SumCounts(events[..i], KeyboardCountKey)
      invariant mouseCount == SumCounts(events[..i], MouseCountKey)
    {
      assert events[..i + 1][..i] == events[..i];
      match events[i].metadata {
        case Some(metadata) =>
          totalEvents := totalEvents + LongFromMetadata(metadata, TotalCountKey);
          keyboardCount := keyboardCount + LongFromMetadata(metadata, KeyboardCountKey);
          mouseCount := mouseCount + LongFromMetadata(metadata, MouseCountKey);
        case None =>
      }
    }
    assert events[..|events|] == events;
    m := MakeMetrics(totalEvents, keyboardCount, mouseCount, OfMinutes(PomodoroMinutes));
  }

  /** %.0f of the rate totalEvents / 25 for totalEvents >= 0: the nearest whole number.
      Half-way cases cannot occur, since 25 does not divide 2 * totalEvents + 25. */
  function RoundedRate(totalEvents: int): (n: nat)
    requires totalEvents >= 0
    ensures 50 * n - 25 < 2 * totalEvents < 50 * n + 25
  {
    (2 * totalEvents + 25) / 50
  }

  const CriticalReasonHead: string := "Wykryto bardzo intensywną pracę: "
  const ModerateReasonHead: string := "Intensywna praca wykryta: "

  function CriticalReason(m: ActivityIntensityMetrics): string
    requires m.totalEvents >= 0
  {
    CriticalReasonHead + NatToString(RoundedRate(m.totalEvents))
    + " zdarzeń/minutę przez 25 minut. "
    + "Natychmiastowa przerwa zalecana aby zapobiec RSI (Repetitive Strain Injury)."
  }

  function ModerateReason(m: ActivityIntensityMetrics): string
    requires m.totalEvents >= 0
  {
    ModerateReasonHead + NatToString(RoundedRate(m.totalEvents))
    + " zdarzeń/minutę. "
    + "Zalecana 5-minutowa przerwa zgodnie z techniką Pomodoro."
  }

  /** Both reason texts print the rate %.0f gives, right after their opening words. */
  lemma ReasonsCiteRate(m: ActivityIntensityMetrics)
    requires m.totalEvents >= 0
    ensures var d := NatToString(RoundedRate(m.totalEvents));
            && OccursAt(CriticalReason(m), d, |CriticalReasonHead|)
            && OccursAt(ModerateReason(m), d, |ModerateReasonHead|)
  {
    var d := NatToString(RoundedRate(m.totalEvents));
    assert CriticalReason(m)[|CriticalReasonHead|..|CriticalReasonHead| + |d|] == d;
    assert ModerateReason(m)[|ModerateReasonHead|..|ModerateReasonHead| + |d|] == d;
  }

  /** analyze: no events gives no recommendation; otherwise a critical rate gives a
      CRITICAL 10-minute break, an intensive one a MEDIUM 5-minute break, and anything
      else nothing. The recommendation carries the computed metrics unchanged, and the
      strategy never fails. `now` stands for Instant.now(). */
  function Analyze(now: Instant, events: seq<ActivityEvent>): (o: Outcome)
    ensures !o.Errored?
    ensures events == [] ==> o == NoRecommendation
    ensures events != [] ==> (o.Recommended? <==> PomodoroMetrics(events).IsIntensive())
    ensures o.Recommended? ==>
              && o.rec.metrics == PomodoroMetrics(events)
              && o.rec.timestamp == now
              && (PomodoroMetrics(events).IsCritical() ==> o.rec.urgency == Critical && DurationMinutes(o.rec) == 10)
              && (!PomodoroMetrics(events).IsCritical() ==> o.rec.urgency == Medium && DurationMinutes(o.rec) == 5)
  {
    if events == [] then NoRecommendation
    else
      var m := PomodoroMetrics(events);
      IntensiveExactly(m);
      if m.IsCritical() then
        Recommended(MakeRecommendation(now, Critical, CriticalReason(m), LongBreakMinutes, m))
      else if m.IsIntensive() then
        Recommended(MakeRecommendation(now, Medium, ModerateReason(m), ShortBreakMinutes, m))
      else NoRecommendation
  }

  /** The classification in terms of the summed total_count T over 1500 seconds:
      T > 5000 (rate > 200) is CRITICAL, 2500 < T <= 5000 is MEDIUM (so exactly 200 per
      minute is MEDIUM), and T <= 2500 (rate <= 100, including exactly 100) is nothing. */
  lemma AnalyzeByTotal(now: Instant, events: seq<ActivityEvent>)
    requires events != []
    ensures var t := SumCounts(events, TotalCountKey);
            var o := Analyze(now, events);
            && (t > 5000 <==> o.Recommended? && o.rec.urgency == Critical)
            && (2500 < t <= 5000 <==> o.Recommended? && o.rec.urgency == Medium)
            && (t <= 2500 <==> o == NoRecommendation)
  {
    var m := PomodoroMetrics(events);
    IntensiveExactly(m);
    CriticalExactly(m);
    assert m.timeWindow.seconds == 1500;
  }

  /** Test values: events carrying total_count 3000 (keyboard 1800, mouse 1200) give
      120 per minute, a MEDIUM break, with those counts in the metrics. */
  lemma ModerateExample(now: Instant)
    ensures var e := ActivityEvent(None, None, now, SystemEvent, 0.0,
                          Some(map["total_count" := Some(3000), "keyboard_count" := Some(1800),
                                   "mouse_count" := Some(1200)]));
            var o := Analyze(now, [e]);
            && o.Recommended? && o.rec.urgency == Medium
            && o.rec.metrics == ActivityIntensityMetrics(3000, 1800, 1200, OfMinutes(25))
  {
    var e := ActivityEvent(None, None, now, SystemEvent, 0.0,
                Some(map["total_count" := Some(3000), "keyboard_count" := Some(1800),
                         "mouse_count" := Some(1200)]));
    assert [e][..0] == [];
    assert SumCounts([e], TotalCountKey) == 3000;
    assert SumCounts([e], KeyboardCountKey) == 1800;
    assert SumCounts([e], MouseCountKey) == 1200;
    AnalyzeByTotal(now, [e]);
  }
}
