/** ActivityIntensityMetrics: counts over a time window, the derived events-per-minute
    rate, and the two strict thresholds that classify it. */
module IntensityMetrics {
  import opened Wrappers
  import opened JavaTime

  const IntensiveThreshold: real := 100.0
  const CriticalThreshold: real := 200.0

  /** The immutable value object. Its rate is derived from totalEvents and timeWindow,
      so it is a function (EventsPerMinute) rather than a stored field. */
  datatype ActivityIntensityMetrics = ActivityIntensityMetrics(
    totalEvents: int,
    keyboardEvents: int,
    mouseEvents: int,
    timeWindow: Duration)
  {
    /** getEventsPerMinute(). */
    function EventsPerMinute(): real {
      RateOf(totalEvents, timeWindow)
    }

    /** isIntensive(): strictly more than 100 events per minute. */
    predicate IsIntensive() {
      EventsPerMinute() > IntensiveThreshold
    }

    /** isCritical(): strictly more than 200 events per minute. */
    predicate IsCritical() {
      EventsPerMinute() > CriticalThreshold
    }
  }

  /** calculateEventsPerMinute, with the guard extended to windows shorter than one
      second (see EventsPerMinuteAsWritten for the Java code as it stands). A window that
      is zero, negative or under a second has rate 0 and nothing is divided by zero;
      otherwise the rate is totalEvents / (toSeconds() / 60). */
  function RateOf(totalEvents: int, window: Duration): (r: real)
    ensures IsZero(window) || IsNegative(window) ==> r == 0.0
    ensures window.seconds <= 0 ==> r == 0.0
    ensures window.seconds > 0 ==> r == (totalEvents as real) / ((window.seconds as real) / 60.0)
  {
    if window.seconds <= 0 then 0.0
    else (totalEvents * SecondsPerMinute) as real / window.seconds as real
  }

  /** The thresholds in integer terms: over a window of s > 0 seconds the rate exceeds a
      whole-number threshold t exactly when totalEvents * 60 > t * s. */
  lemma {:induction false} RateAbove(totalEvents: int, window: Duration, t: int)
    ensures RateOf(totalEvents, window) > t as real
        <==> (if window.seconds > 0 then totalEvents * 60 > t * window.seconds else 0 > t)
  {
    if window.seconds > 0 {
      var s := window.seconds as real;
      var r := RateOf(totalEvents, window);
      assert r * s == (totalEvents * 60) as real;
      if r > t as real {
        assert r * s > (t as real) * s;
        assert (t * window.seconds) as real == (t as real) * s;
      } else {
        assert r * s <= (t as real) * s;
        assert (t * window.seconds) as real == (t as real) * s;
      }
    }
  }

  lemma IntensiveExactly(m: ActivityIntensityMetrics)
    ensures m.IsIntensive() <==> m.timeWindow.seconds > 0 && m.totalEvents * 60 > 100 * m.timeWindow.seconds
  {
    RateAbove(m.totalEvents, m.timeWindow, 100);
  }

  lemma CriticalExactly(m: ActivityIntensityMetrics)
    ensures m.IsCritical() <==> m.timeWindow.seconds > 0 && m.totalEvents * 60 > 200 * m.timeWindow.seconds
  {
    RateAbove(m.totalEvents, m.timeWindow, 200);
  }

  /** Every critical reading is also intensive. */
  lemma CriticalImpliesIntensive(m: ActivityIntensityMetrics)
    ensures m.IsCritical() ==> m.IsIntensive()
  {
  }

  /** 150 events over 90 seconds is 100 per minute, which is exactly the intensive
      threshold and therefore not intensive; 200 per minute is not critical. */
  lemma BoundaryRates()
    ensures ActivityIntensityMetrics(150, 0, 0, Duration(90, 0)).EventsPerMinute() == 100.0
    ensures !ActivityIntensityMetrics(150, 0, 0, Duration(90, 0)).IsIntensive()
    ensures !ActivityIntensityMetrics(400, 0, 0, Duration(120, 0)).IsCritical()
    ensures ActivityIntensityMetrics(401, 0, 0, Duration(120, 0)).IsCritical()
  {
  }

  /** equals(): totalEvents, keyboardEvents, mouseEvents and timeWindow (the rate is not
      compared; it is derived from two of them). */
  function Equals(a: ActivityIntensityMetrics, b: ActivityIntensityMetrics): (eq: bool)
    ensures eq <==> a == b
    ensures eq ==> a.EventsPerMinute() == b.EventsPerMinute()
  {
    a.totalEvents == b.totalEvents && a.keyboardEvents == b.keyboardEvents
    && a.mouseEvents == b.mouseEvents && a.timeWindow == b.timeWindow
  }

  /** ActivityIntensityMetrics.Builder: the long counters default to 0 and the window to null. */
  datatype MetricsBuilder = MetricsBuilder(
    totalEvents: int,
    keyboardEvents: int,
    mouseEvents: int,
    timeWindow: Option<Duration>)
  {
    function WithTotalEvents(n: int): MetricsBuilder { this.(totalEvents := n) }
    function WithKeyboardEvents(n: int): MetricsBuilder { this.(keyboardEvents := n) }
    function WithMouseEvents(n: int): MetricsBuilder { this.(mouseEvents := n) }
    function WithTimeWindow(d: Duration): MetricsBuilder { this.(timeWindow := Some(d)) }
  }

  /** ActivityIntensityMetrics.builder(). */
  function NewMetricsBuilder(): MetricsBuilder {
    MetricsBuilder(0, 0, 0, None)
  }

  const TimeWindowNull: string := "timeWindow cannot be null"

  /** build(): fails (NullPointerException) exactly when no window was given; otherwise
      every field reads back as it was set. */
  function BuildMetrics(b: MetricsBuilder): (r: Result<ActivityIntensityMetrics, string>)
    ensures r.Failure? <==> b.timeWindow.None?
    ensures r.Failure? ==> r.error == TimeWindowNull
    ensures r.Success? ==>
              && r.value.totalEvents == b.totalEvents
              && r.value.keyboardEvents == b.keyboardEvents
              && r.value.mouseEvents == b.mouseEvents
              && Some(r.value.timeWindow) == b.timeWindow
  {
    match b.timeWindow
    case None => Failure(TimeWindowNull)
    case Some(w) => Success(ActivityIntensityMetrics(b.totalEvents, b.keyboardEvents, b.mouseEvents, w))
  }

  /** Metrics built by the strategies: counts and a window, with the window always set. */
  function MakeMetrics(total: int, keyboard: int, mouse: int, window: Duration): (m: ActivityIntensityMetrics)
    ensures BuildMetrics(NewMetricsBuilder().WithTotalEvents(total).WithKeyboardEvents(keyboard)
                           .WithMouseEvents(mouse).WithTimeWindow(window)) == Success(m)
  {
    ActivityIntensityMetrics(total, keyboard, mouse, window)
  }

  // ---- The rate as the Java code computes it, and why the guard above is extended ----

  /** An IEEE double, reduced to what the rate computation can produce. */
  datatype Double = Finite(value: real) | PositiveInfinity | NegativeInfinity | NotANumber

  /** `d > t` on doubles: NaN compares false, +Infinity compares above everything. */
  predicate DoubleGreater(d: Double, t: real) {
    (d.Finite? && d.value > t) || d.PositiveInfinity?
  }

  /** calculateEventsPerMinute exactly as written: the guard tests isZero()/isNegative(),
      but the divisor is toSeconds() / 60.0, and toSeconds() drops the nanos. A positive
      window shorter than a second therefore divides by 0.0. */
  function EventsPerMinuteAsWritten(totalEvents: int, window: Duration): (r: Double)
    ensures window.seconds != 0 || IsZero(window) ==> r == Finite(RateOf(totalEvents, window))
  {
    if IsZero(window) || IsNegative(window) then Finite(0.0)
    else if window.seconds == 0 then
      (if totalEvents > 0 then PositiveInfinity
       else if totalEvents < 0 then NegativeInfinity
       else NotANumber)
    else Finite((totalEvents * SecondsPerMinute) as real / window.seconds as real)
  }

  /** The input that shows it: one event in half a second. As written the rate is
      +Infinity, so the reading is both intensive and critical; with the extended guard
      the rate is 0 and it is neither. */
  lemma SubSecondWindowDividesByZero()
    ensures EventsPerMinuteAsWritten(1, Duration(0, 500_000_000)) == PositiveInfinity
    ensures DoubleGreater(EventsPerMinuteAsWritten(1, Duration(0, 500_000_000)), CriticalThreshold)
    ensures !ActivityIntensityMetrics(1, 0, 0, Duration(0, 500_000_000)).IsIntensive()
  {
  }

  /** The extended guard changes nothing for windows of at least one second, and every
      window the core builds is a whole number of minutes. */
  lemma RateAgreesForWholeSeconds(totalEvents: int, window: Duration, t: real)
    requires window.seconds != 0 || IsZero(window)
    ensures DoubleGreater(EventsPerMinuteAsWritten(totalEvents, window), t)
        <==> RateOf(totalEvents, window) > t
  {
  }
}
