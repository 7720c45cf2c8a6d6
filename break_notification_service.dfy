/** BreakNotificationService: once per scheduled cycle it checks the throttle, fetches the
    recent events, asks the strategies in order for a recommendation and fans the first
    one out to every notifier, then stamps the time. Instant.now() is the parameter
    `now`; the repository is the sequence findAll() emits. */
module NotificationService {
  import opened Wrappers
  import opened JavaTime
  import opened ActivityEvents
  import opened Recommendations
  import opened AnalysisStrategy
  import PomodoroStrategy
  import AiStrategy

  /** MIN_TIME_BETWEEN_NOTIFICATIONS. */
  const MinTimeBetweenNotifications: Duration := OfMinutes(10)
  const TenMinutesInNanos: int := 600 * NanosPerSecond

  /** take(50). */
  const FetchLimit: nat := 50

  /** sendNotification(rec): true when its Mono completes, false when it fails (the
      failure is logged and swallowed by onErrorResume). */
  type Notifier = BreakRecommendation -> bool

  /** fetchRecentEvents: the first 50 events the repository emits, or all of them. */
  function FetchRecent(repository: seq<ActivityEvent>): (events: seq<ActivityEvent>)
    ensures |events| == if |repository| <= FetchLimit then |repository| else FetchLimit
    ensures events == repository[..|events|]
  {
    if |repository| <= FetchLimit then repository else repository[..FetchLimit]
  }

  /** shouldSkipNotification: Duration.between(last, now) is shorter than ten minutes
      (a clock that went back before `last` also skips). */
  predicate ShouldSkip(last: Instant, now: Instant) {
    CompareTo(Between(last, now), MinTimeBetweenNotifications) < 0
  }

  /** The throttle in nanoseconds: a cycle is skipped exactly when fewer than ten minutes
      have passed, so exactly ten minutes proceeds. */
  lemma ShouldSkipExactly(last: Instant, now: Instant)
    ensures ShouldSkip(last, now) <==> now - last < TenMinutesInNanos
  {
    CompareToIsByLength(Between(last, now), MinTimeBetweenNotifications);
  }

  /** What concatMap(analyze).next() yields, and how many strategies were called. */
  datatype ChainResult = ChainResult(outcome: Outcome, invoked: nat)

  /** The strategies in order until one does not complete empty: its value or its error
      ends the chain, and the strategies after it are never called. */
  function RunChain(strategies: seq<Strategy>, now: Instant, events: seq<ActivityEvent>): (r: ChainResult)
    ensures r.invoked <= |strategies|
    ensures forall i :: 0 <= i < r.invoked - 1 ==> strategies[i](now, events) == NoRecommendation
    ensures r.outcome == NoRecommendation <==>
              forall i :: 0 <= i < |strategies| ==> strategies[i](now, events) == NoRecommendation
    ensures r.outcome == NoRecommendation ==> r.invoked == |strategies|
    ensures r.outcome != NoRecommendation ==> 1 <= r.invoked && r.outcome == strategies[r.invoked - 1](now, events)
    decreases |strategies|
  {
    if strategies == [] then ChainResult(NoRecommendation, 0)
    else
      var first := strategies[0](now, events);
      if first != NoRecommendation then ChainResult(first, 1)
      else
        var rest := RunChain(strategies[1..], now, events);
        assert forall i :: 1 <= i < |strategies| ==> strategies[i] == strategies[1..][i - 1];
        ChainResult(rest.outcome, rest.invoked + 1)
  }

  /** analyzeWithAllStrategies: an empty event list calls no strategy. */
  function AnalyzeSpec(strategies: seq<Strategy>, now: Instant, events: seq<ActivityEvent>): (r: ChainResult)
    ensures events == [] ==> r == ChainResult(NoRecommendation, 0)
    ensures events != [] ==> r == RunChain(strategies, now, events)
  {
    if events == [] then ChainResult(NoRecommendation, 0) else RunChain(strategies, now, events)
  }

  /** sendNotifications: every notifier is given the recommendation, whatever the others
      do; the i-th entry says whether the i-th notifier succeeded. */
  function Deliver(notifiers: seq<Notifier>, rec: BreakRecommendation): (d: seq<bool>)
    ensures |d| == |notifiers|
    ensures forall i :: 0 <= i < |d| ==> d[i] == notifiers[i](rec)
  {
    seq(|notifiers|, i requires 0 <= i < |notifiers| => notifiers[i](rec))
  }

  /** What one cycle did. */
  datatype CycleReport =
    | Throttled
    | NoEvents
    | NothingRecommended(invoked: nat)
    | AnalysisFailed(invoked: nat)
    | Notified(rec: BreakRecommendation, invoked: nat, deliveries: seq<bool>)

  datatype CycleResult = CycleResult(report: CycleReport, lastNotificationTime: Instant)

  /** checkAndNotifyIfBreakNeeded as a function of the old lastNotificationTime. A cycle
      that is throttled, finds no events, gets no recommendation or meets a strategy
      error keeps lastNotificationTime; a dispatched recommendation stamps it with now,
      whatever the notifiers did. */
  function Cycle(strategies: seq<Strategy>, notifiers: seq<Notifier>, last: Instant, now: Instant,
                 repository: seq<ActivityEvent>): (r: CycleResult)
    ensures r.report == Throttled <==> ShouldSkip(last, now)
    ensures r.report == NoEvents <==> !ShouldSkip(last, now) && repository == []
    ensures r.report.Notified? ==> r.lastNotificationTime == now
    ensures !r.report.Notified? ==> r.lastNotificationTime == last
    ensures r.report.Notified? ==>
              && 1 <= r.report.invoked <= |strategies|
              && Recommended(r.report.rec) == strategies[r.report.invoked - 1](now, FetchRecent(repository))
              && (forall i :: 0 <= i < r.report.invoked - 1 ==>
                    strategies[i](now, FetchRecent(repository)) == NoRecommendation)
              && r.report.deliveries == Deliver(notifiers, r.report.rec)
    ensures r.report.AnalysisFailed? ==>
              1 <= r.report.invoked <= |strategies| && strategies[r.report.invoked - 1](now, FetchRecent(repository)) == Errored
    ensures r.report.NothingRecommended? <==>
              && !ShouldSkip(last, now) && repository != []
              && forall i :: 0 <= i < |strategies| ==> strategies[i](now, FetchRecent(repository)) == NoRecommendation
    ensures r.report.NothingRecommended? ==> r.report.invoked == |strategies|
  {
    if ShouldSkip(last, now) then CycleResult(Throttled, last)
    else
      var events := FetchRecent(repository);
      if events == [] then CycleResult(NoEvents, last)
      else
        var chain := RunChain(strategies, now, events);
        match chain.outcome
        case NoRecommendation => CycleResult(NothingRecommended(chain.invoked), last)
        case Errored => CycleResult(AnalysisFailed(chain.invoked), last)
        case Recommended(rec) => CycleResult(Notified(rec, chain.invoked, Deliver(notifiers, rec)), now)
  }

  class BreakNotificationService {
    const strategies: seq<Strategy>
    const notifiers: seq<Notifier>
    var lastNotificationTime: Instant

    /** Constructor injection; the field starts at Instant.EPOCH. */
    constructor(strategies: seq<Strategy>, notifiers: seq<Notifier>)
      ensures this.strategies == strategies && this.notifiers == notifiers
      ensures lastNotificationTime == Epoch
    {
      this.strategies := strategies;
      this.notifiers := notifiers;
      lastNotificationTime := Epoch;
    }

    /** shouldSkipNotification: fewer than ten minutes since the last notification. */
    function ShouldSkipNotification(now: Instant): (skip: bool)
      reads this
      ensures skip <==> now - lastNotificationTime < TenMinutesInNanos
    {
      ShouldSkipExactly(lastNotificationTime, now);
      ShouldSkip(lastNotificationTime, now)
    }

    /** Runs the strategies in list order and stops at the first that does not complete
        empty. */
    method AnalyzeWithAllStrategies(now: Instant, events: seq<ActivityEvent>) returns (r: ChainResult)
      ensures r == AnalyzeSpec(strategies, now, events)
    {
      if events == [] {
        return ChainResult(NoRecommendation, 0);
      }
      var i := 0;
      var outcome := NoRecommendation;
      while i < |strategies| && outcome == NoRecommendation
        invariant 0 <= i <= |strategies|
        invariant outcome == NoRecommendation ==> RunChain(strategies, now, events) == AddInvoked(RunChain(strategies[i..], now, events), i)
        invariant outcome != NoRecommendation ==> RunChain(strategies, now, events) == ChainResult(outcome, i)
      {
        assert strategies[i..][0] == strategies[i];
        assert strategies[i..][1..] == strategies[i + 1..];
        outcome := strategies[i](now, events);
        i := i + 1;
      }
      r := ChainResult(outcome, i);
    }

    /** Gives the recommendation to every notifier in turn; a failing one does not stop
        the rest. */
    method SendNotifications(rec: BreakRecommendation) returns (deliveries: seq<bool>)
      ensures deliveries == Deliver(notifiers, rec)
    {
      deliveries := [];
      for i := 0 to |notifiers|
        invariant deliveries == Deliver(notifiers[..i], rec)
      {
        assert notifiers[..i + 1] == notifiers[..i] + [notifiers[i]];
        deliveries := deliveries + [notifiers[i](rec)];
      }
      assert notifiers[..|notifiers|] == notifiers;
    }

    /** updateLastNotificationTime. */
    method UpdateLastNotificationTime(now: Instant)
      modifies this
      ensures lastNotificationTime == now
    {
      lastNotificationTime := now;
    }

    /** resetNotificationThrottle. */
    method ResetNotificationThrottle()
      modifies this
      ensures lastNotificationTime == Epoch
    {
      lastNotificationTime := Epoch;
    }

    /** getLastNotificationTime: empty exactly while the field holds EPOCH. */
    function GetLastNotificationTime(): (t: Option<Instant>)
      reads this
      ensures t.None? <==> lastNotificationTime == Epoch
      ensures t.Some? ==> t.value == lastNotificationTime
    {
      if lastNotificationTime == Epoch then None else Some(lastNotificationTime)
    }

    /** checkAndNotifyIfBreakNeeded: one scheduled cycle, reported as what it did. */
    method CheckAndNotifyIfBreakNeeded(now: Instant, repository: seq<ActivityEvent>) returns (report: CycleReport)
      modifies this
      ensures CycleResult(report, lastNotificationTime)
              == Cycle(strategies, notifiers, old(lastNotificationTime), now, repository)
    {
      if ShouldSkipNotification(now) {
        return Throttled;
      }
      var events := FetchRecent(repository);
      if events == [] {
        return NoEvents;
      }
      var chain := AnalyzeWithAllStrategies(now, events);
      match chain.outcome {
        case NoRecommendation =>
          report := NothingRecommended(chain.invoked);
        case Errored =>
          report := AnalysisFailed(chain.invoked);
        case Recommended(rec) =>
          var deliveries := SendNotifications(rec);
          UpdateLastNotificationTime(now);
          report := Notified(rec, chain.invoked, deliveries);
      }
    }
  }

  /** A cycle that is not throttled and finds events acts on the first strategy that does
      not complete empty: its recommendation is delivered to every notifier and stamps
      `now`, its error is reported and keeps the old stamp. */
  lemma CycleActsOnFirstAnswer(strategies: seq<Strategy>, notifiers: seq<Notifier>, last: Instant, now: Instant,
                               repository: seq<ActivityEvent>, k: nat)
    requires !ShouldSkip(last, now) && repository != []
    requires k < |strategies|
    requires forall i :: 0 <= i < k ==> strategies[i](now, FetchRecent(repository)) == NoRecommendation
    requires strategies[k](now, FetchRecent(repository)) != NoRecommendation
    ensures var c := Cycle(strategies, notifiers, last, now, repository);
            match strategies[k](now, FetchRecent(repository))
            case Recommended(rec) => c == CycleResult(Notified(rec, k + 1, Deliver(notifiers, rec)), now)
            case Errored => c == CycleResult(AnalysisFailed(k + 1), last)
            case NoRecommendation => false
  {
    var chain := RunChain(strategies, now, FetchRecent(repository));
    assert chain.outcome != NoRecommendation;
    assert chain.invoked == k + 1;
  }

  /** After a cycle that notified at `now`, any cycle within the next ten minutes is
      throttled and changes nothing, and one ten minutes or more later is not throttled. */
  lemma ThrottleWindow(strategies: seq<Strategy>, notifiers: seq<Notifier>, last: Instant, now: Instant,
                       repository: seq<ActivityEvent>, later: Instant, laterRepository: seq<ActivityEvent>)
    requires Cycle(strategies, notifiers, last, now, repository).report.Notified?
    ensures var next := Cycle(strategies, notifiers, Cycle(strategies, notifiers, last, now, repository).lastNotificationTime,
                              later, laterRepository);
            && (later - now < TenMinutesInNanos ==> next == CycleResult(Throttled, now))
            && (later - now >= TenMinutesInNanos ==> next.report != Throttled)
  {
    ShouldSkipExactly(now, later);
  }

  /** Strategies after the one that ended the chain are never consulted: appending more
      strategies changes neither the outcome nor the number called. */
  lemma {:induction false} LaterStrategiesIgnored(strategies: seq<Strategy>, more: seq<Strategy>, now: Instant,
                                                  events: seq<ActivityEvent>)
    requires RunChain(strategies, now, events).outcome != NoRecommendation
    ensures RunChain(strategies + more, now, events) == RunChain(strategies, now, events)
    decreases |strategies|
  {
    var all := strategies + more;
    assert all[0] == strategies[0];
    if strategies[0](now, events) == NoRecommendation {
      assert all[1..] == strategies[1..] + more;
      LaterStrategiesIgnored(strategies[1..], more, now, events);
    }
  }

  /** Strategies that all complete empty only add to the count of those called. */
  lemma {:induction false} EmptyStrategiesSkipped(strategies: seq<Strategy>, more: seq<Strategy>, now: Instant,
                                                  events: seq<ActivityEvent>)
    requires forall i :: 0 <= i < |strategies| ==> strategies[i](now, events) == NoRecommendation
    ensures RunChain(strategies + more, now, events) == AddInvoked(RunChain(more, now, events), |strategies|)
    decreases |strategies|
  {
    if strategies == [] {
      assert strategies + more == more;
    } else {
      var all := strategies + more;
      assert all[0] == strategies[0];
      assert all[1..] == strategies[1..] + more;
      assert forall i :: 0 <= i < |strategies[1..]| ==> strategies[1..][i] == strategies[i + 1];
      EmptyStrategiesSkipped(strategies[1..], more, now, events);
    }
  }

  /** Notifier failures are swallowed: whatever the notifiers do, the cycle reports the
      same recommendation and stamps the same time. */
  lemma NotifierOutcomesIrrelevant(strategies: seq<Strategy>, notifiers: seq<Notifier>, others: seq<Notifier>,
                                   last: Instant, now: Instant, repository: seq<ActivityEvent>)
    ensures var a := Cycle(strategies, notifiers, last, now, repository);
            var b := Cycle(strategies, others, last, now, repository);
            && a.lastNotificationTime == b.lastNotificationTime
            && a.report.Notified? == b.report.Notified?
            && (a.report.Notified? ==> a.report.rec == b.report.rec && a.report.invoked == b.report.invoked)
            && (!a.report.Notified? ==> a.report == b.report)
  {
  }

  /** Only the first 50 events the repository emits can influence a cycle. */
  lemma OnlyFirstFiftyMatter(strategies: seq<Strategy>, notifiers: seq<Notifier>, last: Instant, now: Instant,
                             repository: seq<ActivityEvent>, older: seq<ActivityEvent>)
    requires |repository| >= FetchLimit
    ensures Cycle(strategies, notifiers, last, now, repository + older)
            == Cycle(strategies, notifiers, last, now, repository)
  {
    assert (repository + older)[..FetchLimit] == repository[..FetchLimit];
  }

  /** The two strategies of the core, Pomodoro first, with the model's reply fixed for
      the cycle. Spring injects them in bean registration order, which the source does
      not pin down. */
  function CoreStrategies(reply: AiStrategy.AiReply): seq<Strategy> {
    [(now, events) => PomodoroStrategy.Analyze(now, events),
     (now, events) => AiStrategy.Analyze(now, events, reply)]
  }

  /** With the core strategies the chain never fails; an intensive Pomodoro reading wins
      without the model being consulted, and otherwise the AI strategy decides. */
  lemma CoreChain(reply: AiStrategy.AiReply, now: Instant, events: seq<ActivityEvent>)
    requires events != []
    ensures var r := RunChain(CoreStrategies(reply), now, events);
            && r.outcome != Errored
            && (PomodoroStrategy.PomodoroMetrics(events).IsIntensive() ==>
                  r == ChainResult(PomodoroStrategy.Analyze(now, events), 1))
            && (!PomodoroStrategy.PomodoroMetrics(events).IsIntensive() ==>
                  r == ChainResult(AiStrategy.Analyze(now, events, reply), 2))
  {
    var strategies := CoreStrategies(reply);
    ChainOfTwo(strategies[0], strategies[1], now, events);
    assert strategies == [strategies[0], strategies[1]];
    assert strategies[0](now, events) == PomodoroStrategy.Analyze(now, events);
    assert strategies[1](now, events) == AiStrategy.Analyze(now, events, reply);
  }

  /** A chain of two strategies: the first one's answer if it has one, else the second's. */
  lemma ChainOfTwo(first: Strategy, second: Strategy, now: Instant, events: seq<ActivityEvent>)
    ensures RunChain([first, second], now, events)
            == if first(now, events) != NoRecommendation then ChainResult(first(now, events), 1)
               else ChainResult(second(now, events), 2)
  {
    assert [first, second][1..] == [second];
    assert [second][1..] == [];
  }

  /** A chain result with n more strategies counted as called before it. */
  function AddInvoked(r: ChainResult, n: nat): ChainResult {
    ChainResult(r.outcome, r.invoked + n)
  }
}
