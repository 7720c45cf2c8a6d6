/** IntensityAnalysisStrategy: a strategy maps the cycle's instant and the recent events
    to what its Mono<BreakRecommendation> completes with. */
module AnalysisStrategy {
  import opened JavaTime
  import opened ActivityEvents
  import opened Recommendations

  /** Mono.empty(), Mono.just(rec), or Mono.error(...). */
  datatype Outcome = NoRecommendation | Recommended(rec: BreakRecommendation) | Errored

  /** analyze(events), with Instant.now() passed in. */
  type Strategy = (Instant, seq<ActivityEvent>) -> Outcome
}
