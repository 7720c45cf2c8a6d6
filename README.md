# Break-decision engine of the ergonomics monitor

This project is a Dafny model of the part of the ergonomics monitor that decides when to tell the user to take a
break. It covers:

- **ActivityIntensityMetrics**: counts over a time window, the events-per-minute rate, and the two strict
  thresholds (more than 100 is intensive, more than 200 is critical).
- **BreakRecommendation**: the value object, its builder with its null checks, and its partial `equals`.
- **PomodoroIntensityStrategy**: sums the aggregated counts stored in the event metadata over a nominal
  25-minute window and classifies the rate.
- **AIBreakRecommendationStrategy**: reads a language model's JSON-shaped reply. It cleans the reply, looks
  for a marker, extracts three quoted keys with the regular expression `"key":\s*"?([^,"}]+)"?` (including
  how java.util.regex backtracks on it), then parses the urgency and the duration. When the call or the
  parse fails, it falls back to an average-intensity heuristic.
- **BreakNotificationService**: one scheduled cycle: the ten-minute throttle, fetching the first 50 events,
  the strategy chain in which the first one that does not complete empty wins, the fan-out to every notifier
  with failures swallowed, and stamping the notification time.
- **AiLanguagePreferenceService** and **AiSettingsController**: the runtime language cell, parsing the
  configured default, and the controller's checks on requests.

How things are represented:

- Value objects are datatypes. The two services and the controller are classes whose fields the methods
  update.
- The cycle is specified by the function `NotificationService.Cycle`. The service's methods are proved
  against it.
- `Instant.now()`, the repository's emitted events, the model's reply and each notifier's success are
  inputs to the model.
- Instants are whole nanoseconds. Durations are Java's (seconds, nanos) pairs. The rate is an exact
  rational. Java's truncating division and the `(int)` cast are written out explicitly.

Files: `wrappers.dfy`, `java_time.dfy` and `java_text.dfy` hold the JDK behaviour the code relies on
(`trim`, `isBlank`, `toUpperCase`, `contains`, `replaceAll` on literal patterns, `parseInt`, `length` in
UTF-16 units, `Duration`). There is one file per source class.

Three behaviours of the code worth knowing:

- The throttle is checked at the start of the cycle (BreakNotificationService.java:75), before anything is
  fetched or analysed.
- A reply whose content is null completes the AI strategy empty and does not reach the fallback. An empty
  text has no `"needsBreak": true` marker, so it also gives no break rather than a fallback.
- The javadoc of `fetchRecentEvents` says it "Limits to last 50 events" (BreakNotificationService.java:96).
  The code calls `findAll().take(50)` (line 99), which takes the first 50 events in whatever order the
  repository emits them. The model follows the code: `FetchRecent` takes a prefix, and nothing assumes the
  newest events come first.

## Model

| member | source | states |
|---|---|---|
| ActivityEvents.SameEvent | src/main/java/pl/dekrate/ergonomicsmonitor/ActivityEvent.java:90-96 | the definition of equals on the id; its property is stated by SameEventOnlyById |
| ActivityEvents.SameEventOnlyById | src/main/java/pl/dekrate/ergonomicsmonitor/ActivityEvent.java:90-96 | equality looks only at the id: changing any other field keeps two events equal, changing the id makes them differ |
| IntensityMetrics.RateOf | src/main/java/pl/dekrate/ergonomicsmonitor/model/ActivityIntensityMetrics.java:35-41 | a zero or negative window gives rate 0; a window of s > 0 whole seconds gives totalEvents / (s / 60); windows under a second also give 0, which is the corrected guard (see Findings) |
| IntensityMetrics.ActivityIntensityMetrics.EventsPerMinute | src/main/java/pl/dekrate/ergonomicsmonitor/model/ActivityIntensityMetrics.java:63-65 | getEventsPerMinute is RateOf of the total and the window; its values are stated by RateOf and RateAbove |
| IntensityMetrics.ActivityIntensityMetrics.IsIntensive | src/main/java/pl/dekrate/ergonomicsmonitor/model/ActivityIntensityMetrics.java:71-73 | the definition of isIntensive; IntensiveExactly states when it holds |
| IntensityMetrics.ActivityIntensityMetrics.IsCritical | src/main/java/pl/dekrate/ergonomicsmonitor/model/ActivityIntensityMetrics.java:79-81 | the definition of isCritical; CriticalExactly states when it holds |
| IntensityMetrics.RateAbove | src/main/java/pl/dekrate/ergonomicsmonitor/model/ActivityIntensityMetrics.java:35-41 | the rate exceeds a whole threshold t exactly when totalEvents * 60 > t * seconds (and never for a window without seconds unless t < 0) |
| IntensityMetrics.IntensiveExactly | src/main/java/pl/dekrate/ergonomicsmonitor/model/ActivityIntensityMetrics.java:71-73 | isIntensive holds exactly when the window has seconds and totalEvents * 60 > 100 * seconds, so exactly 100 per minute is not intensive |
| IntensityMetrics.CriticalExactly | src/main/java/pl/dekrate/ergonomicsmonitor/model/ActivityIntensityMetrics.java:79-81 | isCritical holds exactly when totalEvents * 60 > 200 * seconds |
| IntensityMetrics.CriticalImpliesIntensive | src/main/java/pl/dekrate/ergonomicsmonitor/model/ActivityIntensityMetrics.java:71-81 | every critical reading is intensive |
| IntensityMetrics.BoundaryRates | src/main/java/pl/dekrate/ergonomicsmonitor/model/ActivityIntensityMetrics.java:71-81 | 150 events in 90 s is exactly 100 per minute and not intensive; 400 in 120 s is not critical, 401 is |
| IntensityMetrics.Equals | src/main/java/pl/dekrate/ergonomicsmonitor/model/ActivityIntensityMetrics.java:84-92 | equals compares the three counts and the window, and agrees with value equality; equal metrics have the same rate |
| IntensityMetrics.BuildMetrics | src/main/java/pl/dekrate/ergonomicsmonitor/model/ActivityIntensityMetrics.java:27-33 | build fails with "timeWindow cannot be null" exactly when no window was set; otherwise every getter returns what was set |
| IntensityMetrics.MakeMetrics | src/main/java/pl/dekrate/ergonomicsmonitor/model/ActivityIntensityMetrics.java:110-140 | the builder chain the strategies use succeeds and yields metrics with exactly those counts and window |
| IntensityMetrics.MetricsBuilder.WithTotalEvents | src/main/java/pl/dekrate/ergonomicsmonitor/model/ActivityIntensityMetrics.java:118-121 | sets one field; BuildMetrics and MakeMetrics state that build returns it |
| IntensityMetrics.MetricsBuilder.WithKeyboardEvents | src/main/java/pl/dekrate/ergonomicsmonitor/model/ActivityIntensityMetrics.java:123-126 | sets one field; BuildMetrics and MakeMetrics state that build returns it |
| IntensityMetrics.MetricsBuilder.WithMouseEvents | src/main/java/pl/dekrate/ergonomicsmonitor/model/ActivityIntensityMetrics.java:128-131 | sets one field; BuildMetrics and MakeMetrics state that build returns it |
| IntensityMetrics.MetricsBuilder.WithTimeWindow | src/main/java/pl/dekrate/ergonomicsmonitor/model/ActivityIntensityMetrics.java:133-136 | sets the window; BuildMetrics states that build fails exactly when it was never called |
| IntensityMetrics.EventsPerMinuteAsWritten | src/main/java/pl/dekrate/ergonomicsmonitor/model/ActivityIntensityMetrics.java:35-41 | the Java computation, with IEEE infinities and NaN for the division by 0.0 of a sub-second window and exact rationals otherwise; it agrees with RateOf whenever the window has whole seconds or is zero |
| IntensityMetrics.SubSecondWindowDividesByZero | src/main/java/pl/dekrate/ergonomicsmonitor/model/ActivityIntensityMetrics.java:36-40 | one event in half a second is +Infinity as written, and so critical; with the corrected guard it is not even intensive |
| IntensityMetrics.RateAgreesForWholeSeconds | src/main/java/pl/dekrate/ergonomicsmonitor/model/ActivityIntensityMetrics.java:35-41 | for every window with whole seconds, comparing the as-written rate (exact rationals, not doubles) with a threshold gives the same answer as the corrected rate |
| JavaTime.SignOfDuration | src/main/java/pl/dekrate/ergonomicsmonitor/model/ActivityIntensityMetrics.java:36 | isNegative and isZero agree with the sign of the duration's length in nanoseconds |
| JavaTime.TruncDiv | backend/src/main/java/pl/dekrate/ergonomicsmonitor/model/BreakRecommendation.java:61-63 | Java's long division, rounding toward zero for negative dividends |
| JavaTime.ToInt32 | backend/src/main/java/pl/dekrate/ergonomicsmonitor/model/BreakRecommendation.java:61-63 | the (int) cast yields an int congruent to the long modulo 2^32 |
| JavaTime.ToInt32OfInt32 | backend/src/main/java/pl/dekrate/ergonomicsmonitor/model/BreakRecommendation.java:61-63 | the cast leaves a value that fits in an int unchanged |
| JavaTime.Between | src/main/java/pl/dekrate/ergonomicsmonitor/service/BreakNotificationService.java:146 | Duration.between(a, b) has length b - a nanoseconds |
| JavaTime.CompareToIsByLength | src/main/java/pl/dekrate/ergonomicsmonitor/service/BreakNotificationService.java:147 | compareTo orders durations by their length, and 0 means equal |
| Recommendations.UrgencyNamesDistinct | src/main/java/pl/dekrate/ergonomicsmonitor/model/BreakUrgency.java:10-33 | the four constant names are distinct, so valueOf can invert name() |
| Recommendations.BuildRecommendation | backend/src/main/java/pl/dekrate/ergonomicsmonitor/model/BreakRecommendation.java:22-30 | build succeeds exactly when all five fields are set, and the getters then return them; otherwise it reports the first null field in declaration order, each case as an if-and-only-if |
| Recommendations.RecommendationBuilder.WithTimestamp | backend/src/main/java/pl/dekrate/ergonomicsmonitor/model/BreakRecommendation.java:106-109 | sets one field; BuildRecommendation states that build returns it |
| Recommendations.RecommendationBuilder.WithUrgency | backend/src/main/java/pl/dekrate/ergonomicsmonitor/model/BreakRecommendation.java:111-114 | sets one field; BuildRecommendation states that build returns it |
| Recommendations.RecommendationBuilder.WithReason | backend/src/main/java/pl/dekrate/ergonomicsmonitor/model/BreakRecommendation.java:116-119 | sets one field; BuildRecommendation states that build returns it |
| Recommendations.RecommendationBuilder.WithSuggestedBreakDuration | backend/src/main/java/pl/dekrate/ergonomicsmonitor/model/BreakRecommendation.java:121-124 | sets one field; BuildRecommendation states that build returns it |
| Recommendations.RecommendationBuilder.WithDurationMinutes | backend/src/main/java/pl/dekrate/ergonomicsmonitor/model/BreakRecommendation.java:132-135 | sets the duration to m minutes; DurationMinutesRoundTrip and MakeRecommendation state that getDurationMinutes gives m back |
| Recommendations.RecommendationBuilder.WithMetrics | backend/src/main/java/pl/dekrate/ergonomicsmonitor/model/BreakRecommendation.java:137-140 | sets one field; BuildRecommendation states that build returns it |
| Recommendations.MakeRecommendation | backend/src/main/java/pl/dekrate/ergonomicsmonitor/model/BreakRecommendation.java:132-135 | the builder chain with durationMinutes(m) succeeds and getDurationMinutes() gives m back |
| Recommendations.DurationMinutes | backend/src/main/java/pl/dekrate/ergonomicsmonitor/model/BreakRecommendation.java:61-63 | getDurationMinutes, the (int) cast of toMinutes(); DurationMinutesRoundTrip states that it inverts durationMinutes on every int |
| Recommendations.DurationMinutesRoundTrip | backend/src/main/java/pl/dekrate/ergonomicsmonitor/model/BreakRecommendation.java:61-63 | for every int m, including negative m, durationMinutes(m) followed by getDurationMinutes() is m |
| Recommendations.SameRecommendation | backend/src/main/java/pl/dekrate/ergonomicsmonitor/model/BreakRecommendation.java:66-73 | the definition of equals; SameRecommendationIgnoresDurationAndMetrics states what it ignores |
| Recommendations.SameRecommendationIgnoresDurationAndMetrics | backend/src/main/java/pl/dekrate/ergonomicsmonitor/model/BreakRecommendation.java:66-73 | equals looks only at timestamp, urgency and reason; replacing the duration or the metrics keeps a recommendation equal |
| PomodoroStrategy.LongFromMetadata | src/main/java/pl/dekrate/ergonomicsmonitor/service/strategy/PomodoroIntensityStrategy.java:82-88 | getLongFromMetadata: the stored number, else 0; SumCountsOfNonNumeric states that missing or non-numeric values add nothing |
| PomodoroStrategy.EventCount | src/main/java/pl/dekrate/ergonomicsmonitor/service/strategy/PomodoroIntensityStrategy.java:66-71 | a null metadata map contributes 0; SumCountsOfNonNumeric and CalculateMetrics use it |
| PomodoroStrategy.SumCounts | src/main/java/pl/dekrate/ergonomicsmonitor/service/strategy/PomodoroIntensityStrategy.java:65-72 | the per-key sum; CalculateMetrics proves the loop equal to it and SumCountsAppend states that it is additive |
| PomodoroStrategy.SumCountsAppend | src/main/java/pl/dekrate/ergonomicsmonitor/service/strategy/PomodoroIntensityStrategy.java:65-72 | the summed counts are additive over concatenation of event lists |
| PomodoroStrategy.SumCountsOfNonNumeric | src/main/java/pl/dekrate/ergonomicsmonitor/service/strategy/PomodoroIntensityStrategy.java:82-88 | events with a missing or non-numeric value, or without metadata, add nothing |
| PomodoroStrategy.PomodoroMetrics | src/main/java/pl/dekrate/ergonomicsmonitor/service/strategy/PomodoroIntensityStrategy.java:74-79 | the metrics use the 25-minute window |
| PomodoroStrategy.CalculateMetrics | src/main/java/pl/dekrate/ergonomicsmonitor/service/strategy/PomodoroIntensityStrategy.java:60-80 | the accumulating loop yields the three per-key sums over all events, in a 25-minute window |
| PomodoroStrategy.RoundedRate | src/main/java/pl/dekrate/ergonomicsmonitor/service/strategy/PomodoroIntensityStrategy.java:94-97 | the number %.0f prints for total / 25 is within half of it, strictly |
| PomodoroStrategy.CriticalReason | src/main/java/pl/dekrate/ergonomicsmonitor/service/strategy/PomodoroIntensityStrategy.java:90-102 | the critical reason text; ReasonsCiteRate states that it prints the rounded rate |
| PomodoroStrategy.ModerateReason | src/main/java/pl/dekrate/ergonomicsmonitor/service/strategy/PomodoroIntensityStrategy.java:104-116 | the moderate reason text; ReasonsCiteRate states that it prints the rounded rate |
| PomodoroStrategy.ReasonsCiteRate | src/main/java/pl/dekrate/ergonomicsmonitor/service/strategy/PomodoroIntensityStrategy.java:94-97 | both reasons carry the number %.0f prints for the rate, right after their opening words |
| PomodoroStrategy.Analyze | src/main/java/pl/dekrate/ergonomicsmonitor/service/strategy/PomodoroIntensityStrategy.java:41-58 | no events gives nothing; otherwise a recommendation exists exactly when the metrics are intensive, carrying those metrics and now: CRITICAL for 10 minutes when critical, else MEDIUM for 5; never an error |
| PomodoroStrategy.AnalyzeByTotal | src/main/java/pl/dekrate/ergonomicsmonitor/service/strategy/PomodoroIntensityStrategy.java:50-56 | with T the total count: T > 5000 is CRITICAL, 2500 < T <= 5000 MEDIUM (so exactly 200 per minute is MEDIUM), T <= 2500 nothing (so exactly 100 per minute is nothing) |
| PomodoroStrategy.ModerateExample | src/test/java/pl/dekrate/ergonomicsmonitor/service/strategy/PomodoroIntensityStrategyTest.java:76-124 | a total of 3000 (keyboard 1800, mouse 1200) gives a MEDIUM break whose metrics carry those counts |
| LanguagePreference.SupportedLanguages | backend/src/main/java/pl/dekrate/ergonomicsmonitor/service/AiLanguagePreferenceService.java:50-52 | values() is PL then EN, each once |
| LanguagePreference.ParseLanguage | backend/src/main/java/pl/dekrate/ergonomicsmonitor/service/AiLanguagePreferenceService.java:54-60 | the result is PL exactly when the trimmed, upper-cased text is "PL"; null and unknown names give EN |
| LanguagePreference.ParseLanguageReadsNames | backend/src/main/java/pl/dekrate/ergonomicsmonitor/service/AiLanguagePreferenceService.java:54-60 | each constant's name in upper or lower case, with any padding trim removes, parses to that constant |
| LanguagePreference.ParseLanguageExamples | backend/src/test/java/pl/dekrate/ergonomicsmonitor/service/AiLanguagePreferenceServiceTest.java:15-33 | "PL" gives PL; "not-a-language" and null give EN |
| LanguagePreference.AiLanguagePreferenceService.constructor | backend/src/main/java/pl/dekrate/ergonomicsmonitor/service/AiLanguagePreferenceService.java:20-23 | the cell starts at the parsed default |
| LanguagePreference.AiLanguagePreferenceService.GetCurrentLanguage | backend/src/main/java/pl/dekrate/ergonomicsmonitor/service/AiLanguagePreferenceService.java:30-32 | returns the cell's value |
| LanguagePreference.AiLanguagePreferenceService.SetCurrentLanguage | backend/src/main/java/pl/dekrate/ergonomicsmonitor/service/AiLanguagePreferenceService.java:40-43 | stores the language and returns it |
| LanguagePreference.AiLanguagePreferenceService.GetSupportedLanguages | backend/src/main/java/pl/dekrate/ergonomicsmonitor/service/AiLanguagePreferenceService.java:50-52 | returns values() |
| LanguagePreference.AllLanguagesSupported | backend/src/main/java/pl/dekrate/ergonomicsmonitor/service/AiLanguagePreferenceService.java:50-52 | every language occurs exactly once in the supported list |
| LanguagePreference.SetThenGet | backend/src/main/java/pl/dekrate/ergonomicsmonitor/service/AiLanguagePreferenceService.java:20-43 | a fresh service reads its parsed default, and a get after a set returns what was set |
| SettingsController.AskAi | backend/src/main/java/pl/dekrate/ergonomicsmonitor/controller/AiSettingsController.java:83-96 | each rejection message holds exactly when its check is the first to fail (null user id, then null or blank question, then more than 800 UTF-16 units); otherwise the user id and the trimmed question are forwarded |
| SettingsController.ForwardedQuestionIsTrimmedAndShort | backend/src/main/java/pl/dekrate/ergonomicsmonitor/controller/AiSettingsController.java:88-95 | a forwarded question has nothing trimmable at its ends and at most 800 chars |
| SettingsController.LengthCountsPadding | backend/src/main/java/pl/dekrate/ergonomicsmonitor/controller/AiSettingsController.java:91-95 | the length is checked before trimming: "a" followed by 800 spaces is rejected as too long, although it would be sent as "a" |
| SettingsController.ControlCharQuestionSentEmpty | backend/src/main/java/pl/dekrate/ergonomicsmonitor/controller/AiSettingsController.java:88-95 | isBlank and trim disagree on U+0000: a question made of it passes the checks and is sent as the empty string |
| SettingsController.AiSettingsController.constructor | backend/src/main/java/pl/dekrate/ergonomicsmonitor/controller/AiSettingsController.java:35-40 | keeps the injected language service |
| SettingsController.AiSettingsController.GetSettings | backend/src/main/java/pl/dekrate/ergonomicsmonitor/controller/AiSettingsController.java:47-54 | the current language, all supported languages and now |
| SettingsController.AiSettingsController.UpdateSettings | backend/src/main/java/pl/dekrate/ergonomicsmonitor/controller/AiSettingsController.java:62-75 | a null language fails with "language cannot be null" and changes nothing; otherwise the language is stored and echoed with the supported list |
| SettingsController.UpdateThenRead | backend/src/main/java/pl/dekrate/ergonomicsmonitor/controller/AiSettingsController.java:47-75 | reading after an update shows the new language, and after a rejected update shows the old one |
| AiStrategy.CleanReply | src/main/java/pl/dekrate/ergonomicsmonitor/service/strategy/AIBreakRecommendationStrategy.java:147-150 | the cleaned reply has nothing trimmable at either end; CleanOfFenced states that the fences are removed |
| AiStrategy.CleanOfFenced | src/main/java/pl/dekrate/ergonomicsmonitor/service/strategy/AIBreakRecommendationStrategy.java:147-150 | a reply "```json" + x + "```" with x free of backticks cleans to trim(x): both fences are deleted |
| AiStrategy.SpaceRunSpans | src/main/java/pl/dekrate/ergonomicsmonitor/service/strategy/AIBreakRecommendationStrategy.java:187 | greedy `\s*` consumes only whitespace and stops before the first char that is not |
| AiStrategy.ValueRunSpans | src/main/java/pl/dekrate/ergonomicsmonitor/service/strategy/AIBreakRecommendationStrategy.java:187 | greedy `[^,"}]+` consumes only value chars and stops before the first char that is not |
| AiStrategy.GroupAt | src/main/java/pl/dekrate/ergonomicsmonitor/service/strategy/AIBreakRecommendationStrategy.java:187-192 | after the key literal, group 1 exists exactly when the next char is whitespace, a value char, or a quote followed by a value char |
| AiStrategy.GroupShape | src/main/java/pl/dekrate/ergonomicsmonitor/service/strategy/AIBreakRecommendationStrategy.java:187-192 | a group is a non-empty run of value chars that occurs in the text at or after the key |
| AiStrategy.FindMatch | src/main/java/pl/dekrate/ergonomicsmonitor/service/strategy/AIBreakRecommendationStrategy.java:189-191 | find() returns the leftmost index where the whole pattern matches, and none when there is no such index |
| AiStrategy.FindMatchFinds | src/main/java/pl/dekrate/ergonomicsmonitor/service/strategy/AIBreakRecommendationStrategy.java:189-191 | find() stops at the first match |
| AiStrategy.CleanValueOfGroup | src/main/java/pl/dekrate/ergonomicsmonitor/service/strategy/AIBreakRecommendationStrategy.java:192 | for a group, deleting quotes after the trim changes nothing, and the value stays without `,`, `"` and `}` |
| AiStrategy.ExtractJsonValue | src/main/java/pl/dekrate/ergonomicsmonitor/service/strategy/AIBreakRecommendationStrategy.java:186-196 | group 1 of the first match, trimmed and without quotes, or "Key not found"; its properties are stated by ExtractJsonValueShape and ExtractAtFirstMatch |
| AiStrategy.ExtractJsonValueShape | src/main/java/pl/dekrate/ergonomicsmonitor/service/strategy/AIBreakRecommendationStrategy.java:186-196 | extraction fails exactly when the pattern matches nowhere; a value found is trimmed and has no `,`, `"` or `}` |
| AiStrategy.ExtractAtFirstMatch | src/main/java/pl/dekrate/ergonomicsmonitor/service/strategy/AIBreakRecommendationStrategy.java:186-193 | the value is the trimmed group of the leftmost match |
| AiStrategy.NoMatchAnywhere | src/main/java/pl/dekrate/ergonomicsmonitor/service/strategy/AIBreakRecommendationStrategy.java:191-195 | when no quote is followed by the key's first letter, extraction fails ("Key not found") |
| AiStrategy.ParseUrgency | src/main/java/pl/dekrate/ergonomicsmonitor/service/strategy/AIBreakRecommendationStrategy.java:198-205 | the upper-cased text (with dotless i and long s upper-cased as Java does) names the result, or names no constant and the result is MEDIUM |
| AiStrategy.ParseUrgencyIgnoresCase | src/main/java/pl/dekrate/ergonomicsmonitor/service/strategy/AIBreakRecommendationStrategy.java:198-205 | every text that upper-cases to a constant's name, in any mix of cases, parses to that constant |
| AiStrategy.ParseUrgencyExamples | src/main/java/pl/dekrate/ergonomicsmonitor/service/strategy/AIBreakRecommendationStrategy.java:198-205 | "High" and "hıgh" (dotless i) parse to HIGH, and "crıtıcal" to CRITICAL |
| AiStrategy.ParseDuration | src/main/java/pl/dekrate/ergonomicsmonitor/service/strategy/AIBreakRecommendationStrategy.java:166 | parseInt of the digits fails exactly when there is no digit or the number exceeds Integer.MAX_VALUE; otherwise it is a non-negative int |
| AiStrategy.ParseDurationOfPrinted | src/main/java/pl/dekrate/ergonomicsmonitor/service/strategy/AIBreakRecommendationStrategy.java:166 | a printed int reads back as itself |
| AiStrategy.ParseReply | src/main/java/pl/dekrate/ergonomicsmonitor/service/strategy/AIBreakRecommendationStrategy.java:143-184 | no break exactly when the cleaned reply lacks `"needsBreak": true`; invalid exactly when a key is missing or the duration has no int; otherwise the recommendation carries the parsed urgency, the duration, now and "AI Analysis: " + reason |
| AiStrategy.ParseRenderedReply | src/main/java/pl/dekrate/ergonomicsmonitor/service/strategy/AIBreakRecommendationStrategy.java:143-184 | round trip: a reply written in the prompt's JSON shape parses back to exactly its urgency, duration and reason |
| AiStrategy.MarkerOnlyFallsBack | src/main/java/pl/dekrate/ergonomicsmonitor/service/strategy/AIBreakRecommendationStrategy.java:78-87 | `{"needsBreak": true}` without fields cannot be parsed, so the strategy answers with the fallback |
| AiStrategy.DeclinedReplyRecommendsNothing | src/main/java/pl/dekrate/ergonomicsmonitor/service/strategy/AIBreakRecommendationStrategy.java:155-159 | `"needsBreak": false` gives no recommendation and the fallback is not consulted |
| AiStrategy.SumIntensity | src/main/java/pl/dekrate/ergonomicsmonitor/service/strategy/AIBreakRecommendationStrategy.java:211-214 | the sum of the intensities; SumIntensityOfUniform states its value for equal intensities |
| AiStrategy.AverageIntensity | src/main/java/pl/dekrate/ergonomicsmonitor/service/strategy/AIBreakRecommendationStrategy.java:211-214 | average().orElse(0.0); AverageIntensityOfUniform states that it is a mean |
| AiStrategy.SumIntensityOfUniform | src/main/java/pl/dekrate/ergonomicsmonitor/service/strategy/AIBreakRecommendationStrategy.java:211-214 | n events of intensity v sum to n * v |
| AiStrategy.AverageIntensityOfUniform | src/main/java/pl/dekrate/ergonomicsmonitor/service/strategy/AIBreakRecommendationStrategy.java:211-214 | a non-empty list of events all of intensity v averages to v |
| AiStrategy.Fallback | src/main/java/pl/dekrate/ergonomicsmonitor/service/strategy/AIBreakRecommendationStrategy.java:210-241 | a recommendation exists exactly when the average intensity exceeds 75: CRITICAL for 10 minutes above 150, else MEDIUM for 5; its metrics count the events over a window as long as the break; never an error |
| AiStrategy.FallbackIsTagged | src/main/java/pl/dekrate/ergonomicsmonitor/service/strategy/AIBreakRecommendationStrategy.java:221-232 | every fallback reason contains "fallback analysis" |
| AiStrategy.AiReasonIsNotFallback | src/main/java/pl/dekrate/ergonomicsmonitor/service/strategy/AIBreakRecommendationStrategy.java:172 | a reason built from the reply contains the critical fallback text only if the model's own reason does |
| AiStrategy.Analyze | src/main/java/pl/dekrate/ergonomicsmonitor/service/strategy/AIBreakRecommendationStrategy.java:72-88 | no events gives nothing; a failed call or an invalid reply goes to the fallback; null content or no break gives nothing; a parsed reply gives its recommendation; never an error |
| JavaText.Trim | backend/src/main/java/pl/dekrate/ergonomicsmonitor/service/AiLanguagePreferenceService.java:56 | trim's result is no longer than the input and has nothing trimmable at either end |
| JavaText.TrimIsSplit | backend/src/main/java/pl/dekrate/ergonomicsmonitor/service/AiLanguagePreferenceService.java:56 | trim's result is a slice of the input with only trimmable chars cut off on either side |
| JavaText.TrimOfTrimmed | backend/src/main/java/pl/dekrate/ergonomicsmonitor/service/AiLanguagePreferenceService.java:56 | trim leaves a trimmed string unchanged |
| JavaText.TrimIdempotent | src/main/java/pl/dekrate/ergonomicsmonitor/service/strategy/AIBreakRecommendationStrategy.java:147-150 | trimming twice is trimming once |
| JavaText.TrimPadded | backend/src/main/java/pl/dekrate/ergonomicsmonitor/service/AiLanguagePreferenceService.java:56 | trimming a trimmed word padded with trimmable chars gives the word back |
| JavaText.UpperOfLower | backend/src/main/java/pl/dekrate/ergonomicsmonitor/service/AiLanguagePreferenceService.java:56 | upper-casing an upper-case word, or its lower-case spelling, gives the word |
| JavaText.ToUpper | src/main/java/pl/dekrate/ergonomicsmonitor/service/strategy/AIBreakRecommendationStrategy.java:200 | toUpperCase keeps the length, char by char; UpperOfLower, ParseUrgencyIgnoresCase and ParseUrgencyExamples state what it maps |
| JavaText.Contains | src/main/java/pl/dekrate/ergonomicsmonitor/service/strategy/AIBreakRecommendationStrategy.java:155 | contains holds exactly when the pattern occurs at some index |
| JavaText.RemoveAll | src/main/java/pl/dekrate/ergonomicsmonitor/service/strategy/AIBreakRecommendationStrategy.java:148-149 | replaceAll of a literal never lengthens the text; RemoveAllAbsent, RemoveAllLeading and RemoveAllTrailing state what it deletes |
| JavaText.RemoveAllAbsent | src/main/java/pl/dekrate/ergonomicsmonitor/service/strategy/AIBreakRecommendationStrategy.java:148-149 | deleting a pattern that does not occur changes nothing |
| JavaText.RemoveAllLeading | src/main/java/pl/dekrate/ergonomicsmonitor/service/strategy/AIBreakRecommendationStrategy.java:148-149 | a leading occurrence is deleted |
| JavaText.RemoveAllTrailing | src/main/java/pl/dekrate/ergonomicsmonitor/service/strategy/AIBreakRecommendationStrategy.java:148-149 | a text none of whose chars starts the pattern, followed by the pattern, loses exactly the pattern |
| JavaText.KeepDigits | src/main/java/pl/dekrate/ergonomicsmonitor/service/strategy/AIBreakRecommendationStrategy.java:166 | only digits are kept, and a string of digits is kept whole |
| JavaText.KeepDigitsOfChar | src/main/java/pl/dekrate/ergonomicsmonitor/service/strategy/AIBreakRecommendationStrategy.java:166 | a single char is kept exactly when it is a digit |
| JavaText.KeepDigitsAppend | src/main/java/pl/dekrate/ergonomicsmonitor/service/strategy/AIBreakRecommendationStrategy.java:166 | filtering a concatenation filters each part, so every digit is kept in order |
| JavaText.NatToString | src/main/java/pl/dekrate/ergonomicsmonitor/service/strategy/PomodoroIntensityStrategy.java:94-97 | a non-empty string of digits without a leading zero |
| JavaText.DecimalOfNatToString | src/main/java/pl/dekrate/ergonomicsmonitor/service/strategy/AIBreakRecommendationStrategy.java:166 | reading back a printed number gives the number |
| JavaText.Utf16Length | backend/src/main/java/pl/dekrate/ergonomicsmonitor/controller/AiSettingsController.java:91 | length() lies between the char count and twice that; Utf16LengthOfChar and Utf16LengthAppend give its exact value |
| JavaText.Utf16LengthOfChar | backend/src/main/java/pl/dekrate/ergonomicsmonitor/controller/AiSettingsController.java:91 | a char takes one UTF-16 unit in the BMP and two above U+FFFF |
| JavaText.Utf16LengthAppend | backend/src/main/java/pl/dekrate/ergonomicsmonitor/controller/AiSettingsController.java:91 | the lengths of a concatenation add up, so length() is the sum of the per-char counts |
| JavaText.Utf16LengthOfBmp | backend/src/main/java/pl/dekrate/ergonomicsmonitor/controller/AiSettingsController.java:91 | a BMP string has as many units as chars |
| JavaText.IsJavaWhitespace | backend/src/main/java/pl/dekrate/ergonomicsmonitor/controller/AiSettingsController.java:88 | Character.isWhitespace on BMP code points; ControlCharQuestionSentEmpty shows where it differs from trim |
| JavaText.IsBlank | backend/src/main/java/pl/dekrate/ergonomicsmonitor/controller/AiSettingsController.java:88 | isBlank: every char is whitespace; AskAi states that a blank question is rejected |
| NotificationService.FetchRecent | src/main/java/pl/dekrate/ergonomicsmonitor/service/BreakNotificationService.java:98-103 | the first min(50, n) events, in emitted order |
| NotificationService.ShouldSkip | src/main/java/pl/dekrate/ergonomicsmonitor/service/BreakNotificationService.java:145-148 | the definition of shouldSkipNotification over the old stamp; ShouldSkipExactly states it in nanoseconds |
| NotificationService.ShouldSkipExactly | src/main/java/pl/dekrate/ergonomicsmonitor/service/BreakNotificationService.java:145-148 | a cycle is skipped exactly when fewer than ten minutes of nanoseconds have passed; exactly ten minutes proceeds |
| NotificationService.RunChain | src/main/java/pl/dekrate/ergonomicsmonitor/service/BreakNotificationService.java:115-120 | every strategy before the last one called completed empty; the result is the last one's answer, or empty exactly when all complete empty |
| NotificationService.AnalyzeSpec | src/main/java/pl/dekrate/ergonomicsmonitor/service/BreakNotificationService.java:109-123 | no events calls no strategy |
| NotificationService.Deliver | src/main/java/pl/dekrate/ergonomicsmonitor/service/BreakNotificationService.java:129-143 | every notifier is given the recommendation, whatever the others did |
| NotificationService.Cycle | src/main/java/pl/dekrate/ergonomicsmonitor/service/BreakNotificationService.java:74-92 | throttled exactly when the throttle says skip; no events exactly when not throttled and the repository is empty; nothing recommended exactly when not throttled, events were found and every strategy completes empty; the time is stamped with now exactly on a dispatched recommendation, which is the first non-empty strategy answer and was given to every notifier; a strategy error keeps the time |
| NotificationService.CycleActsOnFirstAnswer | src/main/java/pl/dekrate/ergonomicsmonitor/service/BreakNotificationService.java:74-92 | a cycle that is not throttled and finds events acts on the first strategy that does not complete empty: its recommendation is delivered to every notifier and stamps now, its error is reported and keeps the old stamp |
| NotificationService.BreakNotificationService.constructor | src/main/java/pl/dekrate/ergonomicsmonitor/service/BreakNotificationService.java:47-60 | starts at Instant.EPOCH with the injected lists |
| NotificationService.BreakNotificationService.ShouldSkipNotification | src/main/java/pl/dekrate/ergonomicsmonitor/service/BreakNotificationService.java:145-148 | skip exactly when fewer than ten minutes of nanoseconds have passed since lastNotificationTime |
| NotificationService.BreakNotificationService.AnalyzeWithAllStrategies | src/main/java/pl/dekrate/ergonomicsmonitor/service/BreakNotificationService.java:109-123 | the loop over the strategies agrees with the chain specification |
| NotificationService.BreakNotificationService.SendNotifications | src/main/java/pl/dekrate/ergonomicsmonitor/service/BreakNotificationService.java:129-143 | the loop delivers to every notifier in turn |
| NotificationService.BreakNotificationService.UpdateLastNotificationTime | src/main/java/pl/dekrate/ergonomicsmonitor/service/BreakNotificationService.java:150-153 | the field becomes now |
| NotificationService.BreakNotificationService.ResetNotificationThrottle | src/main/java/pl/dekrate/ergonomicsmonitor/service/BreakNotificationService.java:160-162 | the field becomes EPOCH |
| NotificationService.BreakNotificationService.GetLastNotificationTime | src/main/java/pl/dekrate/ergonomicsmonitor/service/BreakNotificationService.java:169-173 | empty exactly while the field is EPOCH, otherwise the field |
| NotificationService.BreakNotificationService.CheckAndNotifyIfBreakNeeded | src/main/java/pl/dekrate/ergonomicsmonitor/service/BreakNotificationService.java:74-92 | the report and the new lastNotificationTime are those of Cycle on the old one |
| NotificationService.ThrottleWindow | src/main/java/pl/dekrate/ergonomicsmonitor/service/BreakNotificationService.java:145-153 | after a notification, every cycle less than ten minutes later is throttled and changes nothing, and one ten or more minutes later is not throttled |
| NotificationService.LaterStrategiesIgnored | src/main/java/pl/dekrate/ergonomicsmonitor/service/BreakNotificationService.java:115-120 | appending strategies after the one that ended the chain changes neither the answer nor the number called |
| NotificationService.EmptyStrategiesSkipped | src/main/java/pl/dekrate/ergonomicsmonitor/service/BreakNotificationService.java:115-120 | strategies that complete empty only add to the number called |
| NotificationService.NotifierOutcomesIrrelevant | src/main/java/pl/dekrate/ergonomicsmonitor/service/BreakNotificationService.java:136-142 | notifier failures do not change the recommendation, the count or the stamped time |
| NotificationService.OnlyFirstFiftyMatter | src/main/java/pl/dekrate/ergonomicsmonitor/service/BreakNotificationService.java:98-101 | events after the first 50 cannot influence a cycle |
| NotificationService.ChainOfTwo | src/main/java/pl/dekrate/ergonomicsmonitor/service/BreakNotificationService.java:115-120 | a two-strategy chain gives the first's answer if it has one, else the second's |
| NotificationService.CoreChain | src/main/java/pl/dekrate/ergonomicsmonitor/service/BreakNotificationService.java:115-120 | with Pomodoro then AI the chain never fails; an intensive Pomodoro reading wins without consulting the model, and otherwise the AI strategy decides |

## Left out

- IntensityMetrics.RateOf: the guard is extended to windows shorter than one second, instead of dividing by 0.0 (see Findings). `EventsPerMinuteAsWritten` models the division by 0.0 as written, but its finite results are exact rationals: Java rounds both in `toSeconds() / 60.0` and in the division.
- IntensityMetrics.RateAgreesForWholeSeconds: the agreement is between two exact rates. Java rounds the double quotient, so at an exact threshold it may answer differently for a window that is not a whole number of minutes. The windows the core builds (25, 10 and 5 minutes) are whole minutes k, and there a quotient n / k that differs from 100 or 200 differs by at least 1 / k, far more than a double rounds for counts below 2^53, so the threshold answers agree.
- PomodoroStrategy.CalculateMetrics: the sums are unbounded integers; wrap-around of a Java long past 2^63 is not modelled.
- PomodoroStrategy.Analyze: the reason texts are modelled with the rounded rate, but their wording is not stated in the contract. The reason cannot influence classification.
- AiStrategy.Fallback: the average intensity is an exact rational, not a double, so rounding in the double sum is not modelled.
- SettingsController.AskAi: the call to the assistant service is not modelled. An accepted question is returned as the call that would be made.
- JavaText.ToUpper: maps each char alone. The ASCII letters, dotless i (U+0131) and long s (U+017F) become their capitals, and every other char is kept. Java's full case mapping also upper-cases other letters and expands ß and the ligatures into letter pairs. Every such result holds a non-ASCII char or one of SS, FF, FI, FL and ST, and none of the names compared against (LOW, MEDIUM, HIGH, CRITICAL, PL, EN) contains those. So comparing the upper-cased text with a name gives the same answer as in Java.
- AiStrategy.ParseUrgency: assumes the JVM's default locale is not Turkish, Azeri or Lithuanian. Under a Turkish locale `toUpperCase()` turns "high" into "HİGH", so Java answers MEDIUM where the model answers HIGH.
- LanguagePreference.ParseLanguage: assumes the same default locale as AiStrategy.ParseUrgency, for the same reason.
- JavaText.IsJavaWhitespace: covers the BMP code points only.
- Metadata numbers are already converted by `Number.longValue()`: the truncation of a stored Double is not modelled.
- A null event list is treated as the empty list. Both strategies return empty for either.
- `Instant.now()` is one value per cycle. Java reads the clock separately for the throttle, for each recommendation's timestamp and for the stamp.
- Concurrency is not modelled: Reactor scheduling, the asynchronous `subscribe()`, `flatMap`'s interleaving of notifiers and the `volatile` field. The model runs the notifiers in list order and stamps the time once delivery has finished.
- The strategies' order comes from Spring bean registration, which the source does not pin down. `CoreStrategies` takes Pomodoro first.
- Building the prompt (`prepareAnalysisData`, `queryAI`, the min/max/average formatting) and the LLM client are not modelled. The reply is an input.
- `toString`, `hashCode`, logging and `getStrategyName` are not modelled.
- NotificationService.Cycle: there is no path for a failing `repository.findAll()`, because the repository is a plain sequence of events. In Java that error is only logged (BreakNotificationService.java:86), and the cycle then does nothing: no strategy runs, no notifier is called and `lastNotificationTime` is kept.
- The aggregation buffer, native capture and notifiers, persistence, the dashboard and the dev tools are not part of this model.

## Findings

| source | as written | input that shows it | evidently intended | confidence | as-written member | corrected member |
|---|---|---|---|---|---|---|
| src/main/java/pl/dekrate/ergonomicsmonitor/model/ActivityIntensityMetrics.java:36-40 | the guard tests `isZero()`/`isNegative()`, but the divisor is `toSeconds() / 60.0`, and `toSeconds()` drops the nanos | one event over `Duration.ofMillis(500)`: the divisor is 0.0, the rate is +Infinity, and the reading counts as critical | a window with no whole second gives rate 0, like a zero window | medium, not executed | IntensityMetrics.EventsPerMinuteAsWritten | IntensityMetrics.RateOf |
