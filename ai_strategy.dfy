/** AIBreakRecommendationStrategy: asks a language model for a JSON-shaped verdict, reads
    it with string operations and a small regular expression, and falls back to an
    average-intensity heuristic whenever the call or the parse fails. The model's reply
    is an input (AiReply); building the prompt is not modelled. */
module AiStrategy {
  import opened Wrappers
  import opened JavaTime
  import opened JavaText
  import opened ActivityEvents
  import opened IntensityMetrics
  import opened Recommendations
  import opened AnalysisStrategy

  /** What chatClient.prompt(..).call().content() produced: a text, null (which makes the
      Mono empty), or an exception (including a timeout). */
  datatype AiReply = Answered(text: string) | NoContent | CallFailed

  const JsonFence: string := "```json"
  const Fence: string := "```"
  const NeedsBreakMarker: string := "\"needsBreak\": true"
  const AiReasonPrefix: string := "AI Analysis: "
  const UrgencyKey: string := "urgency"
  const DurationKey: string := "durationMinutes"
  const ReasonKey: string := "reason"

  // ---- Cleaning the reply ----

  /** trim, delete every "```json", then every "```", trim again. */
  function CleanReply(reply: string): (cleaned: string)
    ensures IsTrimmed(cleaned)
  {
    Trim(RemoveAll(RemoveAll(Trim(reply), JsonFence), Fence))
  }

  // ---- The pattern "key":\s*"?([^,"}]+)"? ----

  /** \s in a Java regex: space, \t, \n, \x0B, \f, \r. */
  predicate IsRegexSpace(c: char) {
    c == ' ' || c == '\t' || c == '\n' || c as int == 0x0B || c as int == 0x0C || c == '\r'
  }

  /** [^,"}] */
  predicate IsValueChar(c: char) {
    c != ',' && c != '"' && c != '}'
  }

  /** The longest run of \s starting at p. */
  function SpaceRun(s: string, p: int): (n: nat)
    requires 0 <= p <= |s|
    ensures p + n <= |s|
    decreases |s| - p
  {
    if p < |s| && IsRegexSpace(s[p]) then 1 + SpaceRun(s, p + 1) else 0
  }

  /** SpaceRun covers only whitespace and stops at the first char that is not. */
  lemma {:induction false} SpaceRunSpans(s: string, p: int)
    requires 0 <= p <= |s|
    ensures forall i :: p <= i < p + SpaceRun(s, p) ==> IsRegexSpace(s[i])
    ensures p + SpaceRun(s, p) == |s| || !IsRegexSpace(s[p + SpaceRun(s, p)])
    decreases |s| - p
  {
    if p < |s| && IsRegexSpace(s[p]) {
      SpaceRunSpans(s, p + 1);
    }
  }

  /** The longest run of [^,"}] starting at p. */
  function ValueRun(s: string, p: int): (n: nat)
    requires 0 <= p <= |s|
    ensures p + n <= |s|
    decreases |s| - p
  {
    if p < |s| && IsValueChar(s[p]) then 1 + ValueRun(s, p + 1) else 0
  }

  /** ValueRun covers only value chars and stops at the first char that is not one. */
  lemma {:induction false} ValueRunSpans(s: string, p: int)
    requires 0 <= p <= |s|
    ensures forall i :: p <= i < p + ValueRun(s, p) ==> IsValueChar(s[i])
    ensures p + ValueRun(s, p) == |s| || !IsValueChar(s[p + ValueRun(s, p)])
    decreases |s| - p
  {
    if p < |s| && IsValueChar(s[p]) {
      ValueRunSpans(s, p + 1);
    }
  }

  /** Whether `\s*"?([^,"}]+)"?` can match at p: it needs a whitespace char, a value
      char, or a quote followed by a value char there. */
  predicate GroupStarts(s: string, p: int)
    requires 0 <= p <= |s|
  {
    p < |s| && (IsRegexSpace(s[p]) || IsValueChar(s[p]) || (s[p] == '"' && p + 1 < |s| && IsValueChar(s[p + 1])))
  }

  /** Group 1 of `\s*"?([^,"}]+)"?` matched at p, with java.util.regex's backtracking:
      greedy whitespace, an optional quote, then the longest value run; when no value
      char follows, \s* gives back its last whitespace char, which becomes the group. */
  function GroupAt(s: string, p: int): (g: Option<string>)
    requires 0 <= p <= |s|
    ensures g.Some? <==> GroupStarts(s, p)
  {
    SpaceRunSpans(s, p);
    GroupAfterSpaces(s, p, p + SpaceRun(s, p))
  }

  /** The group once \s* has consumed s[p..q]. */
  function GroupAfterSpaces(s: string, p: int, q: int): Option<string>
    requires 0 <= p <= q <= |s|
  {
    if q + 1 < |s| && s[q] == '"' && IsValueChar(s[q + 1]) then Some(s[q + 1..q + 1 + ValueRun(s, q + 1)])
    else if q < |s| && IsValueChar(s[q]) then Some(s[q..q + ValueRun(s, q)])
    else if q > p then Some([s[q - 1]])
    else None
  }

  /** A group is a non-empty run of value chars that occurs in s at or after p. */
  lemma GroupShape(s: string, p: int)
    requires 0 <= p <= |s|
    ensures var g := GroupAt(s, p);
            g.Some? ==> && g.value != []
                        && (forall i :: 0 <= i < |g.value| ==> IsValueChar(g.value[i]))
                        && exists k :: p <= k && OccursAt(s, g.value, k)
  {
    var q := p + SpaceRun(s, p);
    SpaceRunSpans(s, p);
    assert q > p ==> IsValueChar(s[q - 1]);
    GroupAfterSpacesShape(s, p, q);
  }

  lemma GroupAfterSpacesShape(s: string, p: int, q: int)
    requires 0 <= p <= q <= |s|
    requires q > p ==> IsValueChar(s[q - 1])
    ensures var g := GroupAfterSpaces(s, p, q);
            g.Some? ==> && g.value != []
                        && (forall i :: 0 <= i < |g.value| ==> IsValueChar(g.value[i]))
                        && exists k :: p <= k && OccursAt(s, g.value, k)
  {
    var g := GroupAfterSpaces(s, p, q);
    if q + 1 < |s| && s[q] == '"' && IsValueChar(s[q + 1]) {
      ValueRunSpans(s, q + 1);
      SliceOfValueChars(s, q + 1, g.value);
    } else if q < |s| && IsValueChar(s[q]) {
      ValueRunSpans(s, q);
      SliceOfValueChars(s, q, g.value);
    } else if q > p {
      SliceOfValueChars(s, q - 1, g.value);
    }
  }

  /** A slice of value chars is made of value chars and occurs where it was cut. */
  lemma SliceOfValueChars(s: string, a: nat, g: string)
    requires a + |g| <= |s| && g == s[a..a + |g|]
    requires forall i :: a <= i < a + |g| ==> IsValueChar(s[i])
    ensures forall i :: 0 <= i < |g| ==> IsValueChar(g[i])
    ensures OccursAt(s, g, a)
  {
    assert forall i :: 0 <= i < |g| ==> g[i] == s[a + i];
  }

  /** `"key":`, the literal start of the pattern. */
  function KeyLiteral(key: string): string {
    "\"" + key + "\":"
  }

  /** The whole pattern matches with its literal at j. */
  predicate MatchesAt(s: string, lit: string, j: int) {
    OccursAt(s, lit, j) && GroupStarts(s, j + |lit|)
  }

  /** Matcher.find() from index i: the leftmost start at which the pattern matches. */
  function FindMatch(s: string, lit: string, i: nat): (r: Option<nat>)
    requires i <= |s|
    ensures r.Some? ==> i <= r.value && MatchesAt(s, lit, r.value)
    ensures r.Some? ==> forall k :: i <= k < r.value ==> !MatchesAt(s, lit, k)
    ensures r.None? ==> forall k :: i <= k ==> !MatchesAt(s, lit, k)
    decreases |s| - i
  {
    if MatchesAt(s, lit, i) then Some(i)
    else if i == |s| then
      assert forall k :: i < k ==> !OccursAt(s, lit, k);
      None
    else FindMatch(s, lit, i + 1)
  }

  /** A matched group, trimmed and with quotes deleted. */
  function CleanValue(g: string): string {
    RemoveAll(Trim(g), "\"")
  }

  /** For a group of value chars the quote deletion changes nothing: what is left is the
      trimmed group, still made of value chars. */
  lemma CleanValueOfGroup(g: string)
    requires forall i :: 0 <= i < |g| ==> IsValueChar(g[i])
    ensures CleanValue(g) == Trim(g) && IsTrimmed(CleanValue(g))
    ensures forall i :: 0 <= i < |CleanValue(g)| ==> IsValueChar(CleanValue(g)[i])
  {
    ValueCharsSurviveTrim(g);
    QuoteFree(Trim(g));
  }

  lemma ValueCharsSurviveTrim(g: string)
    requires forall i :: 0 <= i < |g| ==> IsValueChar(g[i])
    ensures forall i :: 0 <= i < |Trim(g)| ==> IsValueChar(Trim(g)[i])
  {
    var v := Trim(g);
    TrimIsSplit(g);
    var a :| TrimSplit(g, v, a);
    assert forall i :: 0 <= i < |v| ==> v[i] == g[a + i];
  }

  lemma QuoteFree(v: string)
    requires forall i :: 0 <= i < |v| ==> IsValueChar(v[i])
    ensures RemoveAll(v, "\"") == v
  {
    assert forall i :: OccursAt(v, "\"", i) ==> v[i] == '"' by {
      forall i | OccursAt(v, "\"", i)
        ensures v[i] == '"'
      {
        assert v[i] == v[i..i + 1][0];
      }
    }
    RemoveAllAbsent(v, "\"");
  }

  /** extractJsonValue: group 1 of the first match, trimmed, quotes deleted; a key with
      no match is an error (None). */
  function ExtractJsonValue(json: string, key: string): Option<string> {
    var lit := KeyLiteral(key);
    var found := FindMatch(json, lit, 0);
    if found.None? then None else Some(CleanValue(GroupAt(json, found.value + |lit|).value))
  }

  /** Extraction fails exactly when the pattern matches nowhere; a value found never holds
      ',', '"' or '}' and has no trimmable char at either end. */
  lemma ExtractJsonValueShape(json: string, key: string)
    ensures ExtractJsonValue(json, key).None? <==> forall j :: !MatchesAt(json, KeyLiteral(key), j)
    ensures ExtractJsonValue(json, key).Some? ==>
              var v := ExtractJsonValue(json, key).value;
              IsTrimmed(v) && forall i :: 0 <= i < |v| ==> IsValueChar(v[i])
  {
    var lit := KeyLiteral(key);
    var found := FindMatch(json, lit, 0);
    if found.Some? {
      assert MatchesAt(json, lit, found.value);
      GroupShape(json, found.value + |lit|);
      var g := GroupAt(json, found.value + |lit|).value;
      assert ExtractJsonValue(json, key) == Some(CleanValue(g));
      CleanValueOfGroup(g);
    } else {
      assert ExtractJsonValue(json, key) == None;
    }
  }

  /** Where the pattern matches first, extraction yields that match's trimmed group. */
  lemma ExtractAtFirstMatch(json: string, key: string, j: nat)
    requires MatchesAt(json, KeyLiteral(key), j)
    requires forall k :: 0 <= k < j ==> !MatchesAt(json, KeyLiteral(key), k)
    ensures ExtractJsonValue(json, key) == Some(Trim(GroupAt(json, j + |KeyLiteral(key)|).value))
  {
    var lit := KeyLiteral(key);
    FindMatchFinds(json, lit, 0, j);
    var found := FindMatch(json, lit, 0);
    assert found.value == j;
    var g := GroupAt(json, j + |lit|);
    assert g.Some?;
    GroupShape(json, j + |lit|);
    assert ExtractJsonValue(json, key) == Some(CleanValue(g.value));
    CleanValueOfGroup(g.value);
    assert CleanValue(g.value) == Trim(g.value);
  }

  /** find() from i stops at the first match j at or after i. */
  lemma {:induction false} FindMatchFinds(s: string, lit: string, i: nat, j: nat)
    requires i <= j && MatchesAt(s, lit, j)
    requires forall k :: i <= k < j ==> !MatchesAt(s, lit, k)
    ensures FindMatch(s, lit, i) == Some(j)
    decreases j - i
  {
    if i < j {
      assert !MatchesAt(s, lit, i);
      FindMatchFinds(s, lit, i + 1, j);
    }
  }

  // ---- Reading the three fields ----

  /** parseUrgency: BreakUrgency.valueOf(s.toUpperCase()), MEDIUM when no constant matches. */
  function ParseUrgency(s: string): (u: BreakUrgency)
    ensures ToUpper(s) == UrgencyName(u) || (u == Medium && forall v :: ToUpper(s) != UrgencyName(v))
  {
    var up := ToUpper(s);
    if up == "LOW" then Low
    else if up == "MEDIUM" then Medium
    else if up == "HIGH" then High
    else if up == "CRITICAL" then Critical
    else Medium
  }

  /** The match ignores case: every text that upper-cases to a constant name, in any mix
      of upper and lower case, selects that constant. */
  lemma ParseUrgencyIgnoresCase(u: BreakUrgency)
    ensures forall w :: ToUpper(w) == UrgencyName(u) ==> ParseUrgency(w) == u
    ensures ParseUrgency(UrgencyName(u)) == u
    ensures ParseUrgency(ToLower(UrgencyName(u))) == u
  {
    forall w | ToUpper(w) == UrgencyName(u)
      ensures ParseUrgency(w) == u
    {
      UrgencyNamesDistinct(u, ParseUrgency(w));
    }
    UpperOfLower(UrgencyName(u));
  }

  /** Mixed case, and the dotless i that toUpperCase() turns into I: "High" and "hıgh"
      are HIGH, "crıtıcal" is CRITICAL. */
  lemma ParseUrgencyExamples()
    ensures ParseUrgency("High") == High
    ensures ParseUrgency("h\U{131}gh") == High
    ensures ParseUrgency("cr\U{131}t\U{131}cal") == Critical
  {
    ParseUrgencyIgnoresCase(High);
    ParseUrgencyIgnoresCase(Critical);
    assert ToUpper("High") == "HIGH";
    assert ToUpper("h\U{131}gh") == "HIGH";
    assert ToUpper("cr\U{131}t\U{131}cal") == "CRITICAL";
  }

  /** Integer.parseInt(s.replaceAll("[^0-9]", "")): no digit at all, or a number above
      Integer.MAX_VALUE, throws NumberFormatException (None). */
  function ParseDuration(s: string): (r: Option<int>)
    ensures r.Some? ==> 0 <= r.value <= Int32Max
    ensures r.None? <==> KeepDigits(s) == [] || DecimalValue(KeepDigits(s)) > Int32Max
  {
    var digits := KeepDigits(s);
    if digits == [] || DecimalValue(digits) > Int32Max then None
    else Some(DecimalValue(digits))
  }

  /** A printed duration reads back as itself. */
  lemma ParseDurationOfPrinted(n: nat)
    requires n <= Int32Max
    ensures ParseDuration(NatToString(n)) == Some(n)
  {
    DecimalOfNatToString(n);
  }

  // ---- parseAIResponse ----

  /** The three ways parsing can end: an exception (which sends the strategy to its
      fallback), null (no break), or a recommendation. */
  datatype ParseResult = Invalid | NoBreak | Break(rec: BreakRecommendation)

  /** The recommendation a successful parse builds. */
  function AiRecommendation(now: Instant, urgency: BreakUrgency, minutes: int, reason: string): BreakRecommendation
    requires 0 <= minutes <= Int32Max
  {
    MakeRecommendation(now, urgency, AiReasonPrefix + reason, minutes,
                       MakeMetrics(0, 0, 0, OfMinutes(minutes)))
  }

  /** parseAIResponse: without the literal `"needsBreak": true` in the cleaned reply there
      is no break; otherwise all three keys must be found and the duration must have
      digits, and the recommendation then carries the parsed urgency and duration and
      the reason after "AI Analysis: ". */
  function ParseReply(now: Instant, reply: string): (r: ParseResult)
    ensures r == NoBreak <==> !Contains(CleanReply(reply), NeedsBreakMarker)
    ensures r == Invalid <==>
              && Contains(CleanReply(reply), NeedsBreakMarker)
              && (|| ExtractJsonValue(CleanReply(reply), UrgencyKey).None?
                  || ExtractJsonValue(CleanReply(reply), ReasonKey).None?
                  || ExtractJsonValue(CleanReply(reply), DurationKey).None?
                  || ParseDuration(ExtractJsonValue(CleanReply(reply), DurationKey).value).None?)
    ensures r.Break? ==>
              var cleaned := CleanReply(reply);
              && r.rec.urgency == ParseUrgency(ExtractJsonValue(cleaned, UrgencyKey).value)
              && DurationMinutes(r.rec) == ParseDuration(ExtractJsonValue(cleaned, DurationKey).value).value
              && r.rec.reason == AiReasonPrefix + ExtractJsonValue(cleaned, ReasonKey).value
              && r.rec.timestamp == now
  {
    var cleaned := CleanReply(reply);
    if !Contains(cleaned, NeedsBreakMarker) then NoBreak
    else
      var urgencyStr := ExtractJsonValue(cleaned, UrgencyKey);
      var durationStr := ExtractJsonValue(cleaned, DurationKey);
      var reason := ExtractJsonValue(cleaned, ReasonKey);
      if urgencyStr.None? || durationStr.None? || reason.None? then Invalid
      else
        var minutes := ParseDuration(durationStr.value);
        if minutes.None? then Invalid
        else Break(AiRecommendation(now, ParseUrgency(urgencyStr.value), minutes.value, reason.value))
  }

  // ---- The reply format the prompt asks for, and reading it back ----

  const ReplyOpen: string := "{\"needsBreak\": true, \"urgency\": \""
  const ReplyAfterUrgency: string := "\", \"durationMinutes\": "
  const ReplyAfterDuration: string := ", \"reason\": \""
  const ReplyClose: string := "\"}"

  /** A reply recommending a break, written the way the prompt's JSON example is. */
  function RenderReply(u: BreakUrgency, minutes: nat, reason: string): string {
    ReplyOpen + UrgencyName(u) + ReplyAfterUrgency + NatToString(minutes)
    + ReplyAfterDuration + reason + ReplyClose
  }

  /** A reason the pattern can carry: non-empty, nothing trimmable at its ends, none of
      ',', '"', '}' and no backtick (so no code fence). */
  predicate IsPlainReason(reason: string) {
    && reason != []
    && IsTrimmed(reason)
    && forall i :: 0 <= i < |reason| ==> IsValueChar(reason[i]) && reason[i] != '`'
  }

  /** An occurrence of lit starts with lit's first two chars. */
  lemma OccursHead(s: string, lit: string, k: int)
    requires |lit| >= 2
    ensures OccursAt(s, lit, k) ==> k + 1 < |s| && s[k] == lit[0] && s[k + 1] == lit[1]
  {
    if OccursAt(s, lit, k) {
      assert s[k..k + |lit|][0] == s[k] && s[k..k + |lit|][1] == s[k + 1];
    }
  }

  /** A quote at k, followed by c. */
  predicate QuoteThen(s: string, k: int, c: char) {
    0 <= k && k + 1 < |s| && s[k] == '"' && s[k + 1] == c
  }

  /** No match of a quoted key before j when no quote before j is followed by the key's
      first letter. */
  lemma NoMatchBefore(s: string, lit: string, j: int)
    requires |lit| >= 2 && lit[0] == '"'
    requires forall k :: 0 <= k < j ==> !QuoteThen(s, k, lit[1])
    ensures forall k :: 0 <= k < j ==> !MatchesAt(s, lit, k)
  {
    forall k | 0 <= k < j
      ensures !MatchesAt(s, lit, k)
    {
      OccursHead(s, lit, k);
      assert !QuoteThen(s, k, lit[1]);
    }
  }

  lemma PiecesLayout(x1: string, x2: string, x3: string, x4: string, x5: string, x6: string, x7: string)
    ensures var s := x1 + x2 + x3 + x4 + x5 + x6 + x7;
            var o2 := |x1|;
            var o3 := o2 + |x2|;
            var o4 := o3 + |x3|;
            var o5 := o4 + |x4|;
            var o6 := o5 + |x5|;
            var o7 := o6 + |x6|;
            && |s| == o7 + |x7|
            && (forall k :: 0 <= k < o2 ==> s[k] == x1[k])
            && (forall k :: o2 <= k < o3 ==> s[k] == x2[k - o2])
            && (forall k :: o3 <= k < o4 ==> s[k] == x3[k - o3])
            && (forall k :: o4 <= k < o5 ==> s[k] == x4[k - o4])
            && (forall k :: o5 <= k < o6 ==> s[k] == x5[k - o5])
            && (forall k :: o6 <= k < o7 ==> s[k] == x6[k - o6])
            && (forall k :: o7 <= k < |s| ==> s[k] == x7[k - o7])
  {
  }

  lemma AbsentWithoutHead(s: string, pat: string)
    requires |pat| >= 2
    requires forall k :: 0 <= k < |s| ==> s[k] != pat[0]
    ensures !Contains(s, pat)
  {
    forall k | 0 <= k < |s|
      ensures !OccursAt(s, pat, k)
    {
      OccursHead(s, pat, k);
    }
  }

  lemma {:induction false} ValueRunIs(s: string, p: nat, n: nat)
    requires p + n <= |s|
    requires forall i :: p <= i < p + n ==> IsValueChar(s[i])
    requires p + n == |s| || !IsValueChar(s[p + n])
    ensures ValueRun(s, p) == n
    decreases n
  {
    if n > 0 {
      assert IsValueChar(s[p]);
      ValueRunIs(s, p + 1, n - 1);
    }
  }

  lemma FenceFree(s: string)
    requires forall k :: 0 <= k < |s| ==> s[k] != '`'
    ensures RemoveAll(s, JsonFence) == s
    ensures RemoveAll(s, Fence) == s
  {
    assert JsonFence[0] == '`';
    AbsentWithoutHead(s, JsonFence);
    RemoveAllAbsent(s, JsonFence);
    assert Fence[0] == '`';
    AbsentWithoutHead(s, Fence);
    RemoveAllAbsent(s, Fence);
  }

  lemma CleanOfUnfenced(s: string)
    requires IsTrimmed(s)
    requires forall k :: 0 <= k < |s| ==> s[k] != '`'
    ensures CleanReply(s) == s
  {
    TrimOfTrimmed(s);
    FenceFree(s);
  }

  /** The fenced reply models like to send: ```json, the object, ```. Both fences are
      deleted and the object is what is left, trimmed. */
  lemma CleanOfFenced(x: string)
    requires forall k :: 0 <= k < |x| ==> x[k] != '`'
    ensures CleanReply(JsonFence + x + Fence) == Trim(x)
  {
    var s := JsonFence + x + Fence;
    assert s[0] == '`' && s[|s| - 1] == '`';
    TrimOfTrimmed(s);
    assert s == JsonFence + (x + Fence);
    RemoveAllLeading(JsonFence, x + Fence);
    assert !Contains(x + Fence, JsonFence);
    RemoveAllAbsent(x + Fence, JsonFence);
    RemoveAllTrailing(x, Fence);
  }

  lemma GroupOfValue(s: string, p: nat, quoted: bool, g: string)
    requires g != [] && IsTrimmed(g)
    requires forall i :: 0 <= i < |g| ==> IsValueChar(g[i])
    requires var v := if quoted then p + 2 else p + 1;
             && v + |g| < |s|
             && s[p] == ' '
             && (quoted ==> s[p + 1] == '"')
             && s[v..v + |g|] == g
             && !IsValueChar(s[v + |g|])
    ensures GroupAt(s, p) == Some(g)
  {
    var v := if quoted then p + 2 else p + 1;
    assert g[0] == s[v..v + |g|][0] == s[v];
    assert SpaceRun(s, p + 1) == 0;
    assert SpaceRun(s, p) == 1;
    assert forall i :: v <= i < v + |g| ==> s[i] == g[i - v];
    ValueRunIs(s, v, |g|);
  }

  lemma ExtractValueAt(s: string, key: string, j: nat, g: string)
    requires key != [] && g != [] && IsTrimmed(g)
    requires OccursAt(s, KeyLiteral(key), j)
    requires GroupAt(s, j + |KeyLiteral(key)|) == Some(g)
    requires forall k :: 0 <= k < j ==> !QuoteThen(s, k, key[0])
    ensures ExtractJsonValue(s, key) == Some(g)
  {
    var lit := KeyLiteral(key);
    assert lit[1] == key[0];
    NoMatchBefore(s, lit, j);
    ExtractAtFirstMatch(s, key, j);
    TrimOfTrimmed(g);
  }

  lemma SliceOfPiece(s: string, x: string, o: nat, i: nat, j: nat)
    requires o + |x| <= |s| && i <= j <= |x|
    requires forall k :: o <= k < o + |x| ==> s[k] == x[k - o]
    ensures s[o + i..o + j] == x[i..j]
  {
  }

  /** A reply laid out as head + name + mid + digits + tail + reason + "\"}": where each
      piece starts and what it holds. The three fixed pieces are parameters here; the
      facts about them that reading the reply needs are HeadPiece, MidPiece and
      TailPiece. */
  predicate ReplyLayout(s: string, head: string, name: string, mid: string, digits: string,
                        tail: string, reason: string) {
    var b := |head| + |name|;
    var c := b + |mid|;
    var e := c + |digits|;
    var f := e + |tail|;
    && |s| == f + |reason| + 2
    && (forall k :: 0 <= k < |head| ==> s[k] == head[k])
    && (forall k :: |head| <= k < b ==> s[k] == name[k - |head|])
    && (forall k :: b <= k < c ==> s[k] == mid[k - b])
    && (forall k :: c <= k < e ==> s[k] == digits[k - c])
    && (forall k :: e <= k < f ==> s[k] == tail[k - e])
    && (forall k :: f <= k < f + |reason| ==> s[k] == reason[k - f])
    && s[f + |reason|] == '"' && s[f + |reason| + 1] == '}'
  }

  /** The chars of the opening piece (the marker, then the urgency key, then a space and
      a quote) that reading the reply relies on. */
  predicate HeadPiece(x: string) {
    && |x| == 33
    && x[31] == ' ' && x[32] == '"'
    && x[2] == 'n' && x[13] == ':' && x[22] == 'u' && x[30] == ':'
    && !IsTrimmable(x[0])
    && (forall k :: 0 <= k < |x| ==> x[k] != '`')
    && (forall k :: 0 <= k < |x| ==> (x[k] == '"' <==> k == 1 || k == 12 || k == 21 || k == 29 || k == 32))
  }

  /** The chars of the piece between the urgency and the duration (around the duration
      key) that reading the reply relies on. */
  predicate MidPiece(x: string) {
    && |x| == 22
    && x[0] == '"' && x[1] == ',' && x[4] == 'd' && x[20] == ':' && x[21] == ' '
    && (forall k :: 0 <= k < |x| ==> x[k] != '`')
    && (forall k :: 0 <= k < |x| ==> (x[k] == '"' <==> k == 0 || k == 3 || k == 19))
  }

  /** The chars of the piece between the duration and the reason (around the reason
      key) that reading the reply relies on. */
  predicate TailPiece(x: string) {
    && |x| == 13
    && x[0] == ',' && x[11] == ' ' && x[12] == '"'
    && (forall k :: 0 <= k < |x| ==> x[k] != '`')
    && (forall k :: 0 <= k < |x| ==> (x[k] == '"' <==> k == 2 || k == 9 || k == 12))
  }

  /** The urgency name is upper-case letters and the duration is digits. */
  predicate ReplyWords(name: string, digits: string) {
    && name != [] && (forall i :: 0 <= i < |name| ==> 'A' <= name[i] <= 'Z')
    && digits != [] && AllDigits(digits)
  }

  lemma LayoutOfPieces(head: string, name: string, mid: string, digits: string, tail: string, reason: string)
    ensures ReplyLayout(head + name + mid + digits + tail + reason + ReplyClose, head, name, mid, digits, tail, reason)
  {
    PiecesLayout(head, name, mid, digits, tail, reason, ReplyClose);
    assert ReplyClose[0] == '"' && ReplyClose[1] == '}' && |ReplyClose| == 2;
  }

  lemma RenderedLayout(u: BreakUrgency, minutes: nat, reason: string)
    ensures ReplyLayout(RenderReply(u, minutes, reason), ReplyOpen, UrgencyName(u), ReplyAfterUrgency,
                        NatToString(minutes), ReplyAfterDuration, reason)
  {
    LayoutOfPieces(ReplyOpen, UrgencyName(u), ReplyAfterUrgency, NatToString(minutes), ReplyAfterDuration, reason);
  }

  lemma RenderedWords(u: BreakUrgency, minutes: nat)
    ensures ReplyWords(UrgencyName(u), NatToString(minutes))
  {
  }

  lemma ReplyOpenMarker()
    ensures |ReplyOpen| == 33 && ReplyOpen[1..19] == NeedsBreakMarker
  {
    assert forall i :: 0 <= i < 18 ==> ReplyOpen[1 + i] == NeedsBreakMarker[i];
    assert |NeedsBreakMarker| == 18;
  }

  lemma ReplyOpenKey()
    ensures |ReplyOpen| == 33 && ReplyOpen[21..31] == KeyLiteral(UrgencyKey)
  {
    assert forall i :: 0 <= i < 10 ==> ReplyOpen[21 + i] == KeyLiteral(UrgencyKey)[i];
    assert |KeyLiteral(UrgencyKey)| == 10;
  }

  lemma ReplyOpenChars()
    ensures |ReplyOpen| == 33
    ensures forall k :: 0 <= k < |ReplyOpen| ==> ReplyOpen[k] != '`'
    ensures forall k :: 0 <= k < |ReplyOpen| ==>
              (ReplyOpen[k] == '"' <==> k == 1 || k == 12 || k == 21 || k == 29 || k == 32)
  {
  }

  /** The opening piece of the rendered reply has the facts HeadPiece names. */
  lemma ReplyOpenIsHead()
    ensures HeadPiece(ReplyOpen)
    ensures ReplyOpen[1..19] == NeedsBreakMarker && ReplyOpen[21..31] == KeyLiteral(UrgencyKey)
  {
    ReplyOpenMarker();
    ReplyOpenKey();
    ReplyOpenChars();
  }

  lemma ReplyAfterUrgencyKey()
    ensures |ReplyAfterUrgency| == 22 && ReplyAfterUrgency[3..21] == KeyLiteral(DurationKey)
  {
    assert forall i :: 0 <= i < 18 ==> ReplyAfterUrgency[3 + i] == KeyLiteral(DurationKey)[i];
    assert |KeyLiteral(DurationKey)| == 18;
  }

  lemma ReplyAfterUrgencyChars()
    ensures |ReplyAfterUrgency| == 22
    ensures forall k :: 0 <= k < |ReplyAfterUrgency| ==> ReplyAfterUrgency[k] != '`'
    ensures forall k :: 0 <= k < |ReplyAfterUrgency| ==>
              (ReplyAfterUrgency[k] == '"' <==> k == 0 || k == 3 || k == 19)
  {
  }

  lemma ReplyAfterUrgencyIsMid()
    ensures MidPiece(ReplyAfterUrgency) && ReplyAfterUrgency[3..21] == KeyLiteral(DurationKey)
  {
    ReplyAfterUrgencyKey();
    ReplyAfterUrgencyChars();
  }

  lemma ReplyAfterDurationKey()
    ensures |ReplyAfterDuration| == 13 && ReplyAfterDuration[2..11] == KeyLiteral(ReasonKey)
  {
    assert forall i :: 0 <= i < 9 ==> ReplyAfterDuration[2 + i] == KeyLiteral(ReasonKey)[i];
    assert |KeyLiteral(ReasonKey)| == 9;
  }

  lemma ReplyAfterDurationChars()
    ensures |ReplyAfterDuration| == 13
    ensures forall k :: 0 <= k < |ReplyAfterDuration| ==> ReplyAfterDuration[k] != '`'
    ensures forall k :: 0 <= k < |ReplyAfterDuration| ==>
              (ReplyAfterDuration[k] == '"' <==> k == 2 || k == 9 || k == 12)
  {
  }

  lemma ReplyAfterDurationIsTail()
    ensures TailPiece(ReplyAfterDuration) && ReplyAfterDuration[2..11] == KeyLiteral(ReasonKey)
  {
    ReplyAfterDurationKey();
    ReplyAfterDurationChars();
  }

  /** Where the quotes of a laid-out reply are, up to its reason key. */
  lemma LayoutQuotePositions(s: string, head: string, name: string, mid: string, digits: string,
                             tail: string, reason: string)
    requires ReplyLayout(s, head, name, mid, digits, tail, reason) && ReplyWords(name, digits)
    requires HeadPiece(head) && MidPiece(mid) && TailPiece(tail)
    ensures var b := |head| + |name|;
            var e := b + |mid| + |digits|;
            forall k :: 0 <= k < e + 2 && s[k] == '"' ==>
              k == 1 || k == 12 || k == 21 || k == 29 || k == 32 || k == b || k == b + 3 || k == b + 19
  {
  }

  /** No quote before a key of a laid-out reply is followed by that key's first letter:
      one lemma per key. */
  lemma LayoutQuotesBeforeUrgency(s: string, head: string, name: string, mid: string, digits: string,
                                  tail: string, reason: string)
    requires ReplyLayout(s, head, name, mid, digits, tail, reason) && ReplyWords(name, digits)
    requires HeadPiece(head) && MidPiece(mid) && TailPiece(tail)
    ensures forall k :: 0 <= k < 21 ==> !QuoteThen(s, k, 'u')
  {
    LayoutQuotePositions(s, head, name, mid, digits, tail, reason);
    assert s[2] == head[2] && s[13] == head[13];
    forall k | 0 <= k < 21
      ensures !QuoteThen(s, k, 'u')
    {
    }
  }

  lemma LayoutQuotesBeforeDuration(s: string, head: string, name: string, mid: string, digits: string,
                                   tail: string, reason: string)
    requires ReplyLayout(s, head, name, mid, digits, tail, reason) && ReplyWords(name, digits)
    requires HeadPiece(head) && MidPiece(mid) && TailPiece(tail)
    ensures forall k :: 0 <= k < |head| + |name| + 3 ==> !QuoteThen(s, k, 'd')
  {
    LayoutQuotePositions(s, head, name, mid, digits, tail, reason);
    var b := |head| + |name|;
    assert s[2] == head[2] && s[13] == head[13];
    assert s[22] == head[22] && s[30] == head[30];
    assert s[33] == name[0];
    assert s[b + 1] == mid[1];
    forall k | 0 <= k < b + 3
      ensures !QuoteThen(s, k, 'd')
    {
    }
  }

  lemma LayoutQuotesBeforeReason(s: string, head: string, name: string, mid: string, digits: string,
                                 tail: string, reason: string)
    requires ReplyLayout(s, head, name, mid, digits, tail, reason) && ReplyWords(name, digits)
    requires HeadPiece(head) && MidPiece(mid) && TailPiece(tail)
    ensures var e := |head| + |name| + |mid| + |digits|;
            forall k :: 0 <= k < e + 2 ==> !QuoteThen(s, k, 'r')
  {
    LayoutQuotePositions(s, head, name, mid, digits, tail, reason);
    var b := |head| + |name|;
    assert s[2] == head[2] && s[13] == head[13];
    assert s[22] == head[22] && s[30] == head[30];
    assert s[33] == name[0];
    assert s[b + 1] == mid[1] && s[b + 4] == mid[4];
    assert s[b + 20] == mid[20];
    forall k | 0 <= k < b + |mid| + |digits| + 2
      ensures !QuoteThen(s, k, 'r')
    {
    }
  }

  lemma LayoutIsClean(s: string, head: string, name: string, mid: string, digits: string,
                      tail: string, reason: string)
    requires ReplyLayout(s, head, name, mid, digits, tail, reason) && ReplyWords(name, digits)
    requires HeadPiece(head) && MidPiece(mid) && TailPiece(tail) && IsPlainReason(reason)
    ensures CleanReply(s) == s
  {
    assert forall k :: 0 <= k < |s| ==> s[k] != '`';
    assert s[0] == head[0];
    CleanOfUnfenced(s);
  }

  lemma LayoutMarker(s: string, head: string, name: string, mid: string, digits: string,
                     tail: string, reason: string, marker: string)
    requires ReplyLayout(s, head, name, mid, digits, tail, reason) && HeadPiece(head)
    requires head[1..19] == marker
    ensures Contains(s, marker)
  {
    SliceOfPiece(s, head, 0, 1, 19);
    assert OccursAt(s, marker, 1);
  }

  lemma LayoutUrgency(s: string, head: string, name: string, mid: string, digits: string,
                      tail: string, reason: string, key: string)
    requires ReplyLayout(s, head, name, mid, digits, tail, reason) && ReplyWords(name, digits)
    requires HeadPiece(head) && MidPiece(mid) && TailPiece(tail)
    requires key != [] && key[0] == 'u' && head[21..31] == KeyLiteral(key)
    ensures ExtractJsonValue(s, key) == Some(name)
  {
    LayoutQuotesBeforeUrgency(s, head, name, mid, digits, tail, reason);
    var b := |head| + |name|;
    SliceOfPiece(s, head, 0, 21, 31);
    assert s[31] == head[31] && s[32] == head[32];
    assert s[b] == mid[0];
    SliceOfPiece(s, name, 33, 0, |name|);
    assert name[..] == name;
    GroupOfValue(s, 31, true, name);
    ExtractValueAt(s, key, 21, name);
  }

  lemma LayoutDurationGroup(s: string, head: string, name: string, mid: string, digits: string,
                            tail: string, reason: string)
    requires ReplyLayout(s, head, name, mid, digits, tail, reason) && ReplyWords(name, digits)
    requires |mid| == 22 && mid[21] == ' ' && tail != [] && tail[0] == ','
    ensures GroupAt(s, |head| + |name| + 21) == Some(digits)
  {
    var b := |head| + |name|;
    var c := b + |mid|;
    var e := c + |digits|;
    assert s[b + 21] == mid[21];
    assert s[e] == tail[0];
    SliceOfPiece(s, digits, c, 0, |digits|);
    assert digits[..] == digits;
    GroupOfDigits(s, b + 21, digits);
  }

  /** A space, then digits, then a comma: the group is the digits. */
  lemma GroupOfDigits(s: string, p: nat, digits: string)
    requires digits != [] && AllDigits(digits)
    requires p + 1 + |digits| < |s|
    requires s[p] == ' ' && s[p + 1..p + 1 + |digits|] == digits && s[p + 1 + |digits|] == ','
    ensures GroupAt(s, p) == Some(digits)
  {
    assert IsDigit(digits[0]) && IsDigit(digits[|digits| - 1]);
    GroupOfValue(s, p, false, digits);
  }

  lemma LayoutDuration(s: string, head: string, name: string, mid: string, digits: string,
                       tail: string, reason: string, key: string)
    requires ReplyLayout(s, head, name, mid, digits, tail, reason) && ReplyWords(name, digits)
    requires HeadPiece(head) && MidPiece(mid) && TailPiece(tail)
    requires key != [] && key[0] == 'd' && mid[3..21] == KeyLiteral(key)
    ensures ExtractJsonValue(s, key) == Some(digits)
  {
    LayoutQuotesBeforeDuration(s, head, name, mid, digits, tail, reason);
    var b := |head| + |name|;
    SliceOfPiece(s, mid, b, 3, 21);
    LayoutDurationGroup(s, head, name, mid, digits, tail, reason);
    ExtractValueAt(s, key, b + 3, digits);
  }

  lemma LayoutReasonGroup(s: string, head: string, name: string, mid: string, digits: string,
                          tail: string, reason: string)
    requires ReplyLayout(s, head, name, mid, digits, tail, reason) && IsPlainReason(reason)
    requires |tail| == 13 && tail[11] == ' ' && tail[12] == '"'
    ensures var e := |head| + |name| + |mid| + |digits|;
            GroupAt(s, e + 11) == Some(reason)
  {
    var e := |head| + |name| + |mid| + |digits|;
    var f := e + |tail|;
    assert s[e + 11] == tail[11] && s[e + 12] == tail[12];
    SliceOfPiece(s, reason, f, 0, |reason|);
    assert reason[..] == reason;
    assert s[f + |reason|] == '"';
    GroupOfValue(s, e + 11, true, reason);
  }

  lemma LayoutReason(s: string, head: string, name: string, mid: string, digits: string,
                     tail: string, reason: string, key: string)
    requires ReplyLayout(s, head, name, mid, digits, tail, reason) && ReplyWords(name, digits)
    requires HeadPiece(head) && MidPiece(mid) && TailPiece(tail) && IsPlainReason(reason)
    requires key != [] && key[0] == 'r' && tail[2..11] == KeyLiteral(key)
    ensures ExtractJsonValue(s, key) == Some(reason)
  {
    LayoutQuotesBeforeReason(s, head, name, mid, digits, tail, reason);
    var e := |head| + |name| + |mid| + |digits|;
    SliceOfPiece(s, tail, e, 2, 11);
    LayoutReasonGroup(s, head, name, mid, digits, tail, reason);
    ExtractValueAt(s, key, e + 2, reason);
  }

  /** A reply whose cleaned text carries the marker and all three fields parses to the
      recommendation built from them. */
  lemma ParseOfFields(now: Instant, reply: string, u: string, d: string, reason: string, minutes: int)
    requires Contains(CleanReply(reply), NeedsBreakMarker)
    requires ExtractJsonValue(CleanReply(reply), UrgencyKey) == Some(u)
    requires ExtractJsonValue(CleanReply(reply), DurationKey) == Some(d)
    requires ExtractJsonValue(CleanReply(reply), ReasonKey) == Some(reason)
    requires ParseDuration(d) == Some(minutes)
    ensures ParseReply(now, reply) == Break(AiRecommendation(now, ParseUrgency(u), minutes, reason))
  {
  }

  lemma ParseLaidOut(now: Instant, s: string, head: string, mid: string, tail: string,
                     u: BreakUrgency, minutes: nat, reason: string)
    requires minutes <= Int32Max && IsPlainReason(reason)
    requires ReplyLayout(s, head, UrgencyName(u), mid, NatToString(minutes), tail, reason)
    requires ReplyWords(UrgencyName(u), NatToString(minutes))
    requires HeadPiece(head) && MidPiece(mid) && TailPiece(tail)
    requires head[1..19] == NeedsBreakMarker && head[21..31] == KeyLiteral(UrgencyKey)
    requires mid[3..21] == KeyLiteral(DurationKey) && tail[2..11] == KeyLiteral(ReasonKey)
    ensures ParseReply(now, s) == Break(AiRecommendation(now, u, minutes, reason))
  {
    var name := UrgencyName(u);
    var digits := NatToString(minutes);
    LayoutIsClean(s, head, name, mid, digits, tail, reason);
    LayoutMarker(s, head, name, mid, digits, tail, reason, NeedsBreakMarker);
    assert UrgencyKey[0] == 'u' && DurationKey[0] == 'd' && ReasonKey[0] == 'r';
    LayoutUrgency(s, head, name, mid, digits, tail, reason, UrgencyKey);
    LayoutDuration(s, head, name, mid, digits, tail, reason, DurationKey);
    LayoutReason(s, head, name, mid, digits, tail, reason, ReasonKey);
    ParseUrgencyIgnoresCase(u);
    ParseDurationOfPrinted(minutes);
    ParseOfFields(now, s, name, digits, reason, minutes);
  }

  /** The round trip: a reply written in the requested JSON shape parses to a
      recommendation with exactly its urgency, its duration and its reason (behind the
      "AI Analysis: " prefix). */
  lemma ParseRenderedReply(now: Instant, u: BreakUrgency, minutes: nat, reason: string)
    requires minutes <= Int32Max
    requires IsPlainReason(reason)
    ensures ParseReply(now, RenderReply(u, minutes, reason)) == Break(AiRecommendation(now, u, minutes, reason))
  {
    RenderedLayout(u, minutes, reason);
    RenderedWords(u, minutes);
    ReplyOpenIsHead();
    ReplyAfterUrgencyIsMid();
    ReplyAfterDurationIsTail();
    ParseLaidOut(now, RenderReply(u, minutes, reason), ReplyOpen, ReplyAfterUrgency, ReplyAfterDuration,
                 u, minutes, reason);
  }

  /** No match of a quoted key anywhere when no quote is followed by its first letter. */
  lemma NoMatchAnywhere(s: string, key: string)
    requires key != []
    requires forall k :: 0 <= k < |s| ==> !QuoteThen(s, k, key[0])
    ensures ExtractJsonValue(s, key).None?
  {
    var lit := KeyLiteral(key);
    assert lit[1] == key[0];
    NoMatchBefore(s, lit, |s|);
    forall k | k >= |s| || k < 0
      ensures !MatchesAt(s, lit, k)
    {
    }
    ExtractJsonValueShape(s, key);
  }

  const MarkerOnlyReply: string := "{\"needsBreak\": true}"
  const DeclinedReply: string := "{\"needsBreak\": false, \"urgency\": \"LOW\"}"

  /** Every char of an occurrence matches the pattern. */
  lemma OccursChar(s: string, pat: string, k: int, i: int)
    requires 0 <= i < |pat|
    ensures OccursAt(s, pat, k) ==> s[k + i] == pat[i]
  {
    if OccursAt(s, pat, k) {
      assert s[k..k + |pat|][i] == s[k + i];
    }
  }

  lemma MarkerOnlyIsClean()
    ensures CleanReply(MarkerOnlyReply) == MarkerOnlyReply
  {
    var s := MarkerOnlyReply;
    assert forall k :: 0 <= k < |s| ==> s[k] != '`';
    assert s[0] == '{' && s[|s| - 1] == '}';
    CleanOfUnfenced(s);
  }

  lemma MarkerOnlyHasMarker()
    ensures Contains(MarkerOnlyReply, NeedsBreakMarker)
  {
    var s := MarkerOnlyReply;
    assert forall i :: 0 <= i < 18 ==> s[1 + i] == NeedsBreakMarker[i];
    assert |NeedsBreakMarker| == 18;
    assert s[1..19] == NeedsBreakMarker;
    assert OccursAt(s, NeedsBreakMarker, 1);
  }

  lemma MarkerOnlyHasNoUrgency()
    ensures ExtractJsonValue(MarkerOnlyReply, UrgencyKey).None?
  {
    var s := MarkerOnlyReply;
    assert forall k :: 0 <= k < |s| ==> (s[k] == '"' <==> k == 1 || k == 12);
    assert s[2] == 'n' && s[13] == ':';
    forall k | 0 <= k < |s|
      ensures !QuoteThen(s, k, UrgencyKey[0])
    {
    }
    NoMatchAnywhere(s, UrgencyKey);
  }

  /** A reply that asks for a break but names none of the fields cannot be parsed, so the
      strategy answers with its fallback. */
  lemma MarkerOnlyFallsBack(now: Instant, events: seq<ActivityEvent>)
    requires events != []
    ensures ParseReply(now, MarkerOnlyReply) == Invalid
    ensures Analyze(now, events, Answered(MarkerOnlyReply)) == Fallback(now, events)
  {
    MarkerOnlyIsClean();
    MarkerOnlyHasMarker();
    MarkerOnlyHasNoUrgency();
  }

  lemma DeclinedIsClean()
    ensures CleanReply(DeclinedReply) == DeclinedReply
  {
    var s := DeclinedReply;
    assert forall k :: 0 <= k < |s| ==> s[k] != '`';
    assert s[0] == '{' && s[|s| - 1] == '}';
    CleanOfUnfenced(s);
  }

  lemma DeclinedHasNoMarker()
    ensures !Contains(DeclinedReply, NeedsBreakMarker)
  {
    var s := DeclinedReply;
    assert forall k :: 0 <= k < |s| ==> (s[k] == '"' && k + 1 < |s| && s[k + 1] == 'n' <==> k == 1);
    assert s[15] == 'f' && NeedsBreakMarker[14] == 't';
    forall k | 0 <= k < |s|
      ensures !OccursAt(s, NeedsBreakMarker, k)
    {
      OccursHead(s, NeedsBreakMarker, k);
      OccursChar(s, NeedsBreakMarker, k, 14);
    }
  }

  /** `"needsBreak": false` is no break, whatever else the reply says, and the fallback is
      not consulted. */
  lemma DeclinedReplyRecommendsNothing(now: Instant, events: seq<ActivityEvent>)
    ensures ParseReply(now, DeclinedReply) == NoBreak
    ensures Analyze(now, events, Answered(DeclinedReply)) == NoRecommendation
  {
    DeclinedIsClean();
    DeclinedHasNoMarker();
  }

  // ---- fallbackAnalysis ----

  function SumIntensity(events: seq<ActivityEvent>): real {
    if events == [] then 0.0 else SumIntensity(events[..|events| - 1]) + events[|events| - 1].intensity
  }

  /** The stream average of the intensities, 0.0 for no events. */
  function AverageIntensity(events: seq<ActivityEvent>): real {
    if events == [] then 0.0 else SumIntensity(events) / (|events| as real)
  }

  /** Events of one intensity v sum to n * v. */
  lemma {:induction false} SumIntensityOfUniform(events: seq<ActivityEvent>, v: real)
    requires forall i :: 0 <= i < |events| ==> events[i].intensity == v
    ensures SumIntensity(events) == (|events| as real) * v
  {
    if events != [] {
      SumIntensityOfUniform(events[..|events| - 1], v);
    }
  }

  /** The average is a mean: events all of intensity v average to v. */
  lemma AverageIntensityOfUniform(events: seq<ActivityEvent>, v: real)
    requires events != []
    requires forall i :: 0 <= i < |events| ==> events[i].intensity == v
    ensures AverageIntensity(events) == v
  {
    SumIntensityOfUniform(events, v);
  }

  const CriticalFallbackReason: string := "High intensity detected - fallback analysis"
  const ModerateFallbackReason: string := "Moderate intensity detected - fallback analysis"

  /** fallbackAnalysis: average intensity above 150 gives CRITICAL for 10 minutes, above
      75 MEDIUM for 5 minutes, otherwise nothing. The metrics hold the number of events
      over a window as long as the break. */
  function Fallback(now: Instant, events: seq<ActivityEvent>): (o: Outcome)
    ensures !o.Errored?
    ensures o.Recommended? <==> AverageIntensity(events) > 75.0
    ensures o.Recommended? ==>
              && o.rec.timestamp == now
              && o.rec.metrics.totalEvents == |events|
              && o.rec.metrics.timeWindow == o.rec.suggestedBreakDuration
              && (AverageIntensity(events) > 150.0 ==> o.rec.urgency == Critical && DurationMinutes(o.rec) == 10)
              && (AverageIntensity(events) <= 150.0 ==> o.rec.urgency == Medium && DurationMinutes(o.rec) == 5)
  {
    var avg := AverageIntensity(events);
    if avg > 150.0 then
      Recommended(MakeRecommendation(now, Critical, CriticalFallbackReason, 10,
                                     MakeMetrics(|events|, 0, 0, OfMinutes(10))))
    else if avg > 75.0 then
      Recommended(MakeRecommendation(now, Medium, ModerateFallbackReason, 5,
                                     MakeMetrics(|events|, 0, 0, OfMinutes(5))))
    else NoRecommendation
  }

  /** Every fallback recommendation says so in its reason. */
  lemma FallbackIsTagged(now: Instant, events: seq<ActivityEvent>)
    ensures Fallback(now, events).Recommended? ==> Contains(Fallback(now, events).rec.reason, "fallback analysis")
  {
    CriticalReasonIsTagged();
    ModerateReasonIsTagged();
  }

  lemma CriticalReasonIsTagged()
    ensures OccursAt(CriticalFallbackReason, "fallback analysis", 26)
  {
    assert forall i :: 0 <= i < 17 ==> CriticalFallbackReason[26 + i] == "fallback analysis"[i];
    assert |CriticalFallbackReason| == 43;
  }

  lemma ModerateReasonIsTagged()
    ensures OccursAt(ModerateFallbackReason, "fallback analysis", 30)
  {
    assert forall i :: 0 <= i < 17 ==> ModerateFallbackReason[30 + i] == "fallback analysis"[i];
    assert |ModerateFallbackReason| == 47;
  }

  /** An AI-derived reason carries the "AI Analysis: " prefix, so it never reads as the
      critical fallback's reason unless the model itself wrote that text. */
  lemma AiReasonIsNotFallback(reason: string)
    ensures Contains(AiReasonPrefix + reason, CriticalFallbackReason) ==> Contains(reason, CriticalFallbackReason)
  {
    var s := AiReasonPrefix + reason;
    if Contains(s, CriticalFallbackReason) {
      var i :| OccursAt(s, CriticalFallbackReason, i);
      assert CriticalFallbackReason[0] == 'H';
      assert forall k :: 0 <= k < |AiReasonPrefix| ==> AiReasonPrefix[k] != 'H';
      OccursPastPrefix(AiReasonPrefix, reason, CriticalFallbackReason, i);
    }
  }

  /** An occurrence in pre + r of a pattern whose first char is not in pre lies in r. */
  lemma OccursPastPrefix(pre: string, r: string, pat: string, i: int)
    requires pat != []
    requires forall k :: 0 <= k < |pre| ==> pre[k] != pat[0]
    requires OccursAt(pre + r, pat, i)
    ensures i >= |pre| && OccursAt(r, pat, i - |pre|)
  {
    var s := pre + r;
    assert s[i] == s[i..i + |pat|][0] == pat[0];
    assert i >= |pre|;
    var k := i - |pre|;
    assert forall j :: i <= j < i + |pat| ==> s[j] == r[j - |pre|];
    assert r[k..k + |pat|] == s[i..i + |pat|];
  }

  // ---- analyze ----

  /** analyze: no events gives nothing without consulting the model; a failed call or an
      unparsable reply goes to the fallback; a null reply or `needsBreak` not true gives
      nothing; a parsed reply gives its recommendation. The strategy never fails. */
  function Analyze(now: Instant, events: seq<ActivityEvent>, reply: AiReply): (o: Outcome)
    ensures !o.Errored?
    ensures events == [] ==> o == NoRecommendation
    ensures events != [] && reply == CallFailed ==> o == Fallback(now, events)
    ensures events != [] && reply == NoContent ==> o == NoRecommendation
    ensures events != [] && reply.Answered? ==>
              o == match ParseReply(now, reply.text)
                   case Invalid => Fallback(now, events)
                   case NoBreak => NoRecommendation
                   case Break(r) => Recommended(r)
  {
    if events == [] then NoRecommendation
    else
      match reply
      case CallFailed => Fallback(now, events)
      case NoContent => NoRecommendation
      case Answered(text) =>
        match ParseReply(now, text)
        case Invalid => Fallback(now, events)
        case NoBreak => NoRecommendation
        case Break(r) => Recommended(r)
  }
}
