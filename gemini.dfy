// The keyword fallbacks of the AI service (echoaid-server/services/gemini_service.py): the
// blockage-report parser used when the remote model is disabled or fails, and the
// least-loaded-exit reroute suggestion. The remote model itself is an input here.

module Gemini {
  import opened Wrappers
  import Text

  /**
   * A parsed blockage report. The remote model may leave any field out (None); the keyword
   * fallback always fills location, severity and type.
   */
  datatype BlockageInfo = BlockageInfo(location: Option<string>, severity: Option<string>,
                                       kind: Option<string>, needsImmediate: bool)

  /** The reroute suggestion: exit, reason text and priority. */
  datatype Suggestion = Suggestion(exit: string, reason: string, priority: string)

  const CRITICAL_WORDS: seq<string> := ["fire", "smoke", "explosion", "collapse", "structural"]
  const HIGH_WORDS: seq<string> := ["blocked", "debris", "obstacle", "fallen"]
  const MEDIUM_WORDS: seq<string> := ["crowd", "congested", "slow", "packed"]
  const EXIT_LOADS_ORDER: seq<string> := ["p200", "p201", "p202", "p203"]
  const PLACEHOLDER_KEY := "your-gemini-api-key-here"

  /** any(word in text for word in words). */
  predicate AnyIn(words: seq<string>, text: string) {
    exists i :: 0 <= i < |words| && Text.Contains(text, words[i])
  }

  /**
   * Severity and type from the lower-cased message, first matching keyword group winning:
   * critical words, then blocking words, then crowding words, else HIGH/OTHER.
   */
  function Classify(lower: string): (r: (string, string))
    ensures AnyIn(CRITICAL_WORDS, lower) ==>
              r.0 == "CRITICAL"
              && (r.1 == "FIRE" <==> Text.Contains(lower, "fire") || Text.Contains(lower, "smoke"))
              && (r.1 != "FIRE" ==> r.1 == "STRUCTURAL")
    ensures !AnyIn(CRITICAL_WORDS, lower) && AnyIn(HIGH_WORDS, lower) ==> r == ("HIGH", "DEBRIS")
    ensures !AnyIn(CRITICAL_WORDS, lower) && !AnyIn(HIGH_WORDS, lower) && AnyIn(MEDIUM_WORDS, lower)
            ==> r == ("MEDIUM", "CROWD")
    ensures !AnyIn(CRITICAL_WORDS, lower) && !AnyIn(HIGH_WORDS, lower) && !AnyIn(MEDIUM_WORDS, lower)
            ==> r == ("HIGH", "OTHER")
    ensures r.0 in {"CRITICAL", "HIGH", "MEDIUM"}
  {
    if AnyIn(CRITICAL_WORDS, lower) then
      ("CRITICAL", if Text.Contains(lower, "fire") || Text.Contains(lower, "smoke") then "FIRE" else "STRUCTURAL")
    else if AnyIn(HIGH_WORDS, lower) then ("HIGH", "DEBRIS")
    else if AnyIn(MEDIUM_WORDS, lower) then ("MEDIUM", "CROWD")
    else ("HIGH", "OTHER")
  }

  // ---------------------------------------------------------------------------------------
  // The pattern (\d{3,4}|h\d+), searched from the left

  /**
   * What the pattern matches at index i, trying its alternatives in order: three digits and
   * a fourth when present, else 'h' and every digit after it.
   */
  function MatchAt(s: string, i: nat): Option<string>
    requires i <= |s|
  {
    if Text.DigitsAt(s, i, 3) then Some(s[i..i + (if Text.DigitsAt(s, i, 4) then 4 else 3)])
    else if i < |s| && s[i] == 'h' && Text.DigitRun(s, i + 1) >= 1 then Some(s[i..i + 1 + Text.DigitRun(s, i + 1)])
    else None
  }

  /** A string the pattern accepts: 3 or 4 digits, or 'h' followed by one or more digits. */
  predicate RoomToken(m: string) {
    (3 <= |m| <= 4 && Text.AllDigits(m)) || (|m| >= 2 && m[0] == 'h' && Text.AllDigits(m[1..]))
  }

  /** A match is a token of the pattern found at index i, and greedy: no digit follows it unless it has 4 digits. */
  lemma MatchAtSound(s: string, i: nat)
    requires i <= |s| && MatchAt(s, i).Some?
    ensures var m := MatchAt(s, i).value;
            RoomToken(m) && i + |m| <= |s| && s[i..i + |m|] == m
            && (i + |m| < |s| && Text.IsDigit(s[i + |m|]) ==> |m| == 4 && Text.AllDigits(m))
  {
    var m := MatchAt(s, i).value;
    if Text.DigitsAt(s, i, 3) {
      assert forall j :: 0 <= j < |m| ==> m[j] == s[i + j];
    } else {
      var n := Text.DigitRun(s, i + 1);
      assert forall j :: 0 <= j < |m| - 1 ==> m[1..][j] == s[i + 1 + j];
    }
  }

  /** The leftmost match at or after index i, with its position (re.search). */
  function Search(s: string, i: nat): (r: Option<(nat, string)>)
    requires i <= |s|
    ensures r.Some? ==> i <= r.value.0 <= |s| && MatchAt(s, r.value.0) == Some(r.value.1)
                        && forall j :: i <= j < r.value.0 ==> MatchAt(s, j).None?
    ensures r.None? ==> forall j :: i <= j <= |s| ==> MatchAt(s, j).None?
    decreases |s| - i
  {
    match MatchAt(s, i)
    case Some(m) => Some((i, m))
    case None => if i == |s| then None else Search(s, i + 1)
  }

  // ---------------------------------------------------------------------------------------
  // The fallback parser and its dispatch

  /**
   * _fallback_parse_blockage. Its final check that the location starts with 'p' never changes
   * the value: a found token is prefixed with 'p', and otherwise the location already is the
   * reporter's position.
   */
  function FallbackParse(message: string, reporter: string): BlockageInfo {
    var (severity, kind) := Classify(Text.ToLower(message));
    var location := match Search(message, 0)
                    case Some(found) => "p" + found.1
                    case None => reporter;
    BlockageInfo(Some(location), Some(severity), Some(kind), severity in {"CRITICAL", "HIGH"})
  }

  /**
   * The fallback's location is 'p' plus the leftmost token of the pattern in the original
   * message, else the reporter's position; severity and type follow the keyword priority; the
   * report needs immediate action exactly when it is CRITICAL or HIGH, and it is never LOW.
   */
  lemma FallbackParseSpec(message: string, reporter: string)
    ensures var r := FallbackParse(message, reporter);
            var found := Search(message, 0);
            var c := Classify(Text.ToLower(message));
            (found.Some? ==> r.location == Some("p" + found.value.1)
                             && RoomToken(found.value.1)
                             && message[found.value.0..found.value.0 + |found.value.1|] == found.value.1
                             && forall j :: 0 <= j < found.value.0 ==> MatchAt(message, j).None?)
            && (found.None? ==> r.location == Some(reporter))
            && r.severity == Some(c.0) && r.kind == Some(c.1)
            && (r.needsImmediate <==> c.0 == "CRITICAL" || c.0 == "HIGH")
            && r.severity != Some("LOW")
  {
    var found := Search(message, 0);
    if found.Some? {
      MatchAtSound(message, found.value.0);
    }
  }

  /** GeminiService: enabled by a non-empty key other than the placeholder. */
  datatype GeminiService = GeminiService(enabled: bool) {

    /**
     * parse_blockage_report: `remote` is the outcome of the remote model, None when it raised.
     * Disabled or failed, the keyword fallback answers.
     */
    function ParseBlockageReport(message: string, reporter: string,
                                 remote: Option<BlockageInfo>): (r: BlockageInfo)
      ensures !enabled || remote.None? ==> r == FallbackParse(message, reporter)
      ensures enabled && remote.Some? ==> r == remote.value
    {
      if !enabled then FallbackParse(message, reporter)
      else if remote.Some? then remote.value
      else FallbackParse(message, reporter)
    }
  }

  function NewService(apiKey: string): (s: GeminiService)
    ensures s.enabled <==> apiKey != "" && apiKey != PLACEHOLDER_KEY
  {
    GeminiService(apiKey != "" && apiKey != PLACEHOLDER_KEY)
  }

  // ---------------------------------------------------------------------------------------
  // Least-loaded exit

  /** Number of non-empty routes ending at exit x. */
  function ExitLoad(routes: seq<seq<string>>, x: string): nat
    decreases |routes|
  {
    if routes == [] then 0
    else
      var n := |routes| - 1;
      var r := routes[n];
      ExitLoad(routes[..n], x) + (if r != [] && r[|r| - 1] == x then 1 else 0)
  }

  /**
   * _fallback_suggest_reroute over the routes of all users (its current and blocked node
   * arguments are unused): the exit of least load among p200..p203, earliest on ties.
   */
  method FallbackSuggestReroute(routes: seq<seq<string>>) returns (s: Suggestion)
    ensures exists k :: 0 <= k < |EXIT_LOADS_ORDER| && s.exit == EXIT_LOADS_ORDER[k]
                        && (forall j :: 0 <= j < |EXIT_LOADS_ORDER| ==>
                              ExitLoad(routes, s.exit) <= ExitLoad(routes, EXIT_LOADS_ORDER[j]))
                        && (forall j :: 0 <= j < k ==>
                              ExitLoad(routes, s.exit) < ExitLoad(routes, EXIT_LOADS_ORDER[j]))
    ensures s.reason == "Least congested exit (" + Text.IntToString(ExitLoad(routes, s.exit)) + " users)"
    ensures s.priority == "HIGH"
  {
    var loads := CountLoads(routes);
    var k := LeastLoaded(loads);
    var best := EXIT_LOADS_ORDER[k];
    s := Suggestion(best, "Least congested exit (" + Text.IntToString(loads[best]) + " users)", "HIGH");
  }

  /** The first loop of _fallback_suggest_reroute: each route's last node, when it is one of the four exits, adds one to that exit's load. */
  method CountLoads(routes: seq<seq<string>>) returns (loads: map<string, nat>)
    ensures loads.Keys == {"p200", "p201", "p202", "p203"}
    ensures forall x :: x in loads ==> loads[x] == ExitLoad(routes, x)
  {
    loads := map["p200" := 0, "p201" := 0, "p202" := 0, "p203" := 0];
    for i := 0 to |routes|
      invariant loads.Keys == {"p200", "p201", "p202", "p203"}
      invariant forall x :: x in loads ==> loads[x] == ExitLoad(routes[..i], x)
    {
      assert routes[..i + 1][..i] == routes[..i];
      var route := routes[i];
      if route != [] {
        var exitNode := route[|route| - 1];
        if exitNode in loads {
          loads := loads[exitNode := loads[exitNode] + 1];
        }
      }
    }
    assert routes[..|routes|] == routes;
  }

  /** min(loads, key=loads.get) over p200..p203: the first exit of least load. */
  method LeastLoaded(loads: map<string, nat>) returns (k: nat)
    requires forall i :: 0 <= i < |EXIT_LOADS_ORDER| ==> EXIT_LOADS_ORDER[i] in loads
    ensures k < |EXIT_LOADS_ORDER|
    ensures forall i :: 0 <= i < |EXIT_LOADS_ORDER| ==>
              loads[EXIT_LOADS_ORDER[k]] <= loads[EXIT_LOADS_ORDER[i]]
    ensures forall i :: 0 <= i < k ==> loads[EXIT_LOADS_ORDER[k]] < loads[EXIT_LOADS_ORDER[i]]
  {
    k := 0;
    for j := 1 to |EXIT_LOADS_ORDER|
      invariant k < j
      invariant forall i :: 0 <= i < j ==> loads[EXIT_LOADS_ORDER[k]] <= loads[EXIT_LOADS_ORDER[i]]
      invariant forall i :: 0 <= i < k ==> loads[EXIT_LOADS_ORDER[k]] < loads[EXIT_LOADS_ORDER[i]]
    {
      if loads[EXIT_LOADS_ORDER[j]] < loads[EXIT_LOADS_ORDER[k]] {
        k := j;
      }
    }
  }
}
