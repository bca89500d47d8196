/**
 * `handleSupabaseError`: turns a raw error into the message shown to the
 * user. The message text is tested for fixed substrings in a fixed order;
 * the first group that matches picks one of four localized replies, and
 * otherwise the error's own message (or a generic reply) is shown.
 */
module ErrorMessages {
  import opened Wrappers
  import Text
  import ResilientFetch

  /** "Problem connecting to the server. Check the internet connection or try again." */
  const NetworkMessage: string := "مشكلة في الاتصال بالخادم. تحقق من اتصال الإنترنت أو حاول مرة أخرى."
  /** "Problem with the server settings. Please contact the administration." */
  const ServerSetupMessage: string := "مشكلة في إعدادات الخادم. يرجى التواصل مع الإدارة."
  /** "Authentication problem. Please contact the administration." */
  const AuthMessage: string := "مشكلة في المصادقة. يرجى التواصل مع الإدارة."
  /** "The connection timed out. Try again." */
  const TimeoutMessage: string := "انتهت مهلة الاتصال. حاول مرة أخرى."
  /** "An unexpected error occurred. Try again." */
  const DefaultMessage: string := "حدث خطأ غير متوقع. حاول مرة أخرى."

  /** `error?.message`: a missing error has no message. */
  function MessageOf(error: Option<ResilientFetch.ErrorValue>): (m: Option<string>)
    ensures error.None? ==> m.None?
    ensures error.Some? ==> m == error.value.message
  {
    match error
    case Some(e) => e.message
    case None => None
  }

  /** `message?.includes(p)`: false when there is no message; case-sensitive otherwise. */
  predicate Mentions(message: Option<string>, p: string)
    ensures Mentions(message, p) <==> message.Some? && exists i: nat :: Text.OccursAt(message.value, p, i)
  {
    if message.Some? then Text.IncludesIff(message.value, p); Text.Includes(message.value, p) else false
  }

  /** The value of `handleSupabaseError(error)`. */
  function HandleError(error: Option<ResilientFetch.ErrorValue>): (r: string)
    ensures r != []
    ensures r in {NetworkMessage, ServerSetupMessage, AuthMessage, TimeoutMessage, DefaultMessage}
            || (MessageOf(error).Some? && r == MessageOf(error).value)
  {
    var m := MessageOf(error);
    if Mentions(m, "Failed to fetch") || Mentions(m, "NetworkError") || Mentions(m, "fetch") then
      NetworkMessage
    else if Mentions(m, "CORS") || Mentions(m, "Access-Control-Allow-Origin") then
      ServerSetupMessage
    else if Mentions(m, "JWT") || Mentions(m, "Invalid API key") then
      AuthMessage
    else if Mentions(m, "timeout") || Mentions(m, "Request timeout") then
      TimeoutMessage
    else if m.Some? && m.value != [] then
      m.value
    else
      DefaultMessage
  }

  // ---------------------------------------------------------------------
  // An independent statement of the classifier: a priority-ordered table of
  // rules, the first rule with a matching pattern deciding the reply.
  // ---------------------------------------------------------------------

  datatype Rule = Rule(patterns: seq<string>, reply: string)

  /** The four rules, highest priority first. */
  const Rules: seq<Rule> := [
    Rule(["Failed to fetch", "NetworkError", "fetch"], NetworkMessage),
    Rule(["CORS", "Access-Control-Allow-Origin"], ServerSetupMessage),
    Rule(["JWT", "Invalid API key"], AuthMessage),
    Rule(["timeout", "Request timeout"], TimeoutMessage)]

  predicate RuleMatches(message: Option<string>, rule: Rule) {
    exists p :: p in rule.patterns && Mentions(message, p)
  }

  /** The index of the first of the first `n` rules that matches, if any. */
  function FirstMatchingRule(rules: seq<Rule>, message: Option<string>, n: nat): (k: Option<nat>)
    requires n <= |rules|
    ensures k.Some? ==> k.value < n && RuleMatches(message, rules[k.value])
    ensures k.Some? ==> forall j :: 0 <= j < k.value ==> !RuleMatches(message, rules[j])
    ensures k.None? ==> forall j :: 0 <= j < n ==> !RuleMatches(message, rules[j])
  {
    if n == 0 then None
    else
      match FirstMatchingRule(rules, message, n - 1)
      case Some(k) => Some(k)
      case None => if RuleMatches(message, rules[n - 1]) then Some(n - 1) else None
  }

  /** The classifier as the rule table describes it. */
  function ByRuleTable(error: Option<ResilientFetch.ErrorValue>): string {
    var m := MessageOf(error);
    match FirstMatchingRule(Rules, m, |Rules|)
    case Some(k) => Rules[k].reply
    case None => if m.Some? && m.value != [] then m.value else DefaultMessage
  }

  /** Each rule of the table matches exactly when one of its patterns is mentioned. */
  lemma RulesSpelledOut(m: Option<string>)
    ensures RuleMatches(m, Rules[0]) <==>
            Mentions(m, "Failed to fetch") || Mentions(m, "NetworkError") || Mentions(m, "fetch")
    ensures RuleMatches(m, Rules[1]) <==> Mentions(m, "CORS") || Mentions(m, "Access-Control-Allow-Origin")
    ensures RuleMatches(m, Rules[2]) <==> Mentions(m, "JWT") || Mentions(m, "Invalid API key")
    ensures RuleMatches(m, Rules[3]) <==> Mentions(m, "timeout") || Mentions(m, "Request timeout")
  {
  }

  /** The chain of tests in `handleSupabaseError` is exactly first-match over the rule table. */
  lemma HandleErrorFollowsRuleTable(error: Option<ResilientFetch.ErrorValue>)
    ensures HandleError(error) == ByRuleTable(error)
  {
    var m := MessageOf(error);
    RulesSpelledOut(m);
    var k := FirstMatchingRule(Rules, m, |Rules|);
    if k.Some? {
      assert RuleMatches(m, Rules[k.value]);
      assert forall j :: 0 <= j < k.value ==> !RuleMatches(m, Rules[j]);
    }
  }

  /** A message mentioning "fetch" gets the network reply whatever else it mentions. */
  lemma FetchMentionWins(s: string)
    requires Text.Includes(s, "fetch")
    ensures HandleError(Some(ResilientFetch.ErrorValue(Some(s)))) == NetworkMessage
  {
  }

  /**
   * "Failed to fetch" and "Request timeout" never decide anything on their
   * own: each contains a shorter pattern of the same rule.
   */
  lemma LongerPatternsAreSubsumed(s: string)
    ensures Text.Includes(s, "Failed to fetch") ==> Text.Includes(s, "fetch")
    ensures Text.Includes(s, "Request timeout") ==> Text.Includes(s, "timeout")
  {
    assert Text.OccursAt("Failed to fetch", "fetch", 10);
    Text.IncludesIff("Failed to fetch", "fetch");
    assert Text.OccursAt("Request timeout", "timeout", 8);
    Text.IncludesIff("Request timeout", "timeout");
    if Text.Includes(s, "Failed to fetch") {
      Text.IncludesTransitive(s, "Failed to fetch", "fetch");
    }
    if Text.Includes(s, "Request timeout") {
      Text.IncludesTransitive(s, "Request timeout", "timeout");
    }
  }

  /** When no rule matches, the error's own non-empty message is shown, else the generic reply. */
  lemma UnmatchedFallsBack(error: Option<ResilientFetch.ErrorValue>)
    requires forall k :: 0 <= k < |Rules| ==> !RuleMatches(MessageOf(error), Rules[k])
    ensures HandleError(error) ==
            if MessageOf(error).Some? && MessageOf(error).value != [] then MessageOf(error).value else DefaultMessage
  {
    HandleErrorFollowsRuleTable(error);
  }

  /** The first character of every pattern in the table. */
  const PatternHeads: set<char> := {'F', 'N', 'f', 'C', 'A', 'J', 'I', 't', 'R'}

  /** A text that contains none of the patterns' first characters matches no rule. */
  lemma NoPatternHeadNoMatch(s: string)
    requires forall i :: 0 <= i < |s| ==> s[i] !in PatternHeads
    ensures forall k :: 0 <= k < |Rules| ==> !RuleMatches(Some(s), Rules[k])
  {
    forall k, p | 0 <= k < |Rules| && p in Rules[k].patterns
      ensures !Text.Includes(s, p)
    {
      assert p != [] && p[0] in PatternHeads;
      if Text.Includes(s, p) {
        Text.IncludesFirstChar(s, p);
      }
    }
  }

  /** Matching is case-sensitive: a lower-case "cors" is not recognised and is shown as it is. */
  lemma LowerCaseCorsIsNotRecognised()
    ensures HandleError(Some(ResilientFetch.ErrorValue(Some("cors error")))) == "cors error"
  {
    NoPatternHeadNoMatch("cors error");
    UnmatchedFallsBack(Some(ResilientFetch.ErrorValue(Some("cors error"))));
  }

  /**
   * `handleSupabaseError` applied to the error the retry loop synthesises
   * for a 5xx response returns it unchanged: "Server error: <status>"
   * matches no rule.
   */
  lemma ServerErrorShownVerbatim(code: nat)
    ensures var msg := ResilientFetch.ServerErrorMessage(code);
            HandleError(Some(ResilientFetch.ErrorValue(Some(msg)))) == msg
  {
    var msg := ResilientFetch.ServerErrorMessage(code);
    var digits := Text.Decimal(code);
    forall i | 0 <= i < |msg| ensures msg[i] !in PatternHeads {
      if i >= 14 {
        assert msg[i] == digits[i - 14];
      }
    }
    NoPatternHeadNoMatch(msg);
    UnmatchedFallsBack(Some(ResilientFetch.ErrorValue(Some(msg))));
  }

  /**
   * When all three attempts fail and the third is a 5xx response,
   * `handleSupabaseError` applied to the raised error returns
   * "Server error: <status>" of that response unchanged.
   */
  lemma ExhaustedServerErrorsReachUser(transport: seq<ResilientFetch.Attempt>)
    requires ResilientFetch.MaxRetries <= |transport|
    requires forall j :: 0 <= j < ResilientFetch.MaxRetries ==> !ResilientFetch.IsFinal(transport[j])
    requires transport[2].Status?
    ensures var run := ResilientFetch.Expected(transport);
            run.outcome.Raised? &&
            HandleError(Some(run.outcome.error)) == ResilientFetch.ServerErrorMessage(transport[2].code)
  {
    ResilientFetch.AllFailuresRaiseTheLast(transport);
    ServerErrorShownVerbatim(transport[2].code);
  }
}
