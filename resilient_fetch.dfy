/**
 * The `fetch` function handed to the database client: it rewrites the
 * request options, sends the request up to three times, treats any status
 * below 500 as final, and waits `2^i * 1000` ms after failed attempt `i`
 * when another attempt follows.
 *
 * The transport is a script of per-attempt outcomes; waiting is recorded as
 * the list of delays the loop would sleep for.
 */
module ResilientFetch {
  import opened Wrappers
  import Text

  /** `const maxRetries = 3`: the number of attempts, not of retries. */
  const MaxRetries: nat := 3

  /** A thrown JavaScript value as far as the core looks at it: its optional `message`. */
  datatype ErrorValue = ErrorValue(message: Option<string>)

  /**
   * Request options. `others` stands for every option the wrapper passes
   * through unchanged (`method`, `body`, ...); an absent `headers` is the empty map.
   */
  datatype RequestInit = RequestInit(
    mode: Option<string>,
    credentials: Option<string>,
    headers: map<string, string>,
    others: map<string, string>)

  datatype Request = Request(url: string, init: RequestInit)

  /** What the underlying `fetch` does on one call: it throws, or resolves to a response. */
  datatype Attempt = Thrown(error: ErrorValue) | Status(code: nat)

  /** What the caller of the wrapper observes. */
  datatype FetchOutcome = Returned(status: nat) | Raised(error: ErrorValue)

  /** One whole call of the wrapper: its outcome, how many requests it sent, and the waits between them. */
  datatype Run = Run(outcome: FetchOutcome, attempts: nat, delays: seq<nat>)

  /** The five headers every request carries unless the caller overrides them. */
  function DefaultHeaders(anonKey: string): (h: map<string, string>)
    ensures h.Keys == {"apikey", "Authorization", "Content-Type", "Accept", "X-Client-Info"}
    ensures h["Authorization"] == "Bearer " + h["apikey"] && h["apikey"] == anonKey
  {
    map[
      "apikey" := anonKey,
      "Authorization" := "Bearer " + anonKey,
      "Content-Type" := "application/json",
      "Accept" := "application/json",
      "X-Client-Info" := "supabase-js-web"]
  }

  /**
   * `{...options, mode: 'cors', credentials: 'omit', headers: {...defaults, ...options.headers}}`:
   * mode and credentials are forced, the caller's headers win over the defaults key by key.
   */
  function Outgoing(options: RequestInit, anonKey: string): (r: RequestInit)
    ensures r.mode == Some("cors") && r.credentials == Some("omit")
    ensures r.others == options.others
    ensures r.headers.Keys == DefaultHeaders(anonKey).Keys + options.headers.Keys
    ensures forall k :: k in options.headers ==> r.headers[k] == options.headers[k]
    ensures forall k :: k in DefaultHeaders(anonKey) && k !in options.headers ==>
              r.headers[k] == DefaultHeaders(anonKey)[k]
  {
    options.(mode := Some("cors"), credentials := Some("omit"),
             headers := DefaultHeaders(anonKey) + options.headers)
  }

  /** `response.ok || response.status < 500`: `ok` (2xx) adds nothing to the second test. */
  predicate IsFinalStatus(code: nat)
    ensures IsFinalStatus(code) <==> code < 500
  {
    (200 <= code <= 299) || code < 500
  }

  /** An attempt that ends the loop: a response, not thrown, with a final status. */
  predicate IsFinal(a: Attempt) {
    a.Status? && IsFinalStatus(a.code)
  }

  /** `Server error: ${response.status}` */
  function ServerErrorMessage(code: nat): (msg: string)
    ensures |msg| > 14 && msg[..14] == "Server error: "
    ensures forall i :: 14 <= i < |msg| ==> Text.IsDigit(msg[i])
  {
    "Server error: " + Text.Decimal(code)
  }

  /** The error a failed attempt leaves in `lastError`. */
  function FailureOf(a: Attempt): (e: ErrorValue)
    requires !IsFinal(a)
    ensures a.Thrown? ==> e == a.error
    ensures a.Status? ==> 500 <= a.code && e.message == Some(ServerErrorMessage(a.code))
  {
    match a
    case Thrown(e) => e
    case Status(code) => ErrorValue(Some(ServerErrorMessage(code)))
  }

  /** `Math.pow(2, i)` on the non-negative integers the loop uses. */
  function Pow2(i: nat): nat {
    if i == 0 then 1 else 2 * Pow2(i - 1)
  }

  /** The wait after failed attempt `i` (0-based). */
  function Backoff(i: nat): nat {
    Pow2(i) * 1000
  }

  /** The waits after the first `n` failed attempts, in order. */
  function Backoffs(n: nat): (d: seq<nat>)
    ensures |d| == n && forall i :: 0 <= i < n ==> d[i] == Backoff(i)
  {
    if n == 0 then [] else Backoffs(n - 1) + [Backoff(n - 1)]
  }

  function TotalWait(delays: seq<nat>): nat {
    if delays == [] then 0 else TotalWait(delays[..|delays| - 1]) + delays[|delays| - 1]
  }

  /** The index of the first final attempt among the first `n`, if any. */
  function FirstFinal(transport: seq<Attempt>, n: nat): (k: Option<nat>)
    requires n <= |transport|
    ensures k.Some? ==> k.value < n && IsFinal(transport[k.value])
    ensures k.Some? ==> forall j :: 0 <= j < k.value ==> !IsFinal(transport[j])
    ensures k.None? ==> forall j :: 0 <= j < n ==> !IsFinal(transport[j])
  {
    if n == 0 then None
    else
      match FirstFinal(transport, n - 1)
      case Some(k) => Some(k)
      case None => if IsFinal(transport[n - 1]) then Some(n - 1) else None
  }

  /**
   * What one call of the wrapper does, in closed form: the first final
   * response among the three attempts is returned after one wait per
   * earlier failure; with none, the last attempt's error is raised after
   * the two waits between the three attempts.
   */
  function Expected(transport: seq<Attempt>): Run
    requires MaxRetries <= |transport|
  {
    match FirstFinal(transport, MaxRetries)
    case Some(k) => Run(Returned(transport[k].code), k + 1, Backoffs(k))
    case None => Run(Raised(FailureOf(transport[MaxRetries - 1])), MaxRetries, Backoffs(MaxRetries - 1))
  }

  /**
   * The retry loop. `transport[i]` is what the underlying `fetch` does on
   * the `i`-th call; `sent` lists the requests handed to it and `delays`
   * the waits performed, in order.
   */
  method Fetch(url: string, options: RequestInit, anonKey: string, transport: seq<Attempt>)
    returns (outcome: FetchOutcome, sent: seq<Request>, delays: seq<nat>)
    requires MaxRetries <= |transport|
    ensures Run(outcome, |sent|, delays) == Expected(transport)
    ensures forall j :: 0 <= j < |sent| ==> sent[j] == Request(url, Outgoing(options, anonKey))
  {
    var lastError: Option<ErrorValue> := None;
    sent, delays := [], [];
    var i: nat := 0;
    while i < MaxRetries
      invariant i <= MaxRetries && |sent| == i
      invariant forall j :: 0 <= j < i ==> sent[j] == Request(url, Outgoing(options, anonKey))
      invariant forall j :: 0 <= j < i ==> !IsFinal(transport[j])
      invariant i == 0 ==> lastError == None
      invariant i > 0 ==> lastError == Some(FailureOf(transport[i - 1]))
      invariant delays == Backoffs(if i < MaxRetries then i else MaxRetries - 1)
    {
      sent := sent + [Request(url, Outgoing(options, anonKey))];
      var failure: ErrorValue;
      match transport[i] {
        case Status(code) =>
          if IsFinalStatus(code) {
            outcome := Returned(code);
            return;
          }
          failure := ErrorValue(Some(ServerErrorMessage(code)));
        case Thrown(e) =>
          failure := e;
      }
      lastError := Some(failure);
      if i < MaxRetries - 1 {
        delays := delays + [Backoff(i)];
      }
      i := i + 1;
    }
    outcome := Raised(lastError.value);
  }

  /** A final response is returned from the attempt that produced it, after one wait per earlier failure. */
  lemma FinalResponseEndsTheLoop(transport: seq<Attempt>, k: nat)
    requires MaxRetries <= |transport| && k < MaxRetries
    requires IsFinal(transport[k]) && forall j :: 0 <= j < k ==> !IsFinal(transport[j])
    ensures Expected(transport) == Run(Returned(transport[k].code), k + 1, Backoffs(k))
  {
  }

  /** A call makes between one and three attempts and waits exactly once between consecutive ones. */
  lemma AttemptsBounded(transport: seq<Attempt>)
    requires MaxRetries <= |transport|
    ensures 1 <= Expected(transport).attempts <= MaxRetries
    ensures |Expected(transport).delays| == Expected(transport).attempts - 1
    ensures Expected(transport).outcome.Returned? <==> exists j :: 0 <= j < MaxRetries && IsFinal(transport[j])
  {
  }

  /** When all three attempts fail, the third one's error is raised, after waits of 1000 and 2000 ms. */
  lemma AllFailuresRaiseTheLast(transport: seq<Attempt>)
    requires MaxRetries <= |transport|
    requires forall j :: 0 <= j < MaxRetries ==> !IsFinal(transport[j])
    ensures Expected(transport) == Run(Raised(FailureOf(transport[2])), 3, [1000, 2000])
  {
  }

  /** Earlier failures never surface: two all-failing calls that agree on the last attempt raise the same error. */
  lemma RaisedErrorIgnoresEarlierAttempts(t1: seq<Attempt>, t2: seq<Attempt>)
    requires MaxRetries <= |t1| && MaxRetries <= |t2|
    requires Expected(t1).outcome.Raised? && Expected(t2).outcome.Raised?
    requires t1[MaxRetries - 1] == t2[MaxRetries - 1]
    ensures Expected(t1).outcome == Expected(t2).outcome
  {
  }

  /** Each wait doubles the previous one. */
  lemma BackoffDoubles(i: nat)
    ensures Backoff(i + 1) == 2 * Backoff(i)
  {
  }

  /** The recorded waits are always a prefix of 1000 ms, 2000 ms. */
  lemma DelaysArePrefixOfSchedule(transport: seq<Attempt>)
    requires MaxRetries <= |transport|
    ensures Expected(transport).delays <= [1000, 2000]
  {
  }

  /** Two failures then a final response: three attempts and a total wait of exactly 3000 ms. */
  lemma ThirdAttemptSuccessWaits3000(transport: seq<Attempt>)
    requires MaxRetries <= |transport|
    requires !IsFinal(transport[0]) && !IsFinal(transport[1]) && IsFinal(transport[2])
    ensures Expected(transport).outcome == Returned(transport[2].code)
    ensures Expected(transport).attempts == 3 && TotalWait(Expected(transport).delays) == 3000
  {
    var d := Expected(transport).delays;
    assert d == Backoffs(2) == [Backoff(0), Backoff(1)];
    assert d[..1] == [1000] && d[..1][..0] == [];
    assert TotalWait(d[..1]) == 1000;
  }

  /** The synthesised server error names the status it was made from. */
  lemma ServerErrorMessageCarriesStatus(code: nat)
    ensures |ServerErrorMessage(code)| > 14 && ServerErrorMessage(code)[..14] == "Server error: "
    ensures var digits := ServerErrorMessage(code)[14..];
            (forall i :: 0 <= i < |digits| ==> Text.IsDigit(digits[i])) && Text.DecimalValue(digits) == code
  {
    assert ServerErrorMessage(code)[14..] == Text.Decimal(code);
    Text.DecimalRoundTrip(code);
  }
}
