# Resilient fetch, error messages and configuration gate of the database client

This project models the decision logic of `src/utils/supabase.ts`, the module that sets up the
web application's Supabase database client. There are three parts.

- **The retry `fetch`** handed to the client (`ResilientFetch`). It rewrites each request so that
  `mode` is `'cors'`, `credentials` is `'omit'`, and the five default headers sit under the
  caller's own. It then makes up to three attempts. A response with status below 500 is final and
  is returned as it is. A 5xx response becomes the error `Server error: <status>`. Both that error
  and a thrown transport error lead to another attempt while attempts remain. After failed attempt
  `i` the loop waits `2^i * 1000` ms, except after the last one. When all three fail, the last
  error is re-thrown.
  The transport is a script with one outcome per call (`Thrown(error)` or `Status(code)`). The
  method `Fetch` takes the anonymous key the closure captures. It returns the outcome, the requests it sent and the waits it performed. It is proved
  equal to the closed form `Expected`, and the lemmas about the retry behaviour are proved about
  `Expected`.
- **The error classifier** `handleSupabaseError` (`ErrorMessages.HandleError`). It tests the
  error's message, case-sensitively, for four groups of substrings in a fixed order:
  - network: `Failed to fetch`, `NetworkError`, `fetch`
  - CORS: `CORS`, `Access-Control-Allow-Origin`
  - authentication: `JWT`, `Invalid API key`
  - timeout: `timeout`, `Request timeout`

  The first group that matches picks one of four fixed Arabic replies. Otherwise the result is the
  message itself when it is non-empty, or a generic reply. The classifier is proved equal to an
  independent first-match over a rule table (`ByRuleTable`).
- **The configuration gate** (`Configuration`). The client is constructed only when the endpoint
  URL and the anonymous key are both non-empty. `isSupabaseConfigured()` is true exactly then, so
  its third conjunct, the client test, adds nothing.

`Text` models the two JavaScript string operations the code relies on. One is `String.prototype.includes`,
proved equal to the positional definition of a substring. The other is the decimal rendering of a
status inside a template literal, proved to round-trip.

Four facts about the retry loop follow from the code and are proved here:
- No wait follows the third attempt, so the waits are 1000 ms and 2000 ms.
- If the last attempt is a 5xx response, the error raised is the synthesised `Server error: <status>`.
- The number of attempts is the constant 3.
- Success on the third attempt records exactly 3000 ms of waits.

## Model

| member | source | states |
|---|---|---|
| `ResilientFetch.DefaultHeaders` | src/utils/supabase.ts:34-38 | exactly the five default header names; the bearer token in `Authorization` is the `apikey`, which is the anonymous key |
| `ResilientFetch.Outgoing` | src/utils/supabase.ts:29-40 | the sent options have mode `cors` and credentials `omit` whatever the caller passed; every other option is kept; the headers are the defaults overlaid by the caller's, a caller key overriding a default and no other key added |
| `ResilientFetch.IsFinalStatus` | src/utils/supabase.ts:44-46 | `ok || status < 500` holds exactly when the status is below 500 (the `ok` test adds nothing) |
| `ResilientFetch.FirstFinal` | src/utils/supabase.ts:27-46 | the attempt that ends the loop is the first one with a final status; every attempt before it failed, and with none, all attempts failed |
| `ResilientFetch.ServerErrorMessage` | src/utils/supabase.ts:49 | the synthesised message starts with `Server error: ` and continues with decimal digits only |
| `ResilientFetch.FailureOf` | src/utils/supabase.ts:49-51 | the error a failed attempt leaves in `lastError`: the thrown value itself, or, for a response (necessarily 5xx), the error whose message is `Server error: <status>` |
| `ResilientFetch.Backoffs` | src/utils/supabase.ts:55-56 | the i-th recorded wait is `2^i * 1000` ms |
| `ResilientFetch.Fetch` | src/utils/supabase.ts:22-62 | the loop's outcome, number of requests sent and waits are those of `Expected`; every request sent is the rewritten one for the same URL |
| `ResilientFetch.FinalResponseEndsTheLoop` | src/utils/supabase.ts:44-46 | a response below 500 at attempt k, after k failures, is returned from attempt k, with k+1 attempts and one wait per earlier failure; at k = 0 nothing is retried and nothing is waited |
| `ResilientFetch.AttemptsBounded` | src/utils/supabase.ts:24-57 | between one and three attempts, one wait fewer than attempts; a response is returned exactly when some attempt had a final status |
| `ResilientFetch.AllFailuresRaiseTheLast` | src/utils/supabase.ts:49-61 | when all three attempts fail, the third attempt's error (the thrown value or `Server error: <status>`) is raised after waits of 1000 and 2000 ms |
| `ResilientFetch.RaisedErrorIgnoresEarlierAttempts` | src/utils/supabase.ts:50-61 | the raised error depends only on the last attempt, never on an earlier one |
| `ResilientFetch.BackoffDoubles` | src/utils/supabase.ts:56 | each wait is twice the previous one |
| `ResilientFetch.DelaysArePrefixOfSchedule` | src/utils/supabase.ts:55-56 | the waits performed are always a prefix of 1000 ms, 2000 ms; none follows the last attempt |
| `ResilientFetch.ThirdAttemptSuccessWaits3000` | src/utils/supabase.ts:55-56 | fail, fail, succeed returns the third response after three attempts and exactly 3000 ms of waiting |
| `ResilientFetch.ServerErrorMessageCarriesStatus` | src/utils/supabase.ts:49 | the synthesised message is `Server error: ` followed by digits that read back as the status |
| `Text.Includes` | src/utils/supabase.ts:85-106 | `includes` finds the empty pattern and the whole string, and never a pattern longer than the text |
| `Text.IncludesIff` | src/utils/supabase.ts:85-106 | the substring test used by the classifier holds exactly when the pattern occurs at some position |
| `Text.Decimal` | src/utils/supabase.ts:49 | the status rendered in the message is a non-empty string of digits with no leading zero |
| `Text.DecimalRoundTrip` | src/utils/supabase.ts:49 | reading the rendered digits back gives the status |
| `ErrorMessages.MessageOf` | src/utils/supabase.ts:85 | `error?.message`: a missing error gives no message; a present one gives its own message |
| `ErrorMessages.Mentions` | src/utils/supabase.ts:85-106 | `error?.message?.includes(p)` holds exactly when there is a message and `p` occurs in it at some position |
| `ErrorMessages.HandleError` | src/utils/supabase.ts:81-111 | the reply is never empty and is one of the five fixed replies or the error's own message |
| `ErrorMessages.FirstMatchingRule` | src/utils/supabase.ts:85-107 | the deciding rule is the first one with a matching pattern; no earlier rule matches, and with none, no rule matches |
| `ErrorMessages.HandleErrorFollowsRuleTable` | src/utils/supabase.ts:84-110 | the chain of tests equals first-match over the rule table network, CORS, authentication, timeout, with the fallback after it |
| `ErrorMessages.FetchMentionWins` | src/utils/supabase.ts:85-89 | a message containing `fetch` gets the network reply even if it also mentions CORS, JWT or timeout |
| `ErrorMessages.LongerPatternsAreSubsumed` | src/utils/supabase.ts:85-106 | a message containing `Failed to fetch` contains `fetch`, and one containing `Request timeout` contains `timeout` |
| `ErrorMessages.UnmatchedFallsBack` | src/utils/supabase.ts:110 | with no rule matching, the reply is the error's own message if non-empty, else the generic reply; a missing error or message also gets the generic reply |
| `ErrorMessages.LowerCaseCorsIsNotRecognised` | src/utils/supabase.ts:92-93 | matching is case-sensitive: `cors error` is returned as it is |
| `ErrorMessages.ServerErrorShownVerbatim` | src/utils/supabase.ts:85-110 | `handleSupabaseError` applied to `Server error: <status>` returns it unchanged: it matches no rule |
| `ErrorMessages.ExhaustedServerErrorsReachUser` | src/utils/supabase.ts:49-61 | when all three attempts fail and the last is a 5xx response, `handleSupabaseError` applied to the raised error returns `Server error: <status>` of that response unchanged |
| `Configuration.Setting` | src/utils/supabase.ts:3-4 | an unset setting reads as the empty string; a set one as its value |
| `Configuration.ClientFor` | src/utils/supabase.ts:7-73 | a client exists exactly when URL and key are both non-empty, and it is built from those two |
| `Configuration.IsConfigured` | src/utils/supabase.ts:76-78 | when the gate is true, the client exists and is built from the same URL and key |
| `Configuration.ConfiguredIffBothSet` | src/utils/supabase.ts:76-78 | the gate is true exactly when URL and key are both non-empty, and exactly when the client exists |
| `Configuration.UnsetSettingCloses` | src/utils/supabase.ts:3-7 | an unset URL or key leaves the client null and the gate false |

## Left out

- The real `fetch` and network I/O are not modelled. Each call is replaced by the next outcome of a script, and a response is reduced to its status.
- `ResilientFetch.Fetch` requires a script of at least three outcomes, one for each call the loop can make. This requirement is part of modelling the transport, not a demand of the code.
- What the client library hands to `handleSupabaseError` is not modelled. In particular, whether the library passes the error raised by the retry `fetch` on unchanged or re-wraps its message is not modelled.
- `setTimeout` and the `await` suspension are not modelled. A wait is recorded as its length in milliseconds.
- `Math.pow` is exact integer exponentiation here.
- `createClient` and its options (auth, db, realtime, global headers) are not modelled, because they belong to an external library. A constructed client is the pair of URL and key. Whether `createClient` itself throws on a malformed URL is not modelled.
- `import.meta.env` lookups are not modelled. The URL and key are parameters, and `Configuration.Setting` states the `|| ''` default.
- `console.warn` and `console.error` logging are not modelled.
- `testSupabaseConnection` (lines 114-137) is not modelled. It is a query through the external client, guarded by the configuration gate.
- Request options other than `mode`, `credentials` and `headers` are a string-to-string map passed through unchanged.
- Headers are a plain string map. A `Headers` object or an array of pairs as `options.headers` is not modelled, and neither is the case-insensitive merging a `Headers` object would do.
- A thrown value is modelled by its optional `message` alone. A `message` that is not a string, which would make `includes` throw, is not modelled.
