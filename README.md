# LicenseGuard core, modelled in Dafny

LicenseGuard issues license keys and checks them. A client sends a key. The
service resolves the client's IP, charges a per-IP fixed-window rate limiter,
looks the key up and returns one verdict: `valid`, `expired`, `blocked`,
`invalid` or `ip_blocked`. Each key that resolves to a stored row adds one row to
the audit log. Administrators enter each license's allowed-IP list as text in two
dialogs, and the license table shows that list and the key.

The model covers:

- `LicenseChecker` (lib/license-checker.ts). The verdict chain `Evaluate` and the
  whole call `Check` are pure functions. The call is also a method,
  `LicenseStore.CheckLicense`, on a class that holds the license table
  (`map<string, License>`) and the audit log (`seq<LogEntry>`). The method is
  proved to append exactly `Check(...).appended`. The two database calls can
  throw. This is the `StoreFault` parameter.
- `RateLimit` (lib/rate-limit.ts). The class `RateLimiter` has a
  `map<string, Entry>` field and two methods. `RateLimit` does one counting call.
  `Sweep` is the loop body of the cleanup timer. Both are proved against the pure
  functions `Apply` and `Swept`. `Run` chains calls, and the lemmas about
  windows are stated over `Run`.
- `CheckLicenseRoute` and `CheckLicenseSimpleRoute` (the two `GET` handlers).
  `ClientIp` is the header precedence chain. Each `Get` method walks the
  handler's early returns in order. `withDatabase`'s connection outcome is the
  `DbConnect` parameter. The answer is a small `Response` datatype: status code,
  body, rate-limit header values.
- `CreateLicenseDialog`, `EditLicenseDialog` and `LicenseList`. These are the
  string pipelines that turn admin text into the stored allowed-IP list and
  back, plus the table's display and toggle rules.
- `Text` models the JavaScript built-ins these use: `split` with a
  one-character separator, `join`, `trim` (the ECMAScript whitespace and
  line-terminator set), and the `split → map(trim) → filter(nonEmpty)` pipeline.
  `Optional` is the `null`/`undefined`-or-value type.

Times are integer milliseconds and the caller passes them in as `now`.

Behaviour of the code worth knowing, as the model states it:

- A soft-deleted (DELETED) row gets the same answer as an unknown key. It still
  gets one audit entry with result INVALID, because the code decides whether to
  log by asking only whether the row exists (`DeletedAnswersLikeMissing`).
- A rate-limit window closes only when `now > resetTime`. A call exactly
  `windowMs` after the call that opened the window still belongs to the old
  window: it is counted, and once the limit is used up it is refused with
  `retryAfter == 0`. Time must move past that point for a new window
  (`ThreePerMinuteScenario`, `Exceeded`, `ExactlyLimitPerWindow`).
- The missing-key check (400) runs inside `withDatabase`, after the database
  connection. So when the database is unreachable, a request without a key gets
  503, not 400. In the gated route the missing-key check also runs after the
  rate limiter, so such requests still use up quota.
- The limiter accepts any `limit`. The call that opens a window always succeeds,
  even when `limit <= 0`.
- Both dialogs always submit a non-empty list. The checker still reads a stored
  empty array as "no address allowed", and it reads `null` as "any address".
- `X-RateLimit-Remaining` on a 200 answer is one below the number of further
  requests the limiter will still admit (`RemainingHeaderIsOneLow`).
- A blank first element of `x-forwarded-for` gives the empty string as the
  client IP (`BlankFirstHopGivesEmptyIp`).
- Opening the edit dialog on a license whose stored list is empty, and saving
  without changes, widens the list to `["*"]` (`EmptyListWidensToWildcard`).

## Model

| member | source | states |
|---|---|---|
| `LicenseChecker.EffectiveIps` | lib/license-checker.ts:32 | A null column stands for `["*"]`, a stored array for itself. The list is empty only for a stored `[]`. It holds "*" iff the column is null or lists "*". |
| `LicenseChecker.IpAllowed` | lib/license-checker.ts:32-33 | An IP is admitted iff the column is null, lists "*", or lists that IP. |
| `LicenseChecker.OpenToAllIffWildcard` | lib/license-checker.ts:32-33 | A column admits every address exactly when it is null or lists "*": any finite list of addresses leaves some address out. |
| `LicenseChecker.IsExpired` | lib/license-checker.ts:27 | A row that is not expired has a status other than EXPIRED and `now <= expiresAt`. |
| `LicenseChecker.ExpiryIsPermanent` | lib/license-checker.ts:27 | A row expired at `now` stays expired at every later time. |
| `LicenseChecker.Evaluate` | lib/license-checker.ts:18-42 | The chain answers only with one of the five fixed verdicts, never "Internal error". The code it logs is the one that belongs to the verdict. The answer is `valid` iff the row exists, is ACTIVE, is not expired and admits the IP. |
| `LicenseChecker.UserAgentOrEmpty` | lib/license-checker.ts:50 | The logged user-agent is "" iff none was given or it was empty; otherwise it is the one given. |
| `LicenseChecker.Check` | lib/license-checker.ts:9-61 | At most one log entry per call. An entry is appended iff the key resolves to a row and neither database call fails. The entry carries the row id, the caller IP, the user-agent or "", the code matching the verdict, and the time. `valid` only for a resolved key with no fault. |
| `LicenseChecker.LicenseStore.CheckLicense` | lib/license-checker.ts:9-61 | Returns `Check(...)`'s verdict. The new log is the old log followed by `Check(...)`'s appended entries (append-only). Only the log changes. |
| `LicenseChecker.VerdictOrder` | lib/license-checker.ts:18-42 | The first-match chain as five disjoint iff conditions: not found or DELETED; BLOCKED; EXPIRED status or `expiresAt < now`; IP not allowed; valid. |
| `LicenseChecker.CodeMatchesVerdict` | lib/license-checker.ts:18-42 | The logged code always corresponds to the verdict returned. |
| `LicenseChecker.MissingKeyNotLogged` | lib/license-checker.ts:18-54 | An unknown key yields "License not found" and nothing is logged. |
| `LicenseChecker.DeletedAnswersLikeMissing` | lib/license-checker.ts:21-54 | A DELETED row answers exactly like an absent key, but one INVALID entry is logged for it. |
| `LicenseChecker.BlockedBeatsExpiry` | lib/license-checker.ts:24-29 | A BLOCKED row yields `blocked` and logs BLOCKED, whatever its expiry and IP list. |
| `LicenseChecker.ExpiryIsStrict` | lib/license-checker.ts:27-41 | `expiresAt == now` is not expired: the IP list decides. One millisecond later it is `expired`. |
| `LicenseChecker.AllowListDefaults` | lib/license-checker.ts:32-33 | A null list admits everyone, `[]` admits nobody, `["*"]` admits everyone. |
| `LicenseChecker.SingleAddressList` | lib/license-checker.ts:32-41 | A live license with a one-address list is `valid` from exactly that address and `ip_blocked` from any other. |
| `LicenseChecker.FaultsFailClosed` | lib/license-checker.ts:57-60 | A failing lookup, or a failing insert for a resolved key, yields "Internal error" with no log entry. |
| `LicenseChecker.CheckAnswersEvaluate` | lib/license-checker.ts:9-61 | With both database calls succeeding, the answer is the chain's answer on the looked-up row. With any fault, the answer is that one or "Internal error". |
| `RateLimit.CeilSeconds` | lib/rate-limit.ts:47 | `Math.ceil(ms / 1000)` on integers: the least `r` with `ms <= 1000 * r`. |
| `RateLimit.Apply` | lib/rate-limit.ts:30-74 | Only `id`'s entry may change. Success iff there is no entry, its window has elapsed, or its count is below the limit. A refusal leaves the store unchanged, with `remaining = 0` and `retryAfter = ceil((resetTime - now) / 1000)`. A success has `retryAfter = 0` and `remaining = limit - newCount`. |
| `RateLimit.RateLimiter.RateLimit` | lib/rate-limit.ts:30-74 | The new store and the result are `Apply`'s. For `limit >= 1` it keeps every count within `1..limit`. |
| `RateLimit.Swept` | lib/rate-limit.ts:12-17 | Keeps exactly the entries with `now <= resetTime`, unchanged. |
| `RateLimit.RateLimiter.Sweep` | lib/rate-limit.ts:12-17 | The store after the loop is `Swept(old store, now)`, whatever order the keys are visited in. |
| `RateLimit.NewWindow` | lib/rate-limit.ts:40-50 | No entry, or `now > resetTime`: the store gets `{1, now + windowMs}`, `remaining = limit - 1`, `retryAfter = 0`, `reset = ceil((now + windowMs) / 1000)`. |
| `RateLimit.Exceeded` | lib/rate-limit.ts:52-61 | In the window with `count >= limit`: refused and the store is unchanged. `retryAfter >= 1` before `resetTime` and `0` at it. |
| `RateLimit.Increment` | lib/rate-limit.ts:63-73 | In the window below the limit: the count goes up by one, `resetTime` is kept, `remaining = limit - newCount`. |
| `RateLimit.ApplyKeepsBounded` | lib/rate-limit.ts:40-73 | For `limit >= 1` the invariant `1 <= count <= limit` is preserved, and a success reports `0 <= remaining <= limit - 1`. |
| `RateLimit.OthersUntouched` | lib/rate-limit.ts:38-65 | A call for one identifier leaves every other identifier's entry (or its absence) as it was. |
| `RateLimit.RunInsideWindow` | lib/rate-limit.ts:40-73 | From count `c`, calls at times up to `resetTime` succeed exactly while `c + i < limit`. |
| `RateLimit.ExactlyLimitPerWindow` | lib/rate-limit.ts:40-73 | In one window opened by the first call (`now == resetTime` included), call `i` succeeds iff `i == 0` or `i < limit`. |
| `RateLimit.RemainingCountsFurtherAdmissions` | lib/rate-limit.ts:63-73 | After a success, `remaining` is exactly the number of further calls the same window admits. |
| `RateLimit.SweepIsUnobservable` | lib/rate-limit.ts:12-17 | A call made no earlier than a sweep gets the same result and leaves the same entry, whether or not the sweep ran. |
| `RateLimit.SweptKeepsBounded` | lib/rate-limit.ts:12-17 | The sweep preserves the count bound. |
| `RateLimit.ThreePerMinuteScenario` | lib/rate-limit.ts:40-61 | With limit 3 and a 60 s window: calls 1-3 pass, call 4 is refused with `retryAfter` 57. At exactly 60 s the window is still closed. At 60.001 s a fresh window opens. |
| `CheckLicenseRoute.ClientIp` | app/api/check-license/route.ts:6-24 | From x-forwarded-for, the IP is trimmed and has no comma. Only that path can give an empty IP. |
| `CheckLicenseRoute.ClientIpPrecedence` | app/api/check-license/route.ts:11-23 | Order: the first element of x-forwarded-for, trimmed; then x-real-ip; then cf-connecting-ip; then the socket IP; then "unknown". Empty headers are skipped. |
| `CheckLicenseRoute.ForwardedChainGivesFirstHop` | app/api/check-license/route.ts:11-13 | A chain whose first element is a trimmed, comma-free address resolves to that address, whatever follows the first comma (", "-separated chains included). |
| `CheckLicenseRoute.BlankFirstHopGivesEmptyIp` | app/api/check-license/route.ts:11-13 | A blank first element resolves to the empty IP. |
| `CheckLicenseRoute.ConnectFailure` | lib/db-middleware.ts:4-22 | `withDatabase` answers by itself iff the connection fails: 503 or 500 with an error body. |
| `CheckLicenseRoute.UserAgentOf` | app/api/check-license/route.ts:65 | An empty user-agent header is passed on as none. Either way the logged user-agent is the header's text, or "" when the header is absent. |
| `CheckLicenseRoute.RateLimitedResponse` | app/api/check-license/route.ts:33-48 | 429 with a `rate_limited` body. The body's retry hint and the Retry-After header are the same number as the gate's. The X-RateLimit headers repeat the gate's limit, remaining and reset. |
| `CheckLicenseRoute.RefusalReportsWait` | app/api/check-license/route.ts:30-48 | A refused request reports remaining 0 and a retry hint of the whole seconds, rounded up, until the window closes. The hint is never negative. |
| `CheckLicenseRoute.SuccessHeaders` | app/api/check-license/route.ts:68-74 | No Retry-After header. Limit and reset are the gate's. X-RateLimit-Remaining is one below the gate's `remaining`. |
| `CheckLicenseRoute.Get` | app/api/check-license/route.ts:26-76 | The limiter is charged for the client IP before anything else, whatever follows. A refusal gives 429 `rate_limited` with `retryAfter` and the limiter headers, and nothing is logged. Otherwise a connection failure gives its error. Otherwise a missing or empty key gives 400 "License key is required". Otherwise the answer is 200 with exactly `Check`'s verdict, the log is extended by `Check`'s entries, and X-RateLimit-Remaining is `remaining - 1`. |
| `CheckLicenseRoute.RemainingHeaderIsOneLow` | app/api/check-license/route.ts:66-74 | On a 200 answer, the further calls that still pass are exactly `header + 1`. |
| `CheckLicenseSimpleRoute.Get` | app/api/check-license-simple/route.ts:25-46 | No limiter on any path. A connection failure gives its error. A missing or empty key gives 400 and nothing is logged. Otherwise the answer is 200 with exactly `Check`'s verdict for the resolved IP and user-agent, and the log is extended by `Check`'s entries. |
| `Text.SplitTrimmed` | components/edit-license-dialog.tsx:44-47 | Every parsed entry is non-empty, trimmed and free of the separator. |
| `Text.SplitTrimmedJoin` | components/edit-license-dialog.tsx:35-47 | Parsing the join of a well-formed list gives the same list, the empty list included. |
| `CreateLicenseDialog.ParseIps` | components/create-license-dialog.tsx:42-45 | Comma split, trim, drop empties: no entry is empty, padded or contains a comma. |
| `CreateLicenseDialog.SubmittedIps` | components/create-license-dialog.tsx:54 | Never empty. It is `["*"]` iff the parse is empty or contains "*". Otherwise it is the parsed list, in order. |
| `CreateLicenseDialog.Submission` | components/create-license-dialog.tsx:50-55 | An empty name or description is sent as null. The IP list is non-empty. |
| `CreateLicenseDialog.DefaultAllowsAnyIp` | components/create-license-dialog.tsx:33-54 | The default field text "*" submits `["*"]`. |
| `CreateLicenseDialog.SubmittedIpsRoundTrip` | components/create-license-dialog.tsx:42-54 | A comma-joined, well-formed list without "*" is submitted unchanged. |
| `CreateLicenseDialog.WildcardCollapses` | components/create-license-dialog.tsx:54 | A "*" anywhere in the list submits `["*"]`. |
| `CreateLicenseDialog.SubmittedListAsChecked` | components/create-license-dialog.tsx:42-54 | The created license admits an IP iff the admin typed it, typed a wildcard, or typed nothing. |
| `CreateLicenseDialog.CreatedLicenseScenario` | components/create-license-dialog.tsx:42-54 | Typed "10.0.0.1", active, not expired: `valid` from 10.0.0.1 and `ip_blocked` from 10.0.0.2. |
| `EditLicenseDialog.InitialIpText` | components/edit-license-dialog.tsx:35 | A null column opens as "*". A well-formed stored array opens as text that parses back to exactly that array. |
| `EditLicenseDialog.InitialName` | components/edit-license-dialog.tsx:32 | The field is empty iff there is no stored name or it is empty. Otherwise it shows exactly the stored name. |
| `EditLicenseDialog.ParseIps` | components/edit-license-dialog.tsx:44-47 | Newline split, trim, drop empties: no entry is empty, padded or contains a newline. |
| `EditLicenseDialog.SubmittedIps` | components/edit-license-dialog.tsx:56 | Never empty. An empty parse gives `["*"]`, otherwise exactly the parse. |
| `EditLicenseDialog.SubmittedStatus` | components/edit-license-dialog.tsx:104-106 | Only ACTIVE, BLOCKED or EXPIRED can be picked, so saving never soft-deletes. |
| `EditLicenseDialog.Submission` | components/edit-license-dialog.tsx:52-57 | An empty name is sent as null. The IP list is non-empty. |
| `EditLicenseDialog.UnchangedListRoundTrip` | components/edit-license-dialog.tsx:35-56 | Opening and saving a well-formed non-empty list unchanged keeps it. |
| `EditLicenseDialog.NullListReadsBackAsWildcard` | components/edit-license-dialog.tsx:35-56 | A null list is shown as "*" and saved back as `["*"]`. |
| `EditLicenseDialog.EmptyListWidensToWildcard` | components/edit-license-dialog.tsx:35-56 | A stored `[]` is shown as "" and saved back as `["*"]`. |
| `EditLicenseDialog.WildcardNotCollapsed` | components/edit-license-dialog.tsx:44-56 | A "*" among other lines is kept as typed, not collapsed to `["*"]`. |
| `EditLicenseDialog.ReopenSaveIsStable` | components/edit-license-dialog.tsx:35-56 | Saving, reopening and saving again unchanged stores the same list, whatever text was first saved. |
| `EditLicenseDialog.NameRoundTrip` | components/edit-license-dialog.tsx:32-53 | Saving the name field unchanged keeps a non-empty name, and keeps null as null. |
| `LicenseList.FormatIps` | components/license-list.tsx:43-47 | A license the checker opens to every address is always shown as "Any IP". Any other text comes from a stored list that admits exactly its entries. |
| `LicenseList.DisplayAgreesWithChecker` | components/license-list.tsx:43-47 | "Any IP" for a null list, or a list with "*"; both admit everyone, and only these do. Otherwise the ", "-joined list, which is exactly the set of admitted IPs. |
| `LicenseList.ToggleTarget` | components/license-list.tsx:137-147 | The action targets BLOCKED iff the status is ACTIVE, and ACTIVE otherwise. |
| `LicenseList.ToggleBackAndForth` | components/license-list.tsx:137-147 | Toggling twice returns ACTIVE or BLOCKED to where it was. EXPIRED goes to ACTIVE. |
| `LicenseList.DisplayKey` | components/license-list.tsx:105 | The first 8 characters and "...", or the whole key and "..." when it is shorter. |
| `LicenseList.DisplayKeyOnlyShowsPrefix` | components/license-list.tsx:105 | Keys that agree on their first 8 characters display identically, as 11 characters. |

## Left out

- The database (Prisma): the tables are an in-memory map and sequence. A
  throwing call is an input (`StoreFault`, `DbConnect`), not a modelled failure
  mechanism. `$disconnect` and `console.error` are not modelled.
- The `setInterval` timer: only the body of the cleanup loop is modelled, as
  `Sweep(now)`. The 5-minute period is not.
- Clocks: `Date.now()` and `new Date()` are the parameter `now`. In the gated
  route the limiter's clock reading and the checker's are taken to be the same
  `now`. The audit row's database-side creation time is also `now`.
- Concurrency, and sharing the limiter map across processes: JavaScript runs
  each call to completion, and the map is process-local.
- `entry.count++` updates the stored entry object in place. Entries are modelled
  as values and the map is reassigned. These are the same because no other
  reference to the entry escapes the call.
- JavaScript numbers are doubles. The model uses unbounded integers, so it does
  not capture precision loss past 2^53 ms.
- The `allowedIps` JSON column is modelled as `null` or an array of strings.
  Other JSON values are not modelled: a string column would be searched by
  substring, and a number would throw inside the checker. The dialogs never
  write such values.
- The simple route's `getClientIP` (app/api/check-license-simple/route.ts:5-23)
  is a verbatim copy of the gated route's. Both routes use the one
  `CheckLicenseRoute.ClientIp`.
- HTTP response objects: a response is a status code, a body and the header
  values as integers. `toString()` and JSON serialisation are not modelled.
- Date parsing and formatting (`new Date(...)`, `toISOString`, date-fns
  `format`, the `isNaN` check, `if (!expiresAt) return`): the expiry is an
  integer timestamp.
- UUID key generation, the admin create/update/delete API routes and their
  session and role checks, account code, build scripts: persistence and auth
  plumbing around the core.
- All JSX rendering, badges and colours. Also the duplicate `formatIps` in
  components/license-details-dialog.tsx, which is the same as the one in
  components/license-list.tsx.
- `LicenseList.DisplayKey`: Dafny strings are sequences of Unicode scalar
  values, while `substring(0, 8)` counts UTF-16 code units. So the two differ
  only on keys with characters outside the Basic Multilingual Plane. Keys are
  generated UUIDs (app/api/licenses/route.ts:19), which are ASCII.
- `Text.Split` handles only one-character separators. `Text.Trim` strips the
  ECMAScript WhiteSpace and LineTerminator characters and nothing else. These
  are the only cases the core uses.
