# Response-driven rate limiter of the Commerce Layer Terraform provider

This project models, in Dafny, the rate limiter the provider wraps around its
HTTP client (`commercelayer/rate_limiter.go`).

The limiter learns its limits only from the responses it sees. Requests are
accounted per resource type and HTTP method: the resource type is the path
segment after the first `/api/`. Each such key owns one limit with four fields:
- `start`: when the limit was created;
- `last`: when a response was last registered;
- `interval`: the window length from `X-Ratelimit-Interval`;
- `locked`: whether the last response said the quota is used up.

Before a request is sent, the limit says how long to wait. It truncates the
time from `start` to `last`, and the interval, to whole seconds, finds how far
`last` lies into its window, and adds the whole seconds left in that window to
`last`. Because `last` keeps its sub-second part, the boundary can lie up to one
second past the end of the window counted from `start` (`NextIntervalOvershoot`). After the response arrives, `last`, `interval`
and `locked` are overwritten from the status code and the
`X-Ratelimit-Remaining` and `X-Ratelimit-Interval` headers, when those parse.

Files:
- `wrappers.dfy`: `Option` and `Result`.
- `golib.dfy` (module `GoLib`): the Go operations the limiter uses.
  - Go's truncating `/` and `%`.
  - `int(d.Seconds())`.
  - `strings.Index`, `strings.Split`.
  - `strconv.Atoi`, with `strconv.Itoa` as its partner.
  - `time.ParseDuration(h + "s")` for whole seconds.
- `rate_limiter.dfy` (module `RateLimiter`): the limiter itself.
  - `LimitState` and `Delay` (the value-receiver `delay`).
  - The `Limit` class, whose `Register` overwrites its fields.
  - The `Limits` class owning the two-level table, with `Get`.
  - `ResourceTypeFromUrl`.
  - The `ThrottledTransport` class with `RoundTrip`.

Modelling choices:
- Time is integer nanoseconds on one clock. Go's zero `time.Time` is 0, and it
  is not a clock reading: `time.Now()` never returns it, so `Register` and
  `RoundTrip` require a non-zero reading for the registration time.
- Every `time.Now()` reading is a parameter. `RoundTrip` takes a `Clock` with
  three readings: the one in `get`, the one in `delay`, and the one taken after
  the response.
- The wrapped transport is foreign code. Its outcome is an input: a transport
  error, or a response with a status and a header map.
- An absent header reads as `""`, as `Header.Get` returns it. That is the value
  the code tests.
- `delay` divides by the interval in whole seconds. An engaged limit whose
  interval is shorter than one second panics in Go (integer divide by zero).
  `Delay` returns `DivideByZero` in that case, and `RoundTrip` reports
  `DelayPanic`.
- The model reads the interval header as whole seconds only. So a registered
  interval is always a whole number of seconds, and the panic cannot follow a
  registration in the model (`RegisteredNeverDividesByZero`). In Go it can: a
  header such as `0.5` parses to 500 ms.
- What the code does, and the model with it: there is a single tier keyed by
  (resource type, method). A 429 only sets `locked`, and the response goes back
  to the caller. There is no retry loop and no global "average" limit.

## Model

| member | source | states |
|---|---|---|
| `GoLib.TruncMod` | commercelayer/rate_limiter.go:84 | Go's `%`: the remainder is smaller than the divisor in magnitude, and its sign is never opposite to the dividend's |
| `GoLib.TruncDivMod` | commercelayer/rate_limiter.go:84 | Go's quotient and remainder reassemble the dividend |
| `GoLib.TruncAgreesOnNatural` | commercelayer/rate_limiter.go:84 | for a non-negative dividend and a positive divisor, Go's `/` and `%` agree with Euclidean division |
| `GoLib.WholeSecondsZero` | commercelayer/rate_limiter.go:78 | `int(d.Seconds())` is 0 exactly when the duration is shorter than one second |
| `GoLib.IndexFrom` | commercelayer/rate_limiter.go:219 | the search from a position returns the leftmost occurrence at or after it; `None` means there is none |
| `GoLib.Index` | commercelayer/rate_limiter.go:219 | `strings.Index` returns the first occurrence of the pattern; it fails exactly when the pattern never occurs |
| `GoLib.FirstOccurrenceUnique` | commercelayer/rate_limiter.go:219 | there is only one leftmost occurrence |
| `GoLib.Split` | commercelayer/rate_limiter.go:226-227 | `strings.Split` always returns at least one piece |
| `GoLib.JoinSplit` | commercelayer/rate_limiter.go:226 | joining the pieces of a split with the separator gives back the original text |
| `GoLib.SplitPartsAvoidSep` | commercelayer/rate_limiter.go:226 | no piece of a split contains the separator |
| `GoLib.SplitHead` | commercelayer/rate_limiter.go:226-231 | the first piece is the longest separator-free prefix |
| `GoLib.HeadBeforeUnique` | commercelayer/rate_limiter.go:231 | the longest separator-free prefix is unique |
| `GoLib.DigitsValueSnoc` | commercelayer/rate_limiter.go:190 | appending a digit shifts the decimal value one place |
| `GoLib.DecimalString` | commercelayer/rate_limiter.go:190 | the decimal spelling of a natural number is a non-empty string of digits |
| `GoLib.DecimalStringValue` | commercelayer/rate_limiter.go:190 | reading a decimal spelling gives back the number |
| `GoLib.SignedDigitsFormatInt` | commercelayer/rate_limiter.go:190 | a signed decimal spelling reads back as the integer it spells |
| `GoLib.Atoi` | commercelayer/rate_limiter.go:190 | `strconv.Atoi` only succeeds with a 64-bit value |
| `GoLib.AtoiFormatInt` | commercelayer/rate_limiter.go:190 | every 64-bit integer is read back by `Atoi` from its `Itoa` spelling |
| `GoLib.AtoiNeedsDigit` | commercelayer/rate_limiter.go:190-193 | text without a digit is not an integer, so the remaining header is rejected |
| `GoLib.ParseSecondsDuration` | commercelayer/rate_limiter.go:200 | a parsed interval is a whole number of seconds that fits a Duration |
| `GoLib.ParseSecondsFormatInt` | commercelayer/rate_limiter.go:200 | every representable whole number of seconds parses back to that many seconds |
| `RateLimiter.Delay` | commercelayer/rate_limiter.go:69-103 | the wait is never negative; `delay` panics exactly when the limit is locked, registered, with a non-zero interval shorter than one second |
| `RateLimiter.DelayUnlocked` | commercelayer/rate_limiter.go:70-72 | an unlocked limit never waits, whatever its timestamps |
| `RateLimiter.DelayUnregistered` | commercelayer/rate_limiter.go:74-76 | a limit with a zero interval, or never registered (zero `last`), never waits |
| `RateLimiter.NextIntervalBounds` | commercelayer/rate_limiter.go:78-90 | with `last >= start` and an interval of at least 1 s, the boundary is strictly after `last` and at most `last + interval` |
| `RateLimiter.NextIntervalOvershoot` | commercelayer/rate_limiter.go:81-90 | the boundary is the end of the whole-second window holding `last`, counted from `start`, plus the sub-second part of `last - start` (less than one second) |
| `RateLimiter.OvershootExample` | commercelayer/rate_limiter.go:81-90 | with 4 s windows and `last` 10.5 s after `start`, the boundary is 12.5 s after `start`, not 12 s |
| `RateLimiter.DelayUntilBoundary` | commercelayer/rate_limiter.go:93-102 | for any engaged limit with an interval of at least one whole second (either sign), the wait is 0 once `now` has reached the boundary, and otherwise the time from `now` to the boundary |
| `RateLimiter.DelayAtMostInterval` | commercelayer/rate_limiter.go:96-102 | asked at or after `last`, the wait is at most one interval |
| `RateLimiter.DelayNegativeInterval` | commercelayer/rate_limiter.go:84-90 | a negative interval puts the boundary before `last`, so there is no wait after `last` |
| `RateLimiter.HeaderCommentExample` | commercelayer/rate_limiter.go:6-29 | the file's worked example: 4 s windows and `last` 10 s after `start` give `10 % 4 = 2`, a boundary 2 s after `last`, and a 2 s wait |
| `RateLimiter.TwentyThreeSecondsExample` | commercelayer/rate_limiter.go:81-102 | with 10 s windows and `last` 23 s after `start`, the wait is 6 s one second after `last` and 0 past the boundary |
| `RateLimiter.SubSecondIntervalPanics` | commercelayer/rate_limiter.go:78-84 | a locked, registered limit with a 500 ms interval panics with integer division by zero |
| `RateLimiter.Observe` | commercelayer/rate_limiter.go:182-203 | an understood response always carries a whole number of seconds |
| `RateLimiter.ObserveBothHeaders` | commercelayer/rate_limiter.go:184-203 | for every remaining header `Atoi` accepts (`00`, `+0`, `007`, ...) and every parsing interval header, locked means "remaining is 0" whatever the status, and the interval is the parsed one |
| `RateLimiter.ObserveStatusOnly` | commercelayer/rate_limiter.go:182-203 | without a remaining header, for every parsing interval header, only status 429 locks and the interval is the parsed one |
| `RateLimiter.ObserveFormattedHeaders` | commercelayer/rate_limiter.go:184-203 | headers spelled by `strconv.Itoa` are read as the numbers they spell: locked iff remaining is 0, interval that many seconds |
| `RateLimiter.ObserveFails` | commercelayer/rate_limiter.go:189-203 | nothing is registered exactly when a present remaining header is not an integer, or the interval header does not parse |
| `RateLimiter.ObserveNeedsInterval` | commercelayer/rate_limiter.go:200-203 | a response without an interval header is never registered |
| `RateLimiter.Registered` | commercelayer/rate_limiter.go:207-209 | registering never changes `start` |
| `RateLimiter.RegisteredNeverDividesByZero` | commercelayer/rate_limiter.go:78-84 | after a registration in this model, `delay` cannot panic |
| `RateLimiter.RegisterThenDelay` | commercelayer/rate_limiter.go:207-209 | the delay asked at the instant of a registration is between 0 and the registered interval |
| `RateLimiter.RegisterLockingExample` | commercelayer/rate_limiter.go:189-209 | remaining `0` with interval `60` locks for a 60 s window even on status 200, and sets `last` to now |
| `RateLimiter.RegisterBadRemainingExample` | commercelayer/rate_limiter.go:189-193 | a non-integer remaining header leaves the limit untouched, even on a 429 |
| `RateLimiter.Limit.constructor` | commercelayer/rate_limiter.go:118-121 | a new limit starts now, unlocked, with no interval and zero `last` |
| `RateLimiter.Limit.Register` | commercelayer/rate_limiter.go:182-209 | the limit's fields become exactly what `Registered` gives for the old ones; when the headers are understood, only `last`, `interval` and `locked` are overwritten |
| `RateLimiter.Insert` | commercelayer/rate_limiter.go:113-122 | adding an entry binds the key, keeps every other entry, and adds no other entry |
| `RateLimiter.InsertKeepsDistinct` | commercelayer/rate_limiter.go:117-122 | adding a new limit under a new key keeps the table free of shared limits |
| `RateLimiter.Limits.constructor` | commercelayer/rate_limiter.go:136 | the table starts empty |
| `RateLimiter.Limits.Get` | commercelayer/rate_limiter.go:112-125 | afterwards the key is present; a present entry is returned and the table does not change, so a repeated `get` returns the same limit; otherwise a fresh, unlocked limit started now is added and every earlier entry stays |
| `RateLimiter.ResourceTypeFromUrlFails` | commercelayer/rate_limiter.go:219-229 | classification fails exactly when the path has no `/api/`; the "invalid URL structure" error is unreachable |
| `RateLimiter.ResourceTypeFromUrlValue` | commercelayer/rate_limiter.go:219-231 | when classification succeeds, the resource type is exactly the longest slash-free prefix of the text after the first `/api/` |
| `RateLimiter.ResourceTypeFromUrlShape` | commercelayer/rate_limiter.go:224-231 | a resource type never contains `/` |
| `RateLimiter.ResourceTypeExamples` | commercelayer/rate_limiter.go:218-232 | `/api/skus/abc` gives `skus`, `/api/` gives the empty type, and `/oauth/token` is not classified |
| `RateLimiter.Exchange` | commercelayer/rate_limiter.go:167-209 | a throttled trip panics exactly when `delay` panics; otherwise the caller is told `delay`'s wait and gets the send's outcome; a panic or a transport error leaves the limit as it was; `start` never changes |
| `RateLimiter.ThrottledTransport.constructor` | commercelayer/rate_limiter.go:133-138 | a new transport owns an empty table |
| `RateLimiter.ThrottledTransport.RoundTrip` | commercelayer/rate_limiter.go:144-214 | a path without `/api/` goes to the default transport with no wait and no change to the table or any limit; otherwise the key's limit is fetched or created, it evolves as `Exchange` says, and every other limit is unchanged |

## Left out

- The `sync.Mutex` of each limit (lines 64, 159-160) is left out: the model is sequential. The lock orders concurrent requests for one key only. `get` (lines 112-125, called at line 157) writes the shared map before any lock is taken, so in Go concurrent first requests for different keys race on that map. A sequential model cannot show that race.
- `time.Sleep` (lines 171-175) is left out: the model tells the caller the wait and does not sleep.
- The real HTTP sends (`tt.transport.RoundTrip`, `http.DefaultTransport.RoundTrip`) are foreign calls. Their outcome is an input of `RoundTrip`.
- The `log.Printf` lines and the request `uuid` are diagnostics and are left out.
- `main.go` only starts the Terraform plugin, so it is not part of this model.
- `GoLib.ParseSecondsDuration`: weaker than `time.ParseDuration(h + "s")`. It accepts only `[+|-]digits`. Go also parses other forms: fractions (`0.5` gives 500 ms), unit-suffixed text (`1m` becomes `1ms`) and a few more. The model treats all of these as unparseable. This keeps `ParseDuration`'s full grammar and its floating point out of the model.
- `GoLib.WholeSeconds`: `int(d.Seconds())` is taken as truncating integer division by 10^9. The float64 rounding of very large durations is not modelled.
- Go's `Time.Sub` saturates at about 292 years and the monotonic clock reading is ignored. Times and durations here are unbounded integers.
- `Header.Get` canonicalises header names and returns the first of several values. The model's header map is keyed by canonical names and holds one value each.
- URL paths are sequences of characters, while Go indexes bytes. Positions differ when a non-ASCII character comes before the marker (in `/é/api/x`, Go finds `/api/` at byte 3, the model at index 2). The extracted resource type is the same, because `/api/` and `/` are ASCII.
