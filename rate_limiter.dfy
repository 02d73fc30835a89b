/**
 * The response-driven rate limiter of the Commerce Layer provider
 * (commercelayer/rate_limiter.go).
 *
 * Every request whose path names a resource type is accounted against a
 * limit keyed by (resource type, HTTP method). A limit remembers when it
 * was first used (`start`), when a response was last registered (`last`),
 * the window length the server reported (`interval`) and whether the server
 * said the quota was used up (`locked`). Before sending, the transport asks
 * the limit how long to wait; after the response, it overwrites the limit's
 * fields from the status code and the `X-Ratelimit-*` headers.
 *
 * Time is integer nanoseconds on one clock whose zero is Go's zero
 * `time.Time`; durations are integer nanoseconds.
 */
module RateLimiter {
  import opened Wrappers
  import opened GoLib

  /** Go's zero `time.Time`, which `IsZero` recognises. */
  const ZERO_TIME := 0

  /** `http.StatusTooManyRequests`. */
  const TOO_MANY_REQUESTS := 429

  const API_MARKER := "/api/"
  const REMAINING_HEADER := "X-Ratelimit-Remaining"
  const INTERVAL_HEADER := "X-Ratelimit-Interval"

  // =====================================================================
  // The state of one limit, and how long it says to wait
  // =====================================================================

  /** The fields of a `rateLimit`, copied out as `delay`'s value receiver does. */
  datatype LimitState = LimitState(start: int, last: int, interval: int, locked: bool)

  /** A limit as `get` creates it at time `now`: started, never registered, unlocked. */
  function NewLimitState(now: int): LimitState {
    LimitState(now, ZERO_TIME, 0, false)
  }

  /** What `delay` does: return a wait, or stop with Go's integer-divide-by-zero panic. */
  datatype DelayOutcome = Wait(duration: int) | DivideByZero

  /** The limit is locked and has been registered with a non-zero interval. */
  predicate Engaged(l: LimitState) {
    l.locked && l.interval != 0 && l.last != ZERO_TIME
  }

  /**
   * The reconstructed window boundary: the whole seconds from `start` to
   * `last`, reduced modulo the interval in whole seconds, tell how far into
   * its window `last` lies; the boundary is the rest of that window after `last`.
   */
  function NextInterval(l: LimitState): int
    requires WholeSeconds(l.interval) != 0
  {
    var interval := WholeSeconds(l.interval);
    var secondsSinceStart := WholeSeconds(l.last - l.start);
    var secondsSinceIntervalStart := TruncMod(secondsSinceStart, interval);
    var secondsLeftInInterval := interval - secondsSinceIntervalStart;
    l.last + secondsLeftInInterval * SECOND
  }

  /**
   * `rateLimit.delay`, with the clock reading `now` passed in. It never asks
   * for a negative wait, and it panics exactly when an engaged limit holds
   * an interval shorter than one second (the modulo by zero whole seconds).
   */
  function Delay(l: LimitState, now: int): (r: DelayOutcome)
    ensures r.Wait? ==> r.duration >= 0
    ensures r.DivideByZero? <==> Engaged(l) && -SECOND < l.interval < SECOND
  {
    if !l.locked then Wait(0)
    else if l.interval == 0 || l.last == ZERO_TIME then Wait(0)
    else if WholeSeconds(l.interval) == 0 then DivideByZero
    else
      var next := NextInterval(l);
      if now > next then Wait(0) else Wait(next - now)
  }

  /** An unlocked limit never delays, whatever its timestamps. */
  lemma DelayUnlocked(l: LimitState, now: int)
    requires !l.locked
    ensures Delay(l, now) == Wait(0)
  {
  }

  /** A limit that has no interval yet, or was never registered, never delays. */
  lemma DelayUnregistered(l: LimitState, now: int)
    requires l.interval == 0 || l.last == ZERO_TIME
    ensures Delay(l, now) == Wait(0)
  {
  }

  /** With `last` not before `start` and an interval of at least a second, the boundary lies in `(last, last + interval]`. */
  lemma NextIntervalBounds(l: LimitState)
    requires l.last >= l.start && l.interval >= SECOND
    ensures WholeSeconds(l.interval) >= 1
    ensures l.last < NextInterval(l) <= l.last + l.interval
  {
  }

  /**
   * The boundary is not quite the end of a window counted from `start`: only
   * the elapsed time and the interval are truncated to whole seconds, so the
   * boundary is the end of the window holding `last`, plus the sub-second
   * part of `last - start`: up to one second late.
   */
  lemma NextIntervalOvershoot(l: LimitState)
    requires l.last >= l.start && l.interval >= SECOND
    ensures var k := WholeSeconds(l.interval);
            var s := WholeSeconds(l.last - l.start);
            k >= 1 && NextInterval(l) == l.start + (s / k + 1) * (k * SECOND) + (l.last - l.start) % SECOND
    ensures 0 <= (l.last - l.start) % SECOND < SECOND
  {
  }

  /** Half a second of `last - start` carries over: with 4 s windows and `last` 10.5 s after `start`, the boundary is 12.5 s after `start`. */
  lemma OvershootExample(t: int)
    requires t + 10 * SECOND + SECOND / 2 != ZERO_TIME
    ensures NextInterval(LimitState(t, t + 10 * SECOND + SECOND / 2, 4 * SECOND, true)) == t + 12 * SECOND + SECOND / 2
  {
  }

  /**
   * On an engaged limit whose interval is at least one whole second (of
   * either sign), the wait is the time from `now` to the boundary, or nothing once the
   * boundary has been reached.
   */
  lemma DelayUntilBoundary(l: LimitState, now: int)
    requires Engaged(l) && WholeSeconds(l.interval) != 0
    ensures now >= NextInterval(l) ==> Delay(l, now) == Wait(0)
    ensures now < NextInterval(l) ==> Delay(l, now) == Wait(NextInterval(l) - now)
  {
  }

  /** Asked at or after `last`, an engaged limit never asks for more than one interval. */
  lemma DelayAtMostInterval(l: LimitState, now: int)
    requires Engaged(l) && l.last >= l.start && l.interval >= SECOND && now >= l.last
    ensures Delay(l, now).Wait? && Delay(l, now).duration <= l.interval
  {
  }

  /** A negative interval (the header "-5" parses) puts the boundary before `last`, so no wait after `last`. */
  lemma DelayNegativeInterval(l: LimitState, now: int)
    requires l.last >= l.start && l.interval <= -SECOND && now >= l.last
    ensures Delay(l, now) == Wait(0)
  {
  }

  /**
   * The worked example of the file's header comment: windows of 4 seconds,
   * `last` 10 seconds after `start`, so `last` is 2 seconds into its window
   * (`10 % 4 = 2`) and the next window begins 2 seconds after `last`.
   */
  lemma HeaderCommentExample(t: int)
    requires t + 10 * SECOND != ZERO_TIME
    ensures var l := LimitState(t, t + 10 * SECOND, 4 * SECOND, true);
            && NextInterval(l) == t + 12 * SECOND
            && Delay(l, t + 10 * SECOND) == Wait(2 * SECOND)
  {
  }

  /**
   * A window of 10 seconds with `last` 23 seconds after `start`: the
   * boundary is 30 seconds after `start`; one second after `last` the wait
   * is 6 seconds, and past the boundary there is none.
   */
  lemma TwentyThreeSecondsExample(t: int)
    requires t + 23 * SECOND != ZERO_TIME
    ensures var l := LimitState(t, t + 23 * SECOND, 10 * SECOND, true);
            && Delay(l, t + 24 * SECOND) == Wait(6 * SECOND)
            && Delay(l, t + 31 * SECOND) == Wait(0)
  {
  }

  /** An interval shorter than a second, which Go parses from the header "0.5", makes `delay` divide by zero. */
  lemma SubSecondIntervalPanics(t: int, now: int)
    requires t + SECOND != ZERO_TIME
    ensures Delay(LimitState(t, t + SECOND, SECOND / 2, true), now) == DivideByZero
  {
  }

  // =====================================================================
  // Registering a response
  // =====================================================================

  /** What a response says about its limit: whether it is locked, and the window length. */
  datatype Observation = Observation(locked: bool, interval: int)

  /**
   * The header logic of `RoundTrip`: locked is "status is 429" unless the
   * remaining header is present, in which case it is "remaining is 0"; a
   * remaining header that is not an integer, or an interval header that
   * does not parse, yields nothing. An absent header reads as "".
   */
  function Observe(status: int, remaining: string, intervalHeader: string): (r: Option<Observation>)
    ensures r.Some? ==> r.value.interval % SECOND == 0
  {
    var lockedByStatus := status == TOO_MANY_REQUESTS;
    if remaining != "" && Atoi(remaining).None? then None
    else
      var locked := if remaining != "" then Atoi(remaining).value == 0 else lockedByStatus;
      match ParseSecondsDuration(intervalHeader)
      case None => None
      case Some(interval) => Some(Observation(locked, interval))
  }

  /** With an integer remaining header, locked means "nothing remains", whatever the status. */
  lemma ObserveBothHeaders(status: int, remaining: string, intervalHeader: string)
    requires remaining != "" && Atoi(remaining).Some? && ParseSecondsDuration(intervalHeader).Some?
    ensures Observe(status, remaining, intervalHeader)
            == Some(Observation(Atoi(remaining).value == 0, ParseSecondsDuration(intervalHeader).value))
  {
  }

  /** Without a remaining header, only a 429 status locks. */
  lemma ObserveStatusOnly(status: int, intervalHeader: string)
    requires ParseSecondsDuration(intervalHeader).Some?
    ensures Observe(status, "", intervalHeader)
            == Some(Observation(status == TOO_MANY_REQUESTS, ParseSecondsDuration(intervalHeader).value))
  {
  }

  /** Headers written by `strconv.Itoa` are read back as the numbers they spell. */
  lemma ObserveFormattedHeaders(status: int, remaining: int, seconds: int)
    requires INT64_MIN <= remaining <= INT64_MAX && Abs(seconds) <= MAX_WHOLE_SECONDS
    ensures Observe(status, FormatInt(remaining), FormatInt(seconds))
            == Some(Observation(remaining == 0, seconds * SECOND))
  {
    AtoiFormatInt(remaining);
    ParseSecondsFormatInt(seconds);
    ObserveBothHeaders(status, FormatInt(remaining), FormatInt(seconds));
  }

  /** Registration is skipped exactly when a present remaining header is not an integer or the interval header does not parse. */
  lemma ObserveFails(status: int, remaining: string, intervalHeader: string)
    ensures Observe(status, remaining, intervalHeader).None?
            <==> (remaining != "" && Atoi(remaining).None?) || ParseSecondsDuration(intervalHeader).None?
  {
  }

  /** A missing interval header never registers. */
  lemma ObserveNeedsInterval(status: int, remaining: string)
    ensures Observe(status, remaining, "") == None
  {
  }

  /**
   * The fields after a response is registered: when the headers are
   * understood, exactly `last`, `interval` and `locked` are overwritten;
   * otherwise nothing changes.
   */
  function Registered(l: LimitState, status: int, remaining: string, intervalHeader: string, now: int): (r: LimitState)
    ensures r.start == l.start
  {
    match Observe(status, remaining, intervalHeader)
    case None => l
    case Some(o) => l.(last := now, interval := o.interval, locked := o.locked)
  }

  /** A limit holding a registered interval never panics in `delay`: registered intervals are whole seconds. */
  lemma RegisteredNeverDividesByZero(l: LimitState, status: int, remaining: string, intervalHeader: string, now: int, later: int)
    requires Observe(status, remaining, intervalHeader).Some?
    ensures Delay(Registered(l, status, remaining, intervalHeader, now), later).Wait?
  {
  }

  /**
   * Registering a response and asking for the delay at the same instant
   * yields a wait between zero and the registered interval.
   */
  lemma RegisterThenDelay(l: LimitState, status: int, remaining: string, intervalHeader: string, now: int)
    requires Observe(status, remaining, intervalHeader).Some?
    requires l.start <= now
    ensures var d := Delay(Registered(l, status, remaining, intervalHeader, now), now);
            d.Wait? && 0 <= d.duration && (d.duration == 0 || d.duration <= Registered(l, status, remaining, intervalHeader, now).interval)
  {
  }

  /** Remaining 0 with an interval of 60 locks the limit for a 60-second window, even on a 200. */
  lemma RegisterLockingExample(l: LimitState, now: int)
    ensures Registered(l, 200, "0", "60", now) == l.(last := now, interval := 60 * SECOND, locked := true)
  {
  }

  /** A non-integer remaining header leaves the limit as it was, even on a 429. */
  lemma RegisterBadRemainingExample(l: LimitState, now: int)
    ensures Registered(l, TOO_MANY_REQUESTS, "none", "60", now) == l
  {
  }

  /** One rate limit, with its fields updated in place (`*rateLimit`). */
  class Limit {
    var start: int
    var last: int
    var interval: int
    var locked: bool

    function Snapshot(): LimitState
      reads this
    {
      LimitState(start, last, interval, locked)
    }

    /** `&rateLimit{start: time.Now(), locked: false}`. */
    constructor (now: int)
      ensures Snapshot() == NewLimitState(now)
    {
      start, last, interval, locked := now, ZERO_TIME, 0, false;
    }

    /** The state-update half of `RoundTrip`, given the response's status, header values and the clock. */
    method Register(status: int, remaining: string, intervalHeader: string, now: int)
      requires now != ZERO_TIME
      modifies this
      ensures Snapshot() == Registered(old(Snapshot()), status, remaining, intervalHeader, now)
    {
      var lockedNow := status == TOO_MANY_REQUESTS;
      if remaining != "" {
        var n := Atoi(remaining);
        if n.None? {
          return;
        }
        lockedNow := n.value == 0;
      }
      var parsed := ParseSecondsDuration(intervalHeader);
      if parsed.None? {
        return;
      }
      last := now;
      interval := parsed.value;
      locked := lockedNow;
    }
  }

  // =====================================================================
  // The table of limits
  // =====================================================================

  /** `map[string]map[string]*rateLimit`: resource type, then HTTP method. */
  type Table = map<string, map<string, Limit>>

  predicate Present(t: Table, resType: string, op: string) {
    resType in t && op in t[resType]
  }

  /** The table with `(resType, op)` bound to `l`, creating the inner map if needed; every other entry stays. */
  function Insert(t: Table, resType: string, op: string, l: Limit): (r: Table)
    ensures Present(r, resType, op) && r[resType][op] == l
    ensures forall x, y :: Present(t, x, y) && (x, y) != (resType, op) ==> Present(r, x, y) && r[x][y] == t[x][y]
    ensures forall x, y :: Present(r, x, y) ==> Present(t, x, y) || (x, y) == (resType, op)
  {
    var inner: map<string, Limit> := if resType in t then t[resType] else map[];
    t[resType := inner[op := l]]
  }

  /** No limit is held under two keys. */
  ghost predicate Distinct(t: Table) {
    forall x1, y1, x2, y2 ::
      Present(t, x1, y1) && Present(t, x2, y2) && t[x1][y1] == t[x2][y2] ==> x1 == x2 && y1 == y2
  }

  /** Adding a limit that the table does not hold yet, under a new key, keeps limits distinct. */
  lemma InsertKeepsDistinct(t: Table, resType: string, op: string, l: Limit)
    requires Distinct(t) && !Present(t, resType, op)
    requires forall x, y :: Present(t, x, y) ==> t[x][y] != l
    ensures Distinct(Insert(t, resType, op, l))
  {
  }

  /** The `rateLimits` map of a transport. */
  class Limits {
    var table: Table

    /** The limits the table holds. */
    ghost function Objects(): set<Limit>
      reads this
    {
      set x, y | x in table && y in table[x] :: table[x][y]
    }

    /** Distinct keys hold distinct limits: each entry was allocated on its own. */
    ghost predicate Valid()
      reads this
    {
      Distinct(table)
    }

    /** `make(rateLimits)`. */
    constructor ()
      ensures table == map[] && Valid()
    {
      table := map[];
    }

    /**
     * `rateLimits.get`: the limit for `(resType, op)`, created at time `now`
     * if absent. A present entry is returned as it is and the table does not
     * change; otherwise a fresh, unlocked limit is added beside the existing ones.
     */
    method Get(resType: string, op: string, now: int) returns (l: Limit)
      requires Valid()
      modifies this
      ensures Valid()
      ensures Present(table, resType, op) && table[resType][op] == l
      ensures Present(old(table), resType, op) ==> table == old(table)
      ensures !Present(old(table), resType, op) ==>
                fresh(l) && l.Snapshot() == NewLimitState(now) && table == Insert(old(table), resType, op, l)
    {
      // Go first adds an empty inner map for a new resource type, then the
      // limit: together, one insertion.
      if !Present(table, resType, op) {
        var created := new Limit(now);
        InsertKeepsDistinct(table, resType, op, created);
        table := Insert(table, resType, op, created);
      }
      l := table[resType][op];
    }
  }

  // =====================================================================
  // Classifying a request path
  // =====================================================================

  datatype UrlError = ResourceTypeNotFound | InvalidUrlStructure

  /** `getResourceTypeFromURL`: the text after the first "/api/" up to the next "/". */
  function ResourceTypeFromUrl(urlPath: string): Result<string, UrlError> {
    match Index(urlPath, API_MARKER)
    case None => Failure(ResourceTypeNotFound)
    case Some(apiIndex) =>
      var resourcePath := urlPath[apiIndex + |API_MARKER|..];
      var parts := Split(resourcePath, '/');
      if |parts| == 0 then Failure(InvalidUrlStructure) else Success(parts[0])
  }

  /** Classification fails exactly when the path has no "/api/", and the "invalid URL structure" error never arises. */
  lemma ResourceTypeFromUrlFails(urlPath: string)
    ensures ResourceTypeFromUrl(urlPath).Failure? <==> forall i :: !OccursAt(urlPath, API_MARKER, i)
    ensures ResourceTypeFromUrl(urlPath) != Failure(InvalidUrlStructure)
  {
  }

  /** After the first "/api/", the resource type is exactly the longest slash-free prefix of the rest. */
  lemma ResourceTypeFromUrlValue(urlPath: string, i: int, resType: string)
    requires IsFirstOccurrence(urlPath, API_MARKER, i)
    ensures ResourceTypeFromUrl(urlPath) == Success(resType)
            <==> IsHeadBefore(resType, urlPath[i + |API_MARKER|..], '/')
  {
    var j := Index(urlPath, API_MARKER).value;
    FirstOccurrenceUnique(urlPath, API_MARKER, i, j);
    var rest := urlPath[i + |API_MARKER|..];
    SplitHead(rest, '/');
    if IsHeadBefore(resType, rest, '/') {
      HeadBeforeUnique(resType, Split(rest, '/')[0], rest, '/');
    }
  }

  /** A resource type never contains "/", and may be empty. */
  lemma ResourceTypeFromUrlShape(urlPath: string)
    requires ResourceTypeFromUrl(urlPath).Success?
    ensures '/' !in ResourceTypeFromUrl(urlPath).value
  {
    var i := Index(urlPath, API_MARKER).value;
    SplitHead(urlPath[i + |API_MARKER|..], '/');
  }

  lemma ResourceTypeExamples()
    ensures ResourceTypeFromUrl("/api/skus/abc") == Success("skus")
    ensures ResourceTypeFromUrl("/api/") == Success("")
    ensures ResourceTypeFromUrl("/oauth/token") == Failure(ResourceTypeNotFound)
  {
    forall i ensures !OccursAt("/oauth/token", API_MARKER, i) {
      var p := "/oauth/token";
      if 0 <= i && i + 5 <= |p| {
        assert p[i..i + 5][0] == p[i] && p[i..i + 5][1] == p[i + 1];
      }
    }
    assert IsFirstOccurrence("/api/skus/abc", API_MARKER, 0);
    assert "/api/skus/abc"[5..] == "skus/abc";
    assert IsHeadBefore("skus", "skus/abc", '/');
    ResourceTypeFromUrlValue("/api/skus/abc", 0, "skus");
    assert IsFirstOccurrence("/api/", API_MARKER, 0);
    assert IsHeadBefore("", "/api/"[5..], '/');
    ResourceTypeFromUrlValue("/api/", 0, "");
  }

  // =====================================================================
  // The transport
  // =====================================================================

  datatype Request = Request(verb: string, path: string)

  datatype Response = Response(status: int, header: map<string, string>)

  /** `Header.Get`: the value, or "" when the header is absent. */
  function HeaderGet(header: map<string, string>, key: string): string {
    if key in header then header[key] else ""
  }

  /** What the transport that was called returned: a transport error, or a response. */
  datatype SendOutcome = TransportError | Delivered(response: Response)

  /**
   * The three clock readings of one `RoundTrip`: in `get`, in `delay`, and
   * after the response. `time.Now()` never reads the zero time.
   */
  datatype Clock = Clock(atGet: int, atDelay: int, atResponse: int)

  /**
   * What the caller of `RoundTrip` sees: a request sent unthrottled through
   * the default transport, a throttled request that was told to wait
   * `wait` before being sent, or the panic in `delay`.
   */
  datatype Trip = Direct(outcome: SendOutcome) | Throttled(wait: int, outcome: SendOutcome) | DelayPanic

  /**
   * A throttled round trip seen from its limit: the wait `delay` gives,
   * then the send, then the registration of a delivered response.
   */
  function Exchange(before: LimitState, sent: SendOutcome, clock: Clock): (r: (Trip, LimitState))
    ensures r.1.start == before.start
    ensures r.0.DelayPanic? <==> Delay(before, clock.atDelay).DivideByZero?
    ensures r.0.DelayPanic? || sent.TransportError? ==> r.1 == before
    ensures r.0.Throttled? ==> r.0.wait >= 0 && r.0.outcome == sent && r.0.wait == Delay(before, clock.atDelay).duration
  {
    match Delay(before, clock.atDelay)
    case DivideByZero => (DelayPanic, before)
    case Wait(d) =>
      match sent
      case TransportError => (Throttled(d, sent), before)
      case Delivered(resp) =>
        (Throttled(d, sent),
         Registered(before, resp.status, HeaderGet(resp.header, REMAINING_HEADER),
                    HeaderGet(resp.header, INTERVAL_HEADER), clock.atResponse))
  }

  /** `throttledTransport`: the wrapped transport is foreign and is represented by each call's `sent`. */
  class ThrottledTransport {
    const rateLimits: Limits

    ghost predicate Valid()
      reads this, rateLimits
    {
      rateLimits.Valid()
    }

    /** `newThrottledTransport`: an empty table of limits. */
    constructor ()
      ensures Valid() && fresh(rateLimits) && rateLimits.table == map[]
    {
      rateLimits := new Limits();
    }

    /**
     * `RoundTrip`, without the mutex, the sleep and the logging. A path
     * without "/api/" goes straight to the default transport and touches no
     * limit. Otherwise the limit for (resource type, method) is fetched or
     * created, and it alone evolves as `Exchange` says.
     */
    method RoundTrip(r: Request, sent: SendOutcome, clock: Clock) returns (trip: Trip)
      requires Valid()
      requires clock.atResponse != ZERO_TIME
      modifies rateLimits, rateLimits.Objects()
      ensures Valid()
      ensures ResourceTypeFromUrl(r.path).Failure? ==>
                && trip == Direct(sent)
                && rateLimits.table == old(rateLimits.table)
                && unchanged(old(rateLimits.Objects()))
      ensures ResourceTypeFromUrl(r.path).Success? ==>
                var resType := ResourceTypeFromUrl(r.path).value;
                && Present(rateLimits.table, resType, r.verb)
                && var l := rateLimits.table[resType][r.verb];
                && (Present(old(rateLimits.table), resType, r.verb) ==>
                      && rateLimits.table == old(rateLimits.table)
                      && (trip, l.Snapshot()) == Exchange(old(rateLimits.table[resType][r.verb].Snapshot()), sent, clock))
                && (!Present(old(rateLimits.table), resType, r.verb) ==>
                      && fresh(l)
                      && rateLimits.table == Insert(old(rateLimits.table), resType, r.verb, l)
                      && (trip, l.Snapshot()) == Exchange(NewLimitState(clock.atGet), sent, clock))
                && unchanged(old(rateLimits.Objects()) - {l})
    {
      var resType := ResourceTypeFromUrl(r.path);
      if resType.Failure? {
        trip := Direct(sent);
        return;
      }
      var limit := rateLimits.Get(resType.value, r.verb, clock.atGet);
      var delay := Delay(limit.Snapshot(), clock.atDelay);
      if delay.DivideByZero? {
        trip := DelayPanic;
        return;
      }
      match sent {
        case TransportError =>
          trip := Throttled(delay.duration, sent);
        case Delivered(resp) =>
          limit.Register(resp.status, HeaderGet(resp.header, REMAINING_HEADER),
                         HeaderGet(resp.header, INTERVAL_HEADER), clock.atResponse);
          trip := Throttled(delay.duration, sent);
      }
    }
  }
}
