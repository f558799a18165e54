/** The API client (`client.py`): the credential check at construction, the
    read-through cache keyed by request path with a time-to-live per resource
    kind, and the mapping of HTTP statuses to errors. The network is the
    `Transport` parameter and the clock is the `now` parameter; the client is
    a value, and every operation returns the client it leaves behind. */
module Client {
  import opened Common
  import opened Errors

  /** Seconds a plan slice stays cached. */
  const PlanTtl: int := 60 * 60
  /** Seconds a full or recent change feed stays cached. */
  const ChangesTtl: int := 30
  /** Seconds a station search stays cached. */
  const StationTtl: int := 12 * 60 * 60
  /** Characters of an error body kept in an `Upstream` error. */
  const SnippetLength: nat := 200

  datatype CacheEntry = CacheEntry(expiresAt: int, value: string)

  /** What the server answers to a GET of a path. */
  datatype Response = Response(status: int, body: string)

  /** The server, as a function from request path to response. Each call
      takes its own transport, so the server may answer differently over
      time. */
  type Transport = string -> Response

  /** A constructed client. `requests` lists, oldest first, the paths sent
      to the transport, which makes "no request was made" observable. */
  datatype Client = Client(clientId: string, apiKey: string, cache: map<string, CacheEntry>, requests: seq<string>)

  /** A client is only ever built with both credentials present. */
  predicate Credentialed(c: Client) {
    c.clientId != "" && c.apiKey != ""
  }

  /** The constructor: each credential is the argument, else the configured
      setting, else the environment variable, each skipped when empty. Both
      must end up non-empty. */
  function NewClient(
    clientId: Option<string>, apiKey: Option<string>,
    settingsId: Option<string>, settingsKey: Option<string>,
    envId: Option<string>, envKey: Option<string>): (r: Result<Client, Error>)
    ensures r.Failure? <==>
      || !(Present(clientId) || Present(settingsId) || Present(envId))
      || !(Present(apiKey) || Present(settingsKey) || Present(envKey))
    ensures r.Failure? ==> r.error == Authentication(None)
    ensures r.Success? ==> Credentialed(r.value) && r.value.cache == map[] && r.value.requests == []
    ensures r.Success? && Present(clientId) ==> r.value.clientId == clientId.value
    ensures r.Success? && Present(apiKey) ==> r.value.apiKey == apiKey.value
    ensures r.Success? && !Present(clientId) && Present(settingsId) ==> r.value.clientId == settingsId.value
    ensures r.Success? && !Present(apiKey) && Present(settingsKey) ==> r.value.apiKey == settingsKey.value
    ensures r.Success? && !Present(clientId) && !Present(settingsId) ==> Present(envId) && r.value.clientId == envId.value
    ensures r.Success? && !Present(apiKey) && !Present(settingsKey) ==> Present(envKey) && r.value.apiKey == envKey.value
  {
    var id := OrElse(OrElse(clientId, settingsId), envId);
    var key := OrElse(OrElse(apiKey, settingsKey), envKey);
    if !Present(id) || !Present(key) then Failure(Authentication(None))
    else Success(Client(id.value, key.value, map[], []))
  }

  // ---------------------------------------------------------------------------
  // Status mapping

  function Min(a: int, b: int): int {
    if a <= b then a else b
  }

  /** `_request`'s verdict on a response, the checks taken in order: every
      response is classified exactly one way, as rejected credentials, rate
      limiting, some other client or server error carrying a prefix of the
      body of at most 200 characters, or success with the body intact. */
  function CheckStatus(resp: Response): (r: Result<string, Error>)
    ensures r.Success? <==> !(400 <= resp.status < 600)
    ensures r.Success? ==> r.value == resp.body
    ensures r == Failure(Authentication(Some(resp.status))) <==> resp.status in {401, 403}
    ensures r == Failure(RateLimit) <==> resp.status == 429
    ensures r.Failure? && r.error.Upstream? <==> 400 <= resp.status < 600 && resp.status !in {401, 403, 429}
    ensures r.Failure? && r.error.Upstream? ==>
      && r.error.status == resp.status
      && |r.error.snippet| == Min(SnippetLength, |resp.body|)
      && r.error.snippet <= resp.body
      && (|resp.body| <= SnippetLength ==> r.error.snippet == resp.body)
  {
    var status := resp.status;
    if status == 401 || status == 403 then Failure(Authentication(Some(status)))
    else if status == 429 then Failure(RateLimit)
    else if 400 <= status < 600 then Failure(Upstream(status, resp.body[..Min(SnippetLength, |resp.body|)]))
    else Success(resp.body)
  }

  // ---------------------------------------------------------------------------
  // The read-through cache

  /** The cache answers for `path` at time `now`: an entry exists and has
      not yet expired. An entry expiring exactly now is stale. */
  predicate Hit(c: Client, path: string, now: int) {
    path in c.cache && c.cache[path].expiresAt > now
  }

  /** `_cached_get`: a live entry is returned without touching the
      transport; otherwise the transport is asked once, and a successful
      payload is stored to expire `ttl` seconds after `now` and returned. A
      failed request stores nothing. */
  function CachedGet(c: Client, path: string, ttl: int, now: int, transport: Transport): (r: (Client, Result<string, Error>))
    ensures r.0.clientId == c.clientId && r.0.apiKey == c.apiKey
    ensures Hit(c, path, now) ==> r == (c, Success(c.cache[path].value))
    ensures !Hit(c, path, now) ==>
      && r.0.requests == c.requests + [path]
      && r.1 == CheckStatus(transport(path))
    ensures !Hit(c, path, now) && r.1.Success? ==>
      r.0.cache == c.cache[path := CacheEntry(now + ttl, r.1.value)]
    ensures r.1.Failure? ==> r.0.cache == c.cache
  {
    if Hit(c, path, now) then (c, Success(c.cache[path].value))
    else
      var answer := CheckStatus(transport(path));
      var requests := c.requests + [path];
      match answer
      case Failure(_) => (c.(requests := requests), answer)
      case Success(payload) =>
        (c.(cache := c.cache[path := CacheEntry(now + ttl, payload)], requests := requests), answer)
  }

  /** Asking again for a path fetched successfully, before its entry
      expires, returns the same payload and sends nothing, whatever the
      server would say by then. */
  lemma {:induction false} CachedGetRepeats(
    c: Client, path: string, ttl: int, now: int, later: int, first: Transport, second: Transport)
    requires CachedGet(c, path, ttl, now, first).1.Success?
    requires now <= later < now + ttl
    requires Hit(c, path, now) ==> Hit(c, path, later)
    ensures var (c1, r1) := CachedGet(c, path, ttl, now, first);
      CachedGet(c1, path, ttl, later, second) == (c1, r1)
  {
    var (c1, r1) := CachedGet(c, path, ttl, now, first);
    if Hit(c, path, now) {
      assert c1 == c;
    } else {
      assert c1.cache[path] == CacheEntry(now + ttl, r1.value);
    }
  }

  /** Every cached payload was fetched by some request: cache keys are a
      subset of the requested paths. */
  predicate CacheFromRequests(c: Client) {
    forall p | p in c.cache :: p in c.requests
  }

  lemma CachedGetKeepsCacheFromRequests(c: Client, path: string, ttl: int, now: int, transport: Transport)
    requires CacheFromRequests(c)
    ensures CacheFromRequests(CachedGet(c, path, ttl, now, transport).0)
  {
    var c1 := CachedGet(c, path, ttl, now, transport).0;
    if !Hit(c, path, now) {
      assert path in c1.requests by {
        assert c1.requests[|c.requests|] == path;
      }
    }
  }

  // ---------------------------------------------------------------------------
  // The four resources

  function PlanPath(eva: string, date: string, hour: string): string {
    "/plan/" + eva + "/" + date + "/" + hour
  }

  function FullChangesPath(eva: string): string {
    "/fchg/" + eva
  }

  function RecentChangesPath(eva: string): string {
    "/rchg/" + eva
  }

  function StationPath(pattern: string): string {
    "/station/" + pattern
  }

  /** `fetch_plan`: one hour of the timetable, cached for an hour. */
  function FetchPlan(c: Client, eva: string, date: string, hour: string, now: int, transport: Transport): (r: (Client, Result<string, Error>))
    ensures r == CachedGet(c, PlanPath(eva, date, hour), PlanTtl, now, transport)
    ensures !Hit(c, PlanPath(eva, date, hour), now) && r.1.Success? ==>
      r.0.cache[PlanPath(eva, date, hour)].expiresAt == now + 3600
  {
    CachedGet(c, PlanPath(eva, date, hour), PlanTtl, now, transport)
  }

  /** `fetch_full_changes`: every known change, cached for 30 seconds. */
  function FetchFullChanges(c: Client, eva: string, now: int, transport: Transport): (r: (Client, Result<string, Error>))
    ensures r == CachedGet(c, FullChangesPath(eva), ChangesTtl, now, transport)
    ensures !Hit(c, FullChangesPath(eva), now) && r.1.Success? ==>
      r.0.cache[FullChangesPath(eva)].expiresAt == now + 30
  {
    CachedGet(c, FullChangesPath(eva), ChangesTtl, now, transport)
  }

  /** `fetch_recent_changes`: the recent delta, cached for 30 seconds. */
  function FetchRecentChanges(c: Client, eva: string, now: int, transport: Transport): (r: (Client, Result<string, Error>))
    ensures r == CachedGet(c, RecentChangesPath(eva), ChangesTtl, now, transport)
    ensures !Hit(c, RecentChangesPath(eva), now) && r.1.Success? ==>
      r.0.cache[RecentChangesPath(eva)].expiresAt == now + 30
  {
    CachedGet(c, RecentChangesPath(eva), ChangesTtl, now, transport)
  }

  /** `fetch_station`: a station search, cached for twelve hours. */
  function FetchStation(c: Client, pattern: string, now: int, transport: Transport): (r: (Client, Result<string, Error>))
    ensures r == CachedGet(c, StationPath(pattern), StationTtl, now, transport)
    ensures !Hit(c, StationPath(pattern), now) && r.1.Success? ==>
      r.0.cache[StationPath(pattern)].expiresAt == now + 43200
  {
    CachedGet(c, StationPath(pattern), StationTtl, now, transport)
  }

  /** The four resource kinds never share a cache entry: their paths differ
      within the first six characters, whatever the arguments. */
  lemma ResourcePathsDisjoint(eva: string, date: string, hour: string, eva2: string, pattern: string)
    ensures PlanPath(eva, date, hour) != FullChangesPath(eva2)
    ensures PlanPath(eva, date, hour) != RecentChangesPath(eva2)
    ensures PlanPath(eva, date, hour) != StationPath(pattern)
    ensures FullChangesPath(eva) != RecentChangesPath(eva2)
    ensures FullChangesPath(eva) != StationPath(pattern)
    ensures RecentChangesPath(eva) != StationPath(pattern)
  {
    assert PlanPath(eva, date, hour)[1] == 'p';
    assert FullChangesPath(eva)[1] == 'f';
    assert RecentChangesPath(eva)[1] == 'r';
    assert StationPath(pattern)[1] == 's';
  }
}
