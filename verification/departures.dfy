/** The reconciliation engine (`departures.py`): validate the query, collect
    the plan slices and the change feeds, merge them per stop id into one
    departure record each, keep the records whose pivot time lies in the
    interval, and order them by that time. */
module Departures {
  import opened Common
  import opened Calendar
  import opened Times
  import opened Xml
  import opened Errors
  import opened Parsers
  import opened Client
  import opened Slices
  import opened Messages
  import opened Sorting

  // ---------------------------------------------------------------------------
  // Validation

  /** The checks `get_departures` makes before anything is fetched. */
  function Validate(stationId: string, start: Time, end: Time): (r: Option<Error>)
    ensures r.None? <==> stationId != "" && start <= end
    ensures stationId == "" ==> r == Some(Validation(EmptyStationId))
    ensures stationId != "" && start > end ==> r == Some(Validation(InvertedInterval))
  {
    if stationId == "" then Some(Validation(EmptyStationId))
    else if start > end then Some(Validation(InvertedInterval))
    else None
  }

  // ---------------------------------------------------------------------------
  // Collecting plan slices and change feeds

  /** `dict.update` applied to each map in turn. */
  function UnionAll<V>(maps: seq<map<string, V>>): map<string, V> {
    if maps == [] then map[] else UnionAll(maps[..|maps| - 1]) + maps[|maps| - 1]
  }

  /** The keys of the union are the keys of the parts. */
  lemma {:induction false} UnionAllKeys<V>(maps: seq<map<string, V>>)
    ensures forall k :: k in UnionAll(maps) <==> exists i | 0 <= i < |maps| :: k in maps[i]
  {
    if maps != [] {
      var front := maps[..|maps| - 1];
      UnionAllKeys(front);
      assert forall i | 0 <= i < |front| :: front[i] == maps[i];
    }
  }

  /** A key takes its value from the last map holding it. */
  lemma {:induction false} UnionAllLastWins<V>(maps: seq<map<string, V>>, i: int, k: string)
    requires 0 <= i < |maps| && k in maps[i]
    requires forall j | i < j < |maps| :: k !in maps[j]
    ensures k in UnionAll(maps) && UnionAll(maps)[k] == maps[i][k]
  {
    if i < |maps| - 1 {
      var front := maps[..|maps| - 1];
      assert front[i] == maps[i];
      UnionAllLastWins(front, i, k);
    }
  }

  /** How a plan payload becomes its events keyed by stop id. */
  type PlanParse = string -> Result<map<string, PlanEvent>, Error>

  /** `parse_plan` with the given XML reader and ISO parser. */
  function PlanParser(read: XmlReader, iso: IsoParser): PlanParse {
    text => ParsePlan(text, read, iso)
  }

  /** The plan resource path of a slice. */
  function SlicePath(eva: string, slice: Label): string {
    PlanPath(eva, slice.0, slice.1)
  }

  /** The payload of slice `slice` as the client `c` would get it at `now`: the
      live cache entry, else the server's answer through the status check. */
  function SliceAnswer(c: Client, eva: string, slice: Label, now: int, transport: Transport): Result<string, Error> {
    var path := SlicePath(eva, slice);
    if Hit(c, path, now) then Success(c.cache[path].value) else CheckStatus(transport(path))
  }

  /** The plan of slice `slice` as the client `c` would fetch and parse it. */
  function SlicePlan(c: Client, eva: string, slice: Label, now: int, transport: Transport, parse: PlanParse)
    : Result<map<string, PlanEvent>, Error>
  {
    match SliceAnswer(c, eva, slice, now, transport)
    case Failure(e) => Failure(e)
    case Success(text) => parse(text)
  }

  /** A slice's plan depends on the client only through its cache entry. */
  lemma SlicePlanOfEntry(
    c: Client, c1: Client, eva: string, slice: Label, now: int, transport: Transport, parse: PlanParse)
    requires Get(c1.cache, SlicePath(eva, slice)) == Get(c.cache, SlicePath(eva, slice))
    ensures Hit(c1, SlicePath(eva, slice), now) <==> Hit(c, SlicePath(eva, slice), now)
    ensures SlicePlan(c1, eva, slice, now, transport, parse) == SlicePlan(c, eva, slice, now, transport, parse)
  {
    var path := SlicePath(eva, slice);
    assert path in c1.cache <==> path in c.cache;
    assert path in c.cache ==> c1.cache[path] == c.cache[path];
  }

  /** One plan slice, fetched through the cache and parsed: the request is
      sent only when the cache cannot answer, only the slice's own entry may
      change, and the result is the slice's plan. */
  function FetchSlice(c: Client, eva: string, slice: Label, now: int, transport: Transport, parse: PlanParse)
    : (r: (Client, Result<map<string, PlanEvent>, Error>))
    ensures r.0.clientId == c.clientId && r.0.apiKey == c.apiKey
    ensures r.1 == SlicePlan(c, eva, slice, now, transport, parse)
    ensures var path := SlicePath(eva, slice);
      r.0.requests == c.requests + (if Hit(c, path, now) then [] else [path])
    ensures forall p | p != SlicePath(eva, slice) :: Get(r.0.cache, p) == Get(c.cache, p)
    ensures r.0 == FetchPlan(c, eva, slice.0, slice.1, now, transport).0
    ensures Hit(c, SlicePath(eva, slice), now) ==> r.0 == c
    ensures SliceAnswer(c, eva, slice, now, transport).Failure? ==> r.0.cache == c.cache
    ensures !Hit(c, SlicePath(eva, slice), now) && SliceAnswer(c, eva, slice, now, transport).Success? ==>
      Get(r.0.cache, SlicePath(eva, slice)) == Some(CacheEntry(now + 3600, SliceAnswer(c, eva, slice, now, transport).value))
  {
    var (c1, payload) := FetchPlan(c, eva, slice.0, slice.1, now, transport);
    match payload
    case Failure(e) => (c1, Failure(e))
    case Success(text) => (c1, parse(text))
  }

  /** Fetch and parse the plan slices `slices` in order, stopping at the first
      failure. Only the slices' paths are ever requested, each at most once
      per slice, and no other cache entry changes. */
  function FetchPlanChunks(c: Client, eva: string, slices: seq<Label>, now: int, transport: Transport, parse: PlanParse)
    : (r: (Client, Result<seq<map<string, PlanEvent>>, Error>))
    ensures r.0.clientId == c.clientId && r.0.apiKey == c.apiKey
    ensures r.1.Success? ==> |r.1.value| == |slices|
    ensures c.requests <= r.0.requests && |r.0.requests| <= |c.requests| + |slices|
    ensures forall i | |c.requests| <= i < |r.0.requests| :: SliceRequest(r.0.requests[i], eva, slices)
    decreases |slices|
  {
    if slices == [] then (c, Success([]))
    else
      var front := slices[..|slices| - 1];
      var slice := slices[|slices| - 1];
      assert slices == front + [slice];
      var (c1, done) := FetchPlanChunks(c, eva, front, now, transport, parse);
      match done
      case Failure(e) =>
        RequestsOfSlices(c.requests, c1.requests, c1.requests, eva, front, slice);
        (c1, Failure(e))
      case Success(chunks) =>
        var (c2, chunk) := FetchSlice(c1, eva, slice, now, transport, parse);
        RequestsOfSlices(c.requests, c1.requests, c2.requests, eva, front, slice);
        match chunk
        case Failure(e) => (c2, Failure(e))
        case Success(plan) => (c2, Success(chunks + [plan]))
  }

  /** `path` is the plan path of one of the slices `slices`. */
  predicate SliceRequest(path: string, eva: string, slices: seq<Label>) {
    exists j | 0 <= j < |slices| :: path == SlicePath(eva, slices[j])
  }

  /** The requests after fetching slice `slice` behind the slices `front` are
      still only slice paths. */
  lemma RequestsOfSlices(before: seq<string>, mid: seq<string>, after: seq<string>, eva: string, front: seq<Label>, slice: Label)
    requires forall i | |before| <= i < |mid| :: SliceRequest(mid[i], eva, front)
    requires after == mid || after == mid + [SlicePath(eva, slice)]
    ensures forall i | |before| <= i < |after| :: SliceRequest(after[i], eva, front + [slice])
  {
    forall i | |before| <= i < |after|
      ensures SliceRequest(after[i], eva, front + [slice])
    {
      if i < |mid| {
        var j :| 0 <= j < |front| && mid[i] == SlicePath(eva, front[j]);
        assert (front + [slice])[j] == front[j];
      } else {
        assert (front + [slice])[|front|] == slice;
      }
    }
  }

  /** `_collect_plan_entries`: the slices' plans merged in slice order, a
      later slice overwriting an earlier one on the same stop id. */
  function CollectPlan(c: Client, eva: string, start: Time, end: Time, now: int, transport: Transport, parse: PlanParse)
    : (r: (Client, Result<map<string, PlanEvent>, Error>))
    ensures var (c1, chunks) := FetchPlanChunks(c, eva, TimeSlices(start, end), now, transport, parse);
      && r.0 == c1
      && (chunks.Failure? ==> r.1 == Failure(chunks.error))
      && (chunks.Success? ==> r.1 == Success(UnionAll(chunks.value)))
  {
    var (c1, chunks) := FetchPlanChunks(c, eva, TimeSlices(start, end), now, transport, parse);
    match chunks
    case Failure(e) => (c1, Failure(e))
    case Success(maps) => (c1, Success(UnionAll(maps)))
  }

  /** No two of the slices `slices` share a plan path, so none of them can be
      answered from an entry another one stored. */
  predicate DistinctSlicePaths(eva: string, slices: seq<Label>) {
    forall i, j | 0 <= i < j < |slices| :: SlicePath(eva, slices[i]) != SlicePath(eva, slices[j])
  }

  /** The slice paths the cache of `c` cannot answer at `now`, in slice
      order. */
  function MissedSlices(c: Client, eva: string, slices: seq<Label>, now: int): seq<string> {
    if slices == [] then []
    else
      var path := SlicePath(eva, slices[|slices| - 1]);
      MissedSlices(c, eva, slices[..|slices| - 1], now) + (if Hit(c, path, now) then [] else [path])
  }

  /** Fetching the slices touches no cache entry but theirs. */
  lemma {:induction false} FetchPlanChunksKeepsOtherEntries(
    c: Client, eva: string, slices: seq<Label>, now: int, transport: Transport, parse: PlanParse, path: string)
    requires !SliceRequest(path, eva, slices)
    ensures Get(FetchPlanChunks(c, eva, slices, now, transport, parse).0.cache, path) == Get(c.cache, path)
    decreases |slices|
  {
    if slices != [] {
      var front, slice := slices[..|slices| - 1], slices[|slices| - 1];
      assert !SliceRequest(path, eva, front) by {
        forall j | 0 <= j < |front| ensures path != SlicePath(eva, front[j]) {
          assert front[j] == slices[j];
        }
      }
      FetchPlanChunksKeepsOtherEntries(c, eva, front, now, transport, parse, path);
      var (c1, done) := FetchPlanChunks(c, eva, front, now, transport, parse);
      if done.Success? {
        assert path != SlicePath(eva, slice) by {
          assert slices[|slices| - 1] == slice;
        }
        var c2 := FetchSlice(c1, eva, slice, now, transport, parse).0;
        assert Get(c2.cache, path) == Get(c1.cache, path);
      }
    }
  }

  /** Distinct slice paths stay distinct without the last slice, and the
      last slice's path is none of the others'. */
  lemma DistinctFront(eva: string, slices: seq<Label>)
    requires slices != [] && DistinctSlicePaths(eva, slices)
    ensures DistinctSlicePaths(eva, slices[..|slices| - 1])
    ensures !SliceRequest(SlicePath(eva, slices[|slices| - 1]), eva, slices[..|slices| - 1])
  {
    var front := slices[..|slices| - 1];
    forall i, j | 0 <= i < j < |front| ensures SlicePath(eva, front[i]) != SlicePath(eva, front[j]) {
      assert front[i] == slices[i] && front[j] == slices[j];
    }
    forall j | 0 <= j < |front| ensures SlicePath(eva, slices[|slices| - 1]) != SlicePath(eva, front[j]) {
      assert front[j] == slices[j];
    }
  }

  /** With distinct slice paths, a successful fetch of the slices requests
      exactly the slices the cache could not answer, in slice order. */
  lemma {:induction false} FetchPlanChunksRequestsMissed(
    c: Client, eva: string, slices: seq<Label>, now: int, transport: Transport, parse: PlanParse)
    requires DistinctSlicePaths(eva, slices)
    ensures var (c1, chunks) := FetchPlanChunks(c, eva, slices, now, transport, parse);
      chunks.Success? ==> c1.requests == c.requests + MissedSlices(c, eva, slices, now)
    decreases |slices|
  {
    if slices != [] {
      var front, slice := slices[..|slices| - 1], slices[|slices| - 1];
      var path := SlicePath(eva, slice);
      DistinctFront(eva, slices);
      FetchPlanChunksRequestsMissed(c, eva, front, now, transport, parse);
      FetchPlanChunksKeepsOtherEntries(c, eva, front, now, transport, parse, path);
      var (c1, done) := FetchPlanChunks(c, eva, front, now, transport, parse);
      SlicePlanOfEntry(c, c1, eva, slice, now, transport, parse);
      if done.Success? {
        var c2 := FetchSlice(c1, eva, slice, now, transport, parse).0;
        var missed, last := MissedSlices(c, eva, front, now), if Hit(c, path, now) then [] else [path];
        assert MissedSlices(c, eva, slices, now) == missed + last;
        assert c2.requests == c.requests + missed + last;
        assert c.requests + missed + last == c.requests + (missed + last);
      }
    }
  }

  /** A relation that holds pointwise between two sequences keeps holding
      when each is extended by a related pair. */
  lemma AppendPointwise<T, U>(xs: seq<T>, ys: seq<U>, x: T, y: U, rel: (T, U) -> bool)
    requires |xs| == |ys| && rel(x, y)
    requires forall i | 0 <= i < |xs| :: rel(xs[i], ys[i])
    ensures forall i | 0 <= i < |xs + [x]| :: rel((xs + [x])[i], (ys + [y])[i])
  {
    forall i | 0 <= i < |xs + [x]| ensures rel((xs + [x])[i], (ys + [y])[i]) {
      if i < |xs| { assert (xs + [x])[i] == xs[i] && (ys + [y])[i] == ys[i]; }
    }
  }

  /** With distinct slice paths, chunk `i` of a successful fetch is the plan
      of slice `slices[i]`, read from the cache or from the server. */
  lemma {:induction false} FetchPlanChunksReadsEachSlice(
    c: Client, eva: string, slices: seq<Label>, now: int, transport: Transport, parse: PlanParse)
    requires DistinctSlicePaths(eva, slices)
    ensures var chunks := FetchPlanChunks(c, eva, slices, now, transport, parse).1;
      chunks.Success? ==>
        forall i | 0 <= i < |slices| :: SlicePlan(c, eva, slices[i], now, transport, parse) == Success(chunks.value[i])
    decreases |slices|
  {
    if slices != [] {
      var front, slice := slices[..|slices| - 1], slices[|slices| - 1];
      assert slices == front + [slice];
      DistinctFront(eva, slices);
      FetchPlanChunksReadsEachSlice(c, eva, front, now, transport, parse);
      FetchPlanChunksKeepsOtherEntries(c, eva, front, now, transport, parse, SlicePath(eva, slice));
      var (c1, done) := FetchPlanChunks(c, eva, front, now, transport, parse);
      SlicePlanOfEntry(c, c1, eva, slice, now, transport, parse);
      if done.Success? {
        var (c2, one) := FetchSlice(c1, eva, slice, now, transport, parse);
        if one.Success? {
          assert FetchPlanChunks(c, eva, slices, now, transport, parse).1 == Success(done.value + [one.value]);
          AppendPointwise(front, done.value, slice, one.value,
            (other: Label, plan: map<string, PlanEvent>) => SlicePlan(c, eva, other, now, transport, parse) == Success(plan));
        }
      }
    }
  }

  /** With distinct slice paths, a successful fetch of the slices requests
      exactly the slices the cache could not answer, in slice order, and
      chunk `i` is the plan of slice `slices[i]`, read from the cache or from
      the server. */
  lemma FetchPlanChunksFetchesEachSlice(
    c: Client, eva: string, slices: seq<Label>, now: int, transport: Transport, parse: PlanParse)
    requires DistinctSlicePaths(eva, slices)
    ensures var (c1, chunks) := FetchPlanChunks(c, eva, slices, now, transport, parse);
      chunks.Success? ==>
        && c1.requests == c.requests + MissedSlices(c, eva, slices, now)
        && forall i | 0 <= i < |slices| :: SlicePlan(c, eva, slices[i], now, transport, parse) == Success(chunks.value[i])
  {
    FetchPlanChunksRequestsMissed(c, eva, slices, now, transport, parse);
    FetchPlanChunksReadsEachSlice(c, eva, slices, now, transport, parse);
  }

  /** With distinct slice paths, fetching the slices is fetching all but the
      last, then, if that succeeded, the last slice's plan as `c` itself
      would fetch it. */
  lemma LastSliceStep(
    c: Client, eva: string, slices: seq<Label>, now: int, transport: Transport, parse: PlanParse)
    requires slices != [] && DistinctSlicePaths(eva, slices)
    ensures var done := FetchPlanChunks(c, eva, slices[..|slices| - 1], now, transport, parse).1;
      var last := SlicePlan(c, eva, slices[|slices| - 1], now, transport, parse);
      var whole := FetchPlanChunks(c, eva, slices, now, transport, parse).1;
      && (done.Failure? ==> whole == Failure(done.error))
      && (done.Success? && last.Failure? ==> whole == Failure(last.error))
      && (done.Success? && last.Success? ==> whole == Success(done.value + [last.value]))
  {
    var front, slice := slices[..|slices| - 1], slices[|slices| - 1];
    DistinctFront(eva, slices);
    FetchPlanChunksKeepsOtherEntries(c, eva, front, now, transport, parse, SlicePath(eva, slice));
    var c1 := FetchPlanChunks(c, eva, front, now, transport, parse).0;
    SlicePlanOfEntry(c, c1, eva, slice, now, transport, parse);
  }

  /** With distinct slice paths, fetching the slices succeeds exactly when
      every slice's plan, as `c` would fetch it, is a success. */
  lemma {:induction false} FetchPlanChunksSucceedsIff(
    c: Client, eva: string, slices: seq<Label>, now: int, transport: Transport, parse: PlanParse)
    requires DistinctSlicePaths(eva, slices)
    ensures FetchPlanChunks(c, eva, slices, now, transport, parse).1.Success? <==>
      forall i | 0 <= i < |slices| :: SlicePlan(c, eva, slices[i], now, transport, parse).Success?
    decreases |slices|
  {
    FetchPlanChunksReadsEachSlice(c, eva, slices, now, transport, parse);
    if slices != [] {
      var front := slices[..|slices| - 1];
      DistinctFront(eva, slices);
      FetchPlanChunksSucceedsIff(c, eva, front, now, transport, parse);
      LastSliceStep(c, eva, slices, now, transport, parse);
      if forall i | 0 <= i < |slices| :: SlicePlan(c, eva, slices[i], now, transport, parse).Success? {
        forall i | 0 <= i < |front| ensures SlicePlan(c, eva, front[i], now, transport, parse).Success? {
          assert front[i] == slices[i];
        }
      }
    }
  }

  /** With distinct slice paths, when slice `k` is the first whose plan is a
      failure, fetching the slices fails with that slice's error. */
  lemma {:induction false} FetchPlanChunksFirstFailure(
    c: Client, eva: string, slices: seq<Label>, now: int, transport: Transport, parse: PlanParse, k: int)
    requires DistinctSlicePaths(eva, slices)
    requires 0 <= k < |slices| && SlicePlan(c, eva, slices[k], now, transport, parse).Failure?
    requires forall j | 0 <= j < k :: SlicePlan(c, eva, slices[j], now, transport, parse).Success?
    ensures FetchPlanChunks(c, eva, slices, now, transport, parse).1 ==
      Failure(SlicePlan(c, eva, slices[k], now, transport, parse).error)
    decreases |slices|
  {
    var front := slices[..|slices| - 1];
    DistinctFront(eva, slices);
    LastSliceStep(c, eva, slices, now, transport, parse);
    forall j | 0 <= j < |front| ensures front[j] == slices[j] { }
    if k < |front| {
      FetchPlanChunksFirstFailure(c, eva, front, now, transport, parse, k);
    } else {
      FetchPlanChunksSucceedsIff(c, eva, front, now, transport, parse);
    }
  }

  /** The plans of the slices `slices`, each as `c` would fetch it. */
  function SlicePlans(c: Client, eva: string, slices: seq<Label>, now: int, transport: Transport, parse: PlanParse)
    : (r: seq<Result<map<string, PlanEvent>, Error>>)
    ensures |r| == |slices|
    ensures forall i | 0 <= i < |slices| :: r[i] == SlicePlan(c, eva, slices[i], now, transport, parse)
  {
    seq(|slices|, i requires 0 <= i < |slices| => SlicePlan(c, eva, slices[i], now, transport, parse))
  }

  /** With distinct slice paths, a successful fetch of the slices returns
      their plans. */
  lemma SlicePlansAreChunks(
    c: Client, eva: string, slices: seq<Label>, now: int, transport: Transport, parse: PlanParse)
    requires DistinctSlicePaths(eva, slices)
    ensures var chunks := FetchPlanChunks(c, eva, slices, now, transport, parse).1;
      var plans := SlicePlans(c, eva, slices, now, transport, parse);
      chunks.Success? ==> |chunks.value| == |plans| && forall i | 0 <= i < |plans| :: plans[i] == Success(chunks.value[i])
  {
    FetchPlanChunksReadsEachSlice(c, eva, slices, now, transport, parse);
  }

  /** `merged` is what `dict.update` makes of the successful `parts`: its
      keys are theirs, and a key takes its value from the last part holding
      it. */
  ghost predicate UpdatedFrom<V>(merged: map<string, V>, parts: seq<Result<map<string, V>, Error>>) {
    && (forall id :: id in merged <==> exists i | 0 <= i < |parts| :: parts[i].Success? && id in parts[i].value)
    && (forall i, id | 0 <= i < |parts| && parts[i].Success? && id in parts[i].value &&
          (forall j | i < j < |parts| && parts[j].Success? :: id !in parts[j].value) ::
          id in merged && merged[id] == parts[i].value[id])
  }

  /** The union of the maps of successful results is merged from them. */
  lemma UnionOfResults<V>(maps: seq<map<string, V>>, parts: seq<Result<map<string, V>, Error>>)
    requires |maps| == |parts|
    requires forall i | 0 <= i < |parts| :: parts[i] == Success(maps[i])
    ensures UpdatedFrom(UnionAll(maps), parts)
  {
    UnionAllKeys(maps);
    forall i, id | 0 <= i < |parts| && parts[i].Success? && id in parts[i].value &&
        (forall j | i < j < |parts| && parts[j].Success? :: id !in parts[j].value)
      ensures id in UnionAll(maps) && UnionAll(maps)[id] == parts[i].value[id]
    {
      UnionAllLastWins(maps, i, id);
    }
  }

  /** `_collect_plan_entries` with distinct slice paths: on success every
      slice's plan was read, and the requests made are exactly the slices
      the cache could not answer, in slice order. */
  lemma CollectPlanRequestsSlices(
    c: Client, eva: string, start: Time, end: Time, now: int, transport: Transport, parse: PlanParse)
    requires DistinctSlicePaths(eva, TimeSlices(start, end))
    ensures var r := CollectPlan(c, eva, start, end, now, transport, parse);
      var slices := TimeSlices(start, end);
      r.1.Success? ==>
        && r.0.requests == c.requests + MissedSlices(c, eva, slices, now)
        && forall i | 0 <= i < |slices| :: SlicePlan(c, eva, slices[i], now, transport, parse).Success?
  {
    FetchPlanChunksFetchesEachSlice(c, eva, TimeSlices(start, end), now, transport, parse);
  }

  /** `_collect_plan_entries` with distinct slice paths: on success the
      merged plan holds exactly the stop ids of the slices' plans, each taken
      from the last slice that holds it. */
  lemma CollectPlanMergesSlices(
    c: Client, eva: string, start: Time, end: Time, now: int, transport: Transport, parse: PlanParse)
    requires DistinctSlicePaths(eva, TimeSlices(start, end))
    ensures CollectPlan(c, eva, start, end, now, transport, parse).1.Success? ==>
      UpdatedFrom(CollectPlan(c, eva, start, end, now, transport, parse).1.value,
                 SlicePlans(c, eva, TimeSlices(start, end), now, transport, parse))
  {
    var slices := TimeSlices(start, end);
    SlicePlansAreChunks(c, eva, slices, now, transport, parse);
    var chunks := FetchPlanChunks(c, eva, slices, now, transport, parse).1;
    if chunks.Success? {
      UnionOfResults(chunks.value, SlicePlans(c, eva, slices, now, transport, parse));
    }
  }

  /** `_collect_plan_entries` with distinct slice paths succeeds exactly
      when every slice's plan is a success. */
  lemma CollectPlanSucceedsIff(
    c: Client, eva: string, start: Time, end: Time, now: int, transport: Transport, parse: PlanParse)
    requires DistinctSlicePaths(eva, TimeSlices(start, end))
    ensures var slices := TimeSlices(start, end);
      CollectPlan(c, eva, start, end, now, transport, parse).1.Success? <==>
        forall i | 0 <= i < |slices| :: SlicePlan(c, eva, slices[i], now, transport, parse).Success?
  {
    FetchPlanChunksSucceedsIff(c, eva, TimeSlices(start, end), now, transport, parse);
  }

  /** `_collect_plan_entries` with distinct slice paths fails with the error
      of the first slice whose plan is a failure: an error raised by a
      slice's fetch or parse leaves the loop there. */
  lemma CollectPlanFirstFailure(
    c: Client, eva: string, start: Time, end: Time, now: int, transport: Transport, parse: PlanParse, k: int)
    requires DistinctSlicePaths(eva, TimeSlices(start, end))
    requires 0 <= k < |TimeSlices(start, end)|
    requires SlicePlan(c, eva, TimeSlices(start, end)[k], now, transport, parse).Failure?
    requires forall j | 0 <= j < k :: SlicePlan(c, eva, TimeSlices(start, end)[j], now, transport, parse).Success?
    ensures CollectPlan(c, eva, start, end, now, transport, parse).1 ==
      Failure(SlicePlan(c, eva, TimeSlices(start, end)[k], now, transport, parse).error)
  {
    FetchPlanChunksFirstFailure(c, eva, TimeSlices(start, end), now, transport, parse, k);
  }

  /** A plan path names its date and hour labels: with dates of one width,
      equal paths have equal labels. */
  lemma PlanPathInjective(eva: string, date1: string, hour1: string, date2: string, hour2: string)
    requires |date1| == |date2|
    requires PlanPath(eva, date1, hour1) == PlanPath(eva, date2, hour2)
    ensures date1 == date2 && hour1 == hour2
  {
    var head := "/plan/" + eva + "/";
    var s1, s2 := PlanPath(eva, date1, hour1), PlanPath(eva, date2, hour2);
    assert s1 == head + date1 + "/" + hour1 && s2 == head + date2 + "/" + hour2;
    assert s1[|head|..|head| + |date1|] == date1 && s2[|head|..|head| + |date2|] == date2;
    assert s1[|head| + |date1| + 1..] == hour1 && s2[|head| + |date2| + 1..] == hour2;
  }

  /** The slices of a query whose hours all lie in 1969..2068, where
      two-digit years are unambiguous, have pairwise distinct plan paths. */
  lemma TimeSlicesDistinctPaths(eva: string, start: Time, end: Time)
    requires forall h | h in HourSlices(start, end) :: 1969 <= FromSeconds(h * SecondsPerHour).year <= 2068
    ensures DistinctSlicePaths(eva, TimeSlices(start, end))
  {
    var hours, slices := HourSlices(start, end), TimeSlices(start, end);
    forall i, j | 0 <= i < j < |slices| ensures SlicePath(eva, slices[i]) != SlicePath(eva, slices[j]) {
      assert slices[i] == SliceLabel(hours[i]) && slices[j] == SliceLabel(hours[j]);
      assert hours[i] == HourOf(start) + i && hours[j] == HourOf(start) + j;
      if SlicePath(eva, slices[i]) == SlicePath(eva, slices[j]) {
        PlanPathInjective(eva, slices[i].0, slices[i].1, slices[j].0, slices[j].1);
        SliceLabelInjective(hours[i], hours[j]);
      }
    }
  }

  /** One change feed, fetched and parsed: the recent delta or the full
      list. */
  function FetchChangeFeed(c: Client, eva: string, recent: bool, now: int, transport: Transport, read: XmlReader, iso: IsoParser)
    : (r: (Client, Result<map<string, ChangeEvent>, Error>))
    ensures var fetched := if recent then FetchRecentChanges(c, eva, now, transport) else FetchFullChanges(c, eva, now, transport);
      && r.0 == fetched.0
      && (fetched.1.Failure? ==> r.1 == Failure(fetched.1.error))
      && (fetched.1.Success? ==> r.1 == ParseChanges(fetched.1.value, read, iso))
  {
    var (c1, payload) := if recent then FetchRecentChanges(c, eva, now, transport) else FetchFullChanges(c, eva, now, transport);
    match payload
    case Failure(e) => (c1, Failure(e))
    case Success(text) => (c1, ParseChanges(text, read, iso))
  }

  /** `_collect_changes`: the full feed, overlaid record by record with the
      recent feed when asked for. Without `includeRecent` the recent feed is
      never requested. */
  function CollectChanges(c: Client, eva: string, includeRecent: bool, now: int, transport: Transport, read: XmlReader, iso: IsoParser)
    : (r: (Client, Result<map<string, ChangeEvent>, Error>))
    ensures var (c1, full) := FetchChangeFeed(c, eva, false, now, transport, read, iso);
      && (!includeRecent ==> r == (c1, full))
      && (full.Failure? ==> r == (c1, full))
      && (includeRecent && full.Success? ==>
            var (c2, recent) := FetchChangeFeed(c1, eva, true, now, transport, read, iso);
            && r.0 == c2
            && (recent.Failure? ==> r.1 == Failure(recent.error))
            && (recent.Success? ==>
                  && r.1.Success?
                  && r.1.value.Keys == full.value.Keys + recent.value.Keys
                  && (forall id | id in recent.value :: r.1.value[id] == recent.value[id])
                  && (forall id | id in full.value && id !in recent.value :: r.1.value[id] == full.value[id])))
  {
    var (c1, full) := FetchChangeFeed(c, eva, false, now, transport, read, iso);
    if full.Failure? || !includeRecent then (c1, full)
    else
      var (c2, recent) := FetchChangeFeed(c1, eva, true, now, transport, read, iso);
      match recent
      case Failure(e) => (c2, Failure(e))
      case Success(delta) => (c2, Success(full.value + delta))
  }

  /** Without recent changes, at most the full feed is requested. */
  lemma CollectChangesWithoutRecent(c: Client, eva: string, now: int, transport: Transport, read: XmlReader, iso: IsoParser)
    ensures var c1 := CollectChanges(c, eva, false, now, transport, read, iso).0;
      && c.requests <= c1.requests
      && forall i | |c.requests| <= i < |c1.requests| :: c1.requests[i] == FullChangesPath(eva)
  {
  }

  /** Both collections, plan first, on the client the plan leaves behind. */
  function Collect(c: Client, eva: string, start: Time, end: Time, includeRecent: bool, now: int, transport: Transport, read: XmlReader, iso: IsoParser)
    : (r: (Client, Result<(map<string, PlanEvent>, map<string, ChangeEvent>), Error>))
    ensures var (c1, plan) := CollectPlan(c, eva, start, end, now, transport, PlanParser(read, iso));
      && (plan.Failure? ==> r == (c1, Failure(plan.error)))
      && (plan.Success? ==>
            var (c2, changes) := CollectChanges(c1, eva, includeRecent, now, transport, read, iso);
            && r.0 == c2
            && (changes.Failure? ==> r.1 == Failure(changes.error))
            && (changes.Success? ==> r.1 == Success((plan.value, changes.value))))
  {
    var (c1, plan) := CollectPlan(c, eva, start, end, now, transport, PlanParser(read, iso));
    match plan
    case Failure(e) => (c1, Failure(e))
    case Success(p) =>
      var (c2, changes) := CollectChanges(c1, eva, includeRecent, now, transport, read, iso);
      match changes
      case Failure(e) => (c2, Failure(e))
      case Success(ch) => (c2, Success((p, ch)))
  }

  // ---------------------------------------------------------------------------
  // Merging one stop

  /** One departure as reported: times rendered as ISO text. `messages` is
      `None` where the source leaves the key out. */
  datatype DepartureView = DepartureView(
    stopId: string,
    stationEva: Option<string>,
    departurePlanned: Option<string>,
    departureActual: Option<string>,
    delayMinutes: Option<int>,
    platformPlanned: Option<string>,
    platformActual: Option<string>,
    status: Option<string>,
    destinationName: Option<string>,
    trainCategory: Option<string>,
    trainNumber: Option<string>,
    operator: Option<string>,
    messages: Option<seq<MessageView>>)

  function PlannedTime(plan: Option<PlanEvent>): Option<Time> {
    if plan.Some? then plan.value.plannedDeparture else None
  }

  function ChangedTime(change: Option<ChangeEvent>): Option<Time> {
    if change.Some? then change.value.actualDeparture else None
  }

  /** The message groups in merge order: plan remarks, departure messages,
      station messages; a missing record or key gives an empty group. */
  function MessageGroups(plan: Option<PlanEvent>, change: Option<ChangeEvent>): seq<seq<Message>> {
    [ if plan.Some? then plan.value.remarks else [],
      if change.Some? then change.value.messages else [],
      if change.Some? && change.value.stationMessages.Some? then change.value.stationMessages.value else [] ]
  }

  /** Whole minutes from `planned` to `actual`, rounded down. */
  function DelayMinutes(actual: Time, planned: Time): (d: int)
    ensures d * 60 <= actual - planned < d * 60 + 60
  {
    (actual - planned) / 60
  }

  /** `_merge_plan_and_changes` for one stop id. */
  function MergeRecord(stopId: string, plan: Option<PlanEvent>, change: Option<ChangeEvent>): (r: DepartureView)
    ensures r.stopId == stopId
    // the actual time falls back to the planned one; a delay exactly when a
    // planned time exists, rounded down to whole minutes, zero without an
    // actual time of the change
    ensures r.departurePlanned == ToJsonable(PlannedTime(plan))
    ensures r.departureActual == ToJsonable(FirstSome(ChangedTime(change), PlannedTime(plan)))
    ensures r.departureActual.Some? <==> ChangedTime(change).Some? || PlannedTime(plan).Some?
    ensures r.delayMinutes.Some? <==> PlannedTime(plan).Some?
    ensures r.delayMinutes.Some? ==>
      var actual := FirstSome(ChangedTime(change), PlannedTime(plan)).value;
      var planned := PlannedTime(plan).value;
      r.delayMinutes.value * 60 <= actual - planned < r.delayMinutes.value * 60 + 60
    ensures PlannedTime(plan).Some? && ChangedTime(change).None? ==> r.delayMinutes == Some(0)
    // the change wins for these when its value is non-empty
    ensures change.Some? && Present(change.value.stationEva) ==> r.stationEva == change.value.stationEva
    ensures change.Some? && Present(change.value.actualPlatform) ==> r.platformActual == change.value.actualPlatform
    ensures change.Some? && Present(change.value.destination) ==> r.destinationName == change.value.destination
    ensures (change.None? || !Present(change.value.stationEva)) ==>
      r.stationEva == (if plan.Some? then plan.value.stationEva else None)
    ensures (change.None? || !Present(change.value.actualPlatform)) ==>
      r.platformActual == (if plan.Some? then plan.value.plannedPlatform else None)
    ensures (change.None? || !Present(change.value.destination)) ==>
      r.destinationName == (if plan.Some? then plan.value.plannedDestination else None)
    // status only from the change, planned platform and train only from the plan
    ensures r.status == (if change.Some? then change.value.status else None)
    ensures r.platformPlanned == (if plan.Some? then plan.value.plannedPlatform else None)
    ensures plan.None? || plan.value.plannedLine.None? ==>
      r.trainCategory.None? && r.trainNumber.None? && r.operator.None?
    ensures plan.Some? && plan.value.plannedLine.Some? ==>
      var line := plan.value.plannedLine.value;
      r.trainCategory == line.category && r.trainNumber == line.number && r.operator == line.operator
    // the messages key only when some message survives
    ensures r.messages.Some? <==> MergeMessages(MessageGroups(plan, change)) != []
    ensures r.messages.Some? ==> r.messages.value == MergeMessages(MessageGroups(plan, change))
  {
    var planned := PlannedTime(plan);
    var actual := FirstSome(ChangedTime(change), planned);
    var line := if plan.Some? then plan.value.plannedLine else None;
    var messages := MergeMessages(MessageGroups(plan, change));
    DepartureView(
      stopId := stopId,
      stationEva := OrElse(if change.Some? then change.value.stationEva else None,
                           if plan.Some? then plan.value.stationEva else None),
      departurePlanned := ToJsonable(planned),
      departureActual := ToJsonable(actual),
      delayMinutes := if actual.Some? && planned.Some? then Some(DelayMinutes(actual.value, planned.value)) else None,
      platformPlanned := if plan.Some? then plan.value.plannedPlatform else None,
      platformActual := OrElse(if change.Some? then change.value.actualPlatform else None,
                               if plan.Some? then plan.value.plannedPlatform else None),
      status := if change.Some? then change.value.status else None,
      destinationName := OrElse(if change.Some? then change.value.destination else None,
                                if plan.Some? then plan.value.plannedDestination else None),
      trainCategory := if line.Some? then line.value.category else None,
      trainNumber := if line.Some? then line.value.number else None,
      operator := if line.Some? then line.value.operator else None,
      messages := if messages != [] then Some(messages) else None)
  }

  /** The record the merge produces for `id`. */
  function RecordFor(id: string, plan: map<string, PlanEvent>, changes: map<string, ChangeEvent>): DepartureView {
    MergeRecord(id, Get(plan, id), Get(changes, id))
  }

  /** `_merge_plan_and_changes`: one record per stop id known to the plan or
      the changes, in no particular order (the source walks a set). */
  method MergeAll(plan: map<string, PlanEvent>, changes: map<string, ChangeEvent>) returns (merged: seq<DepartureView>)
    ensures |merged| == |plan.Keys + changes.Keys|
    ensures MergedFrom(merged, plan, changes)
  {
    var order := Enumerate(plan.Keys + changes.Keys);
    merged := RecordsFor(order, plan, changes);
    EnumeratedRecords(order, merged, plan, changes);
  }

  /** The records for the ids of `order`, position by position. */
  function RecordsFor(order: seq<string>, plan: map<string, PlanEvent>, changes: map<string, ChangeEvent>): (r: seq<DepartureView>)
    ensures |r| == |order|
    ensures forall i | 0 <= i < |r| :: r[i] == RecordFor(order[i], plan, changes)
  {
    seq(|order|, i requires 0 <= i < |order| => RecordFor(order[i], plan, changes))
  }

  /** Records built for an enumeration of all ids are what the merge
      promises. */
  lemma EnumeratedRecords(order: seq<string>, merged: seq<DepartureView>, plan: map<string, PlanEvent>, changes: map<string, ChangeEvent>)
    requires forall i | 0 <= i < |order| :: order[i] in plan.Keys + changes.Keys
    requires forall i, j | 0 <= i < j < |order| :: order[i] != order[j]
    requires forall x | x in plan.Keys + changes.Keys :: x in order
    requires |merged| == |order| && forall i | 0 <= i < |merged| :: merged[i] == RecordFor(order[i], plan, changes)
    ensures MergedFrom(merged, plan, changes)
  {
    forall i | 0 <= i < |merged|
      ensures merged[i].stopId == order[i]
    {
      assert merged[i] == MergeRecord(order[i], Get(plan, order[i]), Get(changes, order[i]));
    }
    forall id | id in plan.Keys + changes.Keys
      ensures exists i | 0 <= i < |merged| :: merged[i].stopId == id
    {
      var i :| 0 <= i < |order| && order[i] == id;
      assert merged[i].stopId == id;
    }
  }

  /** The elements of `s`, each once, in an order the model leaves open (the
      source iterates a Python set). */
  method Enumerate(s: set<string>) returns (order: seq<string>)
    ensures |order| == |s|
    ensures forall i | 0 <= i < |order| :: order[i] in s
    ensures forall i, j | 0 <= i < j < |order| :: order[i] != order[j]
    ensures forall x | x in s :: x in order
  {
    var remaining := s;
    order := [];
    while remaining != {}
      invariant remaining !! set x | x in order
      invariant remaining + (set x | x in order) == s
      invariant |order| == |s| - |remaining|
      invariant forall i, j | 0 <= i < j < |order| :: order[i] != order[j]
      decreases |remaining|
    {
      var x :| x in remaining;
      order := order + [x];
      remaining := remaining - {x};
    }
  }

  // ---------------------------------------------------------------------------
  // Filtering and ordering

  /** The time a record is filtered and ordered by: its actual time read back
      from the rendered text, else its planned time. */
  function Pivot(v: DepartureView, iso: IsoParser): Option<Time> {
    FirstSome(ParseTime(v.departureActual, iso), ParseTime(v.departurePlanned, iso))
  }

  /** When the library parser reads rendered times back, a record's pivot
      is the change's actual time, else the planned time, and the record is
      kept exactly when that time lies in `[start, end]`. */
  lemma PivotOfRecord(id: string, plan: Option<PlanEvent>, change: Option<ChangeEvent>, start: Time, end: Time, iso: IsoParser)
    requires ReadsBack(iso, ChangedTime(change)) && ReadsBack(iso, PlannedTime(plan))
    ensures Pivot(MergeRecord(id, plan, change), iso) == FirstSome(ChangedTime(change), PlannedTime(plan))
    ensures InWindow(MergeRecord(id, plan, change), start, end, iso) <==>
      var t := FirstSome(ChangedTime(change), PlannedTime(plan));
      t.Some? && start <= t.value <= end
  {
    var v := MergeRecord(id, plan, change);
    var actual := FirstSome(ChangedTime(change), PlannedTime(plan));
    assert ReadsBack(iso, actual);
    assert ParseTime(v.departureActual, iso) == actual;
  }

  predicate InWindow(v: DepartureView, start: Time, end: Time, iso: IsoParser) {
    Pivot(v, iso).Some? && start <= Pivot(v, iso).value <= end
  }

  /** `_filter_by_interval`: the records with a pivot in `[start, end]`, both
      ends included, in their order. */
  function FilterByInterval(views: seq<DepartureView>, start: Time, end: Time, iso: IsoParser): (r: seq<DepartureView>)
    ensures multiset(r) <= multiset(views)
    ensures forall v :: v in r <==> v in views && InWindow(v, start, end, iso)
    ensures forall v :: multiset(r)[v] == if InWindow(v, start, end, iso) then multiset(views)[v] else 0
  {
    Filter(views, v => InWindow(v, start, end, iso))
  }

  /** Filtering the records in two runs keeps each run's records in order. */
  lemma FilterByIntervalAppend(a: seq<DepartureView>, b: seq<DepartureView>, start: Time, end: Time, iso: IsoParser)
    ensures FilterByInterval(a + b, start, end, iso) == FilterByInterval(a, start, end, iso) + FilterByInterval(b, start, end, iso)
  {
    FilterAppend(a, b, v => InWindow(v, start, end, iso));
  }

  /** The sort key; every record reaching the sort has a pivot. */
  function Key(v: DepartureView, iso: IsoParser): int {
    match Pivot(v, iso)
    case Some(t) => t
    case None => 0
  }

  function KeyOf(iso: IsoParser): DepartureView -> int {
    v => Key(v, iso)
  }

  /** `filtered.sort(key=pivot)`: ascending pivots, the same records. */
  function SortByPivot(vs: seq<DepartureView>, iso: IsoParser): (r: seq<DepartureView>)
    ensures SortedBy(r, KeyOf(iso))
    ensures multiset(r) == multiset(vs)
  {
    SortBy(vs, KeyOf(iso))
  }

  /** Python's sort is stable: records with equal pivots keep their order. */
  lemma SortByPivotStable(vs: seq<DepartureView>, k: int, iso: IsoParser)
    ensures WithKey(SortByPivot(vs, iso), k, KeyOf(iso)) == WithKey(vs, k, KeyOf(iso))
  {
    SortByStable(vs, k, KeyOf(iso));
  }

  // ---------------------------------------------------------------------------
  // The whole query

  /** The departures of a query over the collected `plan` and `changes`:
      exactly the merged records whose pivot lies in `[start, end]`, one per
      stop id, ordered by pivot. */
  predicate IsReconciled(
    out: seq<DepartureView>, plan: map<string, PlanEvent>, changes: map<string, ChangeEvent>,
    start: Time, end: Time, iso: IsoParser)
  {
    && SortedBy(out, KeyOf(iso))
    && (forall i | 0 <= i < |out| ::
          && out[i].stopId in plan.Keys + changes.Keys
          && out[i] == RecordFor(out[i].stopId, plan, changes)
          && InWindow(out[i], start, end, iso))
    && DistinctIds(out)
    && (forall id | id in plan.Keys + changes.Keys && InWindow(RecordFor(id, plan, changes), start, end, iso) ::
          exists i | 0 <= i < |out| :: out[i].stopId == id)
  }

  /** Filter then sort the merged records. */
  method Arrange(merged: seq<DepartureView>, start: Time, end: Time, iso: IsoParser) returns (out: seq<DepartureView>)
    ensures SortedBy(out, KeyOf(iso))
    ensures multiset(out) == multiset(FilterByInterval(merged, start, end, iso))
  {
    out := SortByPivot(FilterByInterval(merged, start, end, iso), iso);
  }

  /** `get_departures`. Validation failures leave the client untouched (so
      nothing was fetched); fetch and parse failures surface as they are,
      with whatever the fetches before them left in the cache. */
  method GetDepartures(
    c: Client, stationId: string, start: Time, end: Time, includeRecent: bool,
    now: int, transport: Transport, read: XmlReader, iso: IsoParser)
    returns (after: Client, r: Result<seq<DepartureView>, Error>)
    ensures Validate(stationId, start, end).Some? ==> after == c && r == Failure(Validate(stationId, start, end).value)
    ensures Validate(stationId, start, end).None? ==>
      var (c1, collected) := Collect(c, stationId, start, end, includeRecent, now, transport, read, iso);
      && after == c1
      && (collected.Failure? ==> r == Failure(collected.error))
      && (collected.Success? ==> r.Success? && IsReconciled(r.value, collected.value.0, collected.value.1, start, end, iso))
  {
    var invalid := Validate(stationId, start, end);
    if invalid.Some? {
      return c, Failure(invalid.value);
    }
    var (c1, collected) := Collect(c, stationId, start, end, includeRecent, now, transport, read, iso);
    after := c1;
    if collected.Failure? {
      return after, Failure(collected.error);
    }
    var (plan, changes) := collected.value;
    var merged := MergeAll(plan, changes);
    var out := Arrange(merged, start, end, iso);
    ArrangedIsReconciled(merged, out, plan, changes, start, end, iso);
    r := Success(out);
  }

  /** What `MergeAll` promises about its output. */
  predicate MergedFrom(merged: seq<DepartureView>, plan: map<string, PlanEvent>, changes: map<string, ChangeEvent>) {
    && (forall i | 0 <= i < |merged| ::
          merged[i].stopId in plan.Keys + changes.Keys && merged[i] == RecordFor(merged[i].stopId, plan, changes))
    && DistinctIds(merged)
    && (forall id | id in plan.Keys + changes.Keys :: exists i | 0 <= i < |merged| :: merged[i].stopId == id)
  }

  /** Filtering and sorting the merged records yields the departures. */
  lemma ArrangedIsReconciled(
    merged: seq<DepartureView>, out: seq<DepartureView>,
    plan: map<string, PlanEvent>, changes: map<string, ChangeEvent>,
    start: Time, end: Time, iso: IsoParser)
    requires MergedFrom(merged, plan, changes)
    requires SortedBy(out, KeyOf(iso))
    requires multiset(out) == multiset(FilterByInterval(merged, start, end, iso))
    ensures IsReconciled(out, plan, changes, start, end, iso)
  {
    ArrangedFromMerged(merged, out, start, end, iso);
    SubMultisetKeepsDistinct(merged, out);
    ArrangedComplete(merged, out, plan, changes, start, end, iso);
  }

  /** Every arranged record is a merged record in the window. */
  lemma ArrangedFromMerged(merged: seq<DepartureView>, out: seq<DepartureView>, start: Time, end: Time, iso: IsoParser)
    requires multiset(out) == multiset(FilterByInterval(merged, start, end, iso))
    ensures forall i | 0 <= i < |out| :: out[i] in merged && InWindow(out[i], start, end, iso)
    ensures multiset(out) <= multiset(merged)
  {
    var kept := FilterByInterval(merged, start, end, iso);
    forall i | 0 <= i < |out|
      ensures out[i] in merged && InWindow(out[i], start, end, iso)
    {
      assert out[i] in multiset(out);
      assert out[i] in kept;
    }
  }

  /** Every merged record in the window is arranged. */
  lemma ArrangedComplete(
    merged: seq<DepartureView>, out: seq<DepartureView>,
    plan: map<string, PlanEvent>, changes: map<string, ChangeEvent>,
    start: Time, end: Time, iso: IsoParser)
    requires MergedFrom(merged, plan, changes)
    requires multiset(out) == multiset(FilterByInterval(merged, start, end, iso))
    ensures forall id | id in plan.Keys + changes.Keys && InWindow(RecordFor(id, plan, changes), start, end, iso) ::
      exists i | 0 <= i < |out| :: out[i].stopId == id
  {
    var kept := FilterByInterval(merged, start, end, iso);
    forall id | id in plan.Keys + changes.Keys && InWindow(RecordFor(id, plan, changes), start, end, iso)
      ensures exists i | 0 <= i < |out| :: out[i].stopId == id
    {
      var a :| 0 <= a < |merged| && merged[a].stopId == id;
      assert merged[a] in kept;
      assert merged[a] in multiset(out);
      var i :| 0 <= i < |out| && out[i] == merged[a];
    }
  }

  predicate DistinctIds(vs: seq<DepartureView>) {
    forall i, j | 0 <= i < j < |vs| :: vs[i].stopId != vs[j].stopId
  }

  /** A list with pairwise distinct stop ids holds each record at most once. */
  lemma {:induction false} DistinctOnce(vs: seq<DepartureView>, v: DepartureView)
    requires DistinctIds(vs)
    ensures multiset(vs)[v] <= 1
  {
    if vs != [] {
      assert vs == [vs[0]] + vs[1..];
      assert DistinctIds(vs[1..]) by {
        forall i, j | 0 <= i < j < |vs[1..]| ensures vs[1..][i].stopId != vs[1..][j].stopId {
          assert vs[1..][i] == vs[i + 1] && vs[1..][j] == vs[j + 1];
        }
      }
      DistinctOnce(vs[1..], v);
      if v == vs[0] {
        assert v !in vs[1..] by {
          forall i | 0 <= i < |vs[1..]| ensures vs[1..][i] != v {
            assert vs[1..][i] == vs[i + 1];
          }
        }
      }
    }
  }

  /** Reordering and dropping records keeps stop ids distinct. */
  lemma SubMultisetKeepsDistinct(a: seq<DepartureView>, b: seq<DepartureView>)
    requires DistinctIds(a) && multiset(b) <= multiset(a)
    ensures DistinctIds(b)
  {
    forall i, j | 0 <= i < j < |b| ensures b[i].stopId != b[j].stopId {
      if b[i].stopId == b[j].stopId {
        assert b[i] in multiset(a) && b[j] in multiset(a);
        var x :| 0 <= x < |a| && a[x] == b[i];
        var y :| 0 <= y < |a| && a[y] == b[j];
        assert x == y;
        assert b == b[..i] + [b[i]] + b[i + 1..j] + [b[j]] + b[j + 1..];
        assert multiset(b)[b[i]] >= 2;
        DistinctOnce(a, b[i]);
        assert false;
      }
    }
  }
}
