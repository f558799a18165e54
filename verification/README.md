# bahnapi timetable reconciliation, modelled in Dafny

This project models the core of `bahnapi`, a small client for the Deutsche
Bahn timetable API. It covers the pipeline that turns a departure query into
one ordered list of departures:

- the query is validated;
- the hour slices of the interval are enumerated, and the plan slice for each
  hour is fetched through a read-through cache with a per-resource
  time-to-live;
- the full change feed is fetched, overlaid with the recent feed when asked;
- the element trees of these payloads are parsed into plan and change records
  keyed by stop id;
- each stop id gets one departure record with field precedence rules, delay
  in whole minutes, and first-id-wins message deduplication;
- the records whose pivot time (actual, else planned) lies in the inclusive
  interval are kept, ordered by that pivot with a stable sort.

It also models station search and resolution, the timestamp decoder with its
fixed-width numeric fallback, the HTTP status classification, and the
credential check of the client constructor.

Modules, one per source component:

| module | models |
|---|---|
| `Common` | `Option`, `Result`, Python's `or` on optional strings (`OrElse`) |
| `Errors` | the exception hierarchy as one `Error` datatype |
| `Calendar` | naive date-times as whole seconds since 0001-01-01, both directions |
| `Text` | digits, `str.strip`, `str.split`, `str.join` |
| `Times` | `parse_time`, `to_jsonable` (`utils.py`) |
| `Xml` | an abstract element tree with `find`, `findall`, `.//tag` |
| `Parsers` | `parsers.py` |
| `Client` | `client.py`: credentials, status mapping, cache, the four resources |
| `Stations` | `stations.py` |
| `Slices` | `_iter_time_slices` |
| `Messages` | `_merge_messages` |
| `Sorting` | stable `list.sort(key=...)` and list filtering, for any element type |
| `Departures` | `departures.py` |

Outside code becomes parameters:

- The network is a `Transport`, a function from request path to
  `(status, body)`. Each call takes its own transport.
- The clock is an integer `now`, read once per cached fetch as the source
  does, and held fixed for a whole departure query.
- `datetime.fromisoformat` is an `IsoParser` parameter.
- `xml.etree.ElementTree.fromstring` is an `XmlReader` parameter that returns
  an element tree, or `None` for malformed text.
- The plan-slice fetches take the payload parser as a `PlanParse` parameter.
  `Departures.Collect` passes `parse_plan` over the reader and the ISO parser
  (`Departures.PlanParser`), so the slice lemmas hold for any parser.

The client is an immutable value. Every operation returns the client it leaves
behind. That client carries the cache and a log of the paths sent to the
transport, so "served from the cache without a request" can be stated.

## Model

| member | source | states |
|---|---|---|
| `Common.OrElse` | src/bahnapi/departures.py:124-133 | Python's `a or b` on optional strings: the result is non-empty iff either side is, and it is `a` exactly when `a` is non-empty |
| `Times.ParseTime` | src/bahnapi/utils.py:7-29 | missing or empty text gives `None`; an ISO parse wins; when the ISO parse fails, text of length 10 or 12 gives exactly its fixed-width decoding and any other length gives `None` |
| `Times.DecodeFixed` | src/bahnapi/utils.py:22-28 | a decoded value means the text has the full-length shape of strptime's patterns: digits throughout, except that the day may also be a space followed by a digit `1`-`9`; the fields, with such a space read as `0`, name a valid date-time, and the value is that date-time |
| `Times.DecodeAsZeroPadded` | src/bahnapi/utils.py:24-26 | a day written as a space and a digit decodes exactly as the same day written with a leading zero |
| `Times.DecodeFormatted` | src/bahnapi/utils.py:24-26 | a whole-minute time written as `YYMMDDHHMM` (years 1969-2068) or `YYYYMMDDHHMM` (years up to 9999) decodes back to itself |
| `Times.ParseTwelveDigits` | src/bahnapi/utils.py:26 | round trip of `parse_time` on the 12-digit form when the ISO parser rejects it |
| `Times.DecodedIsFormatted` | src/bahnapi/utils.py:22-28 | the converse: anything the fallback accepts is the fixed-width text of the instant it returns, or that text with a one-digit day's leading zero written as a space; any other character and any out-of-range field give `None` |
| `Times.DecodeSpacePadded` | src/bahnapi/utils.py:24-26 | a whole-minute time with a one-digit day, written with a space before the day, decodes back to itself (years 1969-2068 for the 10-character form, up to 9999 for the 12-character form) |
| `Times.SpacePaddedExample` | src/bahnapi/utils.py:25 | `2403 11000` decodes to 1 March 2024, 10:00 |
| `Times.ToJsonable` | src/bahnapi/utils.py:32-38 | `None` stays `None`, every time becomes a non-empty string |
| `Times.IsoFormatFields` | src/bahnapi/utils.py:36-38 | the ISO text has 19 characters and carries year, month, day, hour, minute and second as digits at fixed positions |
| `Times.ToJsonableInjective` | src/bahnapi/utils.py:36-38 | below year 10000, two instants with the same ISO text are equal |
| `Calendar.FromSeconds` | src/bahnapi/departures.py:195-200 | the calendar date-time of an instant is valid and converts back to the same instant |
| `Calendar.ToSecondsInjective` | src/bahnapi/departures.py:195-200 | distinct valid date-times are distinct instants |
| `Xml.Tagged` | src/bahnapi/parsers.py:37 | `findall(tag)` holds exactly the children with the tag, and never more elements than there are children |
| `Xml.TaggedCount` | src/bahnapi/parsers.py:37 | a child with the tag occurs in `findall(tag)` as often as among the children, any other element not at all |
| `Xml.TaggedAppend` | src/bahnapi/parsers.py:37 | `findall` over two runs of children is the first run's result followed by the second's, so document order is kept |
| `Xml.TaggedSplit` | src/bahnapi/parsers.py:37 | a tagged child sits in `findall` right after the tagged children before it and is followed by exactly the tagged children after it |
| `Xml.Find` | src/bahnapi/parsers.py:42-45 | `find(tag)` is `None` iff no child has the tag, else a child with the tag, the first of `findall(tag)` |
| `Xml.FindIsFirst` | src/bahnapi/parsers.py:42-45 | no child before the one `find(tag)` returns has the tag |
| `Xml.Descendants` | src/bahnapi/parsers.py:15 | the subtrees of the given roots: every root and every child of an element in it, and nothing that is not a root or a child of an earlier element |
| `Xml.DescendantsOne` | src/bahnapi/parsers.py:15 | the subtree of one element is the element, then the subtrees of its children, which with `DescendantsAppend` is document order |
| `Xml.DescendantsAppend` | src/bahnapi/parsers.py:15 | the subtrees of two runs of roots come one run after the other |
| `Xml.FindAllBelowAround` | src/bahnapi/parsers.py:15 | `.//tag` lists the matches below earlier children, then the child itself if tagged, then the matches below it, then those below later children |
| `Xml.FindAllBelow` | src/bahnapi/parsers.py:15 | `.//tag` holds exactly the elements with the tag below the root, each as often as it occurs there |
| `Parsers.ExtractMessages` | src/bahnapi/parsers.py:130-148 | one message per element, in element order, each built from the fixed attributes and the element text |
| `Parsers.ExtractLineInfo` | src/bahnapi/parsers.py:116-127 | no `tl` element means no line; otherwise category, number and operator come from `c`, `n`, `o` |
| `Parsers.SplitPath` | src/bahnapi/parsers.py:110-113 | a missing or empty path gives no segments; every segment is non-empty, stripped and free of the pipe character |
| `Parsers.SplitPathOfJoined` | src/bahnapi/parsers.py:110-113 | segments keep order and content: stops joined by pipes split back into exactly those stops |
| `Parsers.SplitPathOfPieces` | src/bahnapi/parsers.py:110-113 | any pieces without a pipe, joined by pipes, split into `NonBlank` of the pieces: their stripped forms, blanks dropped, in order |
| `Parsers.NonBlankConcat` | src/bahnapi/parsers.py:113 | the kept pieces of two runs are those of the first run followed by those of the second |
| `Parsers.NonBlankOne` | src/bahnapi/parsers.py:113 | a single piece is kept, stripped, exactly when its stripped form is not empty |
| `Parsers.SplitPathTwo` | src/bahnapi/parsers.py:110-113 | two stops padded with white space and joined by a pipe split into the two stops without their padding |
| `Parsers.Destination` | src/bahnapi/parsers.py:56 | the destination is the last segment, and `None` iff the path is empty |
| `Parsers.StopIndexKeys` | src/bahnapi/parsers.py:37-50 | the stops kept by id are exactly those with a non-empty `id` and a `dp` child |
| `Parsers.StopIndexLastWins` | src/bahnapi/parsers.py:37-50 | a repeated id keeps its last occurrence |
| `Parsers.BuildPlan` | src/bahnapi/parsers.py:47-58 | the record carries the stop's id and `eva`; the planned time is `pt` parsed by `parse_time`; the platform is `pp`; the route is `ppth` split into stops, and the destination is its last stop, `None` iff the route is empty; the line comes from the stop's `tl` child, `None` iff there is none; the remarks are one message per `m` child of the stop, in order |
| `Parsers.BuildChange` | src/bahnapi/parsers.py:85-105 | stop id and station EVA from the stop; `ct` wins over `rt` whenever it is non-empty, even when unparseable; platform from `cp`, status from `cs`; the path is the split `ppth` and the destination is its last segment, absent iff the path is empty; departure messages come from `dp`; station messages are present iff the stop has `m` children |
| `Parsers.PlanFromTree` | src/bahnapi/parsers.py:37-63 | the plan's keys are exactly the ids of stops with an id and a `dp` child, each record carrying its key |
| `Parsers.PlanFromTreeLastWins` | src/bahnapi/parsers.py:50-63 | a repeated stop id gets the plan record of its last occurrence among the `s` children `findall` returns |
| `Parsers.LastStopIsLastOccurrence` | src/bahnapi/parsers.py:37 | the last kept `s` child with an id in document order is the last occurrence of that id in `findall("s")` |
| `Parsers.PlanFromTreeLastInDocument` | src/bahnapi/parsers.py:37-63 | a repeated stop id gets the plan record of the last kept `s` child with that id in document order |
| `Parsers.ChangesFromTree` | src/bahnapi/parsers.py:76-100 | the same key rule for change feeds |
| `Parsers.ChangesFromTreeLastWins` | src/bahnapi/parsers.py:87-105 | a repeated stop id gets the change record of its last occurrence among the `s` children `findall` returns |
| `Parsers.ChangesFromTreeLastInDocument` | src/bahnapi/parsers.py:76-105 | a repeated stop id gets the change record of the last kept `s` child with that id in document order |
| `Parsers.ParsePlan` | src/bahnapi/parsers.py:29-34 | empty text gives an empty plan; unreadable text is an error, and only that |
| `Parsers.ParseChanges` | src/bahnapi/parsers.py:68-73 | empty text gives no changes; unreadable text is an error, and only that |
| `Parsers.StationOf` | src/bahnapi/parsers.py:17-24 | `name`, `eva`, `ds100` and `meta` come from the attributes of those names, `platform` from `p`, and every attribute is kept raw |
| `Parsers.ParseStationList` | src/bahnapi/parsers.py:9-26 | empty text gives no stations; unreadable text is an error; otherwise record `i` is built from match `i` of `.//station`, whose order is document order by `Xml.FindAllBelowAround` |
| `Client.NewClient` | src/bahnapi/client.py:39-46 | each credential is the first non-empty of argument, setting and environment; the constructor fails with an authentication error iff either ends up empty, and otherwise starts with an empty cache and no requests |
| `Client.CheckStatus` | src/bahnapi/client.py:100-109 | success iff the status is outside 400..599, with the body intact; 401/403 give an authentication error, 429 a rate-limit error, and any other 4xx/5xx an upstream error carrying the first 200 characters of the body |
| `Client.CachedGet` | src/bahnapi/client.py:82-94 | a live entry (expiry strictly after `now`) is returned with no request; otherwise exactly one request is made and its verdict returned; a success stores `now + ttl` under the path only; a failure leaves the cache unchanged |
| `Client.CachedGetRepeats` | src/bahnapi/client.py:82-94 | a second fetch of a path before its entry expires returns the same payload and sends nothing, whatever the server would answer |
| `Client.CachedGetKeepsCacheFromRequests` | src/bahnapi/client.py:90-93 | every cached path was requested at some point |
| `Client.FetchPlan` | src/bahnapi/client.py:65-67 | path `/plan/{eva}/{date}/{hour}`, an entry stored on a miss expires after 3600 s |
| `Client.FetchFullChanges` | src/bahnapi/client.py:69-71 | path `/fchg/{eva}`, 30 s |
| `Client.FetchRecentChanges` | src/bahnapi/client.py:73-75 | path `/rchg/{eva}`, 30 s |
| `Client.FetchStation` | src/bahnapi/client.py:77-79 | path `/station/{pattern}`, 43200 s |
| `Client.ResourcePathsDisjoint` | src/bahnapi/client.py:65-79 | the four resource kinds never share a cache key |
| `Stations.Truncate` | src/bahnapi/stations.py:28-29 | the result is a prefix; without a limit it is everything; with limit `l >= 0` its length is `min(l, n)`; a negative limit drops that many from the end |
| `Stations.SearchStations` | src/bahnapi/stations.py:10-34 | an empty pattern is an error with the client untouched, so no request; otherwise a fetch failure is the result, and after a successful fetch the result is the parse error, or else the parsed list cut to `limit` |
| `Stations.Resolve` | src/bahnapi/stations.py:47-58 | success iff exactly one match with a non-empty EVA number; no match is not-found; several give an ambiguity error with the count and the names of the first five; one match without EVA is an error |
| `Stations.ResolveStationEva` | src/bahnapi/stations.py:37-58 | resolution runs on an unlimited search and passes its failures on |
| `Stations.ResolvedIsOnlyMatch` | src/bahnapi/stations.py:47-58 | a resolved EVA number implies a non-empty pattern and a search with exactly that one match |
| `Stations.JoinNames` | src/bahnapi/stations.py:51 | `", ".join` over optional names fails iff some name is missing |
| `Stations.ResolveStationEvaAsWritten` | src/bahnapi/stations.py:37-58 | the lookup as written agrees with `ResolveStationEva` exactly when at most one station matched or all of the first five names exist |
| `Stations.ResolveAsWritten` | src/bahnapi/stations.py:50-54 | as written, the ambiguity error is reported only when all of the first five names exist |
| `Stations.AmbiguityWithNamelessStation` | src/bahnapi/stations.py:50-54 | two matches, the first nameless: as written the lookup raises a type error where an ambiguity error is meant |
| `Slices.HoursFrom` | src/bahnapi/departures.py:198-201 | consecutive hours from `first` to `last`, none when `first > last` |
| `Slices.HourSlices` | src/bahnapi/departures.py:189-201 | for `start <= end` there are `hour(end) - hour(start) + 1` slices, from the truncated hour of start to that of end, each one hour after the previous |
| `Slices.SlicesCover` | src/bahnapi/departures.py:189-201 | every instant of `[start, end]` lies in some slice, and every slice meets the interval |
| `Slices.SliceLabel` | src/bahnapi/departures.py:200 | the date label has six digits and the hour label two |
| `Slices.SliceLabelNamesHour` | src/bahnapi/departures.py:200 | for years 1969-2068 the labels read back as `YYMMDDHH00` give the slice's first instant |
| `Slices.SliceLabelInjective` | src/bahnapi/departures.py:200 | distinct slices of those years have distinct labels |
| `Slices.TimeSlices` | src/bahnapi/departures.py:189-201 | one `(date, hour)` label pair per hour slice, in slice order |
| `Messages.View` | src/bahnapi/departures.py:175-184 | the simplified message carries the id, type, code, category, priority, text and validity bounds of the message, and drops its timestamp |
| `Messages.Dedup` | src/bahnapi/departures.py:164-186 | never longer than its input; no kept id was seen before; no two kept messages share an id |
| `Messages.MergeMessages` | src/bahnapi/departures.py:163-186 | over the groups in order, never longer than all messages together, and no two kept messages share an id |
| `Messages.DedupFromPosition` | src/bahnapi/departures.py:169-185 | the loop keeps exactly the messages that have no id or whose id no earlier message carries, in order |
| `Messages.MergeMessagesByPosition` | src/bahnapi/departures.py:163-186 | the merge equals that positional first-id-wins rule on the concatenated groups |
| `Messages.MergeMessagesComplete` | src/bahnapi/departures.py:169-185 | id-less messages are always kept, and every id of the input is still reported |
| `Sorting.SortBy` | src/bahnapi/departures.py:51-54 | the result is sorted by key and a permutation of the input |
| `Sorting.SortByStable` | src/bahnapi/departures.py:51-54 | elements with equal keys keep their input order |
| `Sorting.Filter` | src/bahnapi/departures.py:151-160 | an element passing the test occurs in the result as often as in the input, and any other element not at all |
| `Sorting.FilterAppend` | src/bahnapi/departures.py:151-160 | filtering a concatenation is concatenating the filtered parts, so kept elements keep their order |
| `Departures.Validate` | src/bahnapi/departures.py:32-35 | no error iff the station id is non-empty and start is not after end; the empty id is reported first |
| `Departures.UnionAllKeys` | src/bahnapi/departures.py:69-73 | the merged map's keys are the keys of the parts |
| `Departures.UnionAllLastWins` | src/bahnapi/departures.py:69-73 | a key takes its value from the last part holding it |
| `Departures.FetchSlice` | src/bahnapi/departures.py:71-72 | one slice: its plan as read from a live cache entry or else from the server; a request only on a miss; the client is the one `fetch_plan` leaves: a hit changes nothing, a failure leaves the cache alone, and a successful miss stores the payload under the slice's path to expire in 3600 s; no other cache entry changes |
| `Departures.FetchPlanChunks` | src/bahnapi/departures.py:70-73 | one chunk per slice on success; at most one request per slice, each for some slice's plan path; credentials are kept |
| `Departures.FetchPlanChunksKeepsOtherEntries` | src/bahnapi/departures.py:70-73 | fetching the slices changes no cache entry except those of their plan paths |
| `Departures.FetchPlanChunksRequestsMissed` | src/bahnapi/departures.py:70-73 | with distinct slice paths, a successful fetch makes exactly the requests the cache could not answer, in slice order |
| `Departures.FetchPlanChunksReadsEachSlice` | src/bahnapi/departures.py:70-73 | with distinct slice paths, chunk `i` of a successful fetch is the parsed plan of slice `i`, from a live cache entry or else from the server |
| `Departures.FetchPlanChunksFetchesEachSlice` | src/bahnapi/departures.py:70-73 | both of the above for one fetch |
| `Departures.LastSliceStep` | src/bahnapi/departures.py:68-71 | with distinct slice paths, the last slice is read as the client before the loop would read it: its failure ends the fetch, its success appends its plan |
| `Departures.FetchPlanChunksSucceedsIff` | src/bahnapi/departures.py:68-71 | with distinct slice paths, the fetch succeeds iff every slice's plan is a success |
| `Departures.FetchPlanChunksFirstFailure` | src/bahnapi/departures.py:68-71 | with distinct slice paths, when slice `k` is the first whose plan fails, the fetch fails with that slice's error |
| `Departures.UnionOfResults` | src/bahnapi/departures.py:69-73 | `dict.update` over successful parts: the keys are the parts' keys, each taking its value from the last part holding it |
| `Departures.CollectPlan` | src/bahnapi/departures.py:62-74 | the client is the one the slice fetches leave; a failed slice fetch is the result; otherwise the chunks are merged with `dict.update` in slice order |
| `Departures.CollectPlanSucceedsIff` | src/bahnapi/departures.py:60-72 | with distinct slice paths, the collection succeeds iff every slice's plan is a success |
| `Departures.CollectPlanFirstFailure` | src/bahnapi/departures.py:60-72 | with distinct slice paths, the collection fails with the error of the first slice whose plan fails |
| `Departures.CollectPlanRequestsSlices` | src/bahnapi/departures.py:62-74 | with distinct slice paths, a successful collection read every slice's plan and made exactly the requests the cache could not answer, in slice order |
| `Departures.CollectPlanMergesSlices` | src/bahnapi/departures.py:62-74 | with distinct slice paths, a successful collection holds exactly the stop ids of the slices' plans, each record taken from the last slice holding that id |
| `Departures.PlanPathInjective` | src/bahnapi/client.py:65-66 | plan paths with date labels of one width are equal only for equal labels |
| `Departures.TimeSlicesDistinctPaths` | src/bahnapi/departures.py:189-201 | the slices of a query in 1969-2068 have pairwise distinct plan paths |
| `Departures.CollectChanges` | src/bahnapi/departures.py:77-91 | without recent changes, exactly the full feed; with them, the keys are the union, recent records replace full ones wholesale, and other full records stay |
| `Departures.CollectChangesWithoutRecent` | src/bahnapi/departures.py:84-87 | without recent changes, at most the full feed's path is requested |
| `Departures.Collect` | src/bahnapi/departures.py:43-44 | plan first, then changes on the client the plan leaves, with failures propagated |
| `Departures.DelayMinutes` | src/bahnapi/departures.py:113-114 | the delay in whole minutes, rounded down |
| `Departures.MergeRecord` | src/bahnapi/departures.py:103-141 | the actual time falls back to the planned one; the delay exists iff a planned time does, rounded down, and is 0 without a changed time; station EVA, actual platform and destination take the change's value when non-empty, else the plan's; status only from the change; planned platform and train fields only from the plan's line; `messages` present iff the merged list is non-empty |
| `Departures.MergeAll` | src/bahnapi/departures.py:94-143 | one record per stop id of the plan or the changes, each built from that id's records, with no other and no repeated id |
| `Departures.Enumerate` | src/bahnapi/departures.py:100-102 | a set walked once: every element exactly once |
| `Departures.PivotOfRecord` | src/bahnapi/departures.py:50-55 | when rendered times parse back, the pivot is the actual time, else the planned time, and a record is in the window iff that time lies in `[start, end]` |
| `Departures.FilterByInterval` | src/bahnapi/departures.py:146-160 | a record with a pivot in `[start, end]`, both ends included, occurs as often as in the input; any other record not at all |
| `Departures.FilterByIntervalAppend` | src/bahnapi/departures.py:146-160 | filtering two runs of records one after the other keeps each run's in-window records in order |
| `Departures.SortByPivot` | src/bahnapi/departures.py:51-54 | ascending pivots, the same records |
| `Departures.SortByPivotStable` | src/bahnapi/departures.py:51-54 | records with equal pivots keep their order |
| `Departures.Arrange` | src/bahnapi/departures.py:50-55 | sorted by pivot and a permutation of the filtered records |
| `Departures.ArrangedIsReconciled` | src/bahnapi/departures.py:45-55 | filtering and sorting the merged records yields exactly the in-window records, one per stop id, sorted |
| `Departures.GetDepartures` | src/bahnapi/departures.py:11-55 | an invalid query fails before any request; otherwise collection failures propagate, and success gives exactly the merged in-window records, each stop id once, sorted by pivot |

## Left out

- HTTP session, headers, timeout and `close`: network I/O. A response is the
  `(status, body)` value the `Transport` parameter returns.
- The cache lock: concurrency. The cache is state passed from call to call.
- `time.time()`: the clock is the `now` parameter. The source reads the clock
  once per fetch, so a slow query may see several instants. The model uses one
  `now` for all fetches of a query.
- Fractional seconds: `expires_at` is a float in the source and an integer
  here. Instants are whole seconds, so microseconds and their ISO rendering
  are not modelled.
- `ET.fromstring` and its parse errors: a foreign library. The `XmlReader`
  parameter returns a tree or `None`, and `None` becomes a `MalformedPayload`
  error.
- `datetime.fromisoformat`: a foreign library. It is the `IsoParser`
  parameter. `Departures.PivotOfRecord` states the pivot rule under the
  assumption that it reads `isoformat` text back.
- `strptime` accepts non-ASCII decimal digits through `\d`. The model accepts
  ASCII digits only, plus the space that may open a day field.
- Years above 9999: the source raises `OverflowError` near `datetime.max`.
  The model has no upper bound on years, and the round-trip lemmas require
  years up to 9999.
- `_normalize_datetime` and time zones: only naive date-times are modelled.
- The `client=None` path of `get_departures` and `search_stations`: these
  build a client with `create_default_client` before any fetch, and that
  constructor can fail with `AuthenticationError` when no credentials are
  configured. `Departures.GetDepartures` and `Stations.SearchStations` take an
  already-built client, and `Client.NewClient` is not composed in front of
  them. Closing a client the function created for itself is resource handling
  and is left out too.
- Configuration and environment variables: these are the parameters of
  `Client.NewClient`.
- `raw` and `additional` attribute bags: carried as opaque maps
  (`StationRecord.raw`) or dropped (plan and change `raw`, line
  `additional`). They have no behaviour.
- `src/bahnapi/cli.py`: argument parsing, printing and float hours.
- Departures.FetchPlanChunksFetchesEachSlice: the per-slice content is stated
  only when no two slices share a plan path, here and in
  `FetchPlanChunksRequestsMissed`, `FetchPlanChunksReadsEachSlice`,
  `LastSliceStep`, `FetchPlanChunksSucceedsIff`, `FetchPlanChunksFirstFailure`,
  `CollectPlanRequestsSlices`, `CollectPlanMergesSlices`,
  `CollectPlanSucceedsIff` and `CollectPlanFirstFailure`. Two-digit years
  repeat every hundred years, so slices a century apart would share one cache
  entry.
  `Departures.TimeSlicesDistinctPaths` proves the premise for queries within
  1969-2068.
- Stations.ResolveStationEva: it decides with the corrected `Stations.Resolve`,
  so a nameless station among the first five matches gives the ambiguity
  error and not the source's `TypeError`. `Stations.ResolveAsWritten` is the
  verdict as written, and `Stations.ResolveStationEvaAsWritten` states when
  the two agree.
- `Departures.MergeAll`: the source's order is that of a Python set. The
  model leaves the order open and states only what any order satisfies.
- `Client.CheckStatus`: the error's text (`"DB API error: ..."`) is not
  modelled. The error carries the status and the body prefix instead.

## Findings

| source | as written | input that shows it | evidently intended | confidence | as-written member | corrected member |
|---|---|---|---|---|---|---|
| src/bahnapi/stations.py:50-54 | the names of the first five matches are joined with `", ".join(station["name"] ...)` before the ambiguity error is raised | a search for `Aa` with two matches, the first without a `name` attribute | a `StationLookupError` reporting the ambiguity: two matches, names `None` and `Aachen Hbf` | not executed; a missing attribute is `None`, and `str.join` raises `TypeError` on `None` | `Stations.ResolveAsWritten` (exhibited by `Stations.AmbiguityWithNamelessStation`) | `Stations.Resolve` |
