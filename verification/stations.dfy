/** Station search and resolution (`stations.py`): look a pattern up in the
    station directory, optionally cut the list, and resolve a pattern to the
    single EVA number it names. */
module Stations {
  import opened Common
  import opened Errors
  import opened Xml
  import opened Parsers
  import opened Client

  /** The length Python's `s[:limit]` keeps of a list of length `n`: a
      negative limit counts back from the end. */
  function PrefixLength(n: nat, limit: Option<int>): (k: nat)
    ensures k <= n
  {
    match limit
    case None => n
    case Some(l) => if l >= 0 then Min(l, n) else if n + l >= 0 then n + l else 0
  }

  /** `items[:limit]`, or the whole list without a limit. */
  function Truncate<T>(items: seq<T>, limit: Option<int>): (r: seq<T>)
    ensures r <= items
    ensures limit.None? ==> r == items
    ensures limit.Some? && limit.value >= 0 ==> |r| == Min(limit.value, |items|)
    ensures limit.Some? && limit.value < 0 ==> |r| == Max(0, |items| + limit.value)
  {
    items[..PrefixLength(|items|, limit)]
  }

  function Max(a: int, b: int): int {
    if a >= b then a else b
  }

  /** `search_stations`: an empty pattern is rejected before anything is
      fetched; otherwise the directory answer for the pattern is fetched
      (through the cache), parsed, and cut to `limit`. */
  function SearchStations(c: Client, pattern: string, limit: Option<int>, now: int, transport: Transport, read: XmlReader)
    : (r: (Client, Result<seq<StationRecord>, Error>))
    ensures pattern == "" ==> r == (c, Failure(StationLookup(EmptyPattern)))
    ensures pattern != "" ==> r.0 == FetchStation(c, pattern, now, transport).0
    ensures pattern != "" && FetchStation(c, pattern, now, transport).1.Failure? ==>
      r.1 == Failure(FetchStation(c, pattern, now, transport).1.error)
    ensures r.1.Success? ==>
      var all := ParseStationList(FetchStation(c, pattern, now, transport).1.value, read);
      all.Success? && r.1.value == Truncate(all.value, limit)
    ensures pattern != "" && FetchStation(c, pattern, now, transport).1.Success? ==>
      match ParseStationList(FetchStation(c, pattern, now, transport).1.value, read)
      case Failure(e) => r.1 == Failure(e)
      case Success(all) => r.1 == Success(Truncate(all, limit))
  {
    if pattern == "" then (c, Failure(StationLookup(EmptyPattern)))
    else
      var (c1, payload) := FetchStation(c, pattern, now, transport);
      match payload
      case Failure(e) => (c1, Failure(e))
      case Success(text) =>
        match ParseStationList(text, read)
        case Failure(e) => (c1, Failure(e))
        case Success(stations) => (c1, Success(Truncate(stations, limit)))
  }

  /** Names reported in an ambiguity error: those of the first five matches. */
  const ReportedNames: nat := 5

  function Names(matches: seq<StationRecord>): (r: seq<Option<string>>)
    ensures |r| == |matches|
    ensures forall i | 0 <= i < |r| :: r[i] == matches[i].name
  {
    if matches == [] then [] else [matches[0].name] + Names(matches[1..])
  }

  /** The verdict of `resolve_station_eva` on the search result: no match,
      several matches (with the count and the first five names), one match
      without an EVA number, or its EVA number. */
  function Resolve(pattern: string, matches: seq<StationRecord>): (r: Result<string, Error>)
    ensures r.Success? <==> |matches| == 1 && Present(matches[0].eva)
    ensures r.Success? ==> r.value == matches[0].eva.value
    ensures matches == [] ==> r == Failure(StationLookup(NotFound(pattern)))
    ensures |matches| > 1 ==>
      && r.Failure? && r.error.StationLookup? && r.error.failure.Ambiguous?
      && r.error.failure.count == |matches|
      && r.error.failure.names == Names(matches[..Min(ReportedNames, |matches|)])
    ensures |matches| == 1 && !Present(matches[0].eva) ==> r == Failure(StationLookup(MissingEva))
  {
    if matches == [] then Failure(StationLookup(NotFound(pattern)))
    else if |matches| > 1 then
      Failure(StationLookup(Ambiguous(pattern, |matches|, Names(matches[..Min(ReportedNames, |matches|)]))))
    else if !Present(matches[0].eva) then Failure(StationLookup(MissingEva))
    else Success(matches[0].eva.value)
  }

  /** `resolve_station_eva`: search without a limit, then decide. */
  function ResolveStationEva(c: Client, pattern: string, now: int, transport: Transport, read: XmlReader)
    : (r: (Client, Result<string, Error>))
    ensures var (c1, found) := SearchStations(c, pattern, None, now, transport, read);
      && r.0 == c1
      && (found.Failure? ==> r.1 == Failure(found.error))
      && (found.Success? ==> r.1 == Resolve(pattern, found.value))
  {
    var (c1, found) := SearchStations(c, pattern, None, now, transport, read);
    match found
    case Failure(e) => (c1, Failure(e))
    case Success(matches) => (c1, Resolve(pattern, matches))
  }

  /** A resolved EVA number belongs to the only station the search found
      for a non-empty pattern. */
  lemma ResolvedIsOnlyMatch(c: Client, pattern: string, now: int, transport: Transport, read: XmlReader)
    requires ResolveStationEva(c, pattern, now, transport, read).1.Success?
    ensures pattern != ""
    ensures var found := SearchStations(c, pattern, None, now, transport, read).1;
      found.Success? && |found.value| == 1
      && found.value[0].eva == Some(ResolveStationEva(c, pattern, now, transport, read).1.value)
  {
  }

  // ---------------------------------------------------------------------------
  // The ambiguity message as written

  /** `", ".join(...)` over the reported names: it fails with a `TypeError`
      when one of them is missing. */
  function JoinNames(names: seq<Option<string>>): (r: Result<string, Error>)
    ensures r.Failure? <==> exists i | 0 <= i < |names| :: names[i].None?
    ensures r.Failure? ==> r.error == TypeMismatch
  {
    if names == [] then Success("")
    else if names[0].None? then Failure(TypeMismatch)
    else
      match JoinNames(names[1..])
      case Failure(e) =>
        assert exists i | 0 <= i < |names| :: names[i].None? by {
          var i :| 0 <= i < |names[1..]| && names[1..][i].None?;
          assert names[i + 1].None?;
        }
        Failure(e)
      case Success(rest) =>
        assert forall i | 0 <= i < |names| :: names[i].Some? by {
          forall i | 0 <= i < |names| ensures names[i].Some? {
            if i > 0 {
              assert names[i] == names[1..][i - 1];
            }
          }
        }
        Success(if |names| == 1 then names[0].value else names[0].value + ", " + rest)
  }

  /** `Resolve` as the source writes it: the names are joined into the
      message before the ambiguity error is raised, so a nameless station
      among the first five turns the lookup error into a `TypeError`. */
  function ResolveAsWritten(pattern: string, matches: seq<StationRecord>): (r: Result<string, Error>)
    ensures |matches| <= 1 ==> r == Resolve(pattern, matches)
    ensures |matches| > 1 ==>
      (r == Resolve(pattern, matches) <==> JoinNames(Names(matches[..Min(ReportedNames, |matches|)])).Success?)
  {
    if |matches| > 1 && JoinNames(Names(matches[..Min(ReportedNames, |matches|)])).Failure? then Failure(TypeMismatch)
    else Resolve(pattern, matches)
  }

  /** `resolve_station_eva` as written gives the verdict of
      `ResolveStationEva` exactly when the search found at most one station
      or all of the first five reported names exist. */
  lemma ResolveStationEvaAsWritten(c: Client, pattern: string, now: int, transport: Transport, read: XmlReader)
    ensures var found := SearchStations(c, pattern, None, now, transport, read).1;
      found.Success? ==>
        (ResolveAsWritten(pattern, found.value) == ResolveStationEva(c, pattern, now, transport, read).1 <==>
          |found.value| <= 1 || JoinNames(Names(found.value[..Min(ReportedNames, |found.value|)])).Success?)
  {
  }

  /** Two stations, the first without a name: the source raises a
      `TypeError` where a `StationLookupError` reporting the ambiguity is
      meant. */
  lemma AmbiguityWithNamelessStation()
    ensures var matches := [
        StationRecord(None, Some("8000001"), None, None, None, map["eva" := "8000001"]),
        StationRecord(Some("Aachen Hbf"), Some("8000002"), None, None, None, map["name" := "Aachen Hbf", "eva" := "8000002"])];
      && ResolveAsWritten("Aa", matches) == Failure(TypeMismatch)
      && Resolve("Aa", matches) == Failure(StationLookup(Ambiguous("Aa", 2, [None, Some("Aachen Hbf")])))
  {
    var matches := [
      StationRecord(None, Some("8000001"), None, None, None, map["eva" := "8000001"]),
      StationRecord(Some("Aachen Hbf"), Some("8000002"), None, None, None, map["name" := "Aachen Hbf", "eva" := "8000002"])];
    assert matches[..Min(ReportedNames, |matches|)] == matches;
    var names := Names(matches);
    assert names[0].None?;
    assert names == [None, Some("Aachen Hbf")];
  }
}
