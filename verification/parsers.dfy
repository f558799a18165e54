/** The canonical parser (`parsers.py`): from the element trees of the three
    payload schemas (station directory, plan slice, change feed) to records. */
module Parsers {
  import opened Common
  import opened Calendar
  import opened Text
  import opened Times
  import opened Xml
  import opened Errors

  /** A message (`m` element): attributes `id`, `t`, `c`, `cat`, `pr`, `ts`,
      `from`, `to`, and the element text. */
  datatype Message = Message(
    id: Option<string>, kind: Option<string>, code: Option<string>, category: Option<string>,
    priority: Option<string>, timestamp: Option<string>, validFrom: Option<string>,
    validTo: Option<string>, text: Option<string>)

  /** A train line (`tl` element): attributes `c`, `n`, `t`, `o`, `l`. */
  datatype LineInfo = LineInfo(
    category: Option<string>, number: Option<string>, kind: Option<string>,
    operator: Option<string>, line: Option<string>)

  /** A station of the directory; `raw` keeps every attribute, known or not. */
  datatype StationRecord = StationRecord(
    name: Option<string>, eva: Option<string>, ds100: Option<string>, meta: Option<string>,
    platform: Option<string>, raw: map<string, string>)

  datatype PlanEvent = PlanEvent(
    stopId: string, stationEva: Option<string>, plannedDeparture: Option<Time>,
    plannedPlatform: Option<string>, plannedPath: seq<string>, plannedDestination: Option<string>,
    plannedLine: Option<LineInfo>, remarks: seq<Message>)

  /** `stationMessages` is `None` where the source leaves the key out. */
  datatype ChangeEvent = ChangeEvent(
    stopId: string, stationEva: Option<string>, actualDeparture: Option<Time>,
    actualPlatform: Option<string>, status: Option<string>, messages: seq<Message>,
    path: seq<string>, destination: Option<string>, stationMessages: Option<seq<Message>>)

  // ---------------------------------------------------------------------------
  // Messages, lines, paths

  function ExtractMessage(m: Element): Message {
    Message(Attr(m, "id"), Attr(m, "t"), Attr(m, "c"), Attr(m, "cat"), Attr(m, "pr"),
            Attr(m, "ts"), Attr(m, "from"), Attr(m, "to"), m.text)
  }

  /** `_extract_messages`: one message per element, in element order. */
  function ExtractMessages(es: seq<Element>): (r: seq<Message>)
    ensures |r| == |es|
    ensures forall i | 0 <= i < |es| :: r[i] == ExtractMessage(es[i])
  {
    if es == [] then [] else [ExtractMessage(es[0])] + ExtractMessages(es[1..])
  }

  /** `_extract_line_info`: no `tl` element, no line. */
  function ExtractLineInfo(e: Option<Element>): (r: Option<LineInfo>)
    ensures r.None? <==> e.None?
    ensures r.Some? ==>
      && r.value.category == Attr(e.value, "c")
      && r.value.number == Attr(e.value, "n")
      && r.value.operator == Attr(e.value, "o")
  {
    match e
    case None => None
    case Some(tl) => Some(LineInfo(Attr(tl, "c"), Attr(tl, "n"), Attr(tl, "t"), Attr(tl, "o"), Attr(tl, "l")))
  }

  /** The stripped pieces that are not blank, in order. */
  function NonBlank(pieces: seq<string>): (r: seq<string>)
    ensures |r| <= |pieces|
    ensures forall i | 0 <= i < |r| :: r[i] != "" && Trimmed(r[i])
  {
    if pieces == [] then []
    else
      var head, rest := Strip(pieces[0]), NonBlank(pieces[1..]);
      if head == "" then rest else [head] + rest
  }

  /** A character found in none of the pieces is found in none of the kept ones. */
  lemma {:induction false} NonBlankAvoids(pieces: seq<string>, c: char)
    requires forall j | 0 <= j < |pieces| :: c !in pieces[j]
    ensures forall i | 0 <= i < |NonBlank(pieces)| :: c !in NonBlank(pieces)[i]
  {
    if pieces != [] {
      var head, rest := Strip(pieces[0]), NonBlank(pieces[1..]);
      NonBlankAvoids(pieces[1..], c);
      StripAvoids(pieces[0], c);
      if head != "" {
        assert NonBlank(pieces) == [head] + rest;
        forall i | 0 <= i < |NonBlank(pieces)| ensures c !in NonBlank(pieces)[i] {
          if i > 0 {
            assert NonBlank(pieces)[i] == rest[i - 1];
          }
        }
      }
    }
  }

  /** Stripping adds no character. */
  lemma StripAvoids(s: string, c: char)
    requires c !in s
    ensures c !in Strip(s)
  {
    var front := TrimStart(s);
    assert forall k | 0 <= k < |front| :: front[k] == s[|s| - |front| + k];
    var both := TrimEnd(front);
    assert forall k | 0 <= k < |both| :: both[k] == front[k];
  }

  /** `_split_path`: the `|`-separated stops of a route, stripped, blanks
      dropped. */
  function SplitPath(path: Option<string>): (r: seq<string>)
    ensures !Present(path) ==> r == []
    ensures forall i | 0 <= i < |r| :: r[i] != "" && Trimmed(r[i]) && '|' !in r[i]
  {
    if !Present(path) then []
    else
      var pieces := Split(path.value, '|');
      NonBlankAvoids(pieces, '|');
      NonBlank(pieces)
  }

  lemma {:induction false} NonBlankOfTrimmed(pieces: seq<string>)
    requires forall i | 0 <= i < |pieces| :: pieces[i] != "" && Trimmed(pieces[i])
    ensures NonBlank(pieces) == pieces
  {
    if pieces != [] {
      StripTrimmed(pieces[0]);
      NonBlankOfTrimmed(pieces[1..]);
    }
  }

  /** Segments keep their order and content: a route written as its stops
      joined by `|` splits back into exactly those stops. */
  lemma SplitPathOfJoined(stops: seq<string>)
    requires forall i | 0 <= i < |stops| :: stops[i] != "" && Trimmed(stops[i]) && '|' !in stops[i]
    ensures SplitPath(Some(Join(stops, '|'))) == stops
  {
    if stops != [] {
      SplitJoin(stops, '|');
      NonBlankOfTrimmed(stops);
      assert Join(stops, '|') != "" by {
        if |stops| > 1 {
          assert Join(stops, '|') == stops[0] + ['|'] + Join(stops[1..], '|');
        }
      }
    }
  }

  /** Keeping the non-blank pieces of two runs of pieces one after the other
      keeps those of each run, in order. */
  lemma {:induction false} NonBlankConcat(a: seq<string>, b: seq<string>)
    ensures NonBlank(a + b) == NonBlank(a) + NonBlank(b)
  {
    if a == [] {
      assert a + b == b;
    } else {
      assert (a + b)[0] == a[0] && (a + b)[1..] == a[1..] + b;
      NonBlankConcat(a[1..], b);
    }
  }

  /** One piece is kept, stripped, exactly when it is not blank. With
      `NonBlankConcat` this pins `NonBlank` down to the stripped non-blank
      pieces in their order. */
  lemma NonBlankOne(p: string)
    ensures NonBlank([p]) == if Strip(p) == "" then [] else [Strip(p)]
  {
    assert [p][1..] == [];
  }

  /** A route written as pieces joined by `|` splits into the stripped
      pieces that are not blank, in order: padding around a stop is dropped
      and the stop kept. */
  lemma SplitPathOfPieces(pieces: seq<string>)
    requires |pieces| >= 1
    requires forall i | 0 <= i < |pieces| :: '|' !in pieces[i]
    ensures SplitPath(Some(Join(pieces, '|'))) == NonBlank(pieces)
  {
    SplitJoin(pieces, '|');
    if |pieces| > 1 {
      assert Join(pieces, '|') == pieces[0] + ['|'] + Join(pieces[1..], '|');
    } else if pieces[0] == "" {
      assert Join(pieces, '|') == "";
      assert Strip("") == "";
    }
  }

  /** A route of two padded stops, such as `" A | B "`, is the two stops
      without their padding. */
  lemma SplitPathTwo(x: string, y: string)
    requires '|' !in x && '|' !in y
    requires Strip(x) != "" && Strip(y) != ""
    ensures SplitPath(Some(x + ['|'] + y)) == [Strip(x), Strip(y)]
  {
    JoinTwo(x, y, '|');
    NonBlankTwo(x, y);
    SplitPathOfPieces([x, y]);
  }

  lemma JoinTwo(x: string, y: string, sep: char)
    ensures Join([x, y], sep) == x + [sep] + y
  {
    assert [x, y][1..] == [y];
  }

  lemma NonBlankTwo(x: string, y: string)
    ensures NonBlank([x, y]) == NonBlank([x]) + NonBlank([y])
    ensures NonBlank([x]) == if Strip(x) == "" then [] else [Strip(x)]
    ensures NonBlank([y]) == if Strip(y) == "" then [] else [Strip(y)]
  {
    NonBlankConcat([x], [y]);
    assert [x, y] == [x] + [y];
    NonBlankOne(x);
    NonBlankOne(y);
  }

  /** The destination of a route: its last stop, none for an empty route. */
  function Destination(path: seq<string>): (r: Option<string>)
    ensures r.None? <==> path == []
    ensures r.Some? ==> r.value == path[|path| - 1]
  {
    if path == [] then None else Some(path[|path| - 1])
  }

  // ---------------------------------------------------------------------------
  // Stops of a plan or change payload

  /** The stop's `id` attribute, or "" without one. */
  function StopId(s: Element): string {
    match Attr(s, "id")
    case Some(id) => id
    case None => ""
  }

  /** A stop the parsers keep: it has a non-empty `id` and a `dp` child. */
  predicate Departs(s: Element) {
    Present(Attr(s, "id")) && Find(s, "dp").Some?
  }

  /** A kept stop and its departure element. */
  datatype Stop = Stop(node: Element, departure: Element)

  function StopOf(s: Element): Stop
    requires Departs(s)
  {
    Stop(s, Find(s, "dp").value)
  }

  /** The stop at index `i` is kept and no later kept stop has its id. */
  predicate LastOccurrence(stops: seq<Element>, i: int)
    requires 0 <= i < |stops|
  {
    && Departs(stops[i])
    && forall j | i < j < |stops| :: !(Departs(stops[j]) && StopId(stops[j]) == StopId(stops[i]))
  }

  /** The kept stops of a payload by id, written in document order: the
      `plan_events[stop_id] = ...` loop. */
  function StopIndex(stops: seq<Element>): (r: map<string, Stop>)
    ensures forall id | id in r :: Departs(r[id].node) && StopId(r[id].node) == id && r[id] == StopOf(r[id].node)
  {
    if stops == [] then map[]
    else
      var s, rest := stops[|stops| - 1], StopIndex(stops[..|stops| - 1]);
      if Departs(s) then rest[StopId(s) := StopOf(s)] else rest
  }

  /** The index holds exactly the ids of the kept stops. */
  lemma {:induction false} StopIndexKeys(stops: seq<Element>)
    ensures forall id :: id in StopIndex(stops) <==>
      exists i | 0 <= i < |stops| :: Departs(stops[i]) && StopId(stops[i]) == id
  {
    if stops != [] {
      var front := stops[..|stops| - 1];
      StopIndexKeys(front);
      assert forall i | 0 <= i < |front| :: front[i] == stops[i];
    }
  }

  /** A repeated id keeps its last occurrence. */
  lemma {:induction false} StopIndexLastWins(stops: seq<Element>, i: int)
    requires 0 <= i < |stops| && LastOccurrence(stops, i)
    ensures StopId(stops[i]) in StopIndex(stops)
    ensures StopIndex(stops)[StopId(stops[i])] == StopOf(stops[i])
  {
    var front := stops[..|stops| - 1];
    if i < |stops| - 1 {
      assert LastOccurrence(front, i) by {
        assert forall j | i < j < |front| :: front[j] == stops[j];
      }
      StopIndexLastWins(front, i);
      assert front[i] == stops[i];
    }
  }

  // ---------------------------------------------------------------------------
  // Plan and change records

  /** A plan record: the planned time is `pt` parsed, the platform `pp`,
      the route the stops of `ppth` with its last stop as destination, the
      line from the stop's `tl` child and the remarks from its `m`
      children. */
  function BuildPlan(stop: Stop, iso: IsoParser): (r: PlanEvent)
    ensures r.stopId == StopId(stop.node) && r.stationEva == Attr(stop.node, "eva")
    ensures r.plannedDeparture == ParseTime(Attr(stop.departure, "pt"), iso)
    ensures r.plannedPlatform == Attr(stop.departure, "pp")
    ensures r.plannedPath == SplitPath(Attr(stop.departure, "ppth"))
    ensures r.plannedDestination.None? <==> r.plannedPath == []
    ensures r.plannedDestination.Some? ==> r.plannedDestination.value == r.plannedPath[|r.plannedPath| - 1]
    ensures r.plannedLine.None? <==> Find(stop.node, "tl").None?
    ensures r.plannedLine == ExtractLineInfo(Find(stop.node, "tl"))
    ensures |r.remarks| == |FindAll(stop.node, "m")|
    ensures forall i | 0 <= i < |r.remarks| :: r.remarks[i] == ExtractMessage(FindAll(stop.node, "m")[i])
  {
    var s, dp := stop.node, stop.departure;
    var path := SplitPath(Attr(dp, "ppth"));
    PlanEvent(
      stopId := StopId(s),
      stationEva := Attr(s, "eva"),
      plannedDeparture := ParseTime(Attr(dp, "pt"), iso),
      plannedPlatform := Attr(dp, "pp"),
      plannedPath := path,
      plannedDestination := Destination(path),
      plannedLine := ExtractLineInfo(Find(s, "tl")),
      remarks := ExtractMessages(FindAll(s, "m")))
  }

  /** A confirmed time (`ct`) wins over an estimate (`rt`) whenever it is
      non-empty, even when it cannot be parsed. Departure messages come from
      the `dp` element, station messages from the stop and only when it has
      some. */
  function BuildChange(stop: Stop, iso: IsoParser): (r: ChangeEvent)
    ensures r.stopId == StopId(stop.node) && r.stationEva == Attr(stop.node, "eva")
    ensures r.actualPlatform == Attr(stop.departure, "cp")
    ensures r.status == Attr(stop.departure, "cs")
    ensures r.path == SplitPath(Attr(stop.departure, "ppth"))
    ensures r.destination.None? <==> r.path == []
    ensures r.destination.Some? ==> r.destination.value == r.path[|r.path| - 1]
    ensures Present(Attr(stop.departure, "ct")) ==> r.actualDeparture == ParseTime(Attr(stop.departure, "ct"), iso)
    ensures !Present(Attr(stop.departure, "ct")) ==> r.actualDeparture == ParseTime(Attr(stop.departure, "rt"), iso)
    ensures r.stationMessages.Some? <==> FindAll(stop.node, "m") != []
    ensures r.stationMessages.Some? ==> r.stationMessages.value == ExtractMessages(FindAll(stop.node, "m"))
    ensures r.messages == ExtractMessages(FindAll(stop.departure, "m"))
  {
    var s, dp := stop.node, stop.departure;
    var path := SplitPath(Attr(dp, "ppth"));
    var stationMessages := ExtractMessages(FindAll(s, "m"));
    ChangeEvent(
      stopId := StopId(s),
      stationEva := Attr(s, "eva"),
      actualDeparture := ParseTime(OrElse(Attr(dp, "ct"), Attr(dp, "rt")), iso),
      actualPlatform := Attr(dp, "cp"),
      status := Attr(dp, "cs"),
      messages := ExtractMessages(FindAll(dp, "m")),
      path := path,
      destination := Destination(path),
      stationMessages := if stationMessages != [] then Some(stationMessages) else None)
  }

  /** The plan records of a plan document, keyed by stop id: exactly the kept
      `s` children, the last one winning for a repeated id. */
  function PlanFromTree(root: Element, iso: IsoParser): (r: map<string, PlanEvent>)
    ensures var stops := FindAll(root, "s");
      forall id :: id in r <==> exists i | 0 <= i < |stops| :: Departs(stops[i]) && StopId(stops[i]) == id
    ensures forall id | id in r :: r[id].stopId == id
  {
    var index := StopIndex(FindAll(root, "s"));
    StopIndexKeys(FindAll(root, "s"));
    map id | id in index :: BuildPlan(index[id], iso)
  }

  /** The record kept for a repeated id is built from its last occurrence. */
  lemma PlanFromTreeLastWins(root: Element, iso: IsoParser, i: int)
    requires 0 <= i < |FindAll(root, "s")| && LastOccurrence(FindAll(root, "s"), i)
    ensures var s := FindAll(root, "s")[i];
      StopId(s) in PlanFromTree(root, iso) && PlanFromTree(root, iso)[StopId(s)] == BuildPlan(StopOf(s), iso)
  {
    StopIndexLastWins(FindAll(root, "s"), i);
  }

  /** The `s` child at index `i` of `root` is kept, and no later kept `s`
      child of `root` has its id. */
  predicate LastStopInDocument(root: Element, i: int)
    requires 0 <= i < |root.children|
  {
    var kids := root.children;
    && kids[i].tag == "s" && Departs(kids[i])
    && forall j | i < j < |kids| :: !(kids[j].tag == "s" && Departs(kids[j]) && StopId(kids[j]) == StopId(kids[i]))
  }

  /** The last kept `s` child with a given id in document order is also the
      last occurrence of that id among the `s` children `findall` returns. */
  lemma LastStopIsLastOccurrence(root: Element, i: int)
    requires 0 <= i < |root.children| && LastStopInDocument(root, i)
    ensures var k := |Tagged(root.children[..i], "s")|;
      && k < |FindAll(root, "s")| && FindAll(root, "s")[k] == root.children[i]
      && LastOccurrence(FindAll(root, "s"), k)
  {
    var kids, stops := root.children, FindAll(root, "s");
    TaggedSplit(kids, "s", i);
    var k := |Tagged(kids[..i], "s")|;
    var later := Tagged(kids[i + 1..], "s");
    assert stops[k] == kids[i];
    forall j | k < j < |stops| ensures !(Departs(stops[j]) && StopId(stops[j]) == StopId(stops[k])) {
      var s := stops[j];
      assert s in later by {
        IndexAfter(stops, k, later, j);
      }
      LaterTagged(kids, i, "s", s);
      var jj :| i < jj < |kids| && kids[jj] == s && s.tag == "s";
      assert !(kids[jj].tag == "s" && Departs(kids[jj]) && StopId(kids[jj]) == StopId(kids[i]));
      NotSameStop(s, kids[jj], stops[k], kids[i]);
    }
  }

  /** An element tagged after index `i` is a later element of `kids`. */
  lemma LaterTagged(kids: seq<Element>, i: int, tag: string, s: Element)
    requires 0 <= i < |kids| && s in Tagged(kids[i + 1..], tag)
    ensures exists jj | i < jj < |kids| :: kids[jj] == s && s.tag == tag
  {
    var m :| 0 <= m < |kids[i + 1..]| && kids[i + 1..][m] == s;
    assert kids[i + 1 + m] == s;
  }

  /** Index `j` of `s` is index `j - k - 1` of the part after index `k`. */
  lemma IndexAfter<T>(s: seq<T>, k: int, t: seq<T>, j: int)
    requires 0 <= k < j < |s| && s[k + 1..] == t
    ensures j - k - 1 < |t| && s[j] == t[j - k - 1]
  {
  }

  /** A later `s` child that is not a kept stop with the id of `d` says the
      same of any element equal to it. */
  lemma NotSameStop(a: Element, b: Element, c: Element, d: Element)
    requires a == b && c == d && b.tag == "s"
    requires !(b.tag == "s" && Departs(b) && StopId(b) == StopId(d))
    ensures !(Departs(a) && StopId(a) == StopId(c))
  {
  }

  /** The plan record of a stop id is built from the last kept `s` child
      with that id in document order. */
  lemma PlanFromTreeLastInDocument(root: Element, iso: IsoParser, i: int)
    requires 0 <= i < |root.children| && LastStopInDocument(root, i)
    ensures var s := root.children[i];
      StopId(s) in PlanFromTree(root, iso) && PlanFromTree(root, iso)[StopId(s)] == BuildPlan(StopOf(s), iso)
  {
    LastStopIsLastOccurrence(root, i);
    PlanFromTreeLastWins(root, iso, |Tagged(root.children[..i], "s")|);
  }

  /** The change records of a change document, keyed like the plan records. */
  function ChangesFromTree(root: Element, iso: IsoParser): (r: map<string, ChangeEvent>)
    ensures var stops := FindAll(root, "s");
      forall id :: id in r <==> exists i | 0 <= i < |stops| :: Departs(stops[i]) && StopId(stops[i]) == id
    ensures forall id | id in r :: r[id].stopId == id
  {
    var index := StopIndex(FindAll(root, "s"));
    StopIndexKeys(FindAll(root, "s"));
    map id | id in index :: BuildChange(index[id], iso)
  }

  lemma ChangesFromTreeLastWins(root: Element, iso: IsoParser, i: int)
    requires 0 <= i < |FindAll(root, "s")| && LastOccurrence(FindAll(root, "s"), i)
    ensures var s := FindAll(root, "s")[i];
      StopId(s) in ChangesFromTree(root, iso) && ChangesFromTree(root, iso)[StopId(s)] == BuildChange(StopOf(s), iso)
  {
    StopIndexLastWins(FindAll(root, "s"), i);
  }

  /** The change record of a stop id is built from the last kept `s` child
      with that id in document order. */
  lemma ChangesFromTreeLastInDocument(root: Element, iso: IsoParser, i: int)
    requires 0 <= i < |root.children| && LastStopInDocument(root, i)
    ensures var s := root.children[i];
      StopId(s) in ChangesFromTree(root, iso) && ChangesFromTree(root, iso)[StopId(s)] == BuildChange(StopOf(s), iso)
  {
    LastStopIsLastOccurrence(root, i);
    ChangesFromTreeLastWins(root, iso, |Tagged(root.children[..i], "s")|);
  }

  /** `parse_plan`: empty text is an empty plan; text the reader rejects is an
      error. */
  function ParsePlan(text: string, read: XmlReader, iso: IsoParser): (r: Result<map<string, PlanEvent>, Error>)
    ensures text == "" ==> r == Success(map[])
    ensures r.Failure? <==> text != "" && read(text).None?
    ensures r.Success? && text != "" ==> r.value == PlanFromTree(read(text).value, iso)
  {
    if text == "" then Success(map[])
    else
      match read(text)
      case None => Failure(MalformedPayload)
      case Some(root) => Success(PlanFromTree(root, iso))
  }

  /** `parse_changes`, for full and recent change feeds alike. */
  function ParseChanges(text: string, read: XmlReader, iso: IsoParser): (r: Result<map<string, ChangeEvent>, Error>)
    ensures text == "" ==> r == Success(map[])
    ensures r.Failure? <==> text != "" && read(text).None?
    ensures r.Success? && text != "" ==> r.value == ChangesFromTree(read(text).value, iso)
  {
    if text == "" then Success(map[])
    else
      match read(text)
      case None => Failure(MalformedPayload)
      case Some(root) => Success(ChangesFromTree(root, iso))
  }

  // ---------------------------------------------------------------------------
  // Station directory

  function StationOf(e: Element): (r: StationRecord)
    ensures r.name == Attr(e, "name") && r.eva == Attr(e, "eva")
    ensures r.ds100 == Attr(e, "ds100") && r.meta == Attr(e, "meta")
    ensures r.platform == Attr(e, "p") && r.raw == e.attrs
  {
    StationRecord(Attr(e, "name"), Attr(e, "eva"), Attr(e, "ds100"), Attr(e, "meta"), Attr(e, "p"), e.attrs)
  }

  function StationsOf(es: seq<Element>): (r: seq<StationRecord>)
    ensures |r| == |es|
    ensures forall i | 0 <= i < |es| :: r[i] == StationOf(es[i])
  {
    if es == [] then [] else [StationOf(es[0])] + StationsOf(es[1..])
  }

  /** `parse_station_list`: one record per `station` element anywhere below
      the root, in document order. */
  function ParseStationList(text: string, read: XmlReader): (r: Result<seq<StationRecord>, Error>)
    ensures text == "" ==> r == Success([])
    ensures r.Failure? <==> text != "" && read(text).None?
    ensures r.Success? && text != "" ==>
      var found := FindAllBelow(read(text).value, "station");
      |r.value| == |found| && forall i | 0 <= i < |found| :: r.value[i] == StationOf(found[i])
  {
    if text == "" then Success([])
    else
      match read(text)
      case None => Failure(MalformedPayload)
      case Some(root) => Success(StationsOf(FindAllBelow(root, "station")))
  }
}
