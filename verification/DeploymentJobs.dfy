/** Listing deployment jobs: bounded pagination, one row per run, newest first. */
module DeploymentJobs {
  import opened Wrappers
  import opened Text

  /** The event payload: the server it is for, and the rest as text. */
  datatype Data = Data(serverId: Option<string>, rest: string)

  datatype Event = Event(id: string, name: string, data: Option<Data>, ts: int, internalId: Option<string>)

  /** A response of the events endpoint; a body without a data array has no events. */
  datatype Page = HttpError | Page(data: seq<Event>, cursor: Option<string>, nextCursor: Option<string>)

  /** Request `n`, with the cursor it carries. Nothing is assumed about the server. */
  type Server = (nat, Option<string>) -> Page

  const MAX_EVENTS := 500
  const PAGE_LIMIT := 100

  // ---- Pagination.

  /** `body.cursor ?? body.nextCursor ?? data[data.length - 1]?.internal_id` */
  function NextCursor(page: Page): Option<string>
    requires page.Page?
  {
    if page.cursor.Some? then page.cursor
    else if page.nextCursor.Some? then page.nextCursor
    else if page.data == [] then None
    else page.data[|page.data| - 1].internalId
  }

  function Answer(server: Server, asked: seq<Option<string>>, i: nat): Page
    requires i < |asked|
  {
    server(i, asked[i])
  }

  /** The events of the first `n` answers, in order. */
  function Received(server: Server, asked: seq<Option<string>>, n: nat): seq<Event>
    requires n <= |asked|
  {
    if n == 0 then []
    else
      var page := Answer(server, asked, n - 1);
      Received(server, asked, n - 1) + if page.Page? then page.data else []
  }

  /** Answer `i` is followed by another request. */
  predicate HasMore(server: Server, asked: seq<Option<string>>, i: nat)
    requires i < |asked|
  {
    var page := Answer(server, asked, i);
    && page.Page? && |page.data| == PAGE_LIMIT
    && NextCursor(page).Some? && NextCursor(page).value != ""
    && |Received(server, asked, i + 1)| < MAX_EVENTS
  }

  /** Request `i + 1` carries the cursor that answer `i` gave. */
  predicate Follows(server: Server, asked: seq<Option<string>>, i: nat)
    requires i + 1 < |asked|
  {
    HasMore(server, asked, i) && asked[i + 1] == NextCursor(Answer(server, asked, i))
  }

  /** `asked` are the cursors of a whole fetch: each follows from the answer before, and the last answer ends it. */
  predicate WholeFetch(server: Server, asked: seq<Option<string>>) {
    && |asked| > 0 && asked[0] == None
    && (forall i :: 0 <= i < |asked| - 1 ==> Follows(server, asked, i))
    && !HasMore(server, asked, |asked| - 1)
  }

  function Take(events: seq<Event>, n: nat): (r: seq<Event>)
    ensures |r| <= n && r <= events && (|r| == n || r == events)
  {
    events[..if n <= |events| then n else |events|]
  }

  lemma {:induction false} ReceivedGrows(server: Server, asked: seq<Option<string>>, more: Option<string>, n: nat)
    requires n <= |asked|
    ensures Received(server, asked + [more], n) == Received(server, asked, n)
  {
    if n > 0 {
      ReceivedGrows(server, asked, more, n - 1);
    }
  }

  lemma HasMoreKept(server: Server, asked: seq<Option<string>>, more: Option<string>, i: nat)
    requires i < |asked|
    ensures HasMore(server, asked + [more], i) == HasMore(server, asked, i)
  {
    ReceivedGrows(server, asked, more, i + 1);
  }

  lemma FollowsKept(server: Server, asked: seq<Option<string>>, more: Option<string>)
    ensures forall i :: 0 <= i < |asked| - 1 && Follows(server, asked, i) ==> Follows(server, asked + [more], i)
  {
    forall i | 0 <= i < |asked| - 1 && Follows(server, asked, i)
      ensures Follows(server, asked + [more], i)
    {
      HasMoreKept(server, asked, more, i);
    }
  }

  method FetchInngestEvents(server: Server) returns (events: seq<Event>, asked: seq<Option<string>>)
    ensures WholeFetch(server, asked) && |asked| <= 5
    ensures events == Take(Received(server, asked, |asked|), MAX_EVENTS)
    ensures |events| <= 500 && events <= Received(server, asked, |asked|)
    ensures |Received(server, asked, |asked|)| <= 500 ==> events == Received(server, asked, |asked|)
  {
    hide Take;
    var all: seq<Event>, cursor: Option<string> := [], None;
    asked := [];
    while true
      invariant |asked| > 0 ==> asked[0] == None
      invariant asked == [] ==> cursor == None
      invariant forall i :: 0 <= i < |asked| - 1 ==> Follows(server, asked, i)
      invariant |asked| > 0 ==> HasMore(server, asked, |asked| - 1)
      invariant |asked| > 0 ==> cursor == NextCursor(Answer(server, asked, |asked| - 1))
      invariant all == Received(server, asked, |asked|) && |all| == PAGE_LIMIT * |asked| < MAX_EVENTS
      decreases MAX_EVENTS - |all|
    {
      ghost var before := asked;
      FollowsKept(server, before, cursor);
      ReceivedGrows(server, before, cursor, |before|);
      if |before| > 0 {
        HasMoreKept(server, before, cursor, |before| - 1);
      }
      asked := asked + [cursor];
      var page := server(|asked| - 1, cursor);
      if page.HttpError? { break; }
      all := all + page.data;
      var next := NextCursor(page);
      var hasMore := |page.data| == 100 && next.Some? && next.value != "" && |all| < MAX_EVENTS;
      if !hasMore { break; }
      cursor := next;
    }
    events := Take(all, MAX_EVENTS);
  }

  // ---- A server that pages honestly.

  function Min(a: int, b: int): int { if a <= b then a else b }

  /** Asked at this place, the server answers with the hundred events from there on. */
  ghost predicate Serves(
    server: Server, log: seq<Event>, place: Option<string> -> nat, n: nat, cursor: Option<string>)
  {
    var page, from := server(n, cursor), place(cursor);
    from <= |log| ==> page.Page? && page.data == log[from..Min(from + 100, |log|)]
  }

  /** A token that names the place behind a page. */
  predicate Names(place: Option<string> -> nat, token: Option<string>, behind: nat) {
    token.Some? && token.value != "" && place(token) == behind
  }

  /**
   * A full page says where the next one begins: by its cursor, without one by its nextCursor, and
   * without either by the internal id of its last event.
   */
  ghost predicate LeadsOn(
    server: Server, log: seq<Event>, place: Option<string> -> nat, n: nat, cursor: Option<string>)
  {
    var page, from := server(n, cursor), place(cursor);
    page.Page? && |page.data| == 100 && from + 100 <= |log| ==>
      && (page.cursor.Some? ==> Names(place, page.cursor, from + 100))
      && (page.cursor.None? && page.nextCursor.Some? ==> Names(place, page.nextCursor, from + 100))
      && (page.cursor.None? && page.nextCursor.None? ==> Names(place, page.data[99].internalId, from + 100))
  }

  /** The server pages through `log`; `place` is what its tokens mean. */
  ghost predicate Paged(server: Server, log: seq<Event>, place: Option<string> -> nat) {
    && place(None) == 0
    && forall n, cursor {:trigger server(n, cursor)} ::
         Serves(server, log, place, n, cursor) && LeadsOn(server, log, place, n, cursor)
  }

  lemma PageAt(server: Server, log: seq<Event>, place: Option<string> -> nat, n: nat, cursor: Option<string>)
    requires Paged(server, log, place) && place(cursor) <= |log|
    ensures server(n, cursor).Page?
    ensures server(n, cursor).data == log[place(cursor)..Min(place(cursor) + 100, |log|)]
    ensures place(cursor) + 100 <= |log| ==> Names(place, NextCursor(server(n, cursor)), place(cursor) + 100)
  {
    var page := server(n, cursor);
    hide Names;
    assert Serves(server, log, place, n, cursor) && LeadsOn(server, log, place, n, cursor);
  }

  lemma ReceivedPage(server: Server, log: seq<Event>, place: Option<string> -> nat, asked: seq<Option<string>>, i: nat)
    requires Paged(server, log, place) && i < |asked|
    requires PAGE_LIMIT * i <= |log| && place(asked[i]) == PAGE_LIMIT * i
    requires Received(server, asked, i) == log[..PAGE_LIMIT * i]
    ensures Answer(server, asked, i).Page?
    ensures Answer(server, asked, i).data == log[PAGE_LIMIT * i..Min(PAGE_LIMIT * i + PAGE_LIMIT, |log|)]
    ensures Received(server, asked, i + 1) == log[..Min(PAGE_LIMIT * i + PAGE_LIMIT, |log|)]
  {
    hide Paged, NextCursor;
    PageAt(server, log, place, i, asked[i]);
    var from, to := PAGE_LIMIT * i, Min(PAGE_LIMIT * i + PAGE_LIMIT, |log|);
    assert log[..from] + log[from..to] == log[..to];
  }

  lemma {:induction false} PagesFollow(
    server: Server, log: seq<Event>, place: Option<string> -> nat, asked: seq<Option<string>>, i: nat)
    requires Paged(server, log, place) && WholeFetch(server, asked) && i < |asked|
    ensures PAGE_LIMIT * i <= |log| && place(asked[i]) == PAGE_LIMIT * i
    ensures Received(server, asked, i) == log[..PAGE_LIMIT * i]
  {
    if i > 0 {
      hide Paged, NextCursor;
      PagesFollow(server, log, place, asked, i - 1);
      assert Follows(server, asked, i - 1);
      ReceivedPage(server, log, place, asked, i - 1);
      PageAt(server, log, place, i - 1, asked[i - 1]);
    }
  }

  lemma PagedTotal(server: Server, log: seq<Event>, place: Option<string> -> nat, asked: seq<Option<string>>)
    requires Paged(server, log, place) && WholeFetch(server, asked)
    ensures Received(server, asked, |asked|) == log[..Min(PAGE_LIMIT * |asked|, |log|)]
  {
    hide Paged, Received, HasMore, Follows;
    PagesFollow(server, log, place, asked, |asked| - 1);
    ReceivedPage(server, log, place, asked, |asked| - 1);
  }

  /** The fetch does not stop before the events run out or 500 are there. */
  lemma PagedStops(server: Server, log: seq<Event>, place: Option<string> -> nat, asked: seq<Option<string>>)
    requires Paged(server, log, place) && WholeFetch(server, asked)
    ensures PAGE_LIMIT * |asked| > |log| || PAGE_LIMIT * |asked| >= MAX_EVENTS
  {
    hide Paged, Received, NextCursor, Follows;
    var i := |asked| - 1;
    PagesFollow(server, log, place, asked, i);
    ReceivedPage(server, log, place, asked, i);
    PageAt(server, log, place, i, asked[i]);
  }

  /** Against any such server, whatever its tokens: exactly the first 500 events, or all of them. */
  lemma {:induction false} PagedFetch(
    server: Server, log: seq<Event>, place: Option<string> -> nat, asked: seq<Option<string>>)
    requires Paged(server, log, place) && WholeFetch(server, asked)
    ensures Take(Received(server, asked, |asked|), MAX_EVENTS) == log[..if |log| <= 500 then |log| else 500]
  {
    hide Paged, WholeFetch, Received;
    PagedTotal(server, log, place, asked);
    PagedStops(server, log, place, asked);
  }

  // ---- Tokens that are the internal ids of the events themselves.

  /** Every event has its own, non-empty internal id. */
  ghost predicate Numbered(log: seq<Event>) {
    && (forall e <- log :: e.internalId.Some? && e.internalId.value != "")
    && (forall i, j :: 0 <= i < j < |log| ==> log[i].internalId != log[j].internalId)
  }

  /** The position after the event with this internal id, the start without a cursor. */
  function After(log: seq<Event>, cursor: Option<string>): (n: nat)
    ensures n <= |log|
  {
    if cursor.None? || log == [] then 0
    else if log[|log| - 1].internalId == cursor then |log|
    else After(log[..|log| - 1], cursor)
  }

  /** Each answer holds the next hundred events, and a cursor, if given, names the last of them. */
  ghost predicate Honest(server: Server, log: seq<Event>) {
    forall n, cursor ::
      var page, from := server(n, cursor), After(log, cursor);
      var events := log[from..Min(from + 100, |log|)];
      page.Page? && page.data == events && (events != [] ==> NextCursor(page) == events[|events| - 1].internalId)
  }

  lemma {:induction false} AfterEvent(log: seq<Event>, i: nat)
    requires i < |log| && log[i].internalId.Some?
    requires forall j :: i < j < |log| ==> log[j].internalId != log[i].internalId
    ensures After(log, log[i].internalId) == i + 1
  {
    if i < |log| - 1 {
      AfterEvent(log[..|log| - 1], i);
    }
  }

  /** The last event of a full page names the place behind it. */
  lemma LastNames(log: seq<Event>, from: nat)
    requires Numbered(log) && from + 100 <= |log|
    ensures Names((c: Option<string>) => After(log, c), log[from..from + 100][99].internalId, from + 100)
  {
    var i := from + 99;
    assert log[i] in log && log[from..from + 100][99] == log[i];
    AfterEvent(log, i);
  }

  lemma HonestIsPaged(server: Server, log: seq<Event>)
    requires Numbered(log) && Honest(server, log)
    ensures Paged(server, log, (c: Option<string>) => After(log, c))
  {
    var place := (c: Option<string>) => After(log, c);
    forall n, cursor
      ensures Serves(server, log, place, n, cursor) && LeadsOn(server, log, place, n, cursor)
    {
      hide Numbered, After, Names;
      var page, from := server(n, cursor), After(log, cursor);
      if from + 100 <= |log| {
        LastNames(log, from);
      }
    }
  }

  /** Against such a server the fetch returns exactly the first 500 events, or all of them. */
  lemma {:induction false} HonestFetch(server: Server, log: seq<Event>, asked: seq<Option<string>>)
    requires Numbered(log) && Honest(server, log) && WholeFetch(server, asked)
    ensures Take(Received(server, asked, |asked|), MAX_EVENTS) == log[..if |log| <= 500 then |log| else 500]
  {
    hide Numbered, Honest, WholeFetch, Received, Paged, Take;
    HonestIsPaged(server, log);
    PagedFetch(server, log, (c: Option<string>) => After(log, c), asked);
  }

  // ---- Rows.

  /** A point in time as `getTime` gives it; `Invalid` is NaN. */
  datatype Time = At(ms: int) | Invalid

  /** A run; `failure` is `String(run.output.error)` when the output is an object that has one. */
  datatype Run = Run(
    runId: string, status: string, startedAtMs: Option<int>, startedAt: Option<string>, endedAt: Option<string>,
    failure: Option<string>)

  datatype State = Pending | Active | Completed | FailedState | Cancelled

  datatype Row = Row(
    id: string, name: string, data: Data, timestamp: Time, processedOn: Time, finishedOn: Option<Time>,
    failedReason: Option<string>, state: State)

  function RunStatusToState(status: string): State {
    var s := Lower(status);
    if s == "running" then Active
    else if s == "completed" then Completed
    else if s == "failed" then FailedState
    else if s == "cancelled" then Cancelled
    else Pending
  }

  predicate Terminal(state: State) { state.Completed? || state.FailedState? || state.Cancelled? }

  function PendingRow(e: Event, data: Data): Row {
    Row(e.id, e.name, data, At(e.ts), At(e.ts), None, None, Pending)
  }

  /** `parse` is `new Date(text).getTime()`. */
  function RunRow(parse: string -> Time, e: Event, data: Data, run: Run): Row {
    var state := RunStatusToState(run.status);
    var started :=
      if run.startedAtMs.Some? then At(run.startedAtMs.value)
      else if run.startedAt.Some? && run.startedAt.value != "" then parse(run.startedAt.value)
      else At(e.ts);
    var ended := if run.endedAt.Some? && run.endedAt.value != "" then Some(parse(run.endedAt.value)) else None;
    Row(run.runId, e.name, data, started, started, if Terminal(state) then ended else None,
        if state.FailedState? then run.failure else None, state)
  }

  predicate Requested(e: Event, serverId: string) {
    e.name == "deployment/requested" && e.data.Some? && e.data.value.serverId == Some(serverId)
  }

  function RequestedFor(events: seq<Event>, serverId: string): seq<Event> {
    if events == [] then []
    else (if Requested(events[0], serverId) then [events[0]] else []) + RequestedFor(events[1..], serverId)
  }

  function RunsOf(runs: map<string, seq<Run>>, e: Event): seq<Run> {
    if e.id in runs then runs[e.id] else []
  }

  function DataOf(e: Event): Data {
    if e.data.Some? then e.data.value else Data(None, "")
  }

  /** The rows of one event: one for each run, or one that says it is queued. */
  function EventRows(parse: string -> Time, e: Event, runs: seq<Run>): seq<Row> {
    if runs == [] then [PendingRow(e, DataOf(e))]
    else seq(|runs|, i requires 0 <= i < |runs| => RunRow(parse, e, DataOf(e), runs[i]))
  }

  function AllRows(parse: string -> Time, requested: seq<Event>, runs: map<string, seq<Run>>): seq<Row> {
    if requested == [] then []
    else
      var n := |requested| - 1;
      AllRows(parse, requested[..n], runs) + EventRows(parse, requested[n], RunsOf(runs, requested[n]))
  }

  /**
   * The comparator `(a, b) => b.timestamp - a.timestamp` is positive: `a` goes behind `b`. An invalid
   * time gives NaN, which is not.
   */
  predicate Behind(a: Row, b: Row) {
    a.timestamp.At? && b.timestamp.At? && b.timestamp.ms > a.timestamp.ms
  }

  /** A stable sort by the comparator, as `rows.sort` is for comparators that are consistent. */
  function Insert(sorted: seq<Row>, row: Row): seq<Row> {
    if sorted == [] || !Behind(sorted[|sorted| - 1], row) then sorted + [row]
    else Insert(sorted[..|sorted| - 1], row) + [sorted[|sorted| - 1]]
  }

  function Sorted(rows: seq<Row>): seq<Row> {
    if rows == [] then [] else Insert(Sorted(rows[..|rows| - 1]), rows[|rows| - 1])
  }

  /** The rows of one event: a queued one without runs, else one for each run. */
  method PushEventRows(parse: string -> Time, rows: seq<Row>, e: Event, runs: seq<Run>) returns (r: seq<Row>)
    ensures r == rows + EventRows(parse, e, runs)
  {
    if runs == [] {
      return rows + [PendingRow(e, DataOf(e))];
    }
    ghost var expected := EventRows(parse, e, runs);
    r := rows;
    for j := 0 to |runs|
      invariant r == rows + expected[..j]
    {
      r := r + [RunRow(parse, e, DataOf(e), runs[j])];
      assert expected[..j + 1] == expected[..j] + [expected[j]];
    }
    assert expected[..|expected|] == expected;
  }

  lemma AllRowsStep(parse: string -> Time, requested: seq<Event>, runs: map<string, seq<Run>>, i: nat)
    requires i < |requested|
    ensures AllRows(parse, requested[..i + 1], runs)
            == AllRows(parse, requested[..i], runs) + EventRows(parse, requested[i], RunsOf(runs, requested[i]))
  {
    assert requested[..i + 1][..i] == requested[..i];
  }

  method BuildDeploymentRowsFromRuns(
    parse: string -> Time, events: seq<Event>, runs: map<string, seq<Run>>, serverId: string)
    returns (r: seq<Row>)
    ensures r == Sorted(AllRows(parse, RequestedFor(events, serverId), runs))
    ensures ShowsExactly(parse, events, runs, serverId, r)
  {
    hide ShowsExactly;
    ListingShowsExactly(parse, events, runs, serverId);
    var requested := RequestedFor(events, serverId);
    var rows: seq<Row> := [];
    for i := 0 to |requested|
      invariant rows == AllRows(parse, requested[..i], runs)
    {
      AllRowsStep(parse, requested, runs, i);
      rows := PushEventRows(parse, rows, requested[i], RunsOf(runs, requested[i]));
    }
    assert requested[..|requested|] == requested;
    return Sorted(rows);
  }

  // ---- What the rows are.

  predicate Newest(rows: seq<Row>) {
    forall i, j :: 0 <= i < j < |rows| ==>
      rows[i].timestamp.At? && rows[j].timestamp.At? && rows[i].timestamp.ms >= rows[j].timestamp.ms
  }

  predicate Dated(rows: seq<Row>) {
    forall r <- rows :: r.timestamp.At?
  }

  lemma {:induction false} InsertPermutes(sorted: seq<Row>, row: Row)
    ensures multiset(Insert(sorted, row)) == multiset(sorted) + multiset{row}
  {
    if sorted != [] && Behind(sorted[|sorted| - 1], row) {
      var front := sorted[..|sorted| - 1];
      assert sorted == front + [sorted[|sorted| - 1]];
      InsertPermutes(front, row);
    }
  }

  lemma {:induction false} SortedPermutes(rows: seq<Row>)
    ensures multiset(Sorted(rows)) == multiset(rows)
  {
    if rows != [] {
      var front := rows[..|rows| - 1];
      assert rows == front + [rows[|rows| - 1]];
      SortedPermutes(front);
      InsertPermutes(Sorted(front), rows[|rows| - 1]);
    }
  }

  lemma InsertMembers(sorted: seq<Row>, row: Row)
    ensures forall x :: x in Insert(sorted, row) <==> x in sorted || x == row
  {
    InsertPermutes(sorted, row);
    assert forall x :: x in Insert(sorted, row) <==> x in multiset(Insert(sorted, row));
    assert forall x :: x in sorted <==> x in multiset(sorted);
  }

  lemma SortedMembers(rows: seq<Row>)
    ensures forall x :: x in Sorted(rows) <==> x in rows
  {
    SortedPermutes(rows);
    assert forall x :: x in Sorted(rows) <==> x in multiset(Sorted(rows));
    assert forall x :: x in rows <==> x in multiset(rows);
  }

  /** A row no newer than any of the rows goes last. */
  lemma NewestAppend(rows: seq<Row>, last: Row)
    requires Newest(rows) && Dated(rows) && last.timestamp.At? && forall x <- rows :: !Behind(x, last)
    ensures Newest(rows + [last]) && Dated(rows + [last])
  {
    assert forall i :: 0 <= i < |rows| ==> rows[i] in rows;
  }

  lemma {:induction false} InsertKeepsOrder(sorted: seq<Row>, row: Row)
    requires Newest(sorted) && Dated(sorted) && row.timestamp.At?
    ensures Newest(Insert(sorted, row)) && Dated(Insert(sorted, row))
  {
    if sorted != [] {
      var n := |sorted| - 1;
      var front, last := sorted[..n], sorted[n];
      assert last in sorted && forall x <- front :: x in sorted;
      forall x | x in front ensures !Behind(x, last) {
        var i :| 0 <= i < n && sorted[i] == x;
      }
      if Behind(last, row) {
        InsertKeepsOrder(front, row);
        InsertMembers(front, row);
        NewestAppend(Insert(front, row), last);
      } else {
        assert sorted == front + [last];
        NewestAppend(sorted, row);
      }
    }
  }

  /** With valid times, the rows come newest first. */
  lemma {:induction false} SortedIsNewestFirst(rows: seq<Row>)
    requires Dated(rows)
    ensures Newest(Sorted(rows)) && Dated(Sorted(rows))
  {
    if rows != [] {
      SortedIsNewestFirst(rows[..|rows| - 1]);
      InsertKeepsOrder(Sorted(rows[..|rows| - 1]), rows[|rows| - 1]);
    }
  }

  /** The rows of one point in time, in order. */
  function AtTime(rows: seq<Row>, t: Time): seq<Row> {
    if rows == [] then []
    else AtTime(rows[..|rows| - 1], t) + if rows[|rows| - 1].timestamp == t then [rows[|rows| - 1]] else []
  }

  lemma AtTimeAppend(rows: seq<Row>, row: Row, t: Time)
    ensures AtTime(rows + [row], t) == AtTime(rows, t) + if row.timestamp == t then [row] else []
  {
    assert (rows + [row])[..|rows|] == rows;
  }

  lemma {:induction false} InsertGoesLast(sorted: seq<Row>, row: Row, t: Time)
    ensures AtTime(Insert(sorted, row), t) == AtTime(sorted, t) + if row.timestamp == t then [row] else []
  {
    if sorted != [] && Behind(sorted[|sorted| - 1], row) {
      var front, last := sorted[..|sorted| - 1], sorted[|sorted| - 1];
      InsertGoesLast(front, row, t);
      AtTimeAppend(Insert(front, row), last, t);
    } else {
      AtTimeAppend(sorted, row, t);
    }
  }

  /** Rows of the same time keep the order of their events and runs. */
  lemma {:induction false} SortedIsStable(rows: seq<Row>, t: Time)
    ensures AtTime(Sorted(rows), t) == AtTime(rows, t)
  {
    if rows != [] {
      SortedIsStable(rows[..|rows| - 1], t);
      InsertGoesLast(Sorted(rows[..|rows| - 1]), rows[|rows| - 1], t);
    }
  }

  /** How many rows an event has: max(1, runs). */
  function Rows(runs: map<string, seq<Run>>, e: Event): nat {
    if |RunsOf(runs, e)| > 1 then |RunsOf(runs, e)| else 1
  }

  function RowCount(requested: seq<Event>, runs: map<string, seq<Run>>): nat {
    if requested == [] then 0
    else
      var n := |requested| - 1;
      RowCount(requested[..n], runs) + Rows(runs, requested[n])
  }

  /** Row `r` tells of event `e`: of one of its runs, or of the lack of any. */
  predicate TellsOf(parse: string -> Time, r: Row, e: Event, runs: seq<Run>) {
    if runs == [] then r == PendingRow(e, DataOf(e)) else exists run <- runs :: r == RunRow(parse, e, DataOf(e), run)
  }

  lemma {:induction false} AllRowsTell(parse: string -> Time, requested: seq<Event>, runs: map<string, seq<Run>>)
    ensures |AllRows(parse, requested, runs)| == RowCount(requested, runs)
    ensures forall r <- AllRows(parse, requested, runs) ::
              exists e <- requested :: TellsOf(parse, r, e, RunsOf(runs, e))
    ensures forall e, run :: e in requested && run in RunsOf(runs, e) ==>
              RunRow(parse, e, DataOf(e), run) in AllRows(parse, requested, runs)
    ensures forall e <- requested :: RunsOf(runs, e) == [] ==>
              PendingRow(e, DataOf(e)) in AllRows(parse, requested, runs)
  {
    if requested != [] {
      var n := |requested| - 1;
      var front, last := requested[..n], requested[n];
      assert requested == front + [last];
      AllRowsTell(parse, front, runs);
      var rows := EventRows(parse, last, RunsOf(runs, last));
      forall r | r in rows ensures TellsOf(parse, r, last, RunsOf(runs, last)) {
        var i :| 0 <= i < |rows| && rows[i] == r;
        if RunsOf(runs, last) != [] { assert RunsOf(runs, last)[i] in RunsOf(runs, last); }
      }
      forall run | run in RunsOf(runs, last) ensures RunRow(parse, last, DataOf(last), run) in rows {
        var i :| 0 <= i < |RunsOf(runs, last)| && RunsOf(runs, last)[i] == run;
        assert rows[i] == RunRow(parse, last, DataOf(last), run);
      }
    }
  }

  /** The place of event `i` begins behind the rows of the events before it. */
  lemma {:induction false} RowCountGrows(requested: seq<Event>, runs: map<string, seq<Run>>, i: nat)
    requires i < |requested|
    ensures RowCount(requested[..i], runs) + Rows(runs, requested[i]) == RowCount(requested[..i + 1], runs)
            <= RowCount(requested, runs)
    decreases |requested|
  {
    var n := |requested| - 1;
    assert requested[..i + 1][..i] == requested[..i];
    if i < n {
      RowCountGrows(requested[..n], runs, i);
      assert requested[..n][..i] == requested[..i] && requested[..n][..i + 1] == requested[..i + 1];
    } else {
      assert requested[..i + 1] == requested;
    }
  }

  lemma AllRowsLength(parse: string -> Time, requested: seq<Event>, runs: map<string, seq<Run>>)
    ensures |AllRows(parse, requested, runs)| == RowCount(requested, runs)
  {
    AllRowsTell(parse, requested, runs);
  }

  /** Row `j` of an event: that of its run `j`, or the queued one. */
  function RowOf(parse: string -> Time, e: Event, runs: seq<Run>, j: nat): Row
    requires runs != [] ==> j < |runs|
  {
    if runs == [] then PendingRow(e, DataOf(e)) else RunRow(parse, e, DataOf(e), runs[j])
  }

  lemma EventRowAt(parse: string -> Time, e: Event, runs: seq<Run>, j: nat)
    requires j < if |runs| > 1 then |runs| else 1
    ensures j < |EventRows(parse, e, runs)| && EventRows(parse, e, runs)[j] == RowOf(parse, e, runs, j)
  {
  }

  /** Row by row: event `i` has its rows one after another, behind those of the events before it. */
  lemma {:induction false} RowAt(
    parse: string -> Time, requested: seq<Event>, runs: map<string, seq<Run>>, i: nat, j: nat)
    requires i < |requested| && j < Rows(runs, requested[i])
    ensures var rows, at := AllRows(parse, requested, runs), RowCount(requested[..i], runs) + j;
            && |rows| == RowCount(requested, runs) && at < |rows|
            && rows[at] == RowOf(parse, requested[i], RunsOf(runs, requested[i]), j)
    decreases |requested|
  {
    hide RowOf, EventRows, RunsOf;
    var n := |requested| - 1;
    var front := requested[..n];
    AllRowsLength(parse, requested, runs);
    AllRowsLength(parse, front, runs);
    RowCountGrows(requested, runs, i);
    if i < n {
      assert front[..i] == requested[..i] && front[i] == requested[i];
      RowAt(parse, front, runs, i, j);
    } else {
      EventRowAt(parse, requested[i], RunsOf(runs, requested[i]), j);
    }
  }

  /** Only rows of a terminal state carry a finish time, and only failed ones a reason. */
  predicate FinishesRight(r: Row) {
    (r.finishedOn.Some? ==> Terminal(r.state)) && (r.failedReason.Some? ==> r.state.FailedState?)
  }

  lemma RowsFinishRight(parse: string -> Time, requested: seq<Event>, runs: map<string, seq<Run>>)
    ensures forall r <- AllRows(parse, requested, runs) :: FinishesRight(r)
  {
    AllRowsTell(parse, requested, runs);
    forall r | r in AllRows(parse, requested, runs)
      ensures FinishesRight(r)
    {
      var e :| e in requested && TellsOf(parse, r, e, RunsOf(runs, e));
    }
  }

  /**
   * Listing conserves jobs: the rows are, in some order, exactly the runs of the matching events and
   * one queued row for each matching event without runs; newest first when their times are valid.
   */
  lemma ListingConservesJobs(parse: string -> Time, requested: seq<Event>, runs: map<string, seq<Run>>)
    ensures var rows := AllRows(parse, requested, runs);
            var listed := Sorted(rows);
            && multiset(listed) == multiset(rows) && |listed| == RowCount(requested, runs)
            && (Dated(rows) ==> Newest(listed))
            && (forall r <- listed :: FinishesRight(r))
  {
    var rows := AllRows(parse, requested, runs);
    SortedPermutes(rows);
    SortedMembers(rows);
    RowsFinishRight(parse, requested, runs);
    assert |Sorted(rows)| == |multiset(Sorted(rows))| && |rows| == |multiset(rows)|;
    AllRowsTell(parse, requested, runs);
    if Dated(rows) { SortedIsNewestFirst(rows); }
  }

  // ---- What the listing shows, in so many words.

  /** A non-empty text of the response. */
  predicate Given(text: Option<string>) {
    text.Some? && text.value != ""
  }

  /** The event is a deployment request for this server. */
  predicate IsRequest(e: Event, serverId: string) {
    e.name == "deployment/requested" && e.data.Some? && e.data.value.serverId == Some(serverId)
  }

  /** The state a status spells, in any case; any other word is pending. */
  predicate Spells(state: State, status: string) {
    var word := Lower(status);
    && (state == Active <==> word == "running") && (state == Completed <==> word == "completed")
    && (state == FailedState <==> word == "failed") && (state == Cancelled <==> word == "cancelled")
    && (state == Pending <==> word !in {"running", "completed", "failed", "cancelled"})
  }

  /** The row says of the run what the response says of it. */
  predicate ShowsRun(parse: string -> Time, row: Row, e: Event, run: Run) {
    var word := Lower(run.status);
    && row.id == run.runId && row.name == e.name && Some(row.data) == e.data && Spells(row.state, run.status)
    && row.timestamp == row.processedOn
    && (run.startedAtMs.Some? ==> row.timestamp == At(run.startedAtMs.value))
    && (run.startedAtMs.None? && Given(run.startedAt) ==> row.timestamp == parse(run.startedAt.value))
    && (run.startedAtMs.None? && !Given(run.startedAt) ==> row.timestamp == At(e.ts))
    && (row.finishedOn.Some? <==> word in {"completed", "failed", "cancelled"} && Given(run.endedAt))
    && (row.finishedOn.Some? ==> row.finishedOn.value == parse(run.endedAt.value))
    && row.failedReason == (if word == "failed" then run.failure else None)
  }

  /** The row says that the event is queued. */
  predicate ShowsQueued(row: Row, e: Event) {
    && row.id == e.id && row.name == e.name && Some(row.data) == e.data && row.state == Pending
    && row.timestamp == row.processedOn == At(e.ts) && row.finishedOn == None && row.failedReason == None
  }

  /** The event has no run in the map. */
  predicate NoRuns(runs: map<string, seq<Run>>, e: Event) {
    e.id in runs ==> runs[e.id] == []
  }

  /** The row shows one of the runs of the event, or the event if it has none. */
  predicate ShowsEvent(parse: string -> Time, row: Row, e: Event, runs: map<string, seq<Run>>) {
    if NoRuns(runs, e) then ShowsQueued(row, e) else exists run <- runs[e.id] :: ShowsRun(parse, row, e, run)
  }

  lemma RunRowShows(parse: string -> Time, e: Event, run: Run)
    requires e.data.Some?
    ensures ShowsRun(parse, RunRow(parse, e, DataOf(e), run), e, run)
  {
  }

  lemma PendingRowShows(e: Event)
    requires e.data.Some?
    ensures ShowsQueued(PendingRow(e, DataOf(e)), e)
  {
  }

  lemma {:induction false} RequestsAreFiltered(events: seq<Event>, serverId: string, e: Event)
    ensures e in RequestedFor(events, serverId) <==> e in events && IsRequest(e, serverId)
  {
    if events != [] {
      RequestsAreFiltered(events[1..], serverId, e);
      assert events == [events[0]] + events[1..];
    }
  }

  /** Every run of a request, and every request without runs, is shown. */
  lemma ListingShowsAll(
    parse: string -> Time, events: seq<Event>, runs: map<string, seq<Run>>, serverId: string, e: Event)
    requires e in events && IsRequest(e, serverId)
    ensures var listed := Sorted(AllRows(parse, RequestedFor(events, serverId), runs));
            && (NoRuns(runs, e) ==> exists row <- listed :: ShowsQueued(row, e))
            && (e.id in runs ==> forall run <- runs[e.id] :: exists row <- listed :: ShowsRun(parse, row, e, run))
  {
    hide AllRows, Sorted, RunRow, PendingRow, ShowsRun, ShowsQueued, DataOf;
    var requested := RequestedFor(events, serverId);
    var rows := AllRows(parse, requested, runs);
    RequestsAreFiltered(events, serverId, e);
    AllRowsTell(parse, requested, runs);
    SortedMembers(rows);
    if NoRuns(runs, e) {
      PendingRowShows(e);
      assert PendingRow(e, DataOf(e)) in Sorted(rows);
    }
    if e.id in runs {
      forall run | run in runs[e.id]
        ensures exists row <- Sorted(rows) :: ShowsRun(parse, row, e, run)
      {
        RunRowShows(parse, e, run);
        assert run in RunsOf(runs, e) && RunRow(parse, e, DataOf(e), run) in Sorted(rows);
      }
    }
  }

  /** And nothing else is: every row shows a run of a request, or a request without runs. */
  lemma ListingShowsOnly(
    parse: string -> Time, events: seq<Event>, runs: map<string, seq<Run>>, serverId: string, row: Row)
    requires row in Sorted(AllRows(parse, RequestedFor(events, serverId), runs))
    ensures exists e <- events :: IsRequest(e, serverId) && ShowsEvent(parse, row, e, runs)
  {
    hide AllRows, Sorted, RunRow, PendingRow, ShowsRun, ShowsQueued, DataOf;
    var requested := RequestedFor(events, serverId);
    var rows := AllRows(parse, requested, runs);
    AllRowsTell(parse, requested, runs);
    SortedMembers(rows);
    var e :| e in requested && TellsOf(parse, row, e, RunsOf(runs, e));
    RequestsAreFiltered(events, serverId, e);
    PendingRowShows(e);
    if !NoRuns(runs, e) {
      var run :| run in RunsOf(runs, e) && row == RunRow(parse, e, DataOf(e), run);
      RunRowShows(parse, e, run);
    }
  }

  /** The listing shows every run of a request and every request without runs, and nothing else. */
  ghost predicate ShowsExactly(
    parse: string -> Time, events: seq<Event>, runs: map<string, seq<Run>>, serverId: string, listed: seq<Row>)
  {
    && (forall e <- events :: IsRequest(e, serverId) ==>
          && (NoRuns(runs, e) ==> exists row <- listed :: ShowsQueued(row, e))
          && (e.id in runs ==> forall run <- runs[e.id] :: exists row <- listed :: ShowsRun(parse, row, e, run)))
    && (forall row <- listed :: exists e <- events :: IsRequest(e, serverId) && ShowsEvent(parse, row, e, runs))
  }

  lemma ListingShowsExactly(parse: string -> Time, events: seq<Event>, runs: map<string, seq<Run>>, serverId: string)
    ensures ShowsExactly(parse, events, runs, serverId, Sorted(AllRows(parse, RequestedFor(events, serverId), runs)))
  {
    hide AllRows, Sorted, ShowsRun, ShowsQueued, ShowsEvent, IsRequest, NoRuns, RequestedFor;
    var listed := Sorted(AllRows(parse, RequestedFor(events, serverId), runs));
    forall e | e in events && IsRequest(e, serverId)
      ensures NoRuns(runs, e) ==> exists row <- listed :: ShowsQueued(row, e)
      ensures e.id in runs ==> forall run <- runs[e.id] :: exists row <- listed :: ShowsRun(parse, row, e, run)
    {
      ListingShowsAll(parse, events, runs, serverId, e);
    }
    forall row | row in listed
      ensures exists e <- events :: IsRequest(e, serverId) && ShowsEvent(parse, row, e, runs)
    {
      ListingShowsOnly(parse, events, runs, serverId, row);
    }
  }

  // ---- The whole listing.

  datatype Listing = Jobs(rows: seq<Row>) | MisconfiguredUrl

  /** The run lists of the first 50 matching events, keyed by event id; `fetchRuns` answers an error with []. */
  function FetchedRuns(fetchRuns: string -> seq<Run>, events: seq<Event>): (runs: map<string, seq<Run>>)
    ensures forall e <- events :: e.id in runs && runs[e.id] == fetchRuns(e.id)
  {
    map e <- events :: e.id := fetchRuns(e.id)
  }

  method FetchDeploymentJobs(
    server: Server, fetchRuns: string -> seq<Run>, parse: string -> Time, signingKey: string, baseUrl: string,
    serverId: string)
    returns (r: Listing, events: seq<Event>)
    ensures signingKey == "" ==> r == Jobs([])
    ensures signingKey != "" && baseUrl == "" ==> r.MisconfiguredUrl?
    ensures signingKey != "" && baseUrl != "" ==>
              exists asked ::
                && WholeFetch(server, asked) && |asked| <= 5
                && events == Take(Received(server, asked, |asked|), MAX_EVENTS)
    ensures signingKey != "" && baseUrl != "" ==>
              var toFetch := Take(RequestedFor(events, serverId), 50);
              && r == Jobs(Sorted(AllRows(parse, toFetch, FetchedRuns(fetchRuns, toFetch))))
              && ShowsExactly(parse, toFetch, FetchedRuns(fetchRuns, toFetch), serverId, r.rows)
  {
    hide ShowsExactly, AllRows, Sorted;
    events := [];
    if signingKey == "" { return Jobs([]), events; }
    if baseUrl == "" { return MisconfiguredUrl, events; }
    var asked;
    events, asked := FetchInngestEvents(server);
    var requested := RequestedFor(events, serverId);
    var toFetch := Take(requested, 50);
    var runs := FetchedRuns(fetchRuns, toFetch);
    AllRequested(events, serverId);
    RequestedAgain(toFetch, serverId);
    var rows := BuildDeploymentRowsFromRuns(parse, toFetch, runs, serverId);
    r := Jobs(rows);
  }

  lemma {:induction false} AllRequested(events: seq<Event>, serverId: string)
    ensures forall e <- RequestedFor(events, serverId) :: e in events && Requested(e, serverId)
  {
    if events != [] {
      AllRequested(events[1..], serverId);
    }
  }

  /** The second filter, inside the row builder, keeps everything the first one kept. */
  lemma {:induction false} RequestedAgain(events: seq<Event>, serverId: string)
    requires forall e <- events :: Requested(e, serverId)
    ensures RequestedFor(events, serverId) == events
  {
    if events != [] {
      assert events[0] in events;
      RequestedAgain(events[1..], serverId);
    }
  }
}
