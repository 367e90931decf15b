/**
 * The start/suppress protocol of session replay. Every stretch of code between two awaits is one
 * atomic step; the promises still pending are data, and anything may settle in any order.
 */
module SessionReplay {
  import opened Wrappers

  /** The verdict on a URL: `isSensitiveLocation`. */
  type Verdict = string -> bool

  datatype Sdk = Sentry | PostHog

  /** The parts of the server's answer that are looked at: `enabled === true`, and which SDKs are configured. */
  datatype Config = Config(enabled: bool, sentry: bool, posthog: bool)

  /** What the module is waiting for. */
  datatype Task =
    | Response(attempt: nat)                          // fetch("/api/telemetry/config")
    | Body(attempt: nat)                              // response.json()
    | Fetched(attempt: nat, config: Option<Config>)   // await fetchConfig()
    | RetryTimer                                      // setTimeout(RETRY_DELAY_MS)
    | Importing(sdk: Sdk)                             // import("./session-replay-...")

  /** How a task settles. `ok` is the response status, or that the SDK's start function did not throw. */
  datatype Outcome = Rejects | Resolves(ok: bool, config: Option<Config>)

  /** The history of one SDK. */
  datatype Books = Books(
    began: nat,     // imports begun
    failed: nat,    // imports rejected, or whose start function threw
    dropped: nat,   // modules that arrived after the suppression
    ran: nat,       // recorders started
    stopped: nat)   // stop functions called

  /** The module variables, the pending tasks, and the history. */
  datatype State = State(
    started: bool, suppressed: bool, stoppers: seq<Sdk>, pending: seq<Task>, requests: nat,
    sentry: Books, posthog: Books)
  {
    function Of(k: Sdk): Books { if k.Sentry? then sentry else posthog }

    function With(k: Sdk, books: Books): State { if k.Sentry? then this.(sentry := books) else this.(posthog := books) }
  }

  const EMPTY := Books(0, 0, 0, 0, 0)
  const INITIAL := State(false, false, [], [], 0, EMPTY, EMPTY)

  function Count<T(==)>(xs: seq<T>, x: T): nat {
    if xs == [] then 0 else (if xs[0] == x then 1 else 0) + Count(xs[1..], x)
  }

  datatype Event = Start(href: string) | Suppress | Settle(task: nat, outcome: Outcome)

  // ---- The steps, on values.

  function Request(s: State, attempt: nat): State {
    s.(pending := s.pending + [Response(attempt)], requests := s.requests + 1)
  }

  function AfterStart(sensitive: Verdict, s: State, href: string): State {
    if s.started || s.suppressed || sensitive(href) then s
    else Request(s.(started := true), 1)
  }

  function StopAll(books: Books, sdks: seq<Sdk>, k: Sdk): Books {
    books.(stopped := books.stopped + Count(sdks, k))
  }

  function AfterSuppress(s: State): State {
    s.(suppressed := true, stoppers := [], sentry := StopAll(s.sentry, s.stoppers, Sentry),
       posthog := StopAll(s.posthog, s.stoppers, PostHog))
  }

  function Imports(c: Config): seq<Task> {
    (if c.sentry then [Importing(Sentry)] else []) + (if c.posthog then [Importing(PostHog)] else [])
  }

  /** `initSdks`: the imports begin. */
  function Begun(s: State, c: Config): State {
    s.(pending := s.pending + Imports(c),
       sentry := if c.sentry then s.sentry.(began := s.sentry.began + 1) else s.sentry,
       posthog := if c.posthog then s.posthog.(began := s.posthog.began + 1) else s.posthog)
  }

  /** `startSessionReplay` resumes with what `fetchConfig` returned. */
  function AfterConfig(s: State, attempt: nat, config: Option<Config>): State {
    match config
    case None => if attempt == 1 then s.(pending := s.pending + [RetryTimer]) else s
    case Some(c) =>
      if !c.enabled || s.suppressed then s else Begun(s, c)
  }

  /** The callback of an import: the suppressed check comes before the recorder starts. */
  function AfterImport(s: State, sdk: Sdk, outcome: Outcome): State {
    var books := s.Of(sdk);
    match outcome
    case Rejects => s.With(sdk, books.(failed := books.failed + 1))
    case Resolves(ok, _) =>
      if s.suppressed then s.With(sdk, books.(dropped := books.dropped + 1))
      else if !ok then s.With(sdk, books.(failed := books.failed + 1))
      else s.(stoppers := s.stoppers + [sdk]).With(sdk, books.(ran := books.ran + 1))
  }

  function Without(tasks: seq<Task>, i: nat): seq<Task>
    requires i < |tasks|
  {
    tasks[..i] + tasks[i + 1..]
  }

  function Resume(s: State, task: Task, outcome: Outcome): State {
    match task
    case Response(a) =>
      if outcome.Resolves? && outcome.ok then s.(pending := s.pending + [Body(a)])
      else s.(pending := s.pending + [Fetched(a, None)])
    case Body(a) => s.(pending := s.pending + [Fetched(a, if outcome.Resolves? then outcome.config else None)])
    case Fetched(a, config) => AfterConfig(s, a, config)
    case RetryTimer => Request(s, 2)
    case Importing(sdk) => AfterImport(s, sdk, outcome)
  }

  function AfterSettle(s: State, i: nat, outcome: Outcome): State {
    if i < |s.pending| then Resume(s.(pending := Without(s.pending, i)), s.pending[i], outcome) else s
  }

  function Step(sensitive: Verdict, s: State, e: Event): State {
    match e
    case Start(href) => AfterStart(sensitive, s, href)
    case Suppress => AfterSuppress(s)
    case Settle(i, outcome) => AfterSettle(s, i, outcome)
  }

  /** The state after a run, events in order. */
  function Run(sensitive: Verdict, s: State, events: seq<Event>): State
    decreases |events|
  {
    if events == [] then s else Run(sensitive, Step(sensitive, s, events[0]), events[1..])
  }

  // ---- The module itself.

  class Module {
    var started: bool
    var suppressed: bool
    var stoppers: seq<Sdk>
    // The event loop's side, and the history.
    var pending: seq<Task>
    var requests: nat
    var sentry: Books
    var posthog: Books

    function Now(): State
      reads this
    {
      State(started, suppressed, stoppers, pending, requests, sentry, posthog)
    }

    constructor ()
      ensures Now() == INITIAL
    {
      started, suppressed, stoppers, pending, requests, sentry, posthog := false, false, [], [], 0, EMPTY, EMPTY;
    }

    method StartSessionReplay(sensitive: Verdict, href: string)
      modifies this
      ensures Now() == AfterStart(sensitive, old(Now()), href)
    {
      if started || suppressed { return; }
      if sensitive(href) { return; }
      started := true;
      FetchConfig(1);
    }

    method FetchConfig(attempt: nat)
      modifies this
      ensures Now() == Request(old(Now()), attempt)
    {
      requests := requests + 1;
      pending := pending + [Response(attempt)];
    }

    /** A call of a stop function. The call is made; what comes of it, a throw or a return, is not ours to say. */
    method CallStop(k: Sdk) returns (threw: bool)
      modifies this`sentry, this`posthog
      ensures Now() == old(Now()).With(k, old(Now()).Of(k).(stopped := old(Now()).Of(k).stopped + 1))
    {
      if k.Sentry? {
        sentry := sentry.(stopped := sentry.stopped + 1);
      } else {
        posthog := posthog.(stopped := posthog.stopped + 1);
      }
      threw := *;
    }

    /** Each stop function runs in its own try block: after one that throws, the loop goes on with the next. */
    method SuppressSessionReplay()
      modifies this
      ensures Now() == AfterSuppress(old(Now()))
    {
      suppressed := true;
      var spliced := stoppers;
      stoppers := [];
      for i := 0 to |spliced|
        invariant started == old(started) && suppressed && stoppers == []
        invariant pending == old(pending) && requests == old(requests)
        invariant StopAll(sentry, spliced[i..], Sentry) == StopAll(old(sentry), spliced, Sentry)
        invariant StopAll(posthog, spliced[i..], PostHog) == StopAll(old(posthog), spliced, PostHog)
      {
        assert spliced[i..][1..] == spliced[i + 1..];
        var threw := CallStop(spliced[i]);
        if threw { continue; }
      }
    }

    method InitSdks(c: Config)
      modifies this
      ensures Now() == Begun(old(Now()), c)
    {
      if c.sentry {
        pending, sentry := pending + [Importing(Sentry)], sentry.(began := sentry.began + 1);
      }
      if c.posthog {
        pending, posthog := pending + [Importing(PostHog)], posthog.(began := posthog.began + 1);
      }
    }

    method ResumeWithConfig(attempt: nat, config: Option<Config>)
      modifies this
      ensures Now() == AfterConfig(old(Now()), attempt, config)
    {
      if config.None? {
        if attempt == 1 { pending := pending + [RetryTimer]; }
        return;
      }
      if !config.value.enabled || suppressed { return; }
      InitSdks(config.value);
    }

    method ModuleArrived(sdk: Sdk, outcome: Outcome)
      modifies this
      ensures Now() == AfterImport(old(Now()), sdk, outcome)
    {
      var books := Now().Of(sdk);
      if outcome.Rejects? {
        books := books.(failed := books.failed + 1);
      } else if suppressed {
        books := books.(dropped := books.dropped + 1);
      } else if !outcome.ok {
        books := books.(failed := books.failed + 1);
      } else {
        stoppers := stoppers + [sdk];
        books := books.(ran := books.ran + 1);
      }
      if sdk.Sentry? { sentry := books; } else { posthog := books; }
    }

    method SettleTask(i: nat, outcome: Outcome)
      modifies this
      ensures Now() == AfterSettle(old(Now()), i, outcome)
    {
      if i >= |pending| { return; }
      var task := pending[i];
      pending := Without(pending, i);
      match task
      case Response(a) =>
        pending := pending + [if outcome.Resolves? && outcome.ok then Body(a) else Fetched(a, None)];
      case Body(a) =>
        pending := pending + [Fetched(a, if outcome.Resolves? then outcome.config else None)];
      case Fetched(a, config) => ResumeWithConfig(a, config);
      case RetryTimer => FetchConfig(2);
      case Importing(sdk) => ModuleArrived(sdk, outcome);
    }
  }

  // ---- Counting.

  lemma {:induction false} CountAppend<T>(xs: seq<T>, ys: seq<T>, x: T)
    ensures Count(xs + ys, x) == Count(xs, x) + Count(ys, x)
  {
    if xs == [] {
      assert xs + ys == ys;
    } else {
      CountAppend(xs[1..], ys, x);
      assert (xs + ys)[1..] == xs[1..] + ys;
    }
  }

  lemma CountOne<T>(xs: seq<T>, y: T, x: T)
    ensures Count(xs + [y], x) == Count(xs, x) + if y == x then 1 else 0
  {
    CountAppend(xs, [y], x);
    assert [y][1..] == [];
  }

  lemma CountWithout(tasks: seq<Task>, i: nat, x: Task)
    requires i < |tasks|
    ensures Count(tasks, x) == Count(Without(tasks, i), x) + if tasks[i] == x then 1 else 0
  {
    assert tasks == tasks[..i] + [tasks[i]] + tasks[i + 1..];
    CountAppend(tasks[..i] + [tasks[i]], tasks[i + 1..], x);
    CountOne(tasks[..i], tasks[i], x);
    CountAppend(tasks[..i], tasks[i + 1..], x);
  }

  lemma CountImports(c: Config, k: Sdk)
    ensures Count(Imports(c), Importing(k)) == if (k.Sentry? && c.sentry) || (k.PostHog? && c.posthog) then 1 else 0
    ensures AllImporting(Imports(c))
  {
    var sentry, posthog := if c.sentry then [Importing(Sentry)] else [], if c.posthog then [Importing(PostHog)] else [];
    CountAppend(sentry, posthog, Importing(k));
    CountOne([], Importing(Sentry), Importing(k));
    CountOne([], Importing(PostHog), Importing(k));
    assert [] + [Importing(Sentry)] == [Importing(Sentry)] && [] + [Importing(PostHog)] == [Importing(PostHog)];
  }

  // ---- What every step keeps.

  predicate AllImporting(tasks: seq<Task>) {
    forall t <- tasks :: t.Importing?
  }

  /** The number of requests sent when `t` is the one configuration task. */
  function RequestsAt(t: Task): nat
    requires !t.Importing?
  {
    if t.RetryTimer? then 1 else t.attempt
  }

  /** The configuration is still being fetched: one task, which knows how many requests were sent. */
  predicate Fetching(s: State) {
    |s.pending| == 1 && !s.pending[0].Importing? && s.requests == RequestsAt(s.pending[0]) <= 2
  }

  predicate Shape(s: State) {
    && (!s.started ==> s.pending == [] && s.stoppers == [] && s.requests == 0)
    && (s.suppressed ==> s.stoppers == [])
    && (Fetching(s) || (AllImporting(s.pending) && s.requests <= 2))
  }

  /** The books of one SDK. */
  predicate Balanced(s: State, k: Sdk) {
    var books := s.Of(k);
    // Every recorder that ran is running or was stopped; nothing is stopped or dropped before the suppression.
    && books.ran == Count(s.stoppers, k) + books.stopped
    && (!s.suppressed ==> books.stopped == 0 && books.dropped == 0)
    // Every import begun is pending, failed, dropped, or had its recorder started; and there is at most one.
    && books.began == Count(s.pending, Importing(k)) + books.failed + books.dropped + books.ran
    && books.began <= (if !s.started || Fetching(s) then 0 else 1)
  }

  predicate Inv(s: State, k: Sdk) {
    Shape(s) && Balanced(s, k)
  }

  lemma StartKeepsInv(sensitive: Verdict, s: State, href: string, k: Sdk)
    requires Inv(s, k)
    ensures Inv(AfterStart(sensitive, s, href), k)
  {
    if !s.started {
      assert s.pending + [Response(1)] == [Response(1)];
    }
  }

  /** The configuration has arrived: imports begin, or nothing more happens. */
  lemma ConfigKeepsInv(s: State, attempt: nat, c: Config, k: Sdk)
    requires Inv(s, k) && s.started && s.pending == [] && s.Of(k).began == 0
    ensures Inv(AfterConfig(s, attempt, Some(c)), k)
  {
    CountImports(c, k);
    assert [] + Imports(c) == Imports(c);
  }

  /** One configuration task follows another. */
  lemma TaskKeepsInv(s: State, t: Task, requests: nat, k: Sdk)
    requires Inv(s, k) && s.started && s.pending == [] && s.Of(k).began == 0
    requires !t.Importing? && requests == RequestsAt(t) <= 2
    ensures Inv(s.(pending := s.pending + [t], requests := requests), k)
  {
    CountOne([], t, Importing(k));
    assert s.pending + [t] == [t];
  }

  /** Settling the one configuration task. */
  lemma FetchingKeepsInv(s: State, outcome: Outcome, k: Sdk)
    requires Inv(s, k) && Fetching(s)
    ensures Inv(AfterSettle(s, 0, outcome), k)
  {
    var idle := s.(pending := Without(s.pending, 0));
    assert idle.pending == [] && Count(s.pending, Importing(k)) == 0 by { CountOne([], s.pending[0], Importing(k)); }
    assert Inv(idle, k);
    hide Count, Imports;
    match s.pending[0]
    case Response(a) =>
      TaskKeepsInv(idle, if outcome.Resolves? && outcome.ok then Body(a) else Fetched(a, None), s.requests, k);
    case Body(a) =>
      TaskKeepsInv(idle, Fetched(a, if outcome.Resolves? then outcome.config else None), s.requests, k);
    case Fetched(a, Some(c)) => ConfigKeepsInv(idle, a, c, k);
    case Fetched(a, None) => if a == 1 { TaskKeepsInv(idle, RetryTimer, 1, k); }
    case RetryTimer => TaskKeepsInv(idle, Response(2), 2, k);
  }

  lemma ImportingWithout(tasks: seq<Task>, i: nat)
    requires AllImporting(tasks) && i < |tasks|
    ensures tasks[i].Importing? && tasks[0].Importing? && AllImporting(Without(tasks, i))
    ensures Without(tasks, i) != [] ==> Without(tasks, i)[0].Importing?
  {
    assert tasks[i] in tasks && tasks[0] in tasks;
    forall t | t in Without(tasks, i) ensures t.Importing? { assert t in tasks; }
  }

  /** Settling an import. */
  lemma ImportKeepsInv(s: State, i: nat, outcome: Outcome, k: Sdk)
    requires Inv(s, k) && AllImporting(s.pending) && i < |s.pending|
    ensures Inv(AfterSettle(s, i, outcome), k)
  {
    hide Count, Without;
    var task := s.pending[i];
    ImportingWithout(s.pending, i);
    CountOne(s.stoppers, task.sdk, k);
    assert AfterSettle(s, i, outcome) == AfterImport(s.(pending := Without(s.pending, i)), task.sdk, outcome);
    CountWithout(s.pending, i, Importing(k));
  }

  lemma StepKeepsInv(sensitive: Verdict, s: State, e: Event, k: Sdk)
    requires Inv(s, k)
    ensures Inv(Step(sensitive, s, e), k)
  {
    match e
    case Start(href) => StartKeepsInv(sensitive, s, href, k);
    case Suppress =>
    case Settle(i, outcome) =>
      if i < |s.pending| {
        if Fetching(s) {
          FetchingKeepsInv(s, outcome, k);
        } else {
          ImportKeepsInv(s, i, outcome, k);
        }
      }
  }

  lemma {:induction false} RunKeepsInv(sensitive: Verdict, s: State, events: seq<Event>, k: Sdk)
    requires Inv(s, k)
    ensures Inv(Run(sensitive, s, events), k)
    decreases |events|
  {
    if events != [] {
      StepKeepsInv(sensitive, s, events[0], k);
      RunKeepsInv(sensitive, Step(sensitive, s, events[0]), events[1..], k);
    }
  }

  lemma StepKeepsBooks(sensitive: Verdict, s: State, e: Event)
    requires forall k :: Inv(s, k)
    ensures forall k :: Inv(Step(sensitive, s, e), k)
  {
    forall k ensures Inv(Step(sensitive, s, e), k) { StepKeepsInv(sensitive, s, e, k); }
  }

  // ---- Over whole runs.

  ghost predicate Safe(s: State, k: Sdk) {
    && s.requests <= 2 && s.Of(k).began <= 1 && s.Of(k).ran <= 1
    && (s.suppressed ==> s.stoppers == [] && s.Of(k).stopped == s.Of(k).ran)
    && (!s.suppressed ==> s.Of(k).stopped == 0 && Count(s.stoppers, k) == s.Of(k).ran)
    && (!s.suppressed && s.pending == [] && s.Of(k).failed == 0 ==> Count(s.stoppers, k) == s.Of(k).began)
  }

  lemma InvIsSafe(s: State, k: Sdk)
    requires Inv(s, k)
    ensures Safe(s, k)
  {
  }

  /**
   * In every interleaving: the configuration is requested at most twice, each SDK is imported and
   * started at most once, and once suppressed nothing is running and every recorder that ran had
   * its stop function called exactly once. And nothing is lost: with no import pending or failed
   * and no suppression, what was imported is running.
   */
  lemma RunIsSafe(sensitive: Verdict, events: seq<Event>, k: Sdk)
    ensures Safe(Run(sensitive, INITIAL, events), k)
  {
    RunKeepsInv(sensitive, INITIAL, events, k);
    InvIsSafe(Run(sensitive, INITIAL, events), k);
  }

  /** Suppression is for good: after it nothing is imported and nothing starts, whatever still settles. */
  lemma {:induction false} SuppressedForGood(sensitive: Verdict, s: State, events: seq<Event>, k: Sdk)
    requires s.suppressed && s.stoppers == []
    ensures var t := Run(sensitive, s, events);
            && t.suppressed && t.stoppers == []
            && t.Of(k).ran == s.Of(k).ran && t.Of(k).began == s.Of(k).began && t.Of(k).stopped == s.Of(k).stopped
    decreases |events|
  {
    if events != [] {
      var t := Step(sensitive, s, events[0]);
      assert t.suppressed && t.stoppers == [];
      assert t.Of(k).ran == s.Of(k).ran && t.Of(k).began == s.Of(k).began && t.Of(k).stopped == s.Of(k).stopped;
      SuppressedForGood(sensitive, t, events[1..], k);
    }
  }

  /** A page suppressed before its start asks for nothing, ever. */
  lemma {:induction false} SuppressedBeforeStart(sensitive: Verdict, s: State, events: seq<Event>)
    requires s.suppressed && !s.started && s.pending == [] && s.stoppers == []
    ensures Run(sensitive, s, events) == s
    decreases |events|
  {
    if events != [] {
      assert Step(sensitive, s, events[0]) == s;
      SuppressedBeforeStart(sensitive, s, events[1..]);
    }
  }

  /** A module that arrives after the suppression is dropped: its start function is not even called. */
  lemma ArrivesTooLate(s: State, i: nat, outcome: Outcome)
    requires i < |s.pending| && s.pending[i].Importing? && outcome.Resolves? && s.suppressed
    ensures var k := s.pending[i].sdk;
            var was, books := s.Of(k), AfterSettle(s, i, outcome).Of(k);
            books == was.(dropped := was.dropped + 1)
  {
  }

  /** One that arrives before starts its recorder, or fails to when its start function throws. */
  lemma ArrivesInTime(s: State, i: nat, outcome: Outcome)
    requires i < |s.pending| && s.pending[i].Importing? && outcome.Resolves? && !s.suppressed
    ensures var k := s.pending[i].sdk;
            var was, t := s.Of(k), AfterSettle(s, i, outcome);
            && t.Of(k) == (if outcome.ok then was.(ran := was.ran + 1) else was.(failed := was.failed + 1))
            && t.stoppers == if outcome.ok then s.stoppers + [k] else s.stoppers
  {
  }

  // ---- Progress.

  /** How many awaits of the fetch are still to come, at most: three for each request, and the delay. */
  function Ahead(t: Task): nat {
    match t
    case Response(a) => if a == 1 then 7 else 3
    case Body(a) => if a == 1 then 6 else 2
    case Fetched(a, _) => if a == 1 then 5 else 1
    case RetryTimer => 4
    case Importing(_) => 0
  }

  /** The server's answer is `c`: a first request may fail on the way, the second one gets the answer. */
  predicate AnswersWith(c: Config, t: Task, outcome: Outcome) {
    match t
    case Response(a) => a == 1 || (outcome.Resolves? && outcome.ok)
    case Body(a) =>
      (a == 1 && (outcome.Rejects? || outcome.config == None)) || (outcome.Resolves? && outcome.config == Some(c))
    case _ => true
  }

  /** Whenever the fetch settles in this run, it settles with the answer `c`; and nothing suppresses. */
  predicate Answered(sensitive: Verdict, c: Config, s: State, events: seq<Event>)
    decreases |events|
  {
    events == [] ||
    (&& (match events[0]
         case Settle(i, outcome) => i < |s.pending| ==> AnswersWith(c, s.pending[i], outcome)
         case Suppress => false
         case Start(_) => true)
     && Answered(sensitive, c, Step(sensitive, s, events[0]), events[1..]))
  }

  /** How often the run settles the oldest pending task. */
  function Settled(events: seq<Event>): nat {
    if events == [] then 0 else (if events[0].Settle? && events[0].task == 0 then 1 else 0) + Settled(events[1..])
  }

  function Wanted(c: Config, k: Sdk): nat {
    if c.enabled && (if k.Sentry? then c.sentry else c.posthog) then 1 else 0
  }

  /** On the way to the answer `c`, with `left` awaits to come; or there, with the imports begun. */
  predicate OnTheWay(s: State, c: Config, left: int, k: Sdk) {
    && s.started && !s.suppressed
    && if Fetching(s) then
         && Ahead(s.pending[0]) <= left && s.Of(k).began == 0
         && (s.pending[0].Fetched? ==>
               s.pending[0].config == Some(c) || (s.pending[0].config == None && s.pending[0].attempt == 1))
       else s.Of(k).began == Wanted(c, k)
  }

  lemma StaysOnTheWay(sensitive: Verdict, s: State, c: Config, e: Event, left: int, k: Sdk)
    requires Inv(s, k) && OnTheWay(s, c, left, k) && Answered(sensitive, c, s, [e])
    ensures OnTheWay(Step(sensitive, s, e), c, if e.Settle? && e.task == 0 then left - 1 else left, k)
  {
    hide Count;
    if e.Settle? && e.task < |s.pending| {
      var task := s.pending[e.task];
      if Fetching(s) {
        assert Without(s.pending, 0) == [];
        assert AnswersWith(c, task, e.outcome);
        FetchStaysOnTheWay(s, c, e.outcome, left, k);
      } else {
        ImportingWithout(s.pending, e.task);
      }
    }
  }

  lemma FetchStaysOnTheWay(s: State, c: Config, outcome: Outcome, left: int, k: Sdk)
    requires Inv(s, k) && Fetching(s) && OnTheWay(s, c, left, k) && AnswersWith(c, s.pending[0], outcome)
    ensures OnTheWay(AfterSettle(s, 0, outcome), c, left - 1, k)
  {
    var idle := s.(pending := []);
    assert Without(s.pending, 0) == [];
    match s.pending[0]
    case Response(_) =>
    case Body(_) =>
    case Fetched(a, Some(_)) => assert [] + Imports(c) == Imports(c);
    case Fetched(_, None) =>
    case RetryTimer =>
  }

  lemma {:induction false} ReachesTheAnswer(
    sensitive: Verdict, s: State, c: Config, events: seq<Event>, left: int, k: Sdk)
    requires Inv(s, k) && OnTheWay(s, c, left, k) && Answered(sensitive, c, s, events)
    ensures OnTheWay(Run(sensitive, s, events), c, left - Settled(events), k)
    decreases |events|
  {
    if events != [] {
      StaysOnTheWay(sensitive, s, c, events[0], left, k);
      StepKeepsInv(sensitive, s, events[0], k);
      var next := if events[0].Settle? && events[0].task == 0 then left - 1 else left;
      ReachesTheAnswer(sensitive, Step(sensitive, s, events[0]), c, events[1..], next, k);
    }
  }

  lemma InitialInv(k: Sdk)
    ensures Inv(INITIAL, k)
  {
  }

  lemma SafeStart(sensitive: Verdict, href: string, c: Config, k: Sdk)
    requires !sensitive(href)
    ensures var s := Step(sensitive, INITIAL, Start(href)); Inv(s, k) && OnTheWay(s, c, 7, k)
  {
    hide Inv;
    InitialInv(k);
    StepKeepsInv(sensitive, INITIAL, Start(href), k);
    assert [] + [Response(1)] == [Response(1)];
  }

  /**
   * On a page that is safe to record, in any run without a suppression in which the server's answer
   * is `c`: after seven settled awaits at most, exactly the SDKs of an enabled answer were imported,
   * and once nothing is pending or failed, exactly those are running.
   */
  lemma SafePageImports(sensitive: Verdict, href: string, c: Config, events: seq<Event>, k: Sdk)
    requires !sensitive(href) && Answered(sensitive, c, Step(sensitive, INITIAL, Start(href)), events)
    ensures var s := Run(sensitive, Step(sensitive, INITIAL, Start(href)), events);
            && (Fetching(s) ==> Settled(events) < 7)
            && (!Fetching(s) ==> s.Of(k).began == Wanted(c, k))
            && (s.pending == [] && s.Of(k).failed == 0 ==> Count(s.stoppers, k) == Wanted(c, k))
  {
    hide Run, Step, Answered, Settled;
    var s := Step(sensitive, INITIAL, Start(href));
    SafeStart(sensitive, href, c, k);
    ReachesTheAnswer(sensitive, s, c, events, 7, k);
    RunKeepsInv(sensitive, s, events, k);
  }

  // ---- The fetch, await by await.

  lemma OneTask(t: Task)
    ensures Without([t], 0) == [] && forall u: Task :: [] + [u] == [u]
  {
  }

  /** A failed first request is retried after the delay; a failed second one is the end. */
  lemma AfterFailure(s: State, attempt: nat, any: Outcome, more: Outcome)
    requires s.pending == [Fetched(attempt, None)]
    ensures attempt == 1 ==> AfterSettle(s, 0, any) == s.(pending := [RetryTimer])
    ensures attempt == 1 ==>
              AfterSettle(AfterSettle(s, 0, any), 0, more) == s.(pending := [Response(2)], requests := s.requests + 1)
    ensures attempt != 1 ==> AfterSettle(s, 0, any) == s.(pending := [])
  {
    OneTask(s.pending[0]);
    OneTask(RetryTimer);
  }

  /** A response that is rejected or not ok is a failure, whatever its body would say. */
  lemma NotOkIsNotRead(s: State, attempt: nat, outcome: Outcome)
    requires s.pending == [Response(attempt)] && (outcome.Rejects? || !outcome.ok)
    ensures AfterSettle(s, 0, outcome) == s.(pending := [Fetched(attempt, None)])
  {
    OneTask(s.pending[0]);
  }

  /** A body that cannot be read is one too. */
  lemma BadBodyIsFailure(s: State, attempt: nat, outcome: Outcome)
    requires s.pending == [Body(attempt)] && (outcome.Rejects? || outcome.config == None)
    ensures AfterSettle(s, 0, outcome) == s.(pending := [Fetched(attempt, None)])
  {
    OneTask(s.pending[0]);
  }

  /** An ok response is read, and its configuration acted on: only when enabled, and not once suppressed. */
  lemma OkIsRead(s: State, attempt: nat, c: Config, any: Outcome)
    requires s.pending == [Response(attempt)] && any.Resolves?
    ensures AfterSettle(s, 0, Resolves(true, any.config)) == s.(pending := [Body(attempt)])
    ensures AfterSettle(s.(pending := [Body(attempt)]), 0, Resolves(any.ok, Some(c)))
            == s.(pending := [Fetched(attempt, Some(c))])
    ensures var t := AfterSettle(s.(pending := [Fetched(attempt, Some(c))]), 0, any);
            && (!c.enabled || s.suppressed ==> t.pending == [])
            && (c.enabled && !s.suppressed ==>
                  (Importing(Sentry) in t.pending <==> c.sentry) && (Importing(PostHog) in t.pending <==> c.posthog))
  {
    OneTask(s.pending[0]);
    OneTask(Body(attempt));
    OneTask(Fetched(attempt, Some(c)));
  }
}
