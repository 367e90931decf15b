/** One page load: the mount effect, the router's events, and everything pending, driving session replay. */
module SessionReplayPage {
  import opened Wrappers
  import opened TelemetryPrivacy
  import opened SessionReplay

  /**
   * `location` is window.location.href, `navigating` the URL of a route change under way, and
   * `hashed` says that the hash changed since the last load or route change.
   */
  datatype Page = Page(replay: State, location: string, navigating: Option<string>, hashed: bool)

  datatype PageEvent =
    | RouteChangeStart(url: string)
    | RouteChangeComplete
    | RouteChangeError
    | HashChange(fragment: string)   // fires hashChangeStart, which nothing listens to
    | Remount                        // the effect cleans up and runs again
    | Settles(task: nat, outcome: Outcome)

  function Judge(b: Browser): Verdict {
    (url: string) => IsSensitiveLocation(b, url)
  }

  function WithoutFragment(location: string): string { location[..Until(location, {'#'})] }

  /** The address bar after a navigation: a path belongs to the origin, a query or a fragment to where we are. */
  function Resolved(origin: string, location: string, url: string): string {
    if url == "" || url[0] == '#' then WithoutFragment(location) + url
    else if url[0] == '?' then WithoutQuery(location) + url
    else if url[0] == '/' then origin + url
    else url
  }

  function WithFragment(location: string, fragment: string): string {
    WithoutFragment(location) + ("#" + fragment)
  }

  /** The page after its initial load, with the effect of `SessionReplay` run. */
  function Load(sensitive: Verdict, href: string): Page {
    Page(Step(sensitive, INITIAL, Start(href)), href, None, false)
  }

  function PageStep(sensitive: Verdict, origin: string, p: Page, e: PageEvent): Page {
    match e
    case RouteChangeStart(url) =>
      p.(replay := if sensitive(url) then Step(sensitive, p.replay, Suppress) else p.replay, navigating := Some(url))
    case RouteChangeComplete =>
      if p.navigating.None? then p
      else p.(location := Resolved(origin, p.location, p.navigating.value), navigating := None, hashed := false)
    case RouteChangeError => p.(navigating := None)
    case HashChange(fragment) => p.(location := WithFragment(p.location, fragment), hashed := true)
    case Remount => p.(replay := Step(sensitive, p.replay, Start(p.location)))
    case Settles(task, outcome) => p.(replay := Step(sensitive, p.replay, Settle(task, outcome)))
  }

  function PageRun(sensitive: Verdict, origin: string, p: Page, events: seq<PageEvent>): Page
    decreases |events|
  {
    if events == [] then p else PageRun(sensitive, origin, PageStep(sensitive, origin, p, events[0]), events[1..])
  }

  /** The component: its handler calls into the module. */
  class Component {
    var replay: Module
    var location: string
    var navigating: Option<string>
    var hashed: bool

    function Now(): Page
      reads this, replay
    {
      Page(replay.Now(), location, navigating, hashed)
    }

    constructor (b: Browser, href: string)
      ensures fresh(replay) && Now() == Load(Judge(b), href)
    {
      replay := new Module();
      location, navigating, hashed := href, None, false;
      new;
      replay.StartSessionReplay(Judge(b), href);
    }

    method OnRouteChangeStart(b: Browser, url: string)
      modifies this, replay
      ensures replay == old(replay) && Now() == PageStep(Judge(b), "", old(Now()), RouteChangeStart(url))
    {
      if Judge(b)(url) {
        replay.SuppressSessionReplay();
      }
      navigating := Some(url);
    }
  }

  // ---- Locations and their parts.

  lemma {:induction false} UntilBefore(s: string, tail: string, stops: set<char>)
    requires tail != "" && tail[0] in stops
    ensures Until(s + tail, stops) == Until(s, stops)
    ensures (s + tail)[Until(s, stops)..] == s[Until(s, stops)..] + tail
  {
    UntilUnique(s + tail, stops, Until(s, stops));
  }

  lemma SchemeKept(x: string, tail: string)
    requires tail != "" && tail[0] in {'?', '#'}
    ensures SchemeLength(x + tail) == SchemeLength(x)
  {
    UntilBefore(x, tail, {'?', '#'});
    assert WithoutQuery(x + tail) == WithoutQuery(x);
    SchemeBeforeQuery(x);
    SchemeBeforeQuery(x + tail);
  }

  lemma DropTwice(s: string, n: nat, k: nat)
    requires n + k <= |s|
    ensures s[n..][k..] == s[n + k..]
  {
  }

  /** A query or a fragment at the end stays at the end when scheme and authority are taken off. */
  lemma RelativeKeepsTail(x: string, tail: string)
    requires tail != "" && tail[0] in {'?', '#'}
    ensures Relative(x + tail) == Relative(x) + tail
  {
    hide SchemeLength, Until;
    SchemeKept(x, tail);
    var n := SchemeLength(x);
    if n > 0 {
      var t := x[n..];
      var k := Until(t, {'/', '?', '#'});
      assert (x + tail)[n..] == t + tail;
      UntilBefore(t, tail, {'/', '?', '#'});
      DropTwice(x + tail, n, k);
      DropTwice(x, n, k);
    }
  }

  lemma FragmentApart(r: string, tail: string)
    requires '#' !in r && (tail == "" || tail[0] == '#')
    ensures BeforeHash(r + tail) == r && Hash(r + tail) == if tail == "" then "" else tail[1..]
  {
    UntilOf(r, tail, {'#'});
  }

  /** Whatever the fragment is, path and query are those of the location without it. */
  lemma FragmentDoesNotMatter(x: string, tail: string)
    requires '#' !in x && (tail == "" || tail[0] == '#')
    ensures BeforeHash(Relative(x + tail)) == Relative(x)
    ensures Hash(Relative(x + tail)) == if tail == "" then "" else tail[1..]
  {
    var r := Relative(x);
    assert '#' !in r by { assert forall c <- r :: c in x; }
    if tail == "" {
      assert x + tail == x && r + tail == r;
    } else {
      RelativeKeepsTail(x, tail);
    }
    FragmentApart(r, tail);
  }

  /** Changing the fragment changes neither path nor query. */
  lemma OnlyTheFragmentChanges(location: string, tail: string)
    requires tail == "" || tail[0] == '#'
    ensures var next := WithoutFragment(location) + tail;
            && RawPath(next) == RawPath(location) && Query(next) == Query(location)
            && Hash(Relative(next)) == if tail == "" then "" else tail[1..]
  {
    hide Relative, BeforeHash, Hash;
    var k := Until(location, {'#'});
    var x := WithoutFragment(location);
    assert '#' !in x && location == x + location[k..];
    FragmentDoesNotMatter(x, location[k..]);
    FragmentDoesNotMatter(x, tail);
  }

  /** A query alone: its path is empty, and everything else is in it. */
  lemma QueryAlone(url: string)
    requires url != "" && url[0] == '?'
    ensures Relative(url) == url && RawPath(url) == "" && BeforeHash(url) == "?" + Query(url)
  {
    assert SchemeRun(url) == 0;
    var b := BeforeHash(url);
    assert b[0] == '?' && b == "?" + b[1..];
    assert Until(b, {'?'}) == 0;
  }

  lemma QueryApart(r: string, url: string)
    requires '?' !in r && '#' !in r && url != "" && url[0] == '?'
    ensures BeforeHash(r + url) == r + BeforeHash(url) && Hash(r + url) == Hash(url)
  {
    hide Until;
    UntilSkips(r, url, {'#'});
    var k := Until(url, {'#'});
    if k < |url| { DropTwice(r + url, |r|, k + 1); }
  }

  lemma QueryPart(r: string, query: string)
    requires '?' !in r
    ensures var b := r + ("?" + query); Until(b, {'?'}) == |r| && b[|r| + 1..] == query
  {
    UntilOf(r, "?" + query, {'?'});
  }

  lemma RelativeHasNoQuery(location: string)
    ensures var r := Relative(WithoutQuery(location)); '?' !in r && '#' !in r
  {
    var w := WithoutQuery(location);
    assert forall c <- Relative(w) :: c in w;
  }

  lemma QueryReplaced(location: string, url: string)
    requires url != "" && url[0] == '?'
    ensures WithoutQuery(WithoutQuery(location) + url) == WithoutQuery(location)
  {
    UntilOf(WithoutQuery(location), url, {'?', '#'});
  }

  /** Changing the query keeps the path, and takes query and fragment from the new URL. */
  lemma OnlyTheQueryChanges(location: string, url: string)
    requires url != "" && url[0] == '?'
    ensures var next := WithoutQuery(location) + url;
            && RawPath(next) == RawPath(location) && Query(next) == Query(url)
            && Hash(Relative(next)) == Hash(Relative(url))
  {
    hide Relative, BeforeHash, WithoutQuery, RawPath, Hash, Until;
    var w := WithoutQuery(location);
    var next, r := w + url, Relative(w);
    RelativeHasNoQuery(location);
    RelativeKeepsTail(w, url);
    QueryAlone(url);
    QueryApart(r, url);
    assert BeforeHash(Relative(next)) == r + ("?" + Query(url));
    QueryPart(r, Query(url));
    QueryReplaced(location, url);
    SameRawPath(next, location);
  }

  /** The path depends on what precedes query and fragment alone. */
  lemma SameRawPath(a: string, b: string)
    requires WithoutQuery(a) == WithoutQuery(b)
    ensures RawPath(a) == RawPath(b)
  {
    RawPathIsPath(a);
    RawPathIsPath(b);
  }

  // ---- Safety.

  predicate Recording(p: Page) {
    p.replay.stoppers != []
  }

  /** Replay has started and may yet start a recorder. */
  predicate Live(p: Page) {
    p.replay.started && !p.replay.suppressed
  }

  /** The address can be sensitive for its fragment only, and only after a hash change. */
  predicate OnlyTheFragmentSensitive(b: Browser, location: string, hashed: bool) {
    && !SensitivePath(b, RawPath(location)) && !SensitiveParams(b, Query(location))
    && (!hashed ==> !SensitiveParams(b, Hash(Relative(location))))
  }

  ghost predicate PageInv(b: Browser, p: Page) {
    && (forall k :: Inv(p.replay, k))
    && (p.navigating.Some? && Judge(b)(p.navigating.value) ==> p.replay.suppressed)
    && (Live(p) ==> OnlyTheFragmentSensitive(b, p.location, p.hashed))
  }

  /** Where a navigation to a harmless URL leads from such an address is not sensitive. */
  lemma NavigationIsJudged(b: Browser, origin: string, p: Page, url: string)
    requires IsOrigin(origin) && OnlyTheFragmentSensitive(b, p.location, p.hashed) && !Judge(b)(url)
    ensures !Judge(b)(Resolved(origin, p.location, url))
  {
    hide SensitivePath, SensitiveParams, RawPath, Query, Hash;
    if url == "" || url[0] == '#' {
      OnlyTheFragmentChanges(p.location, url);
      FragmentDoesNotMatter("", url);
      assert "" + url == url;
      EmptyIsHarmless(b);
    } else if url[0] == '?' {
      OnlyTheQueryChanges(p.location, url);
    } else if url[0] == '/' {
      OriginDoesNotMatter(b, origin, url);
    }
  }

  lemma EmptyIsHarmless(b: Browser)
    ensures !SensitiveParams(b, "")
  {
  }

  lemma CompletionKeepsInv(b: Browser, origin: string, p: Page)
    requires IsOrigin(origin) && PageInv(b, p)
    ensures PageInv(b, PageStep(Judge(b), origin, p, RouteChangeComplete))
  {
    hide Resolved, SensitivePath, SensitiveParams, RawPath, Query, Hash, Inv;
    if Live(p) && p.navigating.Some? {
      NavigationIsJudged(b, origin, p, p.navigating.value);
    }
  }

  lemma HashChangeKeepsInv(b: Browser, p: Page, fragment: string)
    requires PageInv(b, p)
    ensures PageInv(b, p.(location := WithFragment(p.location, fragment), hashed := true))
  {
    hide SensitivePath, SensitiveParams, RawPath, Query, Hash, Inv;
    OnlyTheFragmentChanges(p.location, "#" + fragment);
  }

  /** A step of the replay module alone: it goes live only where nothing is sensitive. */
  lemma ReplayKeepsInv(b: Browser, p: Page, e: Event)
    requires PageInv(b, p) && (e.Start? ==> e.href == p.location)
    ensures PageInv(b, p.(replay := Step(Judge(b), p.replay, e)))
  {
    hide SensitivePath, SensitiveParams, RawPath, Query, Hash, Relative, Inv;
    StepKeepsBooks(Judge(b), p.replay, e);
  }

  lemma PageStepKeepsInv(b: Browser, origin: string, p: Page, e: PageEvent)
    requires IsOrigin(origin) && PageInv(b, p)
    ensures PageInv(b, PageStep(Judge(b), origin, p, e))
  {
    hide OnlyTheFragmentSensitive, IsSensitiveLocation, Inv;
    match e
    case RouteChangeStart(_) => ReplayKeepsInv(b, p, Suppress);
    case RouteChangeComplete => CompletionKeepsInv(b, origin, p);
    case RouteChangeError =>
    case HashChange(fragment) => HashChangeKeepsInv(b, p, fragment);
    case Remount => ReplayKeepsInv(b, p, Start(p.location));
    case Settles(task, outcome) => ReplayKeepsInv(b, p, Settle(task, outcome));
  }

  lemma {:induction false} PageRunKeepsInv(b: Browser, origin: string, p: Page, events: seq<PageEvent>)
    requires IsOrigin(origin) && PageInv(b, p)
    ensures PageInv(b, PageRun(Judge(b), origin, p, events))
    decreases |events|
  {
    if events != [] {
      PageStepKeepsInv(b, origin, p, events[0]);
      PageRunKeepsInv(b, origin, PageStep(Judge(b), origin, p, events[0]), events[1..]);
    }
  }

  /** A recording page is sensitive for a fragment that came by a hash change, or not at all. */
  predicate RecordedForItsHash(b: Browser, p: Page) {
    Recording(p) ==> (Judge(b)(p.location) <==> p.hashed && SensitiveParams(b, Hash(Relative(p.location))))
  }

  lemma PageIsSafe(b: Browser, p: Page)
    requires PageInv(b, p)
    ensures RecordedForItsHash(b, p)
  {
    assert Inv(p.replay, Sentry);
  }

  lemma LoadIsSafe(b: Browser, href: string)
    ensures PageInv(b, Load(Judge(b), href))
  {
    forall k ensures Inv(INITIAL, k) {}
    StepKeepsBooks(Judge(b), INITIAL, Start(href));
  }

  /**
   * Over any run of a page, whatever is pending and whenever it settles: while a recorder runs, the
   * location is sensitive exactly when the hash changed since the last load or route change and its
   * new value names a credential. A location reached by a load or a route change is never recorded
   * when it is sensitive.
   */
  lemma NoRecordingOnSensitivePages(b: Browser, origin: string, href: string, events: seq<PageEvent>)
    requires IsOrigin(origin)
    ensures var p := PageRun(Judge(b), origin, Load(Judge(b), href), events);
            Recording(p) ==> (Judge(b)(p.location) <==> p.hashed && SensitiveParams(b, Hash(Relative(p.location))))
  {
    LoadIsSafe(b, href);
    PageRunKeepsInv(b, origin, Load(Judge(b), href), events);
    PageIsSafe(b, PageRun(Judge(b), origin, Load(Judge(b), href), events));
  }

  // ---- Where it ends: hash changes.

  /** A fragment with a credential parameter makes any location sensitive. */
  lemma FragmentIsJudged(b: Browser, location: string, fragment: string)
    requires SensitiveParams(b, fragment)
    ensures Judge(b)(WithFragment(location, fragment))
  {
    OnlyTheFragmentChanges(location, "#" + fragment);
  }

  /**
   * A run that shows the limit is real: on a page safe to record, Sentry starts, then the hash gains a
   * credential parameter. No route change event fires, and the recorder runs on.
   */
  lemma HashChangeEscapes(b: Browser, origin: string, href: string, fragment: string)
    requires !Judge(b)(href) && SensitiveParams(b, fragment)
    ensures exists events ::
              var p := PageRun(Judge(b), origin, Load(Judge(b), href), events);
              Recording(p) && Judge(b)(p.location) && p.hashed
  {
    var sensitive := Judge(b);
    FragmentIsJudged(b, href, fragment);
    HashRun(sensitive, origin, href, fragment);
  }

  lemma PageRunCons(sensitive: Verdict, origin: string, p: Page, e: PageEvent, rest: seq<PageEvent>)
    ensures PageRun(sensitive, origin, p, [e] + rest)
            == PageRun(sensitive, origin, PageStep(sensitive, origin, p, e), rest)
  {
    assert ([e] + rest)[0] == e && ([e] + rest)[1..] == rest;
  }

  const ANSWER := Resolves(true, None)

  lemma HashRun(sensitive: Verdict, origin: string, href: string, fragment: string)
    requires !sensitive(href) && sensitive(WithFragment(href, fragment))
    ensures exists events ::
              var p := PageRun(sensitive, origin, Load(sensitive, href), events);
              Recording(p) && sensitive(p.location) && p.hashed
  {
    var config := Config(true, true, false);
    var go, body, hash := Settles(0, ANSWER), Settles(0, Resolves(true, Some(config))), HashChange(fragment);
    var r0 := INITIAL.(started := true, requests := 1, pending := [Response(1)]);
    var r1, r2 := r0.(pending := [Body(1)]), r0.(pending := [Fetched(1, Some(config))]);
    var r3 := r0.(pending := [Importing(Sentry)], sentry := EMPTY.(began := 1));
    var r4 := r0.(pending := [], sentry := EMPTY.(began := 1, ran := 1), stoppers := [Sentry]);
    var p0, p1, p2 := Page(r0, href, None, false), Page(r1, href, None, false), Page(r2, href, None, false);
    var p3, p4 := Page(r3, href, None, false), Page(r4, href, None, false);
    var t4 := [hash] + [];
    var t3 := [go] + t4;
    var t2 := [go] + t3;
    var t1 := [body] + t2;
    assert Load(sensitive, href) == p0;
    PageRunCons(sensitive, origin, p0, go, t1);
    assert PageStep(sensitive, origin, p0, go) == p1;
    PageRunCons(sensitive, origin, p1, body, t2);
    assert PageStep(sensitive, origin, p1, body) == p2;
    PageRunCons(sensitive, origin, p2, go, t3);
    assert PageStep(sensitive, origin, p2, go) == p3;
    PageRunCons(sensitive, origin, p3, go, t4);
    assert PageStep(sensitive, origin, p3, go) == p4;
    PageRunCons(sensitive, origin, p4, hash, []);
    var p := PageRun(sensitive, origin, Load(sensitive, href), [go] + t1);
    assert Recording(p) && sensitive(p.location) && p.hashed;
  }
}
