/** URL scrubbing and the verdict on pages that must not be recorded. */
module TelemetryPrivacy {
  import opened Wrappers

  /**
   * What the browser supplies: `toLowerCase`, and the decoded keys of `URLSearchParams`.
   * Nothing is assumed about either.
   */
  datatype Browser = Browser(lower: string -> string, queryKeys: string -> seq<string>)

  const SENSITIVE_PATH_PREFIXES: seq<string> :=
    ["/reset-password", "/send-reset-password", "/invitation", "/accept-invitation", "/register", "/mcp"]

  const SENSITIVE_PARAMS: set<string> :=
    {"token", "code", "state", "access_token", "id_token", "refresh_token", "password", "secret", "client_secret",
     "code_challenge", "invitation"}

  predicate IsLetter(c: char) { 'a' <= c <= 'z' || 'A' <= c <= 'Z' }

  predicate IsSchemeChar(c: char) { IsLetter(c) || '0' <= c <= '9' || c == '+' || c == '.' || c == '-' }

  /** How far `s` goes before one of `stops`. */
  function Until(s: string, stops: set<char>): (n: nat)
    ensures n <= |s| && (forall i :: 0 <= i < n ==> s[i] !in stops) && (n < |s| ==> s[n] in stops)
  {
    if s == "" || s[0] in stops then 0 else 1 + Until(s[1..], stops)
  }

  function SchemeRun(s: string): (n: nat)
    ensures n <= |s| && (forall i :: 0 <= i < n ==> IsSchemeChar(s[i])) && (n < |s| ==> !IsSchemeChar(s[n]))
  {
    if s == "" || !IsSchemeChar(s[0]) then 0 else 1 + SchemeRun(s[1..])
  }

  /** The length of the match of `/^[a-z][a-z0-9+.-]*:\/\//i`, 0 when there is none. */
  function SchemeLength(s: string): (n: nat)
    ensures n <= |s|
  {
    var n := SchemeRun(s);
    if n > 0 && IsLetter(s[0]) && "://" <= s[n..] then n + 3 else 0
  }

  function WithoutQuery(url: string): string {
    url[..Until(url, {'?', '#'})]
  }

  /** `/[^/@]*@/` taken off the front of what follows the scheme. */
  function WithoutCredentials(t: string): string {
    var k := Until(t, {'/', '@'});
    if k < |t| && t[k] == '@' then t[k + 1..] else t
  }

  function StripUrl(url: string): string {
    var w := WithoutQuery(url);
    var n := SchemeLength(w);
    if n > 0 then w[..n] + WithoutCredentials(w[n..]) else w
  }

  /** The URL without scheme and authority. */
  function Relative(url: string): string {
    var n := SchemeLength(url);
    if n > 0 then url[n + Until(url[n..], {'/', '?', '#'})..] else url
  }

  function BeforeHash(relative: string): string { relative[..Until(relative, {'#'})] }

  function Hash(relative: string): string {
    var i := Until(relative, {'#'});
    if i < |relative| then relative[i + 1..] else ""
  }

  function RawPath(url: string): string {
    var b := BeforeHash(Relative(url));
    b[..Until(b, {'?'})]
  }

  function Query(url: string): string {
    var b := BeforeHash(Relative(url));
    var i := Until(b, {'?'});
    if i < |b| then b[i + 1..] else ""
  }

  function TrimSlashes(s: string): string {
    if s != "" && s[|s| - 1] == '/' then TrimSlashes(s[..|s| - 1]) else s
  }

  /** The verdict on the path alone. */
  predicate SensitivePath(b: Browser, rawPath: string) {
    var trimmed := TrimSlashes(b.lower(rawPath));
    var path := if trimmed == "" then "/" else trimmed;
    exists prefix <- SENSITIVE_PATH_PREFIXES :: Under(path, prefix)
  }

  predicate Under(path: string, prefix: string) {
    path == prefix || prefix + "/" <= path
  }

  predicate SensitiveParams(b: Browser, source: string) {
    source != "" && exists key <- b.queryKeys(source) :: b.lower(key) in SENSITIVE_PARAMS
  }

  predicate IsSensitiveLocation(b: Browser, url: string) {
    || SensitivePath(b, RawPath(url))
    || SensitiveParams(b, Query(url))
    || SensitiveParams(b, Hash(Relative(url)))
  }

  // ---- Prefixes of a URL.

  lemma {:induction false} UntilOf(s: string, t: string, stops: set<char>)
    requires (forall c <- s :: c !in stops) && (t == "" || t[0] in stops)
    ensures Until(s + t, stops) == |s|
  {
    if s == "" {
      assert s + t == t;
    } else {
      assert s[0] in s && (s + t)[1..] == s[1..] + t;
      UntilOf(s[1..], t, stops);
    }
  }

  lemma {:induction false} UntilUnique(s: string, stops: set<char>, n: nat)
    requires n <= |s| && (forall i :: 0 <= i < n ==> s[i] !in stops) && (n < |s| ==> s[n] in stops)
    ensures Until(s, stops) == n
  {
  }

  lemma {:induction false} SchemeRunUnique(s: string, n: nat)
    requires n <= |s| && (forall i :: 0 <= i < n ==> IsSchemeChar(s[i])) && (n < |s| ==> !IsSchemeChar(s[n]))
    ensures SchemeRun(s) == n
  {
  }

  /** A scheme is recognised by the characters up to its slashes: what follows does not matter. */
  lemma SchemeIsLocal(s: string, t: string)
    requires SchemeLength(s) > 0 && |t| >= SchemeLength(s) && t[..SchemeLength(s)] == s[..SchemeLength(s)]
    ensures SchemeLength(t) == SchemeLength(s)
  {
    var n := SchemeRun(s);
    assert s[n..][..3] == "://" && s[n] == s[n..][0];
    assert forall i :: 0 <= i < n + 3 ==> t[i] == t[..n + 3][i] == s[i];
    SchemeRunUnique(t, n);
    assert t[n..][..3] == t[..n + 3][n..];
    assert s[n..][..3] == s[..n + 3][n..];
  }

  lemma WithoutQueryTwice(s: string)
    requires '?' !in s && '#' !in s
    ensures WithoutQuery(s) == s
  {
    UntilUnique(s, {'?', '#'}, |s|);
  }

  lemma SchemeBeforeQuery(url: string)
    ensures SchemeLength(WithoutQuery(url)) == SchemeLength(url)
  {
    var w, n := WithoutQuery(url), SchemeLength(url);
    if n > 0 {
      var r := SchemeRun(url);
      assert forall i :: r <= i < r + 3 ==> url[i] == url[r..][i - r];
      assert forall i :: 0 <= i < n ==> url[i] !in {'?', '#'};
      SchemeIsLocal(url, w);
    } else if SchemeLength(w) > 0 {
      SchemeIsLocal(w, url);
    }
  }

  // What follows a scheme is a host part, up to the first slash, and the path.

  function HostPart(t: string): string { t[..Until(t, {'/'})] }

  function PathPart(t: string): string { t[Until(t, {'/'})..] }

  /** The path after a scheme's authority, found without looking at query and hash at all. */
  function Path(url: string): string {
    var w := WithoutQuery(url);
    var n := SchemeLength(w);
    if n > 0 then PathPart(w[n..]) else w
  }

  lemma CutTwice(r: string)
    ensures var b := BeforeHash(r); b[..Until(b, {'?'})] == WithoutQuery(r)
  {
    var b := BeforeHash(r);
    UntilUnique(r, {'?', '#'}, Until(b, {'?'}));
  }

  lemma {:induction false} UntilSkips(p: string, t: string, stops: set<char>)
    requires forall c <- p :: c !in stops
    ensures Until(p + t, stops) == |p| + Until(t, stops)
  {
    if p == "" {
      assert p + t == t;
    } else {
      assert p[0] in p && (p + t)[1..] == p[1..] + t;
      UntilSkips(p[1..], t, stops);
    }
  }

  lemma WithoutQuerySkips(p: string, t: string)
    requires forall c <- p :: c !in {'?', '#'}
    ensures WithoutQuery(p + t) == p + WithoutQuery(t)
  {
    UntilSkips(p, t, {'?', '#'});
  }

  lemma PathPartSkips(p: string, t: string)
    requires '/' !in p
    ensures PathPart(p + t) == PathPart(t)
  {
    UntilSkips(p, t, {'/'});
  }

  lemma {:induction false} PathAfterAuthority(t: string)
    ensures WithoutQuery(t[Until(t, {'/', '?', '#'})..]) == PathPart(WithoutQuery(t))
  {
    if t == "" || t[0] in {'/', '?', '#'} {
      assert t[0..] == t;
    } else {
      hide WithoutQuery, PathPart, Until;
      var c, rest := [t[0]], t[1..];
      assert t == c + rest;
      PathAfterAuthority(rest);
      UntilSkips(c, rest, {'/', '?', '#'});
      WithoutQuerySkips(c, rest);
      PathPartSkips(c, WithoutQuery(rest));
    }
  }

  lemma RawPathIsPath(url: string)
    ensures RawPath(url) == Path(url)
  {
    hide SchemeLength, Until;
    var n := SchemeLength(url);
    SchemeBeforeQuery(url);
    CutTwice(Relative(url));
    if n > 0 {
      var scheme, t := url[..n], url[n..];
      assert url == scheme + t;
      SchemeHasNoStops(url);
      WithoutQuerySkips(scheme, t);
      PathAfterAuthority(t);
    }
  }

  lemma SchemeHasNoStops(url: string)
    requires SchemeLength(url) > 0
    ensures forall c <- url[..SchemeLength(url)] :: c !in {'?', '#'}
  {
    var r := SchemeRun(url);
    assert forall i :: r <= i < r + 3 ==> url[i] == url[r..][i - r];
  }

  lemma HostSkips(p: string, r: string)
    requires forall c <- p :: c != '/'
    ensures PathPart(p + r) == PathPart(r) && HostPart(p + r) == p + HostPart(r)
  {
    UntilSkips(p, r, {'/'});
    var n := Until(r, {'/'});
    assert (p + r)[|p| + n..] == r[n..];
    assert (p + r)[..|p| + n] == p + r[..n];
  }

  lemma FirstAt(p: string, h: string, host: string)
    requires p == h + "@" && forall c <- h :: c != '@'
    ensures '@' in p + host && (p + host)[Until(p + host, {'@'}) + 1..] == host
  {
    assert p + host == h + ("@" + host);
    UntilOf(h, "@" + host, {'@'});
    assert (p + host)[|h|] == '@';
  }

  lemma CredentialsAreHost(t: string)
    ensures var a := HostPart(t);
            && PathPart(WithoutCredentials(t)) == PathPart(t)
            && HostPart(WithoutCredentials(t)) == if '@' in a then a[Until(a, {'@'}) + 1..] else a
  {
    hide Until;
    var k := Until(t, {'/', '@'});
    var h, q := t[..k], t[k..];
    assert t == h + q && forall c <- h :: c !in {'/', '@'};
    if q != "" && q[0] == '@' {
      var p, r := t[..k + 1], t[k + 1..];
      assert t == p + r && p == h + "@";
      HostSkips(p, r);
      FirstAt(p, h, HostPart(r));
    } else {
      UntilOf(h, q, {'/'});
    }
  }

  /** Stripping leaves no query and no hash, and never moves the path. */
  lemma StripShape(url: string)
    ensures var w, n, s := WithoutQuery(url), SchemeLength(url), StripUrl(url);
            && '?' !in s && '#' !in s && SchemeLength(s) == n
            && (n > 0 ==> n <= |w| && s[n..] == WithoutCredentials(w[n..]))
            && (n == 0 ==> s == w)
  {
    var w, n, s := WithoutQuery(url), SchemeLength(url), StripUrl(url);
    SchemeBeforeQuery(url);
    assert forall c <- s :: c in w;
    if n > 0 {
      SchemeIsLocal(w, s);
    }
  }

  lemma StripKeepsPath(url: string)
    ensures Path(StripUrl(url)) == Path(url)
  {
    var w, n, s := WithoutQuery(url), SchemeLength(url), StripUrl(url);
    StripShape(url);
    SchemeBeforeQuery(url);
    WithoutQueryTwice(s);
    if n > 0 {
      CredentialsAreHost(w[n..]);
    }
  }

  lemma NoParameters(s: string)
    requires '?' !in s && '#' !in s
    ensures Hash(Relative(s)) == "" && Query(s) == ""
  {
    var r := Relative(s);
    assert forall c <- r :: c in s;
    UntilUnique(r, {'#'}, |r|);
    assert BeforeHash(r) == r;
    UntilUnique(r, {'?'}, |r|);
  }

  /** Stripping keeps the verdict on the path and drops the verdicts on parameters. */
  lemma StripKeepsPathVerdict(b: Browser, url: string)
    ensures IsSensitiveLocation(b, StripUrl(url)) <==> SensitivePath(b, RawPath(url))
    ensures IsSensitiveLocation(b, StripUrl(url)) ==> IsSensitiveLocation(b, url)
  {
    StripShape(url);
    NoParameters(StripUrl(url));
    StripKeepsRawPath(url);
  }

  lemma StripKeepsRawPath(url: string)
    ensures RawPath(StripUrl(url)) == RawPath(url)
  {
    StripKeepsPath(url);
    RawPathIsPath(url);
    RawPathIsPath(StripUrl(url));
  }

  // ---- Origins and credentials.

  /** An absolute URL of this app is an origin in front of a path. */
  predicate IsOrigin(origin: string) {
    SchemeLength(origin) > 0 && forall i :: SchemeLength(origin) <= i < |origin| ==> origin[i] !in {'/', '?', '#'}
  }

  /** The router's relative URLs and the address bar get the same verdict. */
  lemma OriginDoesNotMatter(b: Browser, origin: string, url: string)
    requires IsOrigin(origin) && url != "" && url[0] in {'/', '?', '#'}
    ensures IsSensitiveLocation(b, origin + url) <==> IsSensitiveLocation(b, url)
  {
    OriginFallsAway(origin, url);
  }

  lemma OriginFallsAway(origin: string, url: string)
    requires IsOrigin(origin) && url != "" && url[0] in {'/', '?', '#'}
    ensures Relative(origin + url) == url == Relative(url)
  {
    var n := SchemeLength(origin);
    var full := origin + url;
    SchemeIsLocal(origin, full);
    assert SchemeRun(url) == 0;
    var host := origin[n..];
    assert full[n..] == host + url;
    assert forall c <- host :: c !in {'/', '?', '#'};
    UntilOf(host, url, {'/', '?', '#'});
  }

  /**
   * Where credentials can be: from the scheme, or from the two slashes of a scheme-relative reference
   * (section 4.2 of RFC 3986), to the next slash.
   */
  function Authority(url: string): string {
    var w := WithoutQuery(url);
    var n := SchemeLength(w);
    if n > 0 then HostPart(w[n..]) else if "//" <= w then HostPart(w[2..]) else ""
  }

  /** The path of a URL reference: what follows its authority, with or without a scheme. */
  function ReferencePath(url: string): string {
    var w := WithoutQuery(url);
    if SchemeLength(w) == 0 && "//" <= w then PathPart(w[2..]) else Path(url)
  }

  /** The verdict looks at that path exactly when the URL is not scheme-relative; there it takes the host along. */
  lemma RawPathIsReferencePath(url: string)
    ensures RawPath(url) == ReferencePath(url) <==> SchemeLength(url) > 0 || !("//" <= WithoutQuery(url))
  {
    RawPathIsPath(url);
    SchemeBeforeQuery(url);
  }

  /** Under a scheme, stripping drops everything up to the first `@` of the authority; without one, nothing. */
  lemma StripCutsAuthority(url: string)
    ensures var a := Authority(url);
            Authority(StripUrl(url)) == if SchemeLength(url) > 0 && '@' in a then a[Until(a, {'@'}) + 1..] else a
  {
    hide SchemeLength, WithoutQuery, WithoutCredentials, HostPart, PathPart;
    var w, n, s := WithoutQuery(url), SchemeLength(url), StripUrl(url);
    StripShape(url);
    SchemeBeforeQuery(url);
    WithoutQueryTwice(s);
    if n > 0 {
      CredentialsAreHost(w[n..]);
    }
  }

  lemma StripFixed(s: string)
    requires '?' !in s && '#' !in s
    ensures StripUrl(s) == s <==> SchemeLength(s) == 0 || '@' !in Authority(s)
  {
    hide SchemeLength, WithoutQuery, WithoutCredentials, HostPart;
    WithoutQueryTwice(s);
    var n := SchemeLength(s);
    if n > 0 {
      var t := s[n..];
      HostCut(t);
      assert s == s[..n] + t && (s[..n] + WithoutCredentials(t))[n..] == WithoutCredentials(t);
    }
  }

  lemma HostCut(t: string)
    ensures WithoutCredentials(t) == t <==> '@' !in HostPart(t)
  {
    CredentialsAreHost(t);
    var k := Until(t, {'/', '@'});
    if k < |t| && t[k] == '@' {
      assert |t[k + 1..]| < |t|;
      assert HostPart(t)[k] == '@' by {
        assert forall i :: 0 <= i <= k ==> t[i] != '/';
      }
    } else {
      assert |HostPart(WithoutCredentials(t))| == |HostPart(t)|;
    }
  }

  predicate AtMostOneAt(a: string) {
    '@' !in a || '@' !in a[Until(a, {'@'}) + 1..]
  }

  /**
   * No credentials are left exactly when there were none, or the URL has a scheme and one `@` in its
   * authority. With two, as in `https://a@b@host/`, the second part survives; without a scheme, all.
   */
  lemma StripIsCompleteForOneAt(url: string)
    ensures var a := Authority(url);
            '@' !in Authority(StripUrl(url)) <==> '@' !in a || (SchemeLength(url) > 0 && AtMostOneAt(a))
  {
    StripCutsAuthority(url);
  }

  /** Stripping again changes nothing exactly when there is no scheme, or at most one `@` in the authority. */
  lemma StripIsIdempotentForOneAt(url: string)
    ensures StripUrl(StripUrl(url)) == StripUrl(url) <==> SchemeLength(url) == 0 || AtMostOneAt(Authority(url))
  {
    hide StripUrl, SchemeLength, Authority, WithoutCredentials;
    StripCutsAuthority(url);
    StripShape(url);
    StripFixed(StripUrl(url));
  }

  /** A scheme-relative URL keeps its credentials, whatever they are. */
  lemma SchemeRelativeKeepsCredentials(credentials: string, rest: string)
    requires forall c <- credentials :: c !in {'/', '?', '#'}
    requires '?' !in rest && '#' !in rest
    ensures var url := "//" + credentials + "@" + rest;
            StripUrl(url) == url && credentials + "@" <= Authority(StripUrl(url))
  {
    hide Until;
    var t := credentials + "@" + rest;
    var url := "//" + credentials + "@" + rest;
    assert url[2..] == t && url == "//" + t;
    WithoutQueryTwice(url);
    assert SchemeRun(url) == 0;
    var p := credentials + "@";
    assert t == p + rest;
    HostSkips(p, rest);
    assert p + HostPart(rest) == HostPart(t);
  }

  /** For instance: what the Sentry setup passes for a scheme-relative description. */
  lemma CredentialsSurvive()
    ensures StripUrl("//user:pw@host/x") == "//user:pw@host/x"
    ensures "user:pw@" <= Authority(StripUrl("//user:pw@host/x"))
  {
    hide StripUrl, Authority;
    SchemeRelativeKeepsCredentials("user:pw", "host/x");
    assert "//" + "user:pw" + "@" + "host/x" == "//user:pw@host/x" && "user:pw" + "@" == "user:pw@";
  }

  // ---- What is sensitive, in so many words.

  /** The name alone, or with a slash behind it. */
  predicate AtRoute(path: string, name: string) {
    name <= path && (|path| == |name| || path[|name|] == '/')
  }

  predicate ListedPath(path: string) {
    || AtRoute(path, "/reset-password") || AtRoute(path, "/send-reset-password") || AtRoute(path, "/invitation")
    || AtRoute(path, "/accept-invitation") || AtRoute(path, "/register") || AtRoute(path, "/mcp")
  }

  /** A source that names one of the listed parameters. */
  predicate NamesCredential(b: Browser, source: string) {
    source != "" && exists key <- b.queryKeys(source) ::
      b.lower(key) in {"token", "code", "state", "access_token", "id_token", "refresh_token", "password", "secret",
                       "client_secret", "code_challenge", "invitation"}
  }

  lemma {:induction false} TrimSlashesShape(s: string)
    ensures var t := TrimSlashes(s);
            t <= s && (forall i :: |t| <= i < |s| ==> s[i] == '/') && (t == "" || t[|t| - 1] != '/')
  {
    if s != "" && s[|s| - 1] == '/' {
      TrimSlashesShape(s[..|s| - 1]);
    }
  }

  function Judged(path: string): string {
    var trimmed := TrimSlashes(path);
    if trimmed == "" then "/" else trimmed
  }

  /** Trimmed slashes make no difference to a name that ends with none. */
  lemma NameMatches(path: string, name: string)
    requires name != "" && name[|name| - 1] != '/'
    ensures Under(Judged(path), name) <==> AtRoute(path, name)
  {
    hide TrimSlashes;
    var t := TrimSlashes(path);
    TrimSlashesShape(path);
    if name <= path {
      assert path[|name| - 1] == name[|name| - 1];
      assert |t| >= |name| && name == path[..|name|] == t[..|name|];
      if |t| > |name| {
        assert t[|name|] == path[|name|];
        assert name + "/" <= t <==> t[|name|] == '/';
      }
    } else {
      assert name <= name + "/";
    }
  }

  lemma UnderListed(path: string)
    ensures (exists prefix <- SENSITIVE_PATH_PREFIXES :: Under(path, prefix))
            <==> || Under(path, "/reset-password") || Under(path, "/send-reset-password") || Under(path, "/invitation")
                 || Under(path, "/accept-invitation") || Under(path, "/register") || Under(path, "/mcp")
  {
    hide Under;
    var names := SENSITIVE_PATH_PREFIXES;
    assert names[0] == "/reset-password" && names[1] == "/send-reset-password" && names[2] == "/invitation";
    assert names[3] == "/accept-invitation" && names[4] == "/register" && names[5] == "/mcp" && |names| == 6;
  }

  lemma PathIsListed(b: Browser, rawPath: string)
    ensures SensitivePath(b, rawPath) <==> ListedPath(b.lower(rawPath))
  {
    hide Under, AtRoute;
    var path := b.lower(rawPath);
    UnderListed(Judged(path));
    NameMatches(path, "/reset-password");
    NameMatches(path, "/send-reset-password");
    NameMatches(path, "/invitation");
    NameMatches(path, "/accept-invitation");
    NameMatches(path, "/register");
    NameMatches(path, "/mcp");
  }

  function Part(mark: string, part: Option<string>): string {
    if part.Some? then mark + part.value else ""
  }

  lemma HashApart(front: string, hash: Option<string>)
    requires '#' !in front
    ensures var r := front + Part("#", hash);
            BeforeHash(r) == front && Hash(r) == if hash.Some? then hash.value else ""
  {
    hide Until;
    UntilOf(front, Part("#", hash), {'#'});
  }

  lemma QueryApart(path: string, query: Option<string>)
    requires '?' !in path
    ensures var b := path + Part("?", query);
            var i := Until(b, {'?'});
            b[..i] == path && (if i < |b| then b[i + 1..] else "") == if query.Some? then query.value else ""
  {
    hide Until;
    UntilOf(path, Part("?", query), {'?'});
  }

  lemma NoScheme(url: string)
    requires url != "" && url[0] == '/'
    ensures Relative(url) == url
  {
    assert SchemeRun(url) == 0;
  }

  lemma PartsApart(path: string, query: Option<string>, hash: Option<string>)
    requires path != "" && path[0] == '/' && '?' !in path && '#' !in path
    requires query.Some? ==> '#' !in query.value
    ensures var url := path + Part("?", query) + Part("#", hash);
            && Relative(url) == url && RawPath(url) == path
            && Query(url) == (if query.Some? then query.value else "")
            && Hash(Relative(url)) == (if hash.Some? then hash.value else "")
  {
    hide Until, Relative, BeforeHash, Hash;
    var front := path + Part("?", query);
    assert front[0] == '/' && '#' !in front;
    NoScheme(front + Part("#", hash));
    HashApart(front, hash);
    QueryApart(path, query);
  }

  /** The verdict on a URL of the app, from its parts. */
  lemma VerdictOnParts(b: Browser, origin: string, path: string, query: Option<string>, hash: Option<string>)
    requires IsOrigin(origin) && path != "" && path[0] == '/' && '?' !in path && '#' !in path
    requires query.Some? ==> '#' !in query.value
    ensures var url := path + Part("?", query) + Part("#", hash);
            var sensitive := || ListedPath(b.lower(path)) || (query.Some? && NamesCredential(b, query.value))
                             || (hash.Some? && NamesCredential(b, hash.value));
            && (IsSensitiveLocation(b, url) <==> sensitive)
            && (IsSensitiveLocation(b, origin + url) <==> sensitive)
  {
    hide Relative, RawPath, Query, Hash, SensitivePath, ListedPath, IsOrigin;
    var url := path + Part("?", query) + Part("#", hash);
    PartsApart(path, query, hash);
    PathIsListed(b, path);
    assert url[0] == path[0];
    OriginDoesNotMatter(b, origin, url);
  }

  lemma OnThePath(b: Browser, origin: string, path: string)
    requires IsOrigin(origin) && path != "" && path[0] == '/' && '?' !in path && '#' !in path
    ensures IsSensitiveLocation(b, path) <==> ListedPath(b.lower(path))
    ensures IsSensitiveLocation(b, origin + path) <==> ListedPath(b.lower(path))
  {
    hide IsSensitiveLocation, ListedPath, IsOrigin;
    VerdictOnParts(b, origin, path, None, None);
    assert path + "" + "" == path;
  }

  /** Every listed route is judged, with slashes or anything else behind one. */
  lemma ListedRoutes(b: Browser, origin: string, name: string, rest: string)
    requires IsOrigin(origin) && '?' !in rest && '#' !in rest && b.lower(name + rest) == name + rest
    requires || name == "/reset-password" || name == "/send-reset-password" || name == "/invitation"
             || name == "/accept-invitation" || name == "/register" || name == "/mcp"
    requires rest == "" || rest[0] == '/'
    ensures IsSensitiveLocation(b, name + rest) && IsSensitiveLocation(b, origin + (name + rest))
  {
    hide IsSensitiveLocation, IsOrigin;
    RouteBehind(name, rest);
    OnThePath(b, origin, name + rest);
  }

  lemma RouteBehind(name: string, rest: string)
    requires name != "" && (rest == "" || rest[0] == '/')
    ensures AtRoute(name + rest, name) && (name + rest)[0] == name[0]
  {
  }

  /** A longer word is another route. */
  lemma LongerWord(path: string, name: string, k: nat)
    requires k < |path| && k < |name| && path[k] != name[k]
    ensures !AtRoute(path, name)
  {
  }

  lemma RegisteredIsNotListed()
    ensures !ListedPath("/registered")
  {
    var path := "/registered";
    assert !AtRoute(path, "/register");
    hide AtRoute;
    LongerWord(path, "/reset-password", 3);
    LongerWord(path, "/send-reset-password", 1);
    LongerWord(path, "/invitation", 1);
    LongerWord(path, "/accept-invitation", 1);
    LongerWord(path, "/mcp", 1);
  }

  /** For instance, in a browser that leaves these paths as they are. */
  lemma RoutesForInstance(b: Browser, origin: string)
    requires IsOrigin(origin) && b.lower("/registered") == "/registered"
    requires b.lower("/accept-invitation/abc123") == "/accept-invitation/abc123"
    ensures !IsSensitiveLocation(b, "/registered") && !IsSensitiveLocation(b, origin + "/registered")
    ensures IsSensitiveLocation(b, "/accept-invitation/abc123")
    ensures IsSensitiveLocation(b, origin + "/accept-invitation/abc123")
  {
    hide IsSensitiveLocation, ListedPath, IsOrigin;
    RegisteredIsNotListed();
    OnThePath(b, origin, "/registered");
    assert "/accept-invitation" + "/abc123" == "/accept-invitation/abc123";
    ListedRoutes(b, origin, "/accept-invitation", "/abc123");
  }

  // ---- Schemes and stripping, in so many words.

  predicate SchemeWord(s: string) {
    && s != "" && ('a' <= s[0] <= 'z' || 'A' <= s[0] <= 'Z')
    && forall c <- s :: 'a' <= c <= 'z' || 'A' <= c <= 'Z' || '0' <= c <= '9' || c in {'+', '.', '-'}
  }

  lemma WordIsRun(s: string, k: nat)
    requires k <= |s| && SchemeWord(s[..k])
    ensures (forall i :: 0 <= i < k ==> IsSchemeChar(s[i])) && k > 0 && IsLetter(s[0])
  {
    forall i | 0 <= i < k
      ensures IsSchemeChar(s[i])
    {
      assert s[i] == s[..k][i] && s[..k][i] in s[..k];
    }
    assert s[0] == s[..k][0];
  }

  /** A scheme is such a word with `://` behind it, and nothing else is one. */
  lemma SchemeIsWord(s: string)
    ensures var n := SchemeLength(s);
            if n > 0 then n > 3 && SchemeWord(s[..n - 3]) && s[n - 3..n] == "://"
            else forall k :: 0 < k <= |s| - 3 && SchemeWord(s[..k]) ==> s[k..k + 3] != "://"
  {
    hide SchemeRun;
    var r := SchemeRun(s);
    if SchemeLength(s) > 0 {
      assert s[r..][..3] == s[r..r + 3];
      assert forall c <- s[..r] :: IsSchemeChar(c);
    } else {
      forall k | 0 < k <= |s| - 3 && SchemeWord(s[..k])
        ensures s[k..k + 3] != "://"
      {
        if s[k..k + 3] == "://" {
          assert s[k] == s[k..k + 3][0];
          WordIsRun(s, k);
          SchemeRunUnique(s, k);
        }
      }
    }
  }

  lemma SchemeOfWord(scheme: string, rest: string)
    requires SchemeWord(scheme)
    ensures SchemeLength(scheme + "://" + rest) == |scheme| + 3
  {
    var s := scheme + "://" + rest;
    assert s[..|scheme|] == scheme && s[|scheme|] == ':';
    WordIsRun(s, |scheme|);
    SchemeRunUnique(s, |scheme|);
    assert s[|scheme|..][..3] == "://";
  }

  /** One credentials part, query and hash go; scheme, host and path stay. */
  lemma StripTakesOut(scheme: string, credentials: string, host: string, path: string, tail: string)
    requires SchemeWord(scheme) && forall c <- credentials :: c !in {'/', '@', '?', '#'}
    requires (forall c <- host :: c !in {'/', '@', '?', '#'}) && (path == "" || path[0] == '/')
    requires (forall c <- path :: c !in {'?', '#'}) && (tail == "" || tail[0] in {'?', '#'})
    ensures StripUrl(scheme + "://" + (credentials + "@" + host + path) + tail) == scheme + "://" + (host + path)
    ensures StripUrl(scheme + "://" + (host + path) + tail) == scheme + "://" + (host + path)
  {
    hide StripUrl;
    var t := credentials + "@" + (host + path);
    assert credentials + "@" + host + path == t;
    assert t == credentials + ("@" + (host + path));
    UntilOf(credentials, "@" + (host + path), {'/', '@'});
    assert t[|credentials|] == '@' && t[|credentials| + 1..] == host + path;
    StripParts(scheme, t, tail);
    UntilOf(host, path, {'/', '@'});
    StripParts(scheme, host + path, tail);
  }

  lemma StripParts(scheme: string, t: string, tail: string)
    requires SchemeWord(scheme) && (forall c <- t :: c !in {'?', '#'}) && (tail == "" || tail[0] in {'?', '#'})
    ensures StripUrl(scheme + "://" + t + tail) == scheme + "://" + WithoutCredentials(t)
  {
    hide SchemeLength, Until, WithoutCredentials;
    var w := scheme + "://" + t;
    assert forall c <- w :: c !in {'?', '#'};
    UntilOf(w, tail, {'?', '#'});
    assert (w + tail)[..|w|] == w;
    SchemeOfWord(scheme, t);
    assert w[..|scheme| + 3] == scheme + "://" && w[|scheme| + 3..] == t;
  }
}
