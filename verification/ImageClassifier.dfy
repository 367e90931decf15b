/** Classifying a docker image reference into a database family. */
module ImageClassifier {
  import opened Wrappers
  import opened Text

  datatype DbKind = MariaDb | Mongo | Postgres | MySql | Redis | LibSql

  /** Ordered: the first kind with a word in the reference wins. */
  const DB_IMAGE_PATTERNS: seq<(DbKind, seq<string>)> := [
    (MariaDb, ["mariadb"]),
    (Mongo, ["mongo"]),
    (Postgres, ["postgres", "postgis", "pgvector", "timescaledb"]),
    (MySql, ["mysql", "percona"]),
    (Redis, ["redis", "valkey", "dragonfly", "keydb"]),
    (LibSql, ["libsql", "sqld"])]

  /** `pattern.test(text)` for an alternation of plain words. */
  predicate Test(words: seq<string>, text: string) {
    exists w <- words :: Contains(text, w)
  }

  /** `image.split("@")[0]` */
  function WithoutDigest(image: string): string {
    var at := IndexOf(image, '@');
    if at >= 0 then image[..at] else image
  }

  function WithoutTag(ref: string): string {
    var lastColon := LastIndexOf(ref, ':');
    if lastColon > LastIndexOf(ref, '/') then ref[..lastColon] else ref
  }

  /** The reference that is matched: registry, namespace and name, in lower case. */
  function Reference(image: string): string {
    Lower(WithoutTag(WithoutDigest(image)))
  }

  /** The kind of the first of `patterns` that occurs anywhere in `ref`. */
  function FirstKind(patterns: seq<(DbKind, seq<string>)>, ref: string): Option<DbKind> {
    if patterns == [] then None
    else if Test(patterns[0].1, ref) then Some(patterns[0].0)
    else FirstKind(patterns[1..], ref)
  }

  function Kind(image: Option<string>): Option<DbKind> {
    if image.None? then None else FirstKind(DB_IMAGE_PATTERNS, Reference(image.value))
  }

  /** The loop tests the last segment and the whole reference: the same as testing the reference alone. */
  method MatchPatterns(patterns: seq<(DbKind, seq<string>)>, ref: string) returns (r: Option<DbKind>)
    ensures r == FirstKind(patterns, ref)
  {
    var name := ref[LastIndexOf(ref, '/') + 1..];
    for i := 0 to |patterns|
      invariant FirstKind(patterns, ref) == FirstKind(patterns[i..], ref)
    {
      assert patterns[i..][0] == patterns[i] && patterns[i..][1..] == patterns[i + 1..];
      var (kind, words) := patterns[i];
      SegmentInReference(words, ref, LastIndexOf(ref, '/') + 1);
      if Test(words, name) || Test(words, ref) {
        return Some(kind);
      }
    }
    return None;
  }

  lemma SegmentInReference(words: seq<string>, ref: string, from: nat)
    requires from <= |ref|
    ensures Test(words, ref[from..]) ==> Test(words, ref)
  {
    if w :| w in words && Contains(ref[from..], w) {
      ContainsFromSuffix(ref, from, w);
    }
  }

  method ClassifyDbImage(image: Option<string>) returns (r: Option<DbKind>)
    ensures image == Some("") ==> r == None
    ensures image != Some("") ==> r == Kind(image)
  {
    if image.None? || image.value == "" { return None; }
    var ref := WithoutDigest(image.value);
    var lastSlash, lastColon := LastIndexOf(ref, '/'), LastIndexOf(ref, ':');
    if lastColon > lastSlash {
      ref := ref[..lastColon];
    }
    r := MatchPatterns(DB_IMAGE_PATTERNS, Lower(ref));
  }

  // ---- What does not matter.

  /** The last colon, if any, belongs to a host and port. */
  predicate Untagged(ref: string) {
    '@' !in ref && LastIndexOf(ref, ':') <= LastIndexOf(ref, '/')
  }

  lemma {:induction false} LastIndexUnique(s: string, c: char, i: int)
    requires -1 <= i < |s| && (i >= 0 ==> s[i] == c) && forall j :: i < j < |s| ==> s[j] != c
    ensures LastIndexOf(s, c) == i
  {
  }

  lemma TagDoesNotMatter(ref: string, tag: string)
    requires Untagged(ref) && ':' !in tag && '/' !in tag && '@' !in tag
    ensures Reference(ref + ":" + tag) == Reference(ref)
  {
    var image := ref + ":" + tag;
    assert image[|ref|] == ':';
    assert forall j :: |ref| < j < |image| ==> image[j] == tag[j - |ref| - 1];
    assert '@' !in image;
    LastIndexUnique(image, ':', |ref|);
    assert LastIndexOf(image, '/') < |ref|;
    assert image[..|ref|] == ref;
  }

  lemma DigestDoesNotMatter(image: string, digest: string)
    requires '@' !in image
    ensures Reference(image + "@" + digest) == Reference(image)
  {
    IndexOfAt(image, '@', digest);
    assert (image + "@" + digest)[..|image|] == image;
  }

  /** A port in front of the last slash is not a tag: the reference keeps its host and all that follows. */
  lemma HostAndPortSurvive(host: string, port: string, path: string)
    requires '@' !in host + port + path && ':' !in path
    ensures Untagged(host + ":" + port + "/" + path)
    ensures Reference(host + ":" + port + "/" + path) == Lower(host + ":" + port + "/" + path)
  {
    var front := host + ":" + port;
    var image := front + "/" + path;
    assert forall c :: c in image ==> c in host + port + path || c in ":/";
    assert image[|front|] == '/';
    assert forall j :: |front| < j < |image| ==> image[j] == path[j - |front| - 1];
    assert LastIndexOf(image, '/') >= |front| >= LastIndexOf(image, ':');
  }

  lemma {:induction false} IndexUnique(s: string, c: char, i: int)
    requires -1 <= i < |s| && (i >= 0 ==> s[i] == c)
    requires forall j :: 0 <= j < (if i >= 0 then i else |s|) ==> s[j] != c
    ensures IndexOf(s, c) == i
  {
    hide IndexOf;
    var k := IndexOf(s, c);
    assert forall j :: 0 <= j < k ==> s[..k][j] == s[j];
  }

  lemma LowerKeepsPositions(s: string, c: char)
    requires c == '@' || c == ':' || c == '/'
    ensures LastIndexOf(Lower(s), c) == LastIndexOf(s, c) && IndexOf(Lower(s), c) == IndexOf(s, c)
  {
    hide IndexOf, LastIndexOf, Lower;
    var l := Lower(s);
    assert forall i :: 0 <= i < |s| ==> (l[i] == c <==> s[i] == c);
    LastIndexUnique(l, c, LastIndexOf(s, c));
    var i := IndexOf(s, c);
    assert forall j :: 0 <= j < i ==> s[..i][j] == s[j];
    IndexUnique(l, c, i);
  }

  lemma LowerTwice(s: string, n: nat)
    requires n <= |s|
    ensures Lower(Lower(s)) == Lower(s) && Lower(s)[..n] == Lower(s[..n])
  {
  }

  lemma ReferenceOfLower(image: string)
    ensures Reference(Lower(image)) == Reference(image)
  {
    LowerKeepsPositions(image, '@');
    var d := WithoutDigest(image);
    LowerTwice(image, |d|);
    assert WithoutDigest(Lower(image)) == Lower(d);
    LowerKeepsPositions(d, ':');
    LowerKeepsPositions(d, '/');
    var t := WithoutTag(d);
    LowerTwice(d, |t|);
    LowerTwice(t, |t|);
  }

  /** The verdict ignores case. */
  lemma CaseDoesNotMatter(a: string, b: string)
    requires Lower(a) == Lower(b)
    ensures Kind(Some(a)) == Kind(Some(b))
  {
    ReferenceOfLower(a);
    ReferenceOfLower(b);
  }

  // ---- The table, in so many words.

  /** The kind of a reference, by the words that occur in it. */
  function KindByWords(ref: string): Option<DbKind> {
    if Contains(ref, "mariadb") then Some(MariaDb)
    else if Contains(ref, "mongo") then Some(Mongo)
    else if Contains(ref, "postgres") || Contains(ref, "postgis") || Contains(ref, "pgvector")
            || Contains(ref, "timescaledb") then Some(Postgres)
    else if Contains(ref, "mysql") || Contains(ref, "percona") then Some(MySql)
    else if Contains(ref, "redis") || Contains(ref, "valkey") || Contains(ref, "dragonfly") || Contains(ref, "keydb")
    then Some(Redis)
    else if Contains(ref, "libsql") || Contains(ref, "sqld") then Some(LibSql)
    else None
  }

  lemma TestWords(a: string, b: string, c: string, d: string, text: string)
    ensures Test([a], text) <==> Contains(text, a)
    ensures Test([a, b], text) <==> Contains(text, a) || Contains(text, b)
    ensures Test([a, b, c, d], text)
            <==> Contains(text, a) || Contains(text, b) || Contains(text, c) || Contains(text, d)
  {
    hide Contains;
    assert a in [a] && a in [a, b] && b in [a, b];
    assert a in [a, b, c, d] && b in [a, b, c, d] && c in [a, b, c, d] && d in [a, b, c, d];
  }

  /** The table is these words, in this order. */
  lemma TableByWords(ref: string)
    ensures FirstKind(DB_IMAGE_PATTERNS, ref) == KindByWords(ref)
  {
    hide Contains, Test, FirstKind;
    var all := DB_IMAGE_PATTERNS;
    assert all[0] == (MariaDb, ["mariadb"]) && all[1] == (Mongo, ["mongo"]);
    assert all[2] == (Postgres, ["postgres", "postgis", "pgvector", "timescaledb"]);
    assert all[3] == (MySql, ["mysql", "percona"]) && all[4] == (Redis, ["redis", "valkey", "dragonfly", "keydb"]);
    assert all[5] == (LibSql, ["libsql", "sqld"]) && |all| == 6;
    FirstKindAt(all, 0, ref);
    FirstKindAt(all, 1, ref);
    FirstKindAt(all, 2, ref);
    FirstKindAt(all, 3, ref);
    FirstKindAt(all, 4, ref);
    FirstKindAt(all, 5, ref);
    assert all[0..] == all && all[6..] == [];
    NoKind(ref);
    TestWords("mariadb", "", "", "", ref);
    TestWords("mongo", "", "", "", ref);
    TestWords("postgres", "postgis", "pgvector", "timescaledb", ref);
    TestWords("mysql", "percona", "", "", ref);
    TestWords("redis", "valkey", "dragonfly", "keydb", ref);
    TestWords("libsql", "sqld", "", "", ref);
  }

  lemma FirstKindAt(patterns: seq<(DbKind, seq<string>)>, i: nat, ref: string)
    requires i < |patterns|
    ensures FirstKind(patterns[i..], ref)
            == if Test(patterns[i].1, ref) then Some(patterns[i].0) else FirstKind(patterns[i + 1..], ref)
  {
    hide Test;
    assert patterns[i..][0] == patterns[i] && patterns[i..][1..] == patterns[i + 1..];
  }

  lemma NoKind(ref: string)
    ensures FirstKind([], ref) == None
  {
  }

  /** An image without tag, digest and port is classified by the words in its lower-case name. */
  lemma KindOfName(image: string)
    requires '@' !in image && ':' !in image
    ensures Kind(Some(image)) == KindByWords(Lower(image))
  {
    TableByWords(Lower(image));
  }

  lemma Named(image: string, word: string, i: nat)
    requires i + |word| <= |image| && image[i..i + |word|] == word
    ensures Contains(image, word)
  {
    ContainsMeansOccurs(image, word);
    assert OccursAt(image, word, i);
  }

  /** A word with a letter that is not in the text does not occur in it. */
  lemma NotNamed(image: string, word: string, k: nat)
    requires k < |word| && word[k] !in image
    ensures !Contains(image, word)
  {
    ContainsMeansOccurs(image, word);
    assert forall i: nat :: OccursAt(image, word, i) ==> word[k] == image[i..i + |word|][k] == image[i + k];
  }

  lemma PostgresIsPostgres()
    ensures KindByWords("postgres") == Some(Postgres)
  {
    hide Contains;
    NotNamed("postgres", "mariadb", 0);
    NotNamed("postgres", "mongo", 0);
    Named("postgres", "postgres", 0);
  }

  /** The order matters: this one is listed for the mysql family, too. */
  lemma PerconaServerMongoDbIsMongo()
    ensures KindByWords("percona-server-mongodb") == Some(Mongo)
  {
    hide Contains;
    var image := "percona-server-mongodb";
    NotNamed(image, "mariadb", 3);
    assert image[15] == 'm' && image[16] == 'o' && image[17] == 'n' && image[18] == 'g' && image[19] == 'o';
    assert image[15..20] == "mongo";
    Named(image, "mongo", 15);
    assert image[..7] == "percona";
    Named(image, "percona", 0);
  }

  lemma NginxIsNone()
    ensures KindByWords("nginx") == None
  {
    hide Contains;
    NotNamed("nginx", "mariadb", 1);
    NotNamed("nginx", "mongo", 0);
    NotNamed("nginx", "postgres", 0);
    NotNamed("nginx", "postgis", 0);
    NotNamed("nginx", "pgvector", 0);
    NotNamed("nginx", "timescaledb", 0);
    NotNamed("nginx", "mysql", 0);
    NotNamed("nginx", "percona", 0);
    NotNamed("nginx", "redis", 0);
    NotNamed("nginx", "valkey", 0);
    NotNamed("nginx", "dragonfly", 0);
    NotNamed("nginx", "keydb", 0);
    NotNamed("nginx", "libsql", 0);
    NotNamed("nginx", "sqld", 0);
  }

  lemma LowerCaseStays(image: string)
    requires forall c <- image :: !('A' <= c <= 'Z')
    ensures Lower(image) == image
  {
    assert forall i :: 0 <= i < |image| ==> image[i] in image;
  }

  /** For instance. */
  lemma KindsForInstance()
    ensures Kind(Some("postgres")) == Some(Postgres)
    ensures Kind(Some("percona-server-mongodb")) == Some(Mongo)
    ensures Kind(Some("nginx")) == None
  {
    hide KindByWords, Kind, Lower;
    PostgresIsPostgres();
    PerconaServerMongoDbIsMongo();
    NginxIsNone();
    KindOfName("postgres");
    KindOfName("percona-server-mongodb");
    KindOfName("nginx");
    LowerCaseStays("postgres");
    LowerCaseStays("percona-server-mongodb");
    LowerCaseStays("nginx");
  }
}
