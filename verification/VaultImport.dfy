/** The vault import dialog: default keys, and the fold that writes the selected references. */
module VaultImport {
  import opened Wrappers
  import opened Text
  import opened EnvText

  datatype Row = Row(secretName: string, key: string)

  function Reference(provider: string, row: Row): string {
    "${{vault." + provider + "." + row.secretName + "}}"
  }

  /** The line a row is imported as. */
  function Assignment(provider: string, row: Row): string {
    row.key + "=" + Reference(provider, row)
  }

  function Import(env: string, rows: seq<Row>, selected: set<string>, provider: string): string {
    if rows == [] then env
    else
      var n := |rows| - 1;
      var next := Import(env, rows[..n], selected, provider);
      if rows[n].secretName !in selected then next else SetEnv(next, rows[n].key, Reference(provider, rows[n]))
  }

  method HandleImport(env: string, rows: seq<Row>, selected: set<string>, provider: string) returns (next: string)
    ensures next == Import(env, rows, selected, provider)
  {
    next := env;
    for i := 0 to |rows|
      invariant next == Import(env, rows[..i], selected, provider)
    {
      assert rows[..i + 1][..i] == rows[..i];
      if rows[i].secretName !in selected { continue; }
      next := SetEnvValue(next, rows[i].key, Reference(provider, rows[i]));
    }
    assert rows[..|rows|] == rows;
  }

  /** Every selected row names a key a line can define and a secret whose reference is one line. */
  predicate Importable(rows: seq<Row>, selected: set<string>, provider: string) {
    '\n' !in provider &&
    forall row <- rows :: row.secretName in selected ==> WellFormedKey(row.key) && '\n' !in row.secretName
  }

  /** The last selected row that names `key`. */
  function LastWriter(rows: seq<Row>, selected: set<string>, key: string): (w: Option<Row>)
    ensures w.None? <==> forall r <- rows :: r.secretName in selected ==> r.key != key
    ensures w.Some? ==> w.value.secretName in selected && w.value.key == key
    ensures w.Some? ==> exists i :: 0 <= i < |rows| && rows[i] == w.value
                                 && forall j :: i < j < |rows| && rows[j].secretName in selected ==> rows[j].key != key
  {
    if rows == [] then None
    else
      var n := |rows| - 1;
      var front := rows[..n];
      assert rows == front + [rows[n]];
      if rows[n].secretName in selected && rows[n].key == key then Some(rows[n]) else LastWriter(front, selected, key)
  }

  /** The same fold on the meaning: a map update for each selected row. */
  function Update(m: map<string, string>, rows: seq<Row>, selected: set<string>, provider: string): map<string, string>
  {
    if rows == [] then m
    else
      var n := |rows| - 1;
      var next := Update(m, rows[..n], selected, provider);
      if rows[n].secretName !in selected then next else next[rows[n].key := Assignment(provider, rows[n])]
  }

  lemma ImportStep(before: string, next: string, row: Row, provider: string)
    requires WellFormedKey(row.key) && '\n' !in row.secretName && '\n' !in provider
    requires next == SetEnv(before, row.key, Reference(provider, row))
    ensures Meaning(next) == Meaning(before)[row.key := Assignment(provider, row)]
  {
    SetEnvMeaning(before, row.key, Reference(provider, row));
  }

  /** Text surgery refines the map update: the imported text means the updated map. */
  lemma {:induction false} ImportMeaning(env: string, rows: seq<Row>, selected: set<string>, provider: string)
    requires Importable(rows, selected, provider)
    ensures Meaning(Import(env, rows, selected, provider)) == Update(Meaning(env), rows, selected, provider)
  {
    if rows != [] {
      var front, last := rows[..|rows| - 1], rows[|rows| - 1];
      ImportMeaning(env, front, selected, provider);
      if last.secretName in selected {
        ImportStep(Import(env, front, selected, provider), Import(env, rows, selected, provider), last, provider);
      }
    }
  }

  /** So a key means what its last selected row says, and what it meant before when no row names it. */
  lemma {:induction false} UpdateLooksUp(
    m: map<string, string>, rows: seq<Row>, selected: set<string>, provider: string, key: string)
    ensures var after := Update(m, rows, selected, provider);
            match LastWriter(rows, selected, key)
            case Some(row) => key in after && after[key] == Assignment(provider, row)
            case None => (key in after <==> key in m) && (key in m ==> after[key] == m[key])
  {
    if rows != [] {
      UpdateLooksUp(m, rows[..|rows| - 1], selected, provider, key);
    }
  }

  lemma ImportIsMapUpdate(env: string, rows: seq<Row>, selected: set<string>, provider: string)
    requires Importable(rows, selected, provider)
    ensures var before, after := Meaning(env), Meaning(Import(env, rows, selected, provider));
            && after.Keys == before.Keys + (set r <- rows | r.secretName in selected :: r.key)
            && forall key <- after.Keys ::
                 match LastWriter(rows, selected, key)
                 case Some(row) => after[key] == Assignment(provider, row)
                 case None => key in before && after[key] == before[key]
  {
    var before, after := Meaning(env), Update(Meaning(env), rows, selected, provider);
    ImportMeaning(env, rows, selected, provider);
    forall key
      ensures match LastWriter(rows, selected, key)
              case Some(row) => key in after && after[key] == Assignment(provider, row)
              case None => (key in after <==> key in before) && (key in before ==> after[key] == before[key])
    {
      UpdateLooksUp(before, rows, selected, provider, key);
    }
  }

  // ---- Keys that no line can define.

  /** Provider and selected secrets have one-line names, so that every reference is one line. */
  predicate OneLine(rows: seq<Row>, selected: set<string>, provider: string) {
    '\n' !in provider && forall row <- rows :: row.secretName in selected ==> '\n' !in row.secretName
  }

  /**
   * With one-line references, whatever keys the user typed: the import is the map update if and only
   * if a line can define every selected key.
   */
  lemma ImportIsUpdateForWellFormedKeys(env: string, rows: seq<Row>, selected: set<string>, provider: string)
    requires OneLine(rows, selected, provider)
    ensures Meaning(Import(env, rows, selected, provider)) == Update(Meaning(env), rows, selected, provider)
            <==> forall row <- rows :: row.secretName in selected ==> WellFormedKey(row.key)
  {
    var next := Import(env, rows, selected, provider);
    if forall row <- rows :: row.secretName in selected ==> WellFormedKey(row.key) {
      ImportMeaning(env, rows, selected, provider);
    } else if Meaning(next) == Update(Meaning(env), rows, selected, provider) {
      var row :| row in rows && row.secretName in selected && !WellFormedKey(row.key);
      UpdateLooksUp(Meaning(env), rows, selected, provider, row.key);
      MeaningIsWellFormed(next, row.key);
    }
  }

  /** Every typed key is one line, as its input field has it. */
  predicate OneLineKeys(rows: seq<Row>, selected: set<string>) {
    forall row <- rows :: row.secretName in selected ==> '\n' !in row.key
  }

  /** The fold of the writes on the meaning, for any typed keys. */
  function WrittenAll(m: map<string, string>, rows: seq<Row>, selected: set<string>, provider: string)
    : map<string, string>
  {
    if rows == [] then m
    else
      var n := |rows| - 1;
      var next := WrittenAll(m, rows[..n], selected, provider);
      if rows[n].secretName !in selected then next else Written(next, rows[n].key, Assignment(provider, rows[n]))
  }

  /** What an import means, whatever keys of one line the user typed. */
  lemma {:induction false} ImportMeansWritten(env: string, rows: seq<Row>, selected: set<string>, provider: string)
    requires OneLine(rows, selected, provider) && OneLineKeys(rows, selected)
    ensures Meaning(Import(env, rows, selected, provider)) == WrittenAll(Meaning(env), rows, selected, provider)
  {
    hide Meaning, Written, SetEnv;
    if rows != [] {
      var front, last := rows[..|rows| - 1], rows[|rows| - 1];
      ImportMeansWritten(env, front, selected, provider);
      if last.secretName in selected {
        SetEnvMeansWritten(Import(env, front, selected, provider), last.key, Reference(provider, last));
      }
    }
  }

  /** A key that a line can define gets what its last selected row says, or keeps what it had. */
  lemma {:induction false} WrittenAllLooksUp(
    m: map<string, string>, rows: seq<Row>, selected: set<string>, provider: string, key: string)
    requires WellFormedKey(key)
    ensures var after := WrittenAll(m, rows, selected, provider);
            match LastWriter(rows, selected, key)
            case Some(row) => key in after && after[key] == Assignment(provider, row)
            case None => key in m ==> key in after && after[key] == m[key]
  {
    hide WellFormedKey, DefinedKey;
    if rows != [] {
      WrittenAllLooksUp(m, rows[..|rows| - 1], selected, provider, key);
    }
  }

  /**
   * Rows with keys that no line can define disturb nothing: every other selected key means its last
   * selected row, and what was defined and not selected means what it meant.
   */
  lemma ImportWithAnyKeys(env: string, rows: seq<Row>, selected: set<string>, provider: string, key: string)
    requires OneLine(rows, selected, provider) && OneLineKeys(rows, selected)
    ensures var before, after := Meaning(env), Meaning(Import(env, rows, selected, provider));
            match LastWriter(rows, selected, key)
            case Some(row) =>
              && (key in after <==> WellFormedKey(key))
              && (key in after ==> after[key] == key + "=${{vault." + provider + "." + row.secretName + "}}")
            case None => key in before ==> key in after && after[key] == before[key]
  {
    hide Meaning, WrittenAll, WellFormedKey, Import;
    ImportMeansWritten(env, rows, selected, provider);
    var writer := LastWriter(rows, selected, key);
    if writer.Some? {
      AssignmentText(provider, writer.value);
    }
    if key in Meaning(Import(env, rows, selected, provider)) {
      MeaningIsWellFormed(Import(env, rows, selected, provider), key);
    }
    if key in Meaning(env) {
      MeaningIsWellFormed(env, key);
    }
    if WellFormedKey(key) {
      WrittenAllLooksUp(Meaning(env), rows, selected, provider, key);
    }
  }

  lemma AssignmentText(provider: string, row: Row)
    ensures Assignment(provider, row) == row.key + "=${{vault." + provider + "." + row.secretName + "}}"
  {
    var rest := "${{vault." + provider + "." + row.secretName + "}}";
    assert row.key + "=" + rest == row.key + ("=" + rest);
    assert "=" + rest == "=${{vault." + provider + "." + row.secretName + "}}";
  }

  // ---- Default keys.

  predicate IsDigit(c: char) { '0' <= c <= '9' }

  predicate IsUpper(c: char) { 'A' <= c <= 'Z' }

  predicate IsLower(c: char) { 'a' <= c <= 'z' }

  predicate IsAlphanumeric(c: char) { IsDigit(c) || IsUpper(c) || IsLower(c) }

  /** `/^[A-Za-z_][A-Za-z0-9_]*$/` */
  predicate IsIdentifier(s: string) {
    s != "" && !IsDigit(s[0]) && forall c <- s :: IsAlphanumeric(c) || c == '_'
  }

  /** `s.replace(/[^a-zA-Z0-9]+/g, "_")`: `inRun` says that the run before `s` is already written. */
  function Collapse(s: string, inRun: bool): string {
    if s == "" then ""
    else if IsAlphanumeric(s[0]) then [s[0]] + Collapse(s[1..], false)
    else if inRun then Collapse(s[1..], true)
    else "_" + Collapse(s[1..], true)
  }

  /** `s.replace(/^_+|_+$/g, "")` */
  function StripStart(s: string): string {
    if s != "" && s[0] == '_' then StripStart(s[1..]) else s
  }

  function StripEnd(s: string): string {
    if s != "" && s[|s| - 1] == '_' then StripEnd(s[..|s| - 1]) else s
  }

  function Upper(s: string): (r: string)
    ensures |r| == |s|
    ensures forall i :: 0 <= i < |s| ==> r[i] == if IsLower(s[i]) then s[i] - 'a' + 'A' else s[i]
  {
    seq(|s|, i requires 0 <= i < |s| => if IsLower(s[i]) then s[i] - 'a' + 'A' else s[i])
  }

  /** The three replacements of the source, in order. */
  function Words(secretName: string): string {
    Upper(StripEnd(StripStart(Collapse(secretName, false))))
  }

  function NormalizeSecretName(secretName: string): string {
    var normalized := Words(secretName);
    if normalized != "" && IsDigit(normalized[0]) then "_" + normalized
    else if normalized == "" then "SECRET"
    else normalized
  }

  /** Words joined by single underscores. */
  predicate Joined(s: string) {
    && (forall c <- s :: IsAlphanumeric(c) || c == '_')
    && (forall i :: 0 < i < |s| ==> s[i] != '_' || s[i - 1] != '_')
  }

  predicate Stripped(s: string) {
    s == "" || (s[0] != '_' && s[|s| - 1] != '_')
  }

  predicate NoLower(s: string) {
    forall c <- s :: !IsLower(c)
  }

  lemma {:induction false} CollapseJoins(s: string, inRun: bool)
    ensures var r := Collapse(s, inRun); Joined(r) && (inRun && r != "" ==> r[0] != '_')
  {
    if s != "" {
      CollapseJoins(s[1..], !IsAlphanumeric(s[0]));
    }
  }

  lemma {:induction false} StripStartKeeps(s: string)
    requires Joined(s)
    ensures var r := StripStart(s); Joined(r) && (r == "" || r[0] != '_')
  {
    if s != "" && s[0] == '_' {
      StripStartKeeps(s[1..]);
    }
  }

  lemma {:induction false} StripEndKeeps(s: string)
    requires Joined(s) && (s == "" || s[0] != '_')
    ensures Joined(StripEnd(s)) && Stripped(StripEnd(s))
  {
    if s != "" && s[|s| - 1] == '_' {
      var front := s[..|s| - 1];
      assert front == "" || front[0] == s[0];
      StripEndKeeps(front);
    }
  }

  lemma UpperKeeps(s: string)
    requires Joined(s) && Stripped(s)
    ensures Joined(Upper(s)) && Stripped(Upper(s)) && NoLower(Upper(s))
  {
    var r := Upper(s);
    forall i | 0 <= i < |r|
      ensures (r[i] == '_' <==> s[i] == '_') && !IsLower(r[i]) && (IsAlphanumeric(r[i]) || r[i] == '_')
    {
      assert s[i] in s;
    }
  }

  /** What the replacements make of any name: stripped upper-case words. */
  lemma WordsShape(secretName: string)
    ensures Joined(Words(secretName)) && Stripped(Words(secretName)) && NoLower(Words(secretName))
  {
    var collapsed := Collapse(secretName, false);
    CollapseJoins(secretName, false);
    StripStartKeeps(collapsed);
    StripEndKeeps(StripStart(collapsed));
    UpperKeeps(StripEnd(StripStart(collapsed)));
  }

  lemma {:induction false} CollapseJoined(s: string, inRun: bool)
    requires Joined(s) && (inRun && s != "" ==> s[0] != '_')
    ensures Collapse(s, inRun) == s
  {
    if s != "" {
      assert s[0] in s && Joined(s[1..]);
      CollapseJoined(s[1..], !IsAlphanumeric(s[0]));
    }
  }

  lemma UpperFixed(s: string)
    requires NoLower(s)
    ensures Upper(s) == s
  {
    assert forall i :: 0 <= i < |s| ==> s[i] in s;
  }

  /** Stripped upper-case words are a fixed point, with or without the underscore that guards a digit. */
  lemma WordsFixed(n: string)
    requires Joined(n) && Stripped(n) && NoLower(n)
    ensures Words(n) == n
    ensures n != "" ==> Words("_" + n) == n
  {
    CollapseJoined(n, false);
    UpperFixed(n);
    if n != "" {
      assert ("_" + n)[1..] == n;
      CollapseJoined(n, true);
    }
  }

  /** Every default key is an identifier. */
  lemma NormalizedIsIdentifier(secretName: string)
    ensures IsIdentifier(NormalizeSecretName(secretName))
  {
    WordsShape(secretName);
  }

  lemma FallbackIsWord(fallback: string)
    requires fallback == "SECRET"
    ensures Joined(fallback) && Stripped(fallback) && NoLower(fallback) && !IsDigit(fallback[0])
  {
  }

  /** Normalising a default key again changes nothing. */
  lemma NormalizeTwice(secretName: string, key: string)
    requires key == NormalizeSecretName(secretName)
    ensures NormalizeSecretName(key) == key
  {
    var n := Words(secretName);
    WordsShape(secretName);
    if n == "" {
      FallbackIsWord(key);
      WordsFixed(key);
    } else {
      WordsFixed(n);
    }
  }

  // ---- What a default key says.

  /** The letters and digits of a text, in order. */
  function Alphanumerics(s: string): string {
    if s == "" then "" else (if IsAlphanumeric(s[0]) then [s[0]] else "") + Alphanumerics(s[1..])
  }

  lemma {:induction false} CollapseSays(s: string, inRun: bool)
    ensures Alphanumerics(Collapse(s, inRun)) == Alphanumerics(s)
  {
    if s != "" {
      var rest := Collapse(s[1..], !IsAlphanumeric(s[0]));
      CollapseSays(s[1..], !IsAlphanumeric(s[0]));
      assert ([s[0]] + rest)[1..] == rest && ("_" + rest)[1..] == rest;
    }
  }

  lemma {:induction false} StripStartSays(s: string)
    ensures Alphanumerics(StripStart(s)) == Alphanumerics(s)
  {
    if s != "" && s[0] == '_' {
      StripStartSays(s[1..]);
    }
  }

  lemma AlphanumericsCons(c: char, s: string)
    ensures Alphanumerics([c] + s) == (if IsAlphanumeric(c) then [c] else "") + Alphanumerics(s)
  {
    hide IsAlphanumeric;
    assert ([c] + s)[1..] == s;
  }

  lemma {:induction false} AlphanumericsAppend(s: string, t: string)
    ensures Alphanumerics(s + t) == Alphanumerics(s) + Alphanumerics(t)
  {
    hide IsAlphanumeric;
    if s == "" {
      assert s + t == t;
    } else {
      hide Alphanumerics;
      var c, rest := s[0], s[1..];
      assert s == [c] + rest && s + t == [c] + (rest + t);
      AlphanumericsAppend(rest, t);
      AlphanumericsCons(c, rest);
      AlphanumericsCons(c, rest + t);
    }
  }

  lemma {:induction false} StripEndSays(s: string)
    ensures Alphanumerics(StripEnd(s)) == Alphanumerics(s)
  {
    if s != "" && s[|s| - 1] == '_' {
      StripEndSays(s[..|s| - 1]);
      AlphanumericsAppend(s[..|s| - 1], "_");
      assert s == s[..|s| - 1] + "_";
      assert "_"[1..] == "";
    }
  }

  lemma {:induction false} UpperSays(s: string)
    ensures Alphanumerics(Upper(s)) == Upper(Alphanumerics(s))
  {
    if s != "" {
      UpperSays(s[1..]);
      assert Upper(s)[1..] == Upper(s[1..]);
    }
  }

  lemma {:induction false} NothingSaid(s: string)
    ensures Joined(s) && Stripped(s) ==> (Alphanumerics(s) == "" <==> s == "")
  {
  }

  /** A default key says what the name says: the same letters and digits in the same order, in upper case. */
  lemma NormalizeSaysTheName(secretName: string)
    ensures var said := Alphanumerics(secretName);
            if said == "" then NormalizeSecretName(secretName) == "SECRET"
            else Alphanumerics(NormalizeSecretName(secretName)) == Upper(said)
  {
    var collapsed := Collapse(secretName, false);
    CollapseSays(secretName, false);
    StripStartSays(collapsed);
    StripEndSays(StripStart(collapsed));
    UpperSays(StripEnd(StripStart(collapsed)));
    WordsShape(secretName);
    var n := Words(secretName);
    NothingSaid(n);
    assert ("_" + n)[1..] == n;
  }

  // ---- How a default key is spelled.

  predicate NoAlphanumeric(s: string) {
    forall c <- s :: !IsAlphanumeric(c)
  }

  lemma {:induction false} CollapseAppend(s: string, t: string, inRun: bool)
    ensures Collapse(s + t, inRun)
            == Collapse(s, inRun) + Collapse(t, if s == "" then inRun else !IsAlphanumeric(s[|s| - 1]))
  {
    hide IsAlphanumeric;
    if s == "" {
      assert s + t == t;
    } else {
      assert (s + t)[1..] == s[1..] + t;
      CollapseAppend(s[1..], t, !IsAlphanumeric(s[0]));
    }
  }

  lemma {:induction false} CollapseSeparator(s: string, inRun: bool)
    requires NoAlphanumeric(s)
    ensures Collapse(s, inRun) == if s == "" || inRun then "" else "_"
  {
    hide IsAlphanumeric;
    if s != "" {
      assert s[0] in s;
      CollapseSeparator(s[1..], true);
    }
  }

  /** A text that starts with a letter or digit collapses to one that does, and the same at its end. */
  lemma CollapseEdges(s: string)
    requires s != ""
    ensures IsAlphanumeric(s[0]) ==>
              Collapse(s, true) == Collapse(s, false) != "" && Collapse(s, false)[0] == s[0]
    ensures IsAlphanumeric(s[|s| - 1]) ==>
              Collapse(s, false) != "" && Collapse(s, false)[|Collapse(s, false)| - 1] == s[|s| - 1]
  {
    hide IsAlphanumeric;
    var front, last := s[..|s| - 1], s[|s| - 1..];
    assert s == front + last && last[1..] == "";
    CollapseAppend(front, last, false);
  }

  lemma {:induction false} StripStartAppend(s: string, t: string)
    requires s != "" && s[|s| - 1] != '_'
    ensures StripStart(s + t) == StripStart(s) + t
  {
    if s[0] == '_' {
      assert (s + t)[1..] == s[1..] + t;
      StripStartAppend(s[1..], t);
    }
  }

  lemma {:induction false} StripEndAppend(s: string, t: string)
    requires t != "" && t[0] != '_'
    ensures StripEnd(s + t) == s + StripEnd(t)
    decreases |t|
  {
    var u := s + t;
    assert u[|u| - 1] == t[|t| - 1];
    if t[|t| - 1] == '_' {
      assert u[..|u| - 1] == s + t[..|t| - 1];
      StripEndAppend(s, t[..|t| - 1]);
    }
  }

  lemma {:induction false} StripStartEnd(s: string)
    requires s != "" && s[|s| - 1] != '_'
    ensures var r := StripStart(s); r != "" && r[|r| - 1] != '_' && StripEnd(r) == r
  {
    if s[0] == '_' {
      StripStartEnd(s[1..]);
    }
  }

  lemma UpperAppend(s: string, t: string)
    ensures Upper(s + t) == Upper(s) + Upper(t)
  {
  }

  /** A word of letters and digits is itself, in upper case. */
  lemma WordAlone(w: string)
    requires forall c <- w :: IsAlphanumeric(c)
    ensures Words(w) == Upper(w)
  {
    assert w != "" ==> w[0] in w && w[|w| - 1] in w;
    forall i | 0 < i < |w|
      ensures w[i] != '_'
    {
      assert w[i] in w;
    }
    CollapseJoined(w, false);
  }

  /** Whatever stands between two words becomes one underscore. */
  lemma SeparatorIsUnderscore(a: string, separator: string, b: string)
    requires a != "" && IsAlphanumeric(a[|a| - 1]) && b != "" && IsAlphanumeric(b[0])
    requires separator != "" && NoAlphanumeric(separator)
    ensures Words(a + separator + b) == Words(a) + "_" + Words(b)
  {
    hide NoAlphanumeric, Collapse, StripStart, StripEnd, Upper;
    var ca, cb := Collapse(a, false), Collapse(b, false);
    CollapseAppend(a + separator, b, false);
    CollapseAppend(a, separator, false);
    CollapseSeparator(separator, false);
    LastIsSeparator(separator);
    CollapseEdges(a);
    CollapseEdges(b);
    assert Collapse(a + separator + b, false) == ca + ("_" + cb);
    StripStartAppend(ca, "_" + cb);
    StripStartEnd(ca);
    assert StripStart(ca) + ("_" + cb) == (StripStart(ca) + "_") + cb;
    StripEndAppend(StripStart(ca) + "_", cb);
    StripEndAppend("", cb);
    StripStartOfWord(cb);
    assert "" + cb == cb;
    UpperAppend(StripStart(ca) + "_", StripEnd(cb));
    UpperAppend(StripStart(ca), "_");
    UpperUnderscore();
  }

  lemma LastIsSeparator(s: string)
    requires s != "" && NoAlphanumeric(s)
    ensures !IsAlphanumeric(s[|s| - 1])
  {
    assert s[|s| - 1] in s;
  }

  lemma StripStartOfWord(s: string)
    requires s != "" && s[0] != '_'
    ensures StripStart(s) == s
  {
  }

  lemma UpperUnderscore()
    ensures Upper("_") == "_"
  {
  }

  /** What stands before the first word or behind the last one falls away. */
  lemma EdgesFallAway(before: string, a: string, after: string)
    requires NoAlphanumeric(before) && NoAlphanumeric(after)
    requires a != "" && IsAlphanumeric(a[0]) && IsAlphanumeric(a[|a| - 1])
    ensures Words(before + a + after) == Words(a)
  {
    hide NoAlphanumeric, Collapse, StripStart, StripEnd, Upper;
    var c := Collapse(a, false);
    CollapseAppend(before + a, after, false);
    CollapseAppend(before, a, false);
    CollapseSeparator(before, false);
    CollapseSeparator(after, false);
    CollapseEdges(a);
    assert (before + a)[|before + a| - 1] == a[|a| - 1];
    var x, y := Collapse(before, false), Collapse(after, false);
    assert Collapse(before + a + after, false) == x + c + y;
    StripsEdges(x, c, y);
    StripsEdges("", c, "");
    assert "" + c + "" == c;
  }

  lemma StripsEdges(x: string, c: string, y: string)
    requires (x == "" || x == "_") && (y == "" || y == "_")
    requires c != "" && c[0] != '_' && c[|c| - 1] != '_'
    ensures StripEnd(StripStart(x + c + y)) == c
  {
    assert x == "_" ==> (x + c + y)[1..] == c + y;
    assert x == "" ==> x + c + y == c + y;
    StripStartOfWord(c + y);
    assert y == "_" ==> (c + y)[..|c + y| - 1] == c;
    assert y == "" ==> c + y == c;
  }

  lemma Spelled(secretName: string, words: string)
    requires Words(secretName) == words != ""
    ensures NormalizeSecretName(secretName) == if '0' <= words[0] <= '9' then "_" + words else words
  {
  }

  lemma WordsForInstance()
    ensures Words("my") == "MY" && Words("db") == "DB" && Words("1pass") == "1PASS"
  {
    hide Words;
    WordAlone("my");
    WordAlone("db");
    WordAlone("1pass");
    assert Upper("my") == "MY" && Upper("db") == "DB" && Upper("1pass") == "1PASS";
  }

  lemma Separated()
    ensures NormalizeSecretName("my-.db") == "MY_DB"
  {
    WordsForInstance();
    hide Words, NormalizeSecretName;
    assert "my" + "-." + "db" == "my-.db" && "MY" + "_" + "DB" == "MY_DB";
    SeparatorIsUnderscore("my", "-.", "db");
    Spelled("my-.db", "MY_DB");
  }

  lemma Guarded()
    ensures NormalizeSecretName("/1pass/") == "_1PASS"
  {
    WordsForInstance();
    hide Words, NormalizeSecretName;
    assert "/" + "1pass" + "/" == "/1pass/" && "_" + "1PASS" == "_1PASS";
    EdgesFallAway("/", "1pass", "/");
    Spelled("/1pass/", "1PASS");
  }

  lemma Nameless()
    ensures NormalizeSecretName("--") == "SECRET"
  {
    hide Words, NormalizeSecretName;
    NormalizeSaysTheName("--");
    assert "--"[1..] == "-" && "-"[1..] == "";
    assert Alphanumerics("--") == "";
  }

  /** For instance. */
  lemma NamesForInstance()
    ensures NormalizeSecretName("my-.db") == "MY_DB"
    ensures NormalizeSecretName("/1pass/") == "_1PASS"
    ensures NormalizeSecretName("--") == "SECRET"
  {
    hide NormalizeSecretName;
    Separated();
    Guarded();
    Nameless();
  }

  /** An identifier survives trimming and is a key a line can define. */
  lemma IdentifierIsWellFormed(k: string)
    requires IsIdentifier(k)
    ensures WellFormedKey(k)
  {
    assert k[0] in k && k[|k| - 1] in k;
  }
}
