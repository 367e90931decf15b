/** The keys that autocompletion offers for an environment text. */
module EnvAutocomplete {
  import opened Wrappers
  import opened Text
  import opened EnvText
  import opened VaultImport

  function Map<T, U>(f: T -> U, xs: seq<T>): (ys: seq<U>)
    ensures |ys| == |xs| && forall i :: 0 <= i < |xs| ==> ys[i] == f(xs[i])
  {
    seq(|xs|, i requires 0 <= i < |xs| => f(xs[i]))
  }

  function Filter<T(!new)>(p: T -> bool, xs: seq<T>): (ys: seq<T>)
    ensures forall x :: x in ys <==> x in xs && p(x)
  {
    if xs == [] then [] else (if p(xs[0]) then [xs[0]] else []) + Filter(p, xs[1..])
  }

  /** `!line` is false, no comment, has an equals sign. */
  predicate IsDefinition(line: string) {
    line != "" && line[0] != '#' && '=' in line
  }

  function KeyPart(line: string): string {
    var i := IndexOf(line, '=');
    Trim(if i >= 0 then line[..i] else line)
  }

  /** The chain before its last filter. */
  function DefinitionKeys(raw: seq<string>): seq<string> {
    Map(KeyPart, Filter(IsDefinition, Map(Trim, raw)))
  }

  function ParseKeys(env: Option<string>): seq<string> {
    Filter(IsIdentifier, DefinitionKeys(Split(if env.Some? then env.value else "", '\n')))
  }

  lemma {:induction false} DefinedKeys(lines: seq<string>, key: string)
    ensures key in Definitions(lines) <==> exists l <- lines :: DefinedKey(l) == Some(key)
  {
    if lines != [] {
      DefinedKeys(lines[1..], key);
      assert lines == [lines[0]] + lines[1..];
    }
  }

  lemma ListedKeyIsDefined(raw: seq<string>, key: string)
    requires key in DefinitionKeys(raw)
    ensures exists l <- raw :: DefinedKey(l) == Some(key)
  {
    var trimmed := Map(Trim, raw);
    var definitions := Filter(IsDefinition, trimmed);
    var j :| 0 <= j < |definitions| && KeyPart(definitions[j]) == key;
    assert definitions[j] in definitions;
    var i :| 0 <= i < |trimmed| && trimmed[i] == definitions[j];
    assert DefinedKey(raw[i]) == Some(key) && raw[i] in raw;
  }

  lemma DefinedKeyIsListed(raw: seq<string>, line: string, key: string)
    requires line in raw && DefinedKey(line) == Some(key)
    ensures key in DefinitionKeys(raw)
  {
    var trimmed := Map(Trim, raw);
    var definitions := Filter(IsDefinition, trimmed);
    var i :| 0 <= i < |raw| && raw[i] == line;
    assert trimmed[i] in trimmed && trimmed[i] in definitions;
    var j :| 0 <= j < |definitions| && definitions[j] == trimmed[i];
    assert Map(KeyPart, definitions)[j] == key;
  }

  /** Autocompletion offers exactly the identifier-shaped keys that the dialog sees. */
  lemma OffersIdentifierKeys(env: string, key: string)
    ensures key in ParseKeys(Some(env)) <==> key in Meaning(env) && Identifier(key)
  {
    IdentifierIsMatched(key);
    var raw := Split(env, '\n');
    DefinedKeys(raw, key);
    if key in DefinitionKeys(raw) {
      ListedKeyIsDefined(raw, key);
    }
    if line :| line in raw && DefinedKey(line) == Some(key) {
      DefinedKeyIsListed(raw, line, key);
    }
  }

  /** A secret imported under its default key is offered afterwards, whatever keys the other rows have. */
  lemma DefaultImportIsOffered(env: string, rows: seq<Row>, selected: set<string>, provider: string, row: Row)
    requires OneLine(rows, selected, provider) && OneLineKeys(rows, selected)
    requires row in rows && row.secretName in selected && row.key == NormalizeSecretName(row.secretName)
    ensures row.key in ParseKeys(Some(Import(env, rows, selected, provider)))
  {
    hide Meaning, WellFormedKey, IsIdentifier, Identifier, Import, ParseKeys;
    NormalizedIsIdentifier(row.secretName);
    IdentifierIsMatched(row.key);
    IdentifierIsWellFormed(row.key);
    ImportWithAnyKeys(env, rows, selected, provider, row.key);
    OffersIdentifierKeys(Import(env, rows, selected, provider), row.key);
  }

  // ---- What is offered, and in what order.

  /** The shape of an identifier, written out. */
  predicate Identifier(s: string) {
    && s != "" && ('A' <= s[0] <= 'Z' || 'a' <= s[0] <= 'z' || s[0] == '_')
    && forall c <- s :: 'A' <= c <= 'Z' || 'a' <= c <= 'z' || '0' <= c <= '9' || c == '_'
  }

  lemma IdentifierIsMatched(s: string)
    ensures IsIdentifier(s) <==> Identifier(s)
  {
    assert s != "" ==> s[0] in s;
  }

  lemma {:induction false} FilterAppend<T(!new)>(p: T -> bool, xs: seq<T>, ys: seq<T>)
    ensures Filter(p, xs + ys) == Filter(p, xs) + Filter(p, ys)
  {
    if xs == [] {
      assert xs + ys == ys;
    } else {
      assert (xs + ys)[1..] == xs[1..] + ys;
      FilterAppend(p, xs[1..], ys);
    }
  }

  lemma MapAppend<T, U>(f: T -> U, xs: seq<T>, ys: seq<T>)
    ensures Map(f, xs + ys) == Map(f, xs) + Map(f, ys)
  {
  }

  lemma SplitAppend(a: string, b: string)
    ensures Split(a + "\n" + b, '\n') == Split(a, '\n') + Split(b, '\n')
  {
    hide Split;
    var parts := Split(a, '\n') + Split(b, '\n');
    JoinAppend(Split(a, '\n'), Split(b, '\n'), '\n');
    JoinSplit(a, '\n');
    JoinSplit(b, '\n');
    assert a + ['\n'] + b == a + "\n" + b;
    SplitJoin(parts, '\n');
  }

  lemma DefinitionKeysAppend(xs: seq<string>, ys: seq<string>)
    ensures DefinitionKeys(xs + ys) == DefinitionKeys(xs) + DefinitionKeys(ys)
  {
    MapAppend(Trim, xs, ys);
    FilterAppend(IsDefinition, Map(Trim, xs), Map(Trim, ys));
    MapAppend(KeyPart, Filter(IsDefinition, Map(Trim, xs)), Filter(IsDefinition, Map(Trim, ys)));
  }

  /** The keys come in the order of their lines. */
  lemma KeysInOrder(a: string, b: string)
    ensures ParseKeys(Some(a + "\n" + b)) == ParseKeys(Some(a)) + ParseKeys(Some(b))
  {
    hide Split, DefinitionKeys, Filter;
    SplitAppend(a, b);
    DefinitionKeysAppend(Split(a, '\n'), Split(b, '\n'));
    FilterAppend(IsIdentifier, DefinitionKeys(Split(a, '\n')), DefinitionKeys(Split(b, '\n')));
  }

  lemma FilterOne<T(!new)>(p: T -> bool, x: T)
    ensures Filter(p, [x]) == if p(x) then [x] else []
  {
  }

  lemma MapOne<T, U>(f: T -> U, x: T)
    ensures Map(f, [x]) == [f(x)] && Map(f, []) == []
  {
  }

  lemma DefinitionKeysOne(line: string)
    ensures DefinitionKeys([line]) == match DefinedKey(line) case None => [] case Some(key) => [key]
  {
    hide Filter, Map;
    var t := Trim(line);
    MapOne(Trim, line);
    FilterOne(IsDefinition, t);
    MapOne(KeyPart, t);
  }

  lemma FilterNone<T(!new)>(p: T -> bool)
    ensures Filter(p, []) == []
  {
  }

  /** A single line offers the key it defines, if that is an identifier; no text offers nothing. */
  lemma KeysOfLine(line: string)
    requires '\n' !in line
    ensures ParseKeys(Some(line))
            == match DefinedKey(line) case None => [] case Some(key) => if Identifier(key) then [key] else []
    ensures ParseKeys(None) == []
  {
    hide DefinitionKeys, Filter, DefinedKey, IsIdentifier, Identifier;
    assert Split(line, '\n') == [line] && Split("", '\n') == [""];
    DefinitionKeysOne(line);
    DefinitionKeysOne("");
    EmptyLine();
    FilterNone(IsIdentifier);
    var key := DefinedKey(line);
    if key.Some? {
      FilterOne(IsIdentifier, key.value);
      IdentifierIsMatched(key.value);
    }
  }

  lemma EmptyLine()
    ensures DefinedKey("") == None
  {
  }
}
