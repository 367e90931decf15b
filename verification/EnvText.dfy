/** Environment text: reading its keys, writing one value, importing many. */
module EnvText {
  import opened Wrappers
  import opened Text

  /** The key a line defines, if it defines one. */
  function DefinedKey(line: string): Option<string> {
    var t := Trim(line);
    if t == "" || t[0] == '#' || '=' !in t then None else Some(Trim(t[..IndexOf(t, '=')]))
  }

  // ---- Reference meaning: an environment text is the map from each key to its first defining line.

  function Definitions(lines: seq<string>): map<string, string> {
    if lines == [] then map[]
    else
      var rest := Definitions(lines[1..]);
      match DefinedKey(lines[0])
      case None => rest
      case Some(k) => rest[k := lines[0]]
  }

  function Meaning(env: string): map<string, string> {
    Definitions(Split(env, '\n'))
  }

  /** A key that a line can define. */
  predicate WellFormedKey(k: string) {
    Trim(k) == k && '=' !in k && '\n' !in k && (k == "" || k[0] != '#')
  }

  lemma NoDefinitions(lines: seq<string>)
    requires lines == []
    ensures Definitions(lines) == map[]
  {
  }

  // ---- The operations.

  /** The keys that line `i` and the lines after it define. */
  lemma KeysFrom(lines: seq<string>, i: nat)
    requires i < |lines|
    ensures Definitions(lines[i..]).Keys
            == Definitions(lines[i + 1..]).Keys + match DefinedKey(lines[i]) case None => {} case Some(k) => {k}
  {
    hide DefinedKey;
    assert lines[i..][1..] == lines[i + 1..];
  }

  method ParseEnvKeys(env: string) returns (keys: set<string>)
    ensures keys == Meaning(env).Keys
  {
    hide DefinedKey, Definitions, Split;
    keys := {};
    var lines := Split(env, '\n');
    assert lines[0..] == lines;
    for i := 0 to |lines|
      invariant keys + Definitions(lines[i..]).Keys == Meaning(env).Keys
    {
      KeysFrom(lines, i);
      var k := DefinedKey(lines[i]);
      if k.None? { continue; }
      keys := keys + {k.value};
    }
    NoDefinitions(lines[|lines|..]);
  }

  /** `lines.findIndex(...)`: the first line that defines `key`, or -1. */
  function FindDefinition(lines: seq<string>, key: string): (i: int)
    ensures -1 <= i < |lines|
    ensures i == -1 <==> key !in Definitions(lines)
    ensures i >= 0 ==> DefinedKey(lines[i]) == Some(key) && key !in Definitions(lines[..i])
  {
    hide DefinedKey;
    if lines == [] then -1
    else if DefinedKey(lines[0]) == Some(key) then 0
    else
      var i := FindDefinition(lines[1..], key);
      if i == -1 then -1 else
        assert lines[..i + 1][1..] == lines[1..][..i];
        i + 1
  }

  function SetEnv(env: string, key: string, ref: string): string {
    var lines, line := Split(env, '\n'), key + "=" + ref;
    var i := FindDefinition(lines, key);
    if i >= 0 then
      Join(lines[i := line], '\n')
    else
      (if |env| > 0 && env[|env| - 1] != '\n' then env + "\n" else env) + (line + "\n")
  }

  method SetEnvValue(env: string, key: string, ref: string) returns (r: string)
    ensures r == SetEnv(env, key, ref)
  {
    var lines := Split(env, '\n');
    var line := key + "=" + ref;
    var index := FindDefinition(lines, key);
    if index >= 0 {
      lines := lines[index := line];
      return Join(lines, '\n');
    }
    var newline := if |env| > 0 && env[|env| - 1] != '\n' then "\n" else "";
    return env + newline + (line + "\n");
  }

  // ---- Lines and keys.

  lemma DefinitionsCons(line: string, rest: seq<string>)
    ensures Definitions([line] + rest)
            == match DefinedKey(line) case None => Definitions(rest) case Some(k) => Definitions(rest)[k := line]
  {
    assert ([line] + rest)[1..] == rest;
  }

  lemma {:induction false} DefinitionsAppend(a: seq<string>, b: seq<string>)
    ensures Definitions(a + b) == Definitions(b) + Definitions(a)
  {
    hide DefinedKey;
    if a == [] {
      assert a + b == b;
    } else {
      DefinitionsAppend(a[1..], b);
      assert a + b == [a[0]] + (a[1..] + b) && a == [a[0]] + a[1..];
      DefinitionsCons(a[0], a[1..] + b);
      DefinitionsCons(a[0], a[1..]);
    }
  }

  /** Every definition of the map is a line of the text, and defines the key it is filed under. */
  lemma {:induction false} DefinitionIsLine(lines: seq<string>, key: string)
    requires key in Definitions(lines)
    ensures Definitions(lines)[key] in lines && DefinedKey(Definitions(lines)[key]) == Some(key)
  {
    if DefinedKey(lines[0]) != Some(key) {
      DefinitionIsLine(lines[1..], key);
    }
  }

  lemma TrimAssignment(key: string, ref: string)
    requires Trim(key) == key
    ensures Trim(key + "=" + ref) == key + "=" + TrimEnd(ref)
  {
    var line := key + "=" + ref;
    TrimIsTrimmed(key);
    assert TrimStart(line) == line by {
      assert line[0] == if key == "" then '=' else key[0];
    }
    TrimEndAppend(key + "=", ref);
  }

  /** The line `key=ref` defines `key` exactly when the key is trimmed, has no `=` and starts no comment. */
  lemma AssignmentDefines(key: string, ref: string)
    ensures DefinedKey(key + "=" + ref) == Some(key) <==>
            Trim(key) == key && '=' !in key && (key == "" || key[0] != '#')
  {
    var line := key + "=" + ref;
    var t := Trim(line);
    if Trim(key) == key {
      TrimAssignment(key, ref);
      assert t == key + "=" + TrimEnd(ref);
      if '=' !in key {
        IndexOfAt(key, '=', TrimEnd(ref));
        assert t[..|key|] == key;
      } else {
        assert t[..|key|] == key;
        var i := IndexOf(key, '=');
        assert t[i] == '=' && i < |key|;
        assert IndexOf(t, '=') <= i;
      }
    } else if DefinedKey(line) == Some(key) {
      TrimIsTrimmed(t[..IndexOf(t, '=')]);
    }
  }

  // ---- One write.

  /** The lines of the text without the empty one after a final newline. */
  function Body(lines: seq<string>): seq<string>
    requires |lines| >= 1
  {
    if lines[|lines| - 1] == "" then lines[..|lines| - 1] else lines
  }

  lemma EmptyLineDefinesNothing()
    ensures Definitions([""]) == map[]
  {
    DefinitionsCons("", []);
    assert [""] == [""] + [];
  }

  lemma BodyDefinitions(lines: seq<string>)
    requires |lines| >= 1
    ensures Definitions(Body(lines)) == Definitions(lines)
  {
    hide DefinedKey, Definitions;
    var n := |lines| - 1;
    if lines[n] == "" {
      assert lines == lines[..n] + [""];
      DefinitionsAppend(lines[..n], [""]);
      EmptyLineDefinesNothing();
    }
  }

  /** A text that does not end with a newline has a non-empty last line, and the other way round. */
  lemma {:induction false} LastLine(lines: seq<string>)
    requires |lines| >= 1 && forall l <- lines :: '\n' !in l
    ensures var env := Join(lines, '\n');
            lines[|lines| - 1] == "" <==> env == "" || env[|env| - 1] == '\n'
  {
    if |lines| == 1 {
      assert lines[0] in lines;
    } else {
      LastLine(lines[1..]);
    }
  }

  lemma JoinLine(line: string)
    ensures Join([line, ""], '\n') == line + "\n"
  {
    assert [line, ""][1..] == [""];
    assert line + ['\n'] + "" == line + "\n";
  }

  lemma AppendedText(body: seq<string>, line: string)
    ensures Join(body + [""], '\n') + (line + "\n") == Join(body + [line, ""], '\n')
  {
    JoinLine(line);
    if body == [] {
      assert body + [line, ""] == [line, ""] && body + [""] == [""];
    } else {
      JoinAppend(body, [""], '\n');
      JoinAppend(body, [line, ""], '\n');
    }
  }

  lemma AppendedAfterNewline(lines: seq<string>, line: string)
    requires |lines| >= 1
    ensures Join(lines, '\n') + "\n" + (line + "\n") == Join(lines + [line, ""], '\n')
  {
    JoinLine(line);
    JoinAppend(lines, [line, ""], '\n');
  }

  /** The text an append makes, whether or not the old one ended with a newline. */
  lemma Appended(lines: seq<string>, line: string)
    requires |lines| >= 1 && forall l <- lines :: '\n' !in l
    ensures var env := Join(lines, '\n');
            (if |env| > 0 && env[|env| - 1] != '\n' then env + "\n" else env) + (line + "\n")
            == Join(Body(lines) + [line, ""], '\n')
  {
    hide Join;
    LastLine(lines);
    if lines[|lines| - 1] == "" {
      assert lines == Body(lines) + [""];
      AppendedText(Body(lines), line);
    } else {
      AppendedAfterNewline(lines, line);
    }
  }

  /** The lines after a write: one line replaced in place, or one line added at the end. */
  function SetLines(lines: seq<string>, key: string, line: string): seq<string>
    requires |lines| >= 1
  {
    var i := FindDefinition(lines, key);
    if i >= 0 then lines[i := line] else Body(lines) + [line, ""]
  }

  lemma SetEnvText(env: string, key: string, ref: string)
    ensures SetEnv(env, key, ref) == Join(SetLines(Split(env, '\n'), key, key + "=" + ref), '\n')
  {
    JoinSplit(env, '\n');
    Appended(Split(env, '\n'), key + "=" + ref);
  }

  lemma SetEnvLines(env: string, key: string, ref: string)
    requires '\n' !in key && '\n' !in ref
    ensures Split(SetEnv(env, key, ref), '\n') == SetLines(Split(env, '\n'), key, key + "=" + ref)
  {
    SetEnvText(env, key, ref);
    SplitJoin(SetLines(Split(env, '\n'), key, key + "=" + ref), '\n');
  }

  /** The rewrite path is taken exactly for a key the text already defines. */
  lemma RewritesExactlyKnownKeys(env: string, key: string)
    ensures FindDefinition(Split(env, '\n'), key) >= 0 <==> key in Meaning(env)
  {
  }

  lemma ReplacedMeaning(lines: seq<string>, i: nat, key: string, line: string)
    requires i < |lines| && key !in Definitions(lines[..i])
    requires DefinedKey(lines[i]) == DefinedKey(line) == Some(key)
    ensures Definitions(lines[i := line]) == Definitions(lines)[key := line]
  {
    hide DefinedKey, Definitions;
    var a, was, b := lines[..i], lines[i], lines[i + 1..];
    assert lines == a + ([was] + b) && lines[i := line] == a + ([line] + b);
    DefinitionsAppend(a, [was] + b);
    DefinitionsAppend(a, [line] + b);
    DefinitionsCons(was, b);
    DefinitionsCons(line, b);
  }

  lemma AppendedMeaning(body: seq<string>, key: string, line: string)
    requires key !in Definitions(body) && DefinedKey(line) == Some(key)
    ensures Definitions(body + [line, ""]) == Definitions(body)[key := line]
  {
    hide DefinedKey, Definitions;
    DefinitionsAppend(body, [line, ""]);
    DefinitionsCons(line, [""]);
    EmptyLineDefinesNothing();
    assert [line, ""] == [line] + [""];
  }

  lemma SetEnvMeaning(env: string, key: string, ref: string)
    requires WellFormedKey(key) && '\n' !in ref
    ensures Meaning(SetEnv(env, key, ref)) == Meaning(env)[key := key + "=" + ref]
  {
    var before, line := Split(env, '\n'), key + "=" + ref;
    var i := FindDefinition(before, key);
    SetEnvLines(env, key, ref);
    AssignmentDefines(key, ref);
    if i >= 0 {
      ReplacedMeaning(before, i, key, line);
    } else {
      BodyDefinitions(before);
      AppendedMeaning(Body(before), key, line);
    }
  }

  /** A write is a map update exactly when the key is one a line can define and the value is one line. */
  lemma SetEnvIsMapUpdate(env: string, key: string, ref: string)
    ensures Meaning(SetEnv(env, key, ref)) == Meaning(env)[key := key + "=" + ref]
            <==> WellFormedKey(key) && '\n' !in ref
  {
    var line := key + "=" + ref;
    assert '\n' in key || '\n' in ref ==> '\n' in line;
    if WellFormedKey(key) && '\n' !in ref {
      SetEnvMeaning(env, key, ref);
    } else if Meaning(SetEnv(env, key, ref)) == Meaning(env)[key := line] {
      DefinitionIsLine(Split(SetEnv(env, key, ref), '\n'), key);
      AssignmentDefines(key, ref);
    }
  }

  lemma SetEnvAgain(env: string, key: string, ref: string)
    requires WellFormedKey(key) && '\n' !in ref
    ensures SetEnv(SetEnv(env, key, ref), key, ref) == SetEnv(env, key, ref)
  {
    hide Definitions, DefinedKey, FindDefinition, Split, Join;
    var before, line, once := Split(env, '\n'), key + "=" + ref, SetEnv(env, key, ref);
    var i, after := FindDefinition(before, key), Split(once, '\n');
    SetEnvLines(env, key, ref);
    SetEnvMeaning(env, key, ref);
    AssignmentDefines(key, ref);
    var at := if i >= 0 then i else |Body(before)|;
    BodyDefinitions(before);
    assert after[..at] == if i >= 0 then before[..i] else Body(before);
    FirstDefinition(after, key, at);
    assert after[at := line] == after;
    JoinSplit(once, '\n');
  }

  lemma {:induction false} FirstDefinition(lines: seq<string>, key: string, at: nat)
    requires at < |lines| && DefinedKey(lines[at]) == Some(key) && key !in Definitions(lines[..at])
    ensures FindDefinition(lines, key) == at
  {
    if at > 0 {
      assert lines[..at][1..] == lines[1..][..at - 1];
      FirstDefinition(lines[1..], key, at - 1);
    }
  }

  // ---- Keys that no line can define.

  /** Every key a text defines is one that a line can define. */
  lemma DefinedKeyIsWellFormed(line: string)
    requires '\n' !in line && DefinedKey(line).Some?
    ensures WellFormedKey(DefinedKey(line).value)
  {
    var t := Trim(line);
    var front := t[..IndexOf(t, '=')];
    var k := Trim(front);
    TrimIsTrimmed(line);
    TrimIsTrimmed(front);
    TrimKeepsChars(line);
    TrimKeepsChars(front);
    assert front != "" ==> front[0] == t[0] && TrimStart(front) == front && k <= front;
  }

  lemma {:induction false} TrimKeepsChars(s: string)
    ensures forall c <- Trim(s) :: c in s
  {
    var i := TrimStartChars(s);
    assert forall c <- TrimStart(s) :: c in s;
  }

  lemma MeaningIsWellFormed(env: string, key: string)
    requires key in Meaning(env)
    ensures WellFormedKey(key)
  {
    var lines := Split(env, '\n');
    DefinitionIsLine(lines, key);
    DefinedKeyIsWellFormed(Definitions(lines)[key]);
  }

  // ---- Any typed key.

  /**
   * What a write of one line means, whatever the key: a key that a line can define is updated; any
   * other is appended as a line, which defines what it happens to define, unless that was defined before.
   */
  function Written(m: map<string, string>, key: string, line: string): map<string, string> {
    if WellFormedKey(key) then m[key := line]
    else
      match DefinedKey(line)
      case None => m
      case Some(k) => if k in m then m else m[k := line]
  }

  lemma AppendedLineMeans(body: seq<string>, line: string)
    ensures var m := Definitions(body);
            Definitions(body + [line, ""])
            == match DefinedKey(line) case None => m case Some(k) => if k in m then m else m[k := line]
  {
    hide DefinedKey, Definitions;
    DefinitionsAppend(body, [line, ""]);
    DefinitionsCons(line, [""]);
    EmptyLineDefinesNothing();
    assert [line, ""] == [line] + [""];
  }

  /** The meaning of a write, for every key and value of one line. */
  lemma SetEnvMeansWritten(env: string, key: string, ref: string)
    requires '\n' !in key && '\n' !in ref
    ensures Meaning(SetEnv(env, key, ref)) == Written(Meaning(env), key, key + "=" + ref)
  {
    hide Definitions, DefinedKey, FindDefinition, Split, SetEnv, Body;
    if WellFormedKey(key) {
      SetEnvMeaning(env, key, ref);
    } else {
      var lines, line := Split(env, '\n'), key + "=" + ref;
      if FindDefinition(lines, key) >= 0 {
        MeaningIsWellFormed(env, key);
      }
      SetEnvLines(env, key, ref);
      BodyDefinitions(lines);
      AppendedLineMeans(Body(lines), line);
    }
  }

  /** A typed key such as `#X`: the appended line is a comment, and the text means what it meant. */
  lemma CommentedKeyMeansNothing(env: string, key: string, ref: string)
    requires key != "" && key[0] == '#' && Trim(key) == key && '\n' !in key && '\n' !in ref
    ensures Meaning(SetEnv(env, key, ref)) == Meaning(env) != Meaning(env)[key := key + "=" + ref]
  {
    SetEnvMeansWritten(env, key, ref);
    TrimAssignment(key, ref);
    if key in Meaning(env) {
      MeaningIsWellFormed(env, key);
    }
  }

  lemma FirstEqualsSplits(line: string, front: string, tail: string)
    requires Trim(line) == front + "=" + tail && WellFormedKey(front)
    ensures DefinedKey(line) == Some(front)
  {
    hide Trim;
    var t := Trim(line);
    IndexOfAt(front, '=', tail);
    assert t[|front|] == '=' && t[..|front|] == front;
    assert t[0] == if front == "" then '=' else front[0];
  }

  lemma SplitKeyDefines(front: string, rest: string, ref: string)
    requires WellFormedKey(front) && Trim(front + "=" + rest) == front + "=" + rest
    ensures DefinedKey(front + "=" + rest + "=" + ref) == Some(front)
  {
    hide DefinedKey, Trim;
    var key, tail := front + "=" + rest, rest + "=" + TrimEnd(ref);
    TrimAssignment(key, ref);
    assert key + "=" + TrimEnd(ref) == front + "=" + tail;
    FirstEqualsSplits(key + "=" + ref, front, tail);
  }

  /** A typed key such as `A=B`: the appended line defines `A`, unless the text did, and never `A=B`. */
  lemma SplitKeyMeansItsFront(env: string, front: string, rest: string, ref: string)
    requires WellFormedKey(front) && Trim(front + "=" + rest) == front + "=" + rest
    requires '\n' !in rest && '\n' !in ref
    ensures var key := front + "=" + rest;
            && Meaning(SetEnv(env, key, ref)) != Meaning(env)[key := key + "=" + ref]
            && Meaning(SetEnv(env, key, ref))
               == if front in Meaning(env) then Meaning(env) else Meaning(env)[front := key + "=" + ref]
  {
    var key := front + "=" + rest;
    assert key[|front|] == '=' && !WellFormedKey(key);
    hide Trim, Meaning, DefinedKey, SetEnv, WellFormedKey;
    SetEnvMeansWritten(env, key, ref);
    SplitKeyDefines(front, rest, ref);
    if key in Meaning(SetEnv(env, key, ref)) {
      MeaningIsWellFormed(SetEnv(env, key, ref), key);
    }
  }

  lemma EmptyMeansNothing()
    ensures Meaning("") == map[]
  {
    assert Split("", '\n') == [""];
    EmptyLineDefinesNothing();
  }

  lemma TypedKeysAreTrimmed()
    ensures Trim("#X") == "#X" && Trim("A" + "=" + "B") == "A" + "=" + "B" && WellFormedKey("A")
  {
  }

  /** Two keys as a user may type them into an empty environment. */
  lemma TypedKeys(ref: string)
    requires '\n' !in ref
    ensures Meaning(SetEnv("", "#X", ref)) == map[]
    ensures Meaning(SetEnv("", "A=B", ref)) == map["A" := "A=B=" + ref]
  {
    hide Trim, Meaning, SetEnv, WellFormedKey;
    EmptyMeansNothing();
    TypedKeysAreTrimmed();
    CommentedKeyMeansNothing("", "#X", ref);
    assert "A" + "=" + "B" == "A=B" && "A=B" + "=" + ref == "A=B=" + ref;
    SplitKeyMeansItsFront("", "A", "B", ref);
  }

  // ---- Blanks around a key.

  lemma KeyWordHasNone(key: string)
    requires KeyWord(key)
    ensures '=' !in key && key[0] != '#'
  {
    assert key[0] in key;
  }

  lemma KeyOfTrimmed(line: string, key: string, between: string, value: string)
    requires Trim(line) == key + between + "=" + value && KeyWord(key) && Padding(between)
    ensures DefinedKey(line) == Some(key)
  {
    hide Trim, KeyWord, Padding;
    var front := key + between;
    var t := front + "=" + value;
    KeyWordHasNone(key);
    NoEqualsInPadding(between);
    IndexOfAt(front, '=', value);
    assert t[..|front|] == front && t[|front|] == '=';
    FirstOfKey(key, between, value);
    TrimPadded("", key, between);
    assert "" + key + between == front;
  }

  lemma NoEqualsInPadding(s: string)
    requires Padding(s)
    ensures '=' !in s
  {
  }

  lemma FirstOfKey(key: string, between: string, value: string)
    requires KeyWord(key)
    ensures var t := key + between + "=" + value; t != "" && t[0] == key[0] && !IsSpace(t[0])
  {
    assert key[0] in key;
  }

  lemma NoPadding()
    ensures Padding("")
  {
  }

  lemma PaddingInFront(padding: string, visible: string)
    requires Padding(padding) && visible != "" && !IsSpace(visible[0])
    ensures TrimStart(padding + visible) == visible
  {
    PaddingIsBlank(padding);
    TrimStartSkips(padding, visible);
  }

  /** Blanks, tabs and carriage returns around a key and its `=` do not change the key a line defines. */
  lemma BlanksDoNotMatter(before: string, key: string, between: string, value: string)
    requires Padding(before) && KeyWord(key) && Padding(between)
    ensures DefinedKey(before + (key + between + "=" + value)) == Some(key)
  {
    hide TrimStart, TrimEnd, IsSpace, DefinedKey, KeyWord, Padding;
    var front := key + between + "=";
    FirstOfKey(key, between, value);
    PaddingInFront(before, front + value);
    EqualsIsVisible();
    TrimEndAppend(front, value);
    assert key + between + "=" + TrimEnd(value) == front + TrimEnd(value);
    KeyOfTrimmed(before + (front + value), key, between, TrimEnd(value));
  }

  lemma EqualsIsVisible()
    ensures !IsSpace('=') && !IsSpace('#')
  {
  }

  /** A line with a carriage return at its end is no other line. */
  lemma CarriageReturn(key: string, value: string)
    requires KeyWord(key)
    ensures DefinedKey(key + "=" + value + "\r") == Some(key)
  {
    hide DefinedKey, KeyWord;
    NoPadding();
    BlanksDoNotMatter("", key, "", value + "\r");
    assert "" + (key + "" + "=" + (value + "\r")) == key + "=" + value + "\r";
  }

  /** A comment may be padded, too. */
  lemma PaddedComment(padding: string, text: string)
    requires Padding(padding)
    ensures DefinedKey(padding + ("#" + text)) == None
  {
    hide TrimStart, TrimEnd, IsSpace, Padding;
    EqualsIsVisible();
    PaddingInFront(padding, "#" + text);
    TrimEndAppend("#", text);
  }

  // ---- Two writes.

  /** Replacing a line changes the text, unless the line stays the same. */
  lemma {:induction false} JoinReplaced(lines: seq<string>, i: nat, line: string)
    requires i < |lines| && Join(lines[i := line], '\n') == Join(lines, '\n')
    ensures line == lines[i]
  {
    if |lines| > 1 {
      var rest := lines[1..];
      if i == 0 {
        assert lines[i := line][1..] == rest;
        SamePrefix(line, lines[0], '\n', Join(rest, '\n'));
      } else {
        assert lines[i := line][1..] == rest[i - 1 := line];
        SameSuffix(lines[0] + ['\n'], Join(rest[i - 1 := line], '\n'), Join(rest, '\n'));
        JoinReplaced(rest, i - 1, line);
      }
    }
  }

  lemma SamePrefix(a: string, b: string, c: char, t: string)
    requires a + [c] + t == b + [c] + t
    ensures a == b
  {
    assert |a + [c] + t| == |b + [c] + t| && (a + [c] + t)[..|a|] == a && (b + [c] + t)[..|b|] == b;
  }

  lemma SameSuffix(a: string, s: string, t: string)
    requires a + s == a + t
    ensures s == t
  {
    assert (a + s)[|a|..] == s && (a + t)[|a|..] == t;
  }

  /**
   * Writing the same pair twice equals writing it once exactly when a line can define the key and the
   * value is one line: otherwise the second write appends again, or leaves rests of the first behind.
   */
  lemma SetEnvTwice(env: string, key: string, ref: string)
    ensures SetEnv(SetEnv(env, key, ref), key, ref) == SetEnv(env, key, ref) <==> WellFormedKey(key) && '\n' !in ref
  {
    hide Trim, DefinedKey, Definitions, FindDefinition, Split, Join;
    var once, line := SetEnv(env, key, ref), key + "=" + ref;
    var lines := Split(once, '\n');
    var i := FindDefinition(lines, key);
    if WellFormedKey(key) && '\n' !in ref {
      SetEnvAgain(env, key, ref);
    } else if i >= 0 {
      MeaningIsWellFormed(once, key);
      assert '\n' in line && lines[i] in lines;
      JoinSplit(once, '\n');
      if Join(lines[i := line], '\n') == once {
        JoinReplaced(lines, i, line);
      }
    }
  }
}
