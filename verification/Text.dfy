/** The string operations of JavaScript that the modelled functions are written with. */
module Text {
  /** WhiteSpace and LineTerminator of ECMAScript: what `trim` removes. */
  predicate IsSpace(c: char) {
    var u := c as int;
    || 9 <= u <= 13 || u == 32 || u == 0xA0 || u == 0x1680 || 0x2000 <= u <= 0x200A
    || u == 0x2028 || u == 0x2029 || u == 0x202F || u == 0x205F || u == 0x3000 || u == 0xFEFF
  }

  /** One by one: tab to carriage return, blank, and the Unicode blanks that ECMAScript counts. */
  lemma SpacesOneByOne(c: char)
    ensures IsSpace(c) <==>
              c in {'\t', '\n', '\U{000B}', '\U{000C}', '\r', ' ', '\U{00A0}', '\U{1680}', '\U{2000}', '\U{2001}',
                    '\U{2002}', '\U{2003}', '\U{2004}', '\U{2005}', '\U{2006}', '\U{2007}', '\U{2008}', '\U{2009}',
                    '\U{200A}', '\U{2028}', '\U{2029}', '\U{202F}', '\U{205F}', '\U{3000}', '\U{FEFF}'}
  {
  }

  function TrimStart(s: string): (r: string)
    ensures r <= s || |r| < |s|
    ensures r == "" || !IsSpace(r[0])
  {
    if s != "" && IsSpace(s[0]) then TrimStart(s[1..]) else s
  }

  function TrimEnd(s: string): (r: string)
    ensures r <= s
    ensures r == "" || !IsSpace(r[|r| - 1])
  {
    if s != "" && IsSpace(s[|s| - 1]) then TrimEnd(s[..|s| - 1]) else s
  }

  function Trim(s: string): string {
    TrimEnd(TrimStart(s))
  }

  /** The trimmed text starts at `i`, after nothing but spaces. */
  lemma {:induction false} TrimStartChars(s: string) returns (i: nat)
    ensures i <= |s| && TrimStart(s) == s[i..] && forall c <- s[..i] :: IsSpace(c)
  {
    hide IsSpace;
    if s != "" && IsSpace(s[0]) {
      i := TrimStartChars(s[1..]);
      assert s[..i + 1] == [s[0]] + s[1..][..i];
      i := i + 1;
    } else {
      i := 0;
    }
  }

  /** Text that starts and ends with a visible character is left alone; only its right end can lose spaces. */
  lemma {:induction false} TrimEndAppend(s: string, t: string)
    requires s == "" || !IsSpace(s[|s| - 1])
    ensures TrimEnd(s + t) == s + TrimEnd(t)
    decreases |t|
  {
    if t == "" {
      assert s + t == s;
    } else {
      assert (s + t)[|s + t| - 1] == t[|t| - 1];
      if IsSpace(t[|t| - 1]) {
        assert (s + t)[..|s + t| - 1] == s + t[..|t| - 1];
        TrimEndAppend(s, t[..|t| - 1]);
      }
    }
  }

  lemma TrimIsTrimmed(s: string)
    ensures var r := Trim(s); r == "" || (!IsSpace(r[0]) && !IsSpace(r[|r| - 1]))
    ensures Trim(Trim(s)) == Trim(s)
  {
  }

  /** `s.indexOf(c)`. */
  function IndexOf(s: string, c: char): (i: int)
    ensures -1 <= i < |s|
    ensures i == -1 <==> c !in s
    ensures i >= 0 ==> s[i] == c && c !in s[..i]
  {
    if s == "" then -1
    else if s[0] == c then 0
    else
      var i := IndexOf(s[1..], c);
      if i == -1 then -1 else
        assert s[..i + 1] == [s[0]] + s[1..][..i];
        i + 1
  }

  /** The first occurrence is where a prefix free of the character ends. */
  lemma IndexOfAt(s: string, c: char, t: string)
    requires c !in s
    ensures IndexOf(s + [c] + t, c) == |s|
  {
    assert (s + [c] + t)[|s|] == c;
  }

  /** `s.split(c)`. */
  function Split(s: string, c: char): (parts: seq<string>)
    ensures |parts| >= 1
    ensures forall p <- parts :: c !in p
    decreases |s|
  {
    var i := IndexOf(s, c);
    if i == -1 then [s] else [s[..i]] + Split(s[i + 1..], c)
  }

  /** `parts.join(c)`. */
  function Join(parts: seq<string>, c: char): string {
    if |parts| == 0 then "" else if |parts| == 1 then parts[0] else parts[0] + [c] + Join(parts[1..], c)
  }

  lemma JoinCons(first: string, rest: seq<string>, c: char)
    requires |rest| >= 1
    ensures Join([first] + rest, c) == first + [c] + Join(rest, c)
  {
    assert ([first] + rest)[1..] == rest;
  }

  lemma JoinOne(part: string, c: char)
    ensures Join([part], c) == part
  {
  }

  /** Splitting takes off the part before the first separator. */
  lemma SplitStep(s: string, c: char)
    ensures var i := IndexOf(s, c);
            if i == -1 then Split(s, c) == [s]
            else Split(s, c) == [s[..i]] + Split(s[i + 1..], c) && s == s[..i] + [c] + s[i + 1..]
  {
    hide IndexOf;
    var i := IndexOf(s, c);
    if i >= 0 {
      assert s[i] == c && s[i..] == [c] + s[i + 1..];
      assert s == s[..i] + s[i..];
    }
  }

  lemma {:induction false} JoinSplit(s: string, c: char)
    ensures Join(Split(s, c), c) == s
    decreases |s|
  {
    hide IndexOf, Split, Join;
    var i := IndexOf(s, c);
    SplitStep(s, c);
    if i >= 0 {
      JoinSplit(s[i + 1..], c);
      JoinCons(s[..i], Split(s[i + 1..], c), c);
    } else {
      JoinOne(s, c);
    }
  }

  lemma {:induction false} SplitJoin(parts: seq<string>, c: char)
    requires |parts| >= 1
    requires forall p <- parts :: c !in p
    ensures Split(Join(parts, c), c) == parts
  {
    hide IndexOf;
    var first, rest := parts[0], parts[1..];
    assert first in parts;
    if |parts| > 1 {
      SplitJoin(rest, c);
      var s := first + [c] + Join(rest, c);
      IndexOfAt(first, c, Join(rest, c));
      assert s[..|first|] == first && s[|first| + 1..] == Join(rest, c);
      assert parts == [first] + rest;
    } else {
      assert parts == [first];
    }
  }

  lemma {:induction false} JoinAppend(a: seq<string>, b: seq<string>, c: char)
    requires |a| >= 1 && |b| >= 1
    ensures Join(a + b, c) == Join(a, c) + [c] + Join(b, c)
  {
    assert (a + b)[1..] == a[1..] + b;
    if |a| > 1 {
      JoinAppend(a[1..], b, c);
    } else {
      assert a[1..] + b == b;
    }
  }

  // ---- Blank text.

  predicate Blank(s: string) {
    forall c <- s :: IsSpace(c)
  }

  lemma {:induction false} TrimStartSkips(a: string, b: string)
    requires Blank(a)
    ensures TrimStart(a + b) == TrimStart(b)
  {
    if a == "" {
      assert a + b == b;
    } else {
      assert a[0] in a && (a + b)[1..] == a[1..] + b;
      TrimStartSkips(a[1..], b);
    }
  }

  lemma {:induction false} TrimStartAppend(a: string, b: string)
    requires !Blank(a)
    ensures TrimStart(a + b) == TrimStart(a) + b && TrimStart(a) != ""
  {
    assert a != "";
    if IsSpace(a[0]) {
      assert a == [a[0]] + a[1..] && (a + b)[1..] == a[1..] + b;
      TrimStartAppend(a[1..], b);
    }
  }

  lemma {:induction false} TrimBlank(s: string)
    ensures Trim(s) == "" <==> Blank(s)
  {
    if Blank(s) {
      TrimStartSkips(s, "");
      assert s + "" == s;
    } else {
      TrimStartAppend(s, "");
      assert s + "" == s;
      TrimEndKeepsFirst(TrimStart(s));
    }
  }

  lemma {:induction false} TrimEndKeepsFirst(s: string)
    requires s != "" && !IsSpace(s[0])
    ensures TrimEnd(s) != ""
  {
    if IsSpace(s[|s| - 1]) {
      TrimEndKeepsFirst(s[..|s| - 1]);
    }
  }

  /** Blanks, tabs and carriage returns. */
  predicate Padding(s: string) {
    forall c <- s :: c == ' ' || c == '\t' || c == '\r'
  }

  /** Letters, digits and underscores, at least one. */
  predicate KeyWord(s: string) {
    s != "" && forall c <- s :: 'a' <= c <= 'z' || 'A' <= c <= 'Z' || '0' <= c <= '9' || c == '_'
  }

  lemma PaddingIsBlank(s: string)
    requires Padding(s)
    ensures Blank(s)
  {
  }

  lemma {:induction false} TrimEndBlank(s: string)
    requires Blank(s)
    ensures TrimEnd(s) == ""
  {
    if s != "" {
      assert s[|s| - 1] in s;
      TrimEndBlank(s[..|s| - 1]);
    }
  }

  /** Trimming takes the padding off, and nothing of a word. */
  lemma TrimPadded(before: string, word: string, after: string)
    requires Padding(before) && KeyWord(word) && Padding(after)
    ensures Trim(before + word + after) == word
  {
    assert word[0] in word && word[|word| - 1] in word;
    assert before + word + after == before + (word + after);
    TrimStartSkips(before, word + after);
    assert (word + after)[0] == word[0];
    TrimEndAppend(word, after);
    TrimEndBlank(after);
  }

  // ---- Substrings.

  ghost predicate OccursAt(name: string, part: string, i: nat) {
    i + |part| <= |name| && name[i..i + |part|] == part
  }

  /** Whether `part` occurs in `name`: `includes` of JavaScript, `strings.Contains` of Go. */
  predicate Contains(name: string, part: string) {
    part <= name || (name != "" && Contains(name[1..], part))
  }

  /** An occurrence behind the first character is one of the rest. */
  lemma OccursLater(name: string, part: string, i: nat)
    requires name != ""
    ensures OccursAt(name, part, i + 1) <==> OccursAt(name[1..], part, i)
  {
    if i + 1 + |part| <= |name| {
      assert name[1..][i..i + |part|] == name[i + 1..i + 1 + |part|];
    }
  }

  lemma {:induction false} OccurrenceIsContained(name: string, part: string, i: nat)
    requires OccursAt(name, part, i)
    ensures Contains(name, part)
  {
    if i == 0 {
      assert part <= name;
    } else {
      assert name != "";
      OccursLater(name, part, i - 1);
      OccurrenceIsContained(name[1..], part, i - 1);
    }
  }

  lemma {:induction false} ContainedOccurs(name: string, part: string) returns (i: nat)
    requires Contains(name, part)
    ensures OccursAt(name, part, i)
  {
    if part <= name {
      i := 0;
    } else {
      i := ContainedOccurs(name[1..], part);
      OccursLater(name, part, i);
      i := i + 1;
    }
  }

  lemma ContainsMeansOccurs(name: string, part: string)
    ensures Contains(name, part) <==> exists i: nat :: OccursAt(name, part, i)
  {
    hide OccursAt, Contains;
    if Contains(name, part) {
      var i := ContainedOccurs(name, part);
    }
    if i: nat :| OccursAt(name, part, i) {
      OccurrenceIsContained(name, part, i);
    }
  }

  /** What occurs in a suffix occurs in the whole. */
  lemma {:induction false} ContainsFromSuffix(s: string, k: nat, part: string)
    requires k <= |s| && Contains(s[k..], part)
    ensures Contains(s, part)
  {
    ContainsMeansOccurs(s[k..], part);
    var i: nat :| OccursAt(s[k..], part, i);
    assert s[k..][i..i + |part|] == s[k + i..k + i + |part|];
    assert OccursAt(s, part, k + i);
    ContainsMeansOccurs(s, part);
  }

  /** `s.lastIndexOf(c)` */
  function LastIndexOf(s: string, c: char): (i: int)
    ensures -1 <= i < |s|
    ensures i >= 0 ==> s[i] == c
    ensures forall j :: i < j < |s| ==> s[j] != c
  {
    if s == "" then -1 else if s[|s| - 1] == c then |s| - 1 else LastIndexOf(s[..|s| - 1], c)
  }

  /** `toLowerCase` on ASCII letters. */
  function Lower(s: string): (r: string)
    ensures |r| == |s|
    ensures forall i :: 0 <= i < |s| ==> r[i] == if 'A' <= s[i] <= 'Z' then s[i] - 'A' + 'a' else s[i]
  {
    seq(|s|, i requires 0 <= i < |s| => if 'A' <= s[i] <= 'Z' then s[i] - 'A' + 'a' else s[i])
  }
}
