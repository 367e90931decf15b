/** `wrap` of the social-preview generator: greedy line breaking under an abstract text width. */
module GreedyWrap {
  import opened Text

  /** Python's `str.isspace`: what `split()` splits on and `strip()` strips. */
  predicate IsPySpace(c: char) {
    var u := c as int;
    || 9 <= u <= 13 || 0x1C <= u <= 0x20 || u == 0x85 || u == 0xA0 || u == 0x1680 || 0x2000 <= u <= 0x200A
    || u == 0x2028 || u == 0x2029 || u == 0x202F || u == 0x205F || u == 0x3000
  }

  /** One by one: what `str.isspace` is true of. */
  lemma PySpacesOneByOne(c: char)
    ensures IsPySpace(c) <==>
              c in {'\t', '\n', '\U{000B}', '\U{000C}', '\r', '\U{001C}', '\U{001D}', '\U{001E}', '\U{001F}', ' ',
                    '\U{0085}', '\U{00A0}', '\U{1680}', '\U{2000}', '\U{2001}', '\U{2002}', '\U{2003}', '\U{2004}',
                    '\U{2005}', '\U{2006}', '\U{2007}', '\U{2008}', '\U{2009}', '\U{200A}', '\U{2028}', '\U{2029}',
                    '\U{202F}', '\U{205F}', '\U{3000}'}
  {
  }

  predicate IsWord(w: string) {
    w != "" && forall c <- w :: !IsPySpace(c)
  }

  function RunLength(s: string): (n: nat)
    ensures n <= |s| && (forall c <- s[..n] :: !IsPySpace(c)) && (n < |s| ==> IsPySpace(s[n]))
  {
    if s == "" || IsPySpace(s[0]) then 0
    else
      var n := RunLength(s[1..]);
      assert s[..n + 1] == [s[0]] + s[1..][..n];
      n + 1
  }

  /** `text.split()` */
  function Words(text: string): (ws: seq<string>)
    ensures forall w <- ws :: IsWord(w)
    decreases |text|
  {
    if text == "" then []
    else if IsPySpace(text[0]) then Words(text[1..])
    else
      var n := RunLength(text);
      [text[..n]] + Words(text[n..])
  }

  function StripLeft(s: string): string {
    if s != "" && IsPySpace(s[0]) then StripLeft(s[1..]) else s
  }

  function StripRight(s: string): string {
    if s != "" && IsPySpace(s[|s| - 1]) then StripRight(s[..|s| - 1]) else s
  }

  /** `text.strip()` */
  function Strip(s: string): string {
    StripRight(StripLeft(s))
  }

  /** A line of words, as it is drawn. */
  function Line(ws: seq<string>): string {
    Join(ws, ' ')
  }

  // ---- Greedy breaking, on words.

  type Fit = seq<string> -> bool

  function Fitting(width: string -> real, maxWidth: int): Fit {
    (ws: seq<string>) => width(Line(ws)) <= maxWidth as real
  }

  /** Lines of `rest` when `current` is the line being filled. */
  function GreedyFrom(fits: Fit, current: seq<string>, rest: seq<string>): seq<seq<string>>
    decreases |rest|
  {
    if rest == [] then [current]
    else if fits(current + [rest[0]]) then GreedyFrom(fits, current + [rest[0]], rest[1..])
    else [current] + GreedyFrom(fits, [rest[0]], rest[1..])
  }

  function Greedy(fits: Fit, words: seq<string>): seq<seq<string>> {
    if words == [] then [] else GreedyFrom(fits, [words[0]], words[1..])
  }

  function Lines(groups: seq<seq<string>>): seq<string> {
    seq(|groups|, i requires 0 <= i < |groups| => Line(groups[i]))
  }

  /** The blank line that comes out when the very first word is too wide. */
  function Lead(fits: Fit, words: seq<string>): seq<string> {
    if words != [] && !fits([words[0]]) then [""] else []
  }

  lemma StripWord(current: string, word: string)
    requires IsWord(word) && (current == "" || !IsPySpace(current[0]))
    ensures Strip(current + " " + word) == if current == "" then word else current + " " + word
  {
    var s := current + " " + word;
    assert word[0] in word && word[|word| - 1] in word;
    assert s[|s| - 1] == word[|word| - 1];
    if current == "" {
      assert s == " " + word && s[1..] == word;
      assert StripLeft(s) == StripLeft(word) == word;
    } else {
      assert s[0] == current[0];
    }
  }

  lemma LineOfWords(ws: seq<string>)
    requires ws != [] && forall w <- ws :: IsWord(w)
    ensures Line(ws) != "" && !IsPySpace(Line(ws)[0])
  {
    assert ws[0] in ws && ws[0][0] in ws[0];
  }

  lemma LineGrows(ws: seq<string>, word: string)
    requires ws != []
    ensures Line(ws + [word]) == Line(ws) + " " + word
  {
    JoinAppend(ws, [word], ' ');
  }

  method Wrap(width: string -> real, text: string, maxWidth: int) returns (lines: seq<string>)
    ensures var fits, words := Fitting(width, maxWidth), Words(text);
            lines == Lead(fits, words) + Lines(Greedy(fits, words))
  {
    hide Words, Strip, IsWord, IsPySpace;
    ghost var fits := Fitting(width, maxWidth);
    var words := Words(text);
    lines := [];
    var current := "";
    ghost var group: seq<string>, closed: seq<seq<string>> := [], [];
    for i := 0 to |words|
      invariant i == 0 ==> group == [] && closed == [] && lines == []
      invariant i > 0 ==> group != []
      invariant i > 0 ==> Greedy(fits, words) == closed + GreedyFrom(fits, group, words[i..])
      invariant i > 0 ==> lines == Lead(fits, words) + Lines(closed)
      invariant current == Line(group) && forall w <- group :: IsWord(w)
    {
      var word := words[i];
      if group != [] {
        LineOfWords(group);
        LineGrows(group, word);
        assert words[i..][1..] == words[i + 1..];
      }
      StripWord(current, word);
      var trial := Strip(current + " " + word);
      assert trial == Line(group + [word]);
      if width(trial) <= maxWidth as real {
        current := trial;
        assert i == 0 ==> group + [word] == [words[0]] && closed + Greedy(fits, words) == Greedy(fits, words);
        group := group + [word];
      } else {
        lines := lines + [current];
        current := word;
        if group != [] {
          assert Lines(closed + [group]) == Lines(closed) + [Line(group)];
          assert closed + ([group] + GreedyFrom(fits, [word], words[i + 1..]))
              == closed + [group] + GreedyFrom(fits, [word], words[i + 1..]);
          closed := closed + [group];
        } else {
          assert word == words[0] && group + [word] == [word] && closed + Greedy(fits, words) == Greedy(fits, words);
        }
        group := [word];
      }
    }
    if current != "" {
      assert Lines(closed + [group]) == Lines(closed) + [Line(group)];
      lines := lines + [current];
    }
    if group != [] {
      LineOfWords(group);
    }
  }

  // ---- What the greedy lines are.

  function Flatten(groups: seq<seq<string>>): seq<string> {
    if groups == [] then [] else groups[0] + Flatten(groups[1..])
  }

  /** A line may be too wide only when it is a single word. */
  predicate Acceptable(fits: Fit, group: seq<string>) {
    |group| <= 1 || fits(group)
  }

  lemma {:induction false} GreedyFromLines(fits: Fit, current: seq<string>, rest: seq<string>)
    requires current != [] && Acceptable(fits, current)
    ensures var groups := GreedyFrom(fits, current, rest);
            && Flatten(groups) == current + rest
            && groups != [] && current <= groups[0]
            && (forall i :: 0 <= i < |groups| ==> groups[i] != [] && Acceptable(fits, groups[i]))
            && (forall i :: 0 < i < |groups| ==> !fits(groups[i - 1] + [groups[i][0]]))
    decreases |rest|
  {
    var groups := GreedyFrom(fits, current, rest);
    if rest == [] {
      assert groups[1..] == [];
    } else {
      assert rest == [rest[0]] + rest[1..];
      if fits(current + [rest[0]]) {
        GreedyFromLines(fits, current + [rest[0]], rest[1..]);
      } else {
        GreedyFromLines(fits, [rest[0]], rest[1..]);
        assert groups[1..] == GreedyFrom(fits, [rest[0]], rest[1..]);
      }
    }
  }

  /**
   * The lines hold the words in order, each fits or is a single word, and none could have taken
   * the first word of the next.
   */
  lemma GreedyLines(fits: Fit, words: seq<string>)
    ensures var groups := Greedy(fits, words);
            && Flatten(groups) == words
            && (forall i :: 0 <= i < |groups| ==> groups[i] != [] && Acceptable(fits, groups[i]))
            && (forall i :: 0 < i < |groups| ==> !fits(groups[i - 1] + [groups[i][0]]))
  {
    if words != [] {
      GreedyFromLines(fits, [words[0]], words[1..]);
    }
  }

  // ---- Optimality.

  /** Whatever fits on a line still fits with words taken off either end. */
  ghost predicate ClosedUnderSubRuns(fits: Fit) {
    forall g: seq<string>, i, j :: 0 <= i < j <= |g| && fits(g) ==> fits(g[i..j])
  }

  /** A line that reaches past `current` shows that `current` could have taken the next word. */
  lemma LongLineFitsNext(fits: Fit, before: seq<string>, current: seq<string>, rest: seq<string>, g: seq<string>)
    requires ClosedUnderSubRuns(fits) && current != [] && rest != []
    requires g <= before + current + rest && |g| > |before + current| && Acceptable(fits, g)
    ensures fits(current + [rest[0]])
  {
    var i, j := |before|, |before + current| + 1;
    assert g[i..j] == (before + current + rest)[i..j] == current + [rest[0]];
  }

  /**
   * Greedy stays ahead: `other` breaks a text that ends with the words greedy has yet to place, and
   * its line began no later than greedy's current one. It cannot need fewer lines.
   */
  lemma {:induction false} StaysAhead(
    fits: Fit, before: seq<string>, current: seq<string>, rest: seq<string>, other: seq<seq<string>>)
    requires ClosedUnderSubRuns(fits) && current != []
    requires Flatten(other) == before + current + rest && forall g <- other :: Acceptable(fits, g)
    ensures |GreedyFrom(fits, current, rest)| <= |other|
    decreases |rest|, |other|
  {
    if rest != [] {
      var next := current + [rest[0]];
      assert before + current + rest == before + next + rest[1..];
      if fits(next) {
        StaysAhead(fits, before, next, rest[1..], other);
      } else {
        var g, placed := other[0], before + current;
        assert g in other;
        assert g <= placed + rest;
        if |g| > |placed| {
          LongLineFitsNext(fits, before, current, rest, g);
        }
        assert g == placed[..|g|];
        assert Flatten(other) == g + Flatten(other[1..]);
        assert Flatten(other[1..]) == (placed + rest)[|g|..] == placed[|g|..] + rest;
        assert rest == [rest[0]] + rest[1..];
        StaysAhead(fits, placed[|g|..], [rest[0]], rest[1..], other[1..]);
      }
    }
  }

  /** No breaking of the words into acceptable lines has fewer lines than the greedy one. */
  lemma GreedyIsOptimal(fits: Fit, words: seq<string>, other: seq<seq<string>>)
    requires ClosedUnderSubRuns(fits)
    requires Flatten(other) == words && forall g <- other :: Acceptable(fits, g)
    ensures |Greedy(fits, words)| <= |other|
  {
    hide ClosedUnderSubRuns, Flatten, GreedyFrom, Acceptable;
    if words != [] {
      assert words == [] + [words[0]] + words[1..];
      StaysAhead(fits, [], [words[0]], words[1..], other);
    }
  }

  predicate Breaks(fits: Fit, words: seq<string>, other: seq<seq<string>>) {
    Flatten(other) == words && forall g <- other :: Acceptable(fits, g)
  }

  /** `wrap` returns the fewest lines possible exactly when its first word fits: otherwise one line is blank. */
  lemma WrapIsOptimalUnlessLed(fits: Fit, words: seq<string>)
    requires ClosedUnderSubRuns(fits)
    ensures (forall other :: Breaks(fits, words, other) ==> |Lead(fits, words) + Lines(Greedy(fits, words))| <= |other|)
            <==> words == [] || fits([words[0]])
  {
    forall other | Breaks(fits, words, other)
      ensures |Greedy(fits, words)| <= |other|
    {
      GreedyIsOptimal(fits, words, other);
    }
    GreedyLines(fits, words);
    assert Breaks(fits, words, Greedy(fits, words));
  }

  // ---- The text.

  lemma {:induction false} JoinGroups(groups: seq<seq<string>>)
    requires forall i :: 0 <= i < |groups| ==> groups[i] != []
    ensures Join(Lines(groups), ' ') == Line(Flatten(groups))
  {
    if groups != [] {
      var first, rest := groups[0], groups[1..];
      JoinGroups(rest);
      assert Lines(groups) == [Line(first)] + Lines(rest);
      if rest == [] {
        assert first + [] == first;
      } else {
        assert rest[0] != [];
        JoinAppend(first, Flatten(rest), ' ');
        JoinCons(Line(first), Lines(rest), ' ');
      }
    }
  }

  /** Without the blank lead, the lines joined by spaces are the words joined by spaces. */
  lemma WrapKeepsText(fits: Fit, words: seq<string>)
    ensures Join(Lines(Greedy(fits, words)), ' ') == Line(words)
  {
    GreedyLines(fits, words);
    JoinGroups(Greedy(fits, words));
  }

  lemma {:induction false} RunOfWord(w: string, t: string)
    requires (forall c <- w :: !IsPySpace(c)) && (t == "" || IsPySpace(t[0]))
    ensures RunLength(w + t) == |w|
  {
    if w == "" {
      assert w + t == t;
    } else {
      assert w[0] in w && (w + t)[1..] == w[1..] + t;
      RunOfWord(w[1..], t);
    }
  }

  /** So splitting the wrapped text again finds the same words. */
  lemma {:induction false} WordsOfLine(ws: seq<string>)
    requires forall w <- ws :: IsWord(w)
    ensures Words(Line(ws)) == ws
  {
    if ws != [] {
      var w, rest := ws[0], ws[1..];
      assert w in ws && w[0] in w;
      WordsOfLine(rest);
      var t := if rest == [] then "" else " " + Line(rest);
      assert Line(ws) == w + t by {
        assert rest == [] ==> w + t == w;
        assert rest != [] ==> w + [' '] + Line(rest) == w + t;
      }
      RunOfWord(w, t);
      assert (w + t)[..|w|] == w && (w + t)[|w|..] == t;
      assert rest != [] ==> t[1..] == Line(rest);
      assert ws == [w] + rest;
    }
  }

  // ---- On widths and texts.

  lemma FitsMeansWidth(width: string -> real, maxWidth: int, ws: seq<string>)
    ensures Fitting(width, maxWidth)(ws) <==> width(Join(ws, ' ')) <= maxWidth as real
  {
    assert Fitting(width, maxWidth)(ws) <==> width(Line(ws)) <= maxWidth as real;
    assert Line(ws) == Join(ws, ' ');
  }

  /** In widths: the words in order, lines no wider than allowed or a single word, and no room for the next word. */
  lemma LinesOnWidths(width: string -> real, maxWidth: int, words: seq<string>)
    ensures var groups := Greedy(Fitting(width, maxWidth), words);
            && Flatten(groups) == words
            && (forall i :: 0 <= i < |groups| ==> groups[i] != [])
            && (forall i :: 0 <= i < |groups| && |groups[i]| > 1 ==> width(Join(groups[i], ' ')) <= maxWidth as real)
            && (forall i :: 0 < i < |groups| ==> width(Join(groups[i - 1] + [groups[i][0]], ' ')) > maxWidth as real)
  {
    hide Greedy, Flatten;
    var fits := Fitting(width, maxWidth);
    var groups := Greedy(fits, words);
    GreedyLines(fits, words);
    forall i | 0 <= i < |groups| && |groups[i]| > 1
      ensures width(Join(groups[i], ' ')) <= maxWidth as real
    {
      assert Acceptable(fits, groups[i]) && fits(groups[i]);
      FitsMeansWidth(width, maxWidth, groups[i]);
    }
    forall i | 0 < i < |groups|
      ensures width(Join(groups[i - 1] + [groups[i][0]], ' ')) > maxWidth as real
    {
      assert !fits(groups[i - 1] + [groups[i][0]]);
      FitsMeansWidth(width, maxWidth, groups[i - 1] + [groups[i][0]]);
    }
  }

  /** In widths, too: a blank line comes first exactly when the first word is wider than allowed. */
  lemma LeadOnWidths(width: string -> real, maxWidth: int, words: seq<string>)
    ensures Lead(Fitting(width, maxWidth), words)
            == if words != [] && width(words[0]) > maxWidth as real then [""] else []
  {
    if words != [] {
      assert Line([words[0]]) == words[0];
      assert Fitting(width, maxWidth)([words[0]]) <==> width(words[0]) <= maxWidth as real;
    }
  }

  /** Blanks, tabs and line ends. */
  predicate Gap(s: string) {
    forall c <- s :: c == ' ' || c == '\t' || c == '\n' || c == '\r'
  }

  /** Printable ASCII, at least one character. */
  predicate Plain(w: string) {
    w != "" && forall c <- w :: '!' <= c <= '~'
  }

  lemma PlainIsWord(w: string)
    requires Plain(w)
    ensures IsWord(w)
  {
  }

  lemma {:induction false} GapFallsAway(gap: string, text: string)
    requires Gap(gap)
    ensures Words(gap + text) == Words(text)
  {
    if gap == "" {
      assert gap + text == text;
    } else {
      assert gap[0] in gap && (gap + text)[1..] == gap[1..] + text;
      assert forall c <- gap[1..] :: c in gap;
      GapFallsAway(gap[1..], text);
    }
  }

  /** A plain word in front of a gap, or of the end, is split off. */
  lemma WordSplitsOff(w: string, rest: string)
    requires Plain(w) && (rest == "" || rest[0] in {' ', '\t', '\n', '\r'})
    ensures Words(w + rest) == [w] + Words(rest)
  {
    PlainIsWord(w);
    RunOfWord(w, rest);
    assert w[0] in w && (w + rest)[..|w|] == w && (w + rest)[|w|..] == rest;
  }

  /** Words and the gaps in front of them. */
  function Spaced(gaps: seq<string>, words: seq<string>, last: string): string
    requires |gaps| == |words|
  {
    if words == [] then last else gaps[0] + (words[0] + Spaced(gaps[1..], words[1..], last))
  }

  /** However the words are spaced, splitting finds exactly them. */
  lemma {:induction false} WordsAreFound(gaps: seq<string>, words: seq<string>, last: string)
    requires |gaps| == |words| && Gap(last)
    requires forall i :: 0 <= i < |words| ==> Plain(words[i]) && Gap(gaps[i]) && (i > 0 ==> gaps[i] != "")
    ensures Words(Spaced(gaps, words, last)) == words
  {
    if words == [] {
      GapFallsAway(last, "");
      assert last + "" == last;
    } else {
      hide Words, Plain;
      var rest := Spaced(gaps[1..], words[1..], last);
      WordsAreFound(gaps[1..], words[1..], last);
      StartsWithGap(gaps[1..], words[1..], last);
      WordSplitsOff(words[0], rest);
      GapFallsAway(gaps[0], words[0] + rest);
      assert words == [words[0]] + words[1..];
    }
  }

  lemma StartsWithGap(gaps: seq<string>, words: seq<string>, last: string)
    requires |gaps| == |words| && Gap(last) && (words != [] ==> Gap(gaps[0]) && gaps[0] != "")
    ensures var text := Spaced(gaps, words, last); text == "" || text[0] in {' ', '\t', '\n', '\r'}
  {
    if words == [] {
      assert last != "" ==> last[0] in last;
    } else {
      assert gaps[0][0] in gaps[0];
    }
  }
}
