/**
 * The two title rules of the document store (src/state/useDocumentStore.ts):
 * the title derived from the first words of the content, and the title a
 * file import takes from the file name.
 */
module Titles {
  import opened Text

  // ---------------------------------------------------------------------------
  // Cleaning the content
  // ---------------------------------------------------------------------------

  /** The length of the leading run of `c`. */
  function LeadingRun(s: string, c: char): (k: nat)
    ensures k <= |s|
    ensures forall i :: 0 <= i < k ==> s[i] == c
    ensures k == |s| || s[k] != c
  {
    if |s| > 0 && s[0] == c then 1 + LeadingRun(s[1..], c) else 0
  }

  // `replace(/^#+\s*/gm, '')` applied to `s`, where `atLineStart` says whether
  // the input character before `s` is absent or a line terminator. A match
  // consumes the `#` run and the whitespace after it (line terminators
  // included); the scan then goes on after the match.
  function StripHeadersFrom(s: string, atLineStart: bool): string
    decreases |s|
  {
    if s == [] then []
    else if atLineStart && s[0] == '#' then
      var hashes := LeadingRun(s, '#');
      var consumed := hashes + LeadingSpace(s[hashes..]);
      StripHeadersFrom(s[consumed..], IsLineTerminator(s[consumed - 1]))
    else
      [s[0]] + StripHeadersFrom(s[1..], IsLineTerminator(s[0]))
  }

  /** Header-marker removal over the whole content. */
  function StripHeaders(s: string): string {
    StripHeadersFrom(s, true)
  }

  /** Text without `#` has no header marker to remove. */
  lemma {:induction false} StripHeadersNoHash(s: string, atLineStart: bool)
    requires '#' !in s
    ensures StripHeadersFrom(s, atLineStart) == s
    decreases |s|
  {
    if s != [] {
      assert s[0] != '#';
      assert '#' !in s[1..] by { assert forall c :: c in s[1..] ==> c in s; }
      StripHeadersNoHash(s[1..], IsLineTerminator(s[0]));
    }
  }

  /**
   * At a line start, a marker made of a `#` run and the whitespace after it is
   * removed whole; the scan goes on at a line start exactly when that
   * whitespace ended with a line terminator.
   */
  lemma HeaderMarkerRemoved(hashes: string, ws: string, rest: string)
    requires hashes != [] && forall i :: 0 <= i < |hashes| ==> hashes[i] == '#'
    requires AllWhitespace(ws)
    requires rest == [] || !IsWhitespace(rest[0])
    requires ws != [] || rest == [] || rest[0] != '#'
    ensures var marker := hashes + ws;
            StripHeadersFrom(marker + rest, true) == StripHeadersFrom(rest, IsLineTerminator(marker[|marker| - 1]))
  {
    var marker := hashes + ws;
    var s := marker + rest;
    MarkerLength(hashes, ws, rest);
    assert s[0] == '#';
    assert s[|marker|..] == rest;
    assert s[|marker| - 1] == marker[|marker| - 1];
  }

  /**
   * A line that does not start with `#` where a line starts is kept whole,
   * `#` inside it included, and the scan goes on in the middle of a line.
   */
  lemma {:induction false} LineKept(line: string, rest: string, atLineStart: bool)
    requires line != [] && forall i :: 0 <= i < |line| ==> !IsLineTerminator(line[i])
    requires atLineStart ==> line[0] != '#'
    ensures StripHeadersFrom(line + rest, atLineStart) == line + StripHeadersFrom(rest, false)
    decreases |line|
  {
    var s := line + rest;
    assert s[0] == line[0] && s[1..] == line[1..] + rest;
    if |line| == 1 {
      assert line[1..] + rest == rest;
    } else {
      LineKept(line[1..], rest, false);
      assert [line[0]] + (line[1..] + StripHeadersFrom(rest, false)) == line + StripHeadersFrom(rest, false);
    }
  }

  /** A line terminator is kept, and the text after it starts a new line. */
  lemma TerminatorRestartsLine(t: char, rest: string, atLineStart: bool)
    requires IsLineTerminator(t)
    ensures StripHeadersFrom([t] + rest, atLineStart) == [t] + StripHeadersFrom(rest, true)
  {
    assert ([t] + rest)[1..] == rest;
  }

  /** `C# notes` keeps its `#`: the rule removes markers only at line starts. */
  lemma HashInsideLineKept()
    ensures StripHeaders("C# notes") == "C# notes"
  {
    LineKept("C# notes", [], true);
    assert "C# notes" + [] == "C# notes";
  }

  /** The marker the header rule matches at the start of `hashes + ws + rest` is `hashes + ws`. */
  lemma MarkerLength(hashes: string, ws: string, rest: string)
    requires forall i :: 0 <= i < |hashes| ==> hashes[i] == '#'
    requires AllWhitespace(ws)
    requires rest == [] || !IsWhitespace(rest[0])
    requires ws != [] || rest == [] || rest[0] != '#'
    ensures var s := hashes + ws + rest;
            LeadingRun(s, '#') == |hashes| && LeadingSpace(s[|hashes|..]) == |ws|
  {
    var s := hashes + ws + rest;
    assert s == hashes + (ws + rest);
    LeadingRunOf(hashes, '#', ws + rest);
    assert s[|hashes|..] == ws + rest;
    LeadingSpaceOfRun(ws, rest);
  }

  /** A run of `c` followed by anything else (or by nothing) is the whole leading run. */
  lemma {:induction false} LeadingRunOf(run: string, c: char, tail: string)
    requires forall i :: 0 <= i < |run| ==> run[i] == c
    requires tail == [] || tail[0] != c
    ensures LeadingRun(run + tail, c) == |run|
  {
    if run != [] {
      assert (run + tail)[1..] == run[1..] + tail;
      LeadingRunOf(run[1..], c, tail);
    } else {
      assert run + tail == tail;
    }
  }

  /** The markdown formatting characters `* _ \` ~ [ ] ( )`. */
  predicate IsFormatting(c: char) {
    c == '*' || c == '_' || c == '`' || c == '~' || c == '[' || c == ']' || c == '(' || c == ')'
  }

  predicate NoFormatting(s: string) {
    forall i :: 0 <= i < |s| ==> !IsFormatting(s[i])
  }

  /** `replace(/[*_`~\[\]()]/g, '')`. */
  function RemoveFormatting(s: string): (r: string)
    ensures NoFormatting(r)
  {
    if s == [] then []
    else if IsFormatting(s[0]) then RemoveFormatting(s[1..])
    else [s[0]] + RemoveFormatting(s[1..])
  }

  /** Exactly the characters other than formatting characters survive. */
  lemma {:induction false} RemoveFormattingMembership(s: string, c: char)
    ensures c in RemoveFormatting(s) <==> c in s && !IsFormatting(c)
  {
    if s != [] {
      RemoveFormattingMembership(s[1..], c);
      assert c in s <==> c == s[0] || c in s[1..];
    }
  }

  /** The removal works character by character, so the kept characters keep their order and number. */
  lemma {:induction false} RemoveFormattingConcat(a: string, b: string)
    ensures RemoveFormatting(a + b) == RemoveFormatting(a) + RemoveFormatting(b)
  {
    if a != [] {
      RemoveFormattingConcat(a[1..], b);
      var w, v := RemoveFormatting(a[1..]), RemoveFormatting(b);
      assert (a + b)[0] == a[0] && (a + b)[1..] == a[1..] + b;
      if !IsFormatting(a[0]) {
        assert [a[0]] + (w + v) == ([a[0]] + w) + v;
      }
    } else {
      assert a + b == b;
    }
  }

  /** Text without formatting characters is kept as it is. */
  lemma {:induction false} RemoveFormattingPlain(s: string)
    requires NoFormatting(s)
    ensures RemoveFormatting(s) == s
  {
    if s != [] {
      RemoveFormattingPlain(s[1..]);
    }
  }

  /** `replace(/\n+/g, ' ')`: each run of newlines becomes one space. */
  function CollapseNewlines(s: string): (r: string)
    ensures forall i :: 0 <= i < |r| ==> r[i] != '\n'
    ensures NoFormatting(s) ==> NoFormatting(r)
    decreases |s|
  {
    if s == [] then []
    else if s[0] == '\n' then
      var k := LeadingRun(s, '\n');
      var tail := CollapseNewlines(s[k..]);
      assert NoFormatting(s) ==> NoFormatting(s[k..]) by {
        assert forall i :: 0 <= i < |s[k..]| ==> s[k..][i] == s[k + i];
      }
      [' '] + tail
    else
      var tail := CollapseNewlines(s[1..]);
      [s[0]] + tail
  }

  /** Only spaces are added: every other character of the result comes from the text. */
  lemma {:induction false} CollapseMembership(s: string, c: char)
    ensures c in CollapseNewlines(s) ==> c in s || c == ' '
    decreases |s|
  {
    if s != [] {
      var k := if s[0] == '\n' then LeadingRun(s, '\n') else 1;
      CollapseMembership(s[k..], c);
      assert c in s[k..] ==> c in s;
    }
  }

  /** Text without newlines is kept as it is. */
  lemma {:induction false} CollapseNoNewline(s: string)
    requires '\n' !in s
    ensures CollapseNewlines(s) == s
  {
    if s != [] {
      assert '\n' !in s[1..] by { assert forall c :: c in s[1..] ==> c in s; }
      CollapseNoNewline(s[1..]);
    }
  }

  lemma {:induction false} CollapsePrefix(w: string, rest: string)
    requires '\n' !in w
    ensures CollapseNewlines(w + rest) == w + CollapseNewlines(rest)
  {
    if w != [] {
      assert (w + rest)[1..] == w[1..] + rest;
      assert '\n' !in w[1..] by { assert forall c :: c in w[1..] ==> c in w; }
      CollapsePrefix(w[1..], rest);
    } else {
      assert w + rest == rest;
    }
  }

  /** A leading run of newlines becomes one space. */
  lemma CollapseRun(nl: string, rest: string)
    requires nl != [] && forall i :: 0 <= i < |nl| ==> nl[i] == '\n'
    requires rest == [] || rest[0] != '\n'
    ensures CollapseNewlines(nl + rest) == " " + CollapseNewlines(rest)
  {
    var t := nl + rest;
    LeadingRunOf(nl, '\n', rest);
    assert t[0] == nl[0];
    assert t[|nl|..] == rest;
  }

  /** A whole run of newlines after a newline-free piece becomes a single space. */
  lemma NewlineRunBecomesSpace(w: string, nl: string, rest: string)
    requires '\n' !in w
    requires nl != [] && forall i :: 0 <= i < |nl| ==> nl[i] == '\n'
    requires rest == [] || rest[0] != '\n'
    ensures CollapseNewlines(w + nl + rest) == w + " " + CollapseNewlines(rest)
  {
    var t := nl + rest;
    var d := CollapseNewlines(rest);
    calc {
      CollapseNewlines(w + nl + rest);
      { assert w + nl + rest == w + t; }
      CollapseNewlines(w + t);
      { CollapsePrefix(w, t); }
      w + CollapseNewlines(t);
      { CollapseRun(nl, rest); }
      w + (" " + d);
      w + " " + d;
    }
  }

  /**
   * The text the title is taken from: no formatting character, no newline,
   * and no whitespace at either end.
   */
  function CleanContent(content: string): (r: string)
    ensures NoFormatting(r)
    ensures '\n' !in r
    ensures r == [] || (!IsWhitespace(r[0]) && !IsWhitespace(r[|r| - 1]))
  {
    var plain := RemoveFormatting(StripHeaders(content));
    OneLineIsClean(plain);
    Trim(CollapseNewlines(plain))
  }

  lemma OneLineIsClean(plain: string)
    requires NoFormatting(plain)
    ensures NoFormatting(Trim(CollapseNewlines(plain)))
    ensures '\n' !in Trim(CollapseNewlines(plain))
  {
    var oneLine := CollapseNewlines(plain);
    var r := Trim(oneLine);
    TrimIsSlice(oneLine);
    var i := LeadingSpace(oneLine);
    forall k | 0 <= k < |r| ensures !IsFormatting(r[k]) && r[k] != '\n' {
      assert r[k] == oneLine[i + k];
    }
  }

  /** A single line of plain text, with no `#`, is kept as it is. */
  lemma CleanContentKeepsPlainLine(s: string)
    requires '#' !in s && '\n' !in s && NoFormatting(s)
    requires s == [] || (!IsWhitespace(s[0]) && !IsWhitespace(s[|s| - 1]))
    ensures CleanContent(s) == s
  {
    StripHeadersNoHash(s, true);
    RemoveFormattingPlain(s);
    CollapseNoNewline(s);
    TrimUnchanged(s);
  }

  /** The same holds for a line with `#` anywhere but at its start, as in `C# notes`. */
  lemma CleanContentKeepsLineWithInnerHash(s: string)
    requires s != [] && s[0] != '#' && forall i :: 0 <= i < |s| ==> !IsLineTerminator(s[i])
    requires NoFormatting(s) && !IsWhitespace(s[0]) && !IsWhitespace(s[|s| - 1])
    ensures CleanContent(s) == s
  {
    LineKept(s, [], true);
    assert s + [] == s;
    RemoveFormattingPlain(s);
    assert '\n' !in s by {
      forall i | 0 <= i < |s| ensures s[i] != '\n' {
        assert !IsLineTerminator(s[i]);
      }
    }
    CollapseNoNewline(s);
    TrimUnchanged(s);
  }

  // ---------------------------------------------------------------------------
  // Words
  // ---------------------------------------------------------------------------

  predicate NoWhitespace(s: string) {
    forall i :: 0 <= i < |s| ==> !IsWhitespace(s[i])
  }

  /** A word of `split(/\s+/)` that survives `filter(word => word.length > 0)`. */
  predicate IsWord(w: string) {
    w != [] && NoWhitespace(w)
  }

  /** The length of the longest prefix without whitespace. */
  function WordLength(s: string): (n: nat)
    ensures n <= |s|
    ensures forall i :: 0 <= i < n ==> !IsWhitespace(s[i])
    ensures n == |s| || IsWhitespace(s[n])
  {
    if |s| > 0 && !IsWhitespace(s[0]) then 1 + WordLength(s[1..]) else 0
  }

  /** `s.split(/\s+/).filter(word => word.length > 0)`: the maximal runs of non-whitespace. */
  function Words(s: string): (ws: seq<string>)
    ensures forall i :: 0 <= i < |ws| ==> IsWord(ws[i])
    decreases |s|
  {
    var t := TrimStart(s);
    if t == [] then []
    else
      var n := WordLength(t);
      [t[..n]] + Words(t[n..])
  }

  /** Whitespace alone holds no word. */
  lemma WordsOfBlank(g: string)
    requires AllWhitespace(g)
    ensures Words(g) == []
  {
    LeadingSpaceOfRun(g, []);
    assert g + [] == g;
  }

  /**
   * A run of whitespace, then a maximal run of non-whitespace: that run is the
   * first word and the words of the rest follow. With WordsOfBlank this
   * determines the words of every string.
   */
  lemma WordsOfGapThenWord(g: string, w: string, tail: string)
    requires AllWhitespace(g) && IsWord(w)
    requires tail == [] || IsWhitespace(tail[0])
    ensures Words(g + w + tail) == [w] + Words(tail)
  {
    var s := g + w + tail;
    var t := w + tail;
    assert s == g + t;
    LeadingSpaceOfRun(g, t);
    assert TrimStart(s) == t;
    WordLengthOfWord(w, tail);
    assert t[..|w|] == w;
    assert t[|w|..] == tail;
  }

  /** `words.join(sep)`. */
  function Join(ws: seq<string>, sep: string): string {
    if ws == [] then []
    else if |ws| == 1 then ws[0]
    else ws[0] + sep + Join(ws[1..], sep)
  }

  lemma TrimStartNonBlank(s: string)
    requires s == [] || !IsWhitespace(s[0])
    ensures TrimStart(s) == s
  {
    assert s[0..] == s;
  }

  lemma {:induction false} WordLengthOfWord(w: string, tail: string)
    requires NoWhitespace(w)
    requires tail == [] || IsWhitespace(tail[0])
    ensures WordLength(w + tail) == |w|
  {
    if w != [] {
      assert (w + tail)[1..] == w[1..] + tail;
      WordLengthOfWord(w[1..], tail);
    } else {
      assert w + tail == tail;
    }
  }

  /** A word followed by whitespace (or by nothing) is the first word. */
  lemma WordsOfWordThen(w: string, tail: string)
    requires IsWord(w)
    requires tail == [] || IsWhitespace(tail[0])
    ensures Words(w + tail) == [w] + Words(tail)
  {
    var s := w + tail;
    TrimStartNonBlank(s);
    WordLengthOfWord(w, tail);
    assert s[..|w|] == w;
    assert s[|w|..] == tail;
  }

  /** A leading space separates nothing. */
  lemma WordsSkipSpace(s: string)
    ensures Words(" " + s) == Words(s)
  {
    assert (" " + s)[1..] == s;
    assert LeadingSpace(" " + s) == 1 + LeadingSpace(s);
    assert TrimStart(" " + s) == TrimStart(s);
  }

  /** Splitting words joined by single spaces gives the words back. */
  lemma {:induction false} WordsOfJoin(ws: seq<string>)
    requires forall i :: 0 <= i < |ws| ==> IsWord(ws[i])
    ensures Words(Join(ws, " ")) == ws
  {
    if |ws| == 1 {
      WordsOfWordThen(ws[0], []);
      assert ws[0] + [] == ws[0];
    } else if |ws| > 1 {
      var rest := Join(ws[1..], " ");
      assert Join(ws, " ") == ws[0] + (" " + rest);
      WordsOfWordThen(ws[0], " " + rest);
      WordsSkipSpace(rest);
      WordsOfJoin(ws[1..]);
      assert ws == [ws[0]] + ws[1..];
    }
  }

  lemma {:induction false} JoinLength(ws: seq<string>)
    requires forall i :: 0 <= i < |ws| ==> IsWord(ws[i])
    ensures Join(ws, " ") == [] <==> ws == []
  {
    if |ws| > 1 {
      JoinLength(ws[1..]);
    }
  }

  // ---------------------------------------------------------------------------
  // Characters a title may hold
  // ---------------------------------------------------------------------------

  /** No formatting character and no newline. */
  predicate CleanText(s: string) {
    forall i :: 0 <= i < |s| ==> !IsFormatting(s[i]) && s[i] != '\n'
  }

  lemma CleanConcat(a: string, b: string)
    requires CleanText(a) && CleanText(b)
    ensures CleanText(a + b)
  {
    forall k | 0 <= k < |a + b| ensures !IsFormatting((a + b)[k]) && (a + b)[k] != '\n' {
      if k < |a| { assert (a + b)[k] == a[k]; } else { assert (a + b)[k] == b[k - |a|]; }
    }
  }

  lemma NoFormattingSlice(s: string, lo: nat, hi: nat)
    requires NoFormatting(s) && lo <= hi <= |s|
    ensures NoFormatting(s[lo..hi])
  {
    var t := s[lo..hi];
    assert forall k :: 0 <= k < |t| ==> t[k] == s[lo + k];
  }

  /** A leading word of text without formatting characters is clean. */
  lemma FirstWordClean(t: string)
    requires NoFormatting(t)
    ensures CleanText(t[..WordLength(t)])
  {
    var w := t[..WordLength(t)];
    forall k | 0 <= k < |w| ensures !IsFormatting(w[k]) && w[k] != '\n' {
      assert w[k] == t[k];
    }
  }

  /** The words of text without formatting characters are clean. */
  lemma {:induction false} WordsAreClean(s: string)
    requires NoFormatting(s)
    ensures forall i :: 0 <= i < |Words(s)| ==> CleanText(Words(s)[i])
    decreases |s|
  {
    var t := TrimStart(s);
    if t != [] {
      var n := WordLength(t);
      NoFormattingSlice(s, LeadingSpace(s), |s|);
      NoFormattingSlice(t, n, |t|);
      FirstWordClean(t);
      WordsAreClean(t[n..]);
      assert Words(s) == [t[..n]] + Words(t[n..]);
    }
  }

  lemma {:induction false} JoinIsClean(ws: seq<string>)
    requires forall i :: 0 <= i < |ws| ==> CleanText(ws[i])
    ensures CleanText(Join(ws, " "))
  {
    if |ws| > 1 {
      JoinIsClean(ws[1..]);
      CleanConcat(ws[0], " ");
      CleanConcat(ws[0] + " ", Join(ws[1..], " "));
    }
  }

  // ---------------------------------------------------------------------------
  // generateTitleFromContent
  // ---------------------------------------------------------------------------

  const MaxTitleLength := 50
  const MaxTitleWords := 5

  /** `words.slice(0, 5)` over the cleaned content. */
  function TitleWords(content: string): seq<string> {
    var words := Words(CleanContent(content));
    words[..if |words| < MaxTitleWords then |words| else MaxTitleWords]
  }

  /**
   * `generateTitleFromContent`: the first five words joined by spaces, cut to
   * 47 characters plus `...` when longer than 50, or `Untitled-<now>` when no
   * word remains. `now` stands for `Date.now()`.
   */
  function GenerateTitle(content: string, now: nat): string {
    var first5 := Join(TitleWords(content), " ");
    if |first5| == 0 then "Untitled-" + NatToString(now)
    else if |first5| > MaxTitleLength then first5[..MaxTitleLength - 3] + "..."
    else first5
  }

  /** At most five words are taken, and they are the first words of the cleaned content. */
  lemma TitleWordsArePrefix(content: string)
    ensures var words, first := Words(CleanContent(content)), TitleWords(content);
            && |first| <= MaxTitleWords
            && first == words[..|first|]
            && (|first| < MaxTitleWords ==> first == words)
  {
  }

  /** With no word left the title is `Untitled-` and the timestamp. */
  lemma TitleWithoutWords(content: string, now: nat)
    requires Words(CleanContent(content)) == []
    ensures GenerateTitle(content, now) == "Untitled-" + NatToString(now)
  {
  }

  /** With words left the title is between 1 and 50 characters long. */
  lemma TitleLength(content: string, now: nat)
    requires Words(CleanContent(content)) != []
    ensures 0 < |GenerateTitle(content, now)| <= MaxTitleLength
  {
    var j := Join(TitleWords(content), " ");
    JoinLength(TitleWords(content));
    assert j != [];
    if |j| > MaxTitleLength {
      assert |j[..MaxTitleLength - 3] + "..."| == MaxTitleLength;
    }
  }

  /** A title of at most 50 characters splits back into the first five words. */
  lemma ShortTitleIsFirstWords(content: string, now: nat)
    requires Words(CleanContent(content)) != []
    requires |Join(TitleWords(content), " ")| <= MaxTitleLength
    ensures Words(GenerateTitle(content, now)) == TitleWords(content)
  {
    JoinLength(TitleWords(content));
    WordsOfJoin(TitleWords(content));
  }

  /** Longer words are cut to exactly 50 characters, the last three being `...`. */
  lemma LongTitleIsCut(content: string, now: nat)
    requires |Join(TitleWords(content), " ")| > MaxTitleLength
    ensures var t, j := GenerateTitle(content, now), Join(TitleWords(content), " ");
            |t| == MaxTitleLength && t[..47] == j[..47] && t[47..] == "..."
  {
  }

  /** The timestamp title is clean. */
  lemma UntitledIsClean(now: nat)
    ensures CleanText("Untitled-" + NatToString(now))
  {
    var digits := NatToString(now);
    assert CleanText(digits) by {
      forall k | 0 <= k < |digits| ensures !IsFormatting(digits[k]) && digits[k] != '\n' {
        assert IsDigit(digits[k]);
      }
    }
    CleanConcat("Untitled-", digits);
  }

  /** Cutting clean text and appending `...` keeps it clean. */
  lemma CutIsClean(j: string)
    requires CleanText(j) && |j| >= 47
    ensures CleanText(j[..47] + "...")
  {
    assert CleanText(j[..47]);
    CleanConcat(j[..47], "...");
  }

  /** A title is never empty and never holds a formatting character or a newline. */
  lemma TitleIsClean(content: string, now: nat)
    ensures GenerateTitle(content, now) != []
    ensures CleanText(GenerateTitle(content, now))
  {
    WordsAreClean(CleanContent(content));
    var j := Join(TitleWords(content), " ");
    JoinIsClean(TitleWords(content));
    UntitledIsClean(now);
    if |j| > MaxTitleLength {
      CutIsClean(j);
    }
  }

  // ---------------------------------------------------------------------------
  // The title a file import takes
  // ---------------------------------------------------------------------------

  /** `s` ends with `suffix` when compared ASCII-case-insensitively (`suffix` is lower case). */
  predicate EndsWithIgnoringCase(s: string, suffix: string) {
    |suffix| <= |s| && ToLower(s[|s| - |suffix|..]) == suffix
  }

  /**
   * `filename.replace(/\.(md|markdown)$/i, '')`: strips one trailing `.md` or
   * `.markdown` in any letter case.
   */
  function StripMarkdownExtension(filename: string): string {
    if EndsWithIgnoringCase(filename, ".md") then filename[..|filename| - 3]
    else if EndsWithIgnoringCase(filename, ".markdown") then filename[..|filename| - 9]
    else filename
  }

  /**
   * The import title is the file name with the removed part, if any, being
   * exactly one `.md` or `.markdown` extension; a name without one is kept.
   */
  lemma StripMarkdownExtensionSpec(filename: string)
    ensures var t := StripMarkdownExtension(filename);
            var removed := filename[|t|..];
            && |t| <= |filename| && filename == t + removed
            && (removed == [] || ToLower(removed) == ".md" || ToLower(removed) == ".markdown")
            && (removed == [] <==> !EndsWithIgnoringCase(filename, ".md") && !EndsWithIgnoringCase(filename, ".markdown"))
  {
    var t := StripMarkdownExtension(filename);
    assert filename == t + filename[|t|..];
  }

  /** One character that differs from the suffix after lower-casing rules the suffix out. */
  lemma NotEndingWith(s: string, suffix: string, i: nat)
    requires |suffix| <= |s| && i < |suffix|
    requires LowerChar(s[|s| - |suffix| + i]) != suffix[i]
    ensures !EndsWithIgnoringCase(s, suffix)
  {
    var tail := s[|s| - |suffix|..];
    assert tail[i] == s[|s| - |suffix| + i];
  }

  /** A suffix equal to a lower-case text is found in any letter case of it. */
  lemma EndingWith(s: string, suffix: string)
    requires |suffix| <= |s| && s[|s| - |suffix|..] == suffix
    requires forall i :: 0 <= i < |suffix| ==> !IsAsciiUpper(suffix[i])
    ensures EndsWithIgnoringCase(s, suffix)
  {
    LowerUnchanged(suffix);
  }

  /** The extension's letter case does not matter. */
  lemma StripUpperCaseExtension()
    ensures StripMarkdownExtension("notes.MD") == "notes"
  {
    var s := "notes.MD";
    assert s[5..] == ".MD";
    assert ToLower(".MD") == ".md";
    assert s[..5] == "notes";
  }

  /** Only one extension goes. */
  lemma StripOneExtension()
    ensures StripMarkdownExtension("a.md.md") == "a.md"
  {
    var s := "a.md.md";
    EndingWith(s, ".md");
    assert s[..4] == "a.md";
  }

  /** The long extension goes as well (`test.markdown` gives `test`). */
  lemma StripLongExtension(base: string)
    ensures StripMarkdownExtension(base + ".markdown") == base
  {
    var s := base + ".markdown";
    var n := |base|;
    assert s[n + 6] == 'o';
    NotEndingWith(s, ".md", 0);
    assert s[n..] == ".markdown";
    EndingWith(s, ".markdown");
    assert s[..n] == base;
  }

  /** Any other name is kept. */
  lemma StripKeepsOtherNames()
    ensures StripMarkdownExtension("readme.txt") == "readme.txt"
  {
    var s := "readme.txt";
    NotEndingWith(s, ".md", 0);
    NotEndingWith(s, ".markdown", 0);
  }
}
