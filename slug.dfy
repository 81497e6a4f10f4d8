/**
 * The heading anchor of the preview (the `slugify` option given to
 * markdown-it-anchor in src/preview/MarkdownPreview.tsx): lower-case the
 * heading text, drop every character that is not a word character, whitespace
 * or `-`, then turn each run of whitespace into one `-`.
 */
module HeadingSlug {
  import opened Text

  /** The `\w` class: ASCII letters, digits and `_`. */
  predicate IsWordChar(c: char) {
    IsAsciiUpper(c) || IsAsciiLower(c) || IsDigit(c) || c == '_'
  }

  /** A character that may appear in an anchor: `[a-z0-9_-]`. */
  predicate IsSlugChar(c: char) {
    IsAsciiLower(c) || IsDigit(c) || c == '_' || c == '-'
  }

  predicate AllSlugChars(s: string) {
    forall i :: 0 <= i < |s| ==> IsSlugChar(s[i])
  }

  /** `replace(/[^\w\s-]/g, '')`. */
  function KeepWordSpaceDash(s: string): string {
    if s == [] then []
    else if IsWordChar(s[0]) || IsWhitespace(s[0]) || s[0] == '-' then [s[0]] + KeepWordSpaceDash(s[1..])
    else KeepWordSpaceDash(s[1..])
  }

  /** `replace(/\s+/g, '-')`. */
  function DashWhitespace(s: string): string
    decreases |s|
  {
    if s == [] then []
    else if IsWhitespace(s[0]) then "-" + DashWhitespace(s[LeadingSpace(s)..])
    else [s[0]] + DashWhitespace(s[1..])
  }

  /** The anchor of a heading. */
  function Slug(heading: string): string {
    DashWhitespace(KeepWordSpaceDash(ToLower(heading)))
  }

  /** A character survives the filter exactly when it occurs in the text and is a word character, whitespace or `-`. */
  lemma {:induction false} KeptMembership(s: string, c: char)
    ensures c in KeepWordSpaceDash(s) <==> c in s && (IsWordChar(c) || IsWhitespace(c) || c == '-')
  {
    if s != [] {
      KeptMembership(s[1..], c);
      assert c in s <==> c == s[0] || c in s[1..];
    }
  }

  /** The filter works character by character, so the survivors keep their order and number. */
  lemma {:induction false} KeepConcat(a: string, b: string)
    ensures KeepWordSpaceDash(a + b) == KeepWordSpaceDash(a) + KeepWordSpaceDash(b)
  {
    if a != [] {
      assert (a + b)[0] == a[0] && (a + b)[1..] == a[1..] + b;
      KeepConcat(a[1..], b);
      var w, v := KeepWordSpaceDash(a[1..]), KeepWordSpaceDash(b);
      assert [a[0]] + (w + v) == ([a[0]] + w) + v;
    } else {
      assert a + b == b;
    }
  }

  /** On text without capitals the filter leaves only anchor characters and whitespace. */
  lemma {:induction false} KeptChars(s: string)
    requires forall i :: 0 <= i < |s| ==> !IsAsciiUpper(s[i])
    ensures forall i :: 0 <= i < |KeepWordSpaceDash(s)| ==>
              IsSlugChar(KeepWordSpaceDash(s)[i]) || IsWhitespace(KeepWordSpaceDash(s)[i])
  {
    if s != [] {
      KeptChars(s[1..]);
      var tail := KeepWordSpaceDash(s[1..]);
      if IsWordChar(s[0]) || IsWhitespace(s[0]) || s[0] == '-' {
        var r := [s[0]] + tail;
        assert KeepWordSpaceDash(s) == r;
        assert forall i :: 1 <= i < |r| ==> r[i] == tail[i - 1];
      }
    }
  }

  /** Dashing leaves no whitespace. */
  lemma {:induction false} DashedNoWhitespace(s: string)
    ensures forall i :: 0 <= i < |DashWhitespace(s)| ==> !IsWhitespace(DashWhitespace(s)[i])
    decreases |s|
  {
    if s != [] {
      var k := if IsWhitespace(s[0]) then LeadingSpace(s) else 1;
      DashedNoWhitespace(s[k..]);
      var head := if IsWhitespace(s[0]) then "-" else [s[0]];
      var r := head + DashWhitespace(s[k..]);
      assert DashWhitespace(s) == r;
      assert forall i :: 1 <= i < |r| ==> r[i] == DashWhitespace(s[k..])[i - 1];
    }
  }

  /** Dashing maps anchor characters and whitespace to anchor characters. */
  lemma {:induction false} DashedSlugChars(s: string)
    requires forall i :: 0 <= i < |s| ==> IsSlugChar(s[i]) || IsWhitespace(s[i])
    ensures AllSlugChars(DashWhitespace(s))
    decreases |s|
  {
    if s != [] {
      var k := if IsWhitespace(s[0]) then LeadingSpace(s) else 1;
      var rest := s[k..];
      assert forall i :: 0 <= i < |rest| ==> rest[i] == s[k + i];
      DashedSlugChars(rest);
      var head := if IsWhitespace(s[0]) then "-" else [s[0]];
      var r := head + DashWhitespace(rest);
      assert DashWhitespace(s) == r;
      assert forall i :: 1 <= i < |r| ==> r[i] == DashWhitespace(rest)[i - 1];
    }
  }

  /** An anchor holds only lower-case ASCII letters, digits, `_` and `-`, so no whitespace. */
  lemma SlugChars(heading: string)
    ensures AllSlugChars(Slug(heading))
    ensures forall i :: 0 <= i < |Slug(heading)| ==> !IsWhitespace(Slug(heading)[i])
  {
    var lower := ToLower(heading);
    KeptChars(lower);
    var kept := KeepWordSpaceDash(lower);
    DashedNoWhitespace(kept);
    DashedSlugChars(kept);
  }

  /** Every character is an anchor character or whitespace. */
  predicate SlugOrSpace(s: string) {
    forall i :: 0 <= i < |s| ==> IsSlugChar(s[i]) || IsWhitespace(s[i])
  }

  lemma SlugOrSpaceConcat(a: string, b: string)
    requires SlugOrSpace(a) && SlugOrSpace(b)
    ensures SlugOrSpace(a + b)
  {
    var h := a + b;
    assert forall i :: |a| <= i < |h| ==> h[i] == b[i - |a|];
  }

  /** Text already free of dropped characters passes the filter unchanged. */
  lemma {:induction false} KeepUnchanged(s: string)
    requires SlugOrSpace(s)
    ensures KeepWordSpaceDash(s) == s
  {
    if s != [] {
      KeepUnchanged(s[1..]);
    }
  }

  lemma {:induction false} DashNoWhitespace(s: string)
    requires forall i :: 0 <= i < |s| ==> !IsWhitespace(s[i])
    ensures DashWhitespace(s) == s
  {
    if s != [] {
      DashNoWhitespace(s[1..]);
    }
  }

  lemma {:induction false} DashPrefix(w: string, rest: string)
    requires forall i :: 0 <= i < |w| ==> !IsWhitespace(w[i])
    ensures DashWhitespace(w + rest) == w + DashWhitespace(rest)
  {
    if w != [] {
      assert (w + rest)[1..] == w[1..] + rest;
      DashPrefix(w[1..], rest);
    } else {
      assert w + rest == rest;
    }
  }

  /** A run of whitespace at the start becomes one `-`. */
  lemma DashRun(ws: string, rest: string)
    requires ws != [] && AllWhitespace(ws)
    requires rest == [] || !IsWhitespace(rest[0])
    ensures DashWhitespace(ws + rest) == "-" + DashWhitespace(rest)
  {
    var t := ws + rest;
    LeadingSpaceOfRun(ws, rest);
    assert t[0] == ws[0];
    assert t[|ws|..] == rest;
  }

  /** A whole run of whitespace between two pieces of text becomes a single `-`. */
  lemma WhitespaceRunBecomesOneDash(w: string, ws: string, rest: string)
    requires forall i :: 0 <= i < |w| ==> !IsWhitespace(w[i])
    requires ws != [] && AllWhitespace(ws)
    requires rest == [] || !IsWhitespace(rest[0])
    ensures DashWhitespace(w + ws + rest) == w + "-" + DashWhitespace(rest)
  {
    var t := ws + rest;
    var d := DashWhitespace(rest);
    calc {
      DashWhitespace(w + ws + rest);
      { assert w + ws + rest == w + t; }
      DashWhitespace(w + t);
      { DashPrefix(w, t); }
      w + DashWhitespace(t);
      { DashRun(ws, rest); }
      w + ("-" + d);
      w + "-" + d;
    }
  }

  /** An anchor is its own anchor. */
  lemma SlugIdempotent(heading: string)
    ensures Slug(Slug(heading)) == Slug(heading)
  {
    var s := Slug(heading);
    SlugChars(heading);
    LowerUnchanged(s);
    KeepUnchanged(s);
    DashNoWhitespace(s);
  }

  /** Lower-casing a run of word characters gives anchor characters. */
  lemma LowerWordChars(u: string)
    requires forall i :: 0 <= i < |u| ==> IsWordChar(u[i])
    ensures AllSlugChars(ToLower(u))
  {
  }

  /** Lower-casing such a heading lower-cases the two runs and keeps the whitespace. */
  lemma LowerTwoWords(u: string, ws: string, v: string)
    requires forall i :: 0 <= i < |u| ==> IsWordChar(u[i])
    requires forall i :: 0 <= i < |v| ==> IsWordChar(v[i])
    requires AllWhitespace(ws)
    ensures ToLower(u + ws + v) == ToLower(u) + ws + ToLower(v)
    ensures SlugOrSpace(ToLower(u) + ws + ToLower(v))
  {
    LowerWordChars(u);
    LowerWordChars(v);
    LowerUnchanged(ws);
    ToLowerConcat(u + ws, v);
    ToLowerConcat(u, ws);
    SlugOrSpaceConcat(ToLower(u), ws);
    SlugOrSpaceConcat(ToLower(u) + ws, ToLower(v));
  }

  /** No anchor character is whitespace. */
  lemma SlugCharNotWhitespace(c: char)
    requires IsSlugChar(c)
    ensures !IsWhitespace(c)
  {
  }

  lemma SlugCharsNoWhitespace(s: string)
    requires AllSlugChars(s)
    ensures forall i :: 0 <= i < |s| ==> !IsWhitespace(s[i])
  {
    forall i | 0 <= i < |s|
      ensures !IsWhitespace(s[i])
    {
      SlugCharNotWhitespace(s[i]);
    }
  }

  /** Between two runs of anchor characters, a run of whitespace becomes one `-`. */
  lemma DashBetweenRuns(lu: string, ws: string, lv: string)
    requires AllSlugChars(lu) && AllSlugChars(lv)
    requires ws != [] && AllWhitespace(ws)
    ensures DashWhitespace(lu + ws + lv) == lu + "-" + lv
  {
    SlugCharsNoWhitespace(lu);
    SlugCharsNoWhitespace(lv);
    WhitespaceRunBecomesOneDash(lu, ws, lv);
    DashNoWhitespace(lv);
  }

  /**
   * A heading of two runs of word characters separated by whitespace becomes
   * the two runs lower-cased and joined by one `-` (`Hello World` gives
   * `hello-world`).
   */
  lemma TwoWordHeading(u: string, ws: string, v: string)
    requires forall i :: 0 <= i < |u| ==> IsWordChar(u[i])
    requires forall i :: 0 <= i < |v| ==> IsWordChar(v[i])
    requires ws != [] && AllWhitespace(ws)
    ensures Slug(u + ws + v) == ToLower(u) + "-" + ToLower(v)
  {
    var lu, lv := ToLower(u), ToLower(v);
    LowerTwoWords(u, ws, v);
    KeepUnchanged(lu + ws + lv);
    DashBetweenRuns(lu, ws, lv);
  }
}
