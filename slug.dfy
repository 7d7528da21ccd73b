/**
 * The slug clean-up chain applied to the generated `code` before the pillar's
 * intermediate save: downcase, drop characters outside `[a-z0-9\s-]`, strip,
 * turn each run of white space or underscores into one hyphen, squeeze hyphen
 * runs, and drop one leading and one trailing hyphen.  An empty result falls
 * back to `article-<id>`.
 */
module Slug {
  import opened Wrappers
  import opened Text

  predicate IsLowerAlnum(c: char) {
    ('a' <= c <= 'z') || ('0' <= c <= '9')
  }

  /** Ruby's regexp `\s`: ASCII white space only. */
  predicate IsRegexSpace(c: char) {
    c == ' ' || c == '\t' || c == '\n' || c == '\U{B}' || c == '\U{C}' || c == '\r'
  }

  /** What `String#strip` removes from both ends. */
  predicate IsStripChar(c: char) {
    IsRegexSpace(c) || c == '\U{0}'
  }

  /** The characters that survive `gsub(/[^a-z0-9\s\-]/, '')`. */
  predicate IsKept(c: char) {
    IsLowerAlnum(c) || IsRegexSpace(c) || c == '-'
  }

  /** A character of a finished slug. */
  predicate IsSlugChar(c: char) {
    IsLowerAlnum(c) || c == '-'
  }

  /** A finished slug: `[a-z0-9-]` only, no `--`, no hyphen at either end. */
  predicate WellFormed(s: string) {
    && (forall i :: 0 <= i < |s| ==> IsSlugChar(s[i]))
    && (forall i :: 0 <= i < |s| - 1 ==> !(s[i] == '-' && s[i + 1] == '-'))
    && (|s| > 0 ==> s[0] != '-' && s[|s| - 1] != '-')
  }

  /** `downcase`, on ASCII letters. */
  function Downcase(s: string): (r: string)
    ensures |r| == |s|
  {
    seq(|s|, i requires 0 <= i < |s| => if 'A' <= s[i] <= 'Z' then (s[i] as int + 32) as char else s[i])
  }

  /** `gsub(/[^a-z0-9\s\-]/, '')`. */
  function KeepSlugChars(s: string): (r: string)
    ensures forall i :: 0 <= i < |r| ==> IsKept(r[i])
  {
    if s == [] then []
    else if IsKept(s[0]) then [s[0]] + KeepSlugChars(s[1..])
    else KeepSlugChars(s[1..])
  }

  function DropLeading(s: string): (r: string)
    ensures |r| <= |s| && r == s[|s| - |r|..]
    ensures r != [] ==> !IsStripChar(r[0])
  {
    if s != [] && IsStripChar(s[0]) then DropLeading(s[1..]) else s
  }

  function DropTrailing(s: string): (r: string)
    ensures |r| <= |s| && r == s[..|r|]
    ensures r != [] ==> !IsStripChar(r[|r| - 1])
  {
    if s != [] && IsStripChar(s[|s| - 1]) then DropTrailing(s[..|s| - 1]) else s
  }

  /** `strip`. */
  function Strip(s: string): string {
    DropTrailing(DropLeading(s))
  }

  /** Characters of `[\s_]`. */
  predicate IsRunChar(c: char) {
    IsRegexSpace(c) || c == '_'
  }

  /** `s` without its leading characters satisfying `p`. */
  function SkipWhile(s: string, p: char -> bool): (r: string)
    ensures |r| <= |s| && r == s[|s| - |r|..]
    ensures r != [] ==> !p(r[0])
    ensures s != [] && p(s[0]) ==> |r| < |s|
  {
    if s != [] && p(s[0]) then SkipWhile(s[1..], p) else s
  }

  /** `gsub(/[\s_]+/, '-')`. */
  function HyphenateRuns(s: string): string
    decreases |s|
  {
    if s == [] then []
    else if IsRunChar(s[0]) then "-" + HyphenateRuns(SkipWhile(s, IsRunChar))
    else [s[0]] + HyphenateRuns(s[1..])
  }

  predicate IsHyphen(c: char) {
    c == '-'
  }

  /** `gsub(/-+/, '-')`. */
  function Squeeze(s: string): string
    decreases |s|
  {
    if s == [] then []
    else if s[0] == '-' then "-" + Squeeze(SkipWhile(s, IsHyphen))
    else [s[0]] + Squeeze(s[1..])
  }

  /** `gsub(/\A-|-\z/, '')`: one hyphen off the front, then one off the back. */
  function TrimHyphens(s: string): string {
    var t := if s != [] && s[0] == '-' then s[1..] else s;
    if t != [] && t[|t| - 1] == '-' then t[..|t| - 1] else t
  }

  /** The whole chain, from `to_s` of the generated code to the clean slug. */
  function Sanitize(s: string): string {
    TrimHyphens(Squeeze(HyphenateRuns(Strip(KeepSlugChars(Downcase(s))))))
  }

  /** Lines 43-50: the slug saved as `code`, from `meta["code"].to_s`, falling back to `article-<id>`. */
  function CleanCode(raw: string, id: nat): string {
    OrFallback(Sanitize(raw), id)
  }

  /** `clean_code = "article-#{id}" if clean_code.blank?`. */
  function OrFallback(c: string, id: nat): string {
    if Blank(Some(c)) then "article-" + NatToString(id) else c
  }

  // ---------------------------------------------------------------------------
  // The output is a well-formed slug.

  lemma {:induction false} HyphenateRunsSlugChars(s: string)
    requires forall i :: 0 <= i < |s| ==> IsKept(s[i])
    ensures forall i :: 0 <= i < |HyphenateRuns(s)| ==> IsSlugChar(HyphenateRuns(s)[i])
    decreases |s|
  {
    if s == [] {
    } else if IsRunChar(s[0]) {
      var t := SkipWhile(s, IsRunChar);
      HyphenateRunsSlugChars(t);
    } else {
      HyphenateRunsSlugChars(s[1..]);
    }
  }

  /** Squeezing keeps the first character and the character class. */
  lemma {:induction false} SqueezeShape(s: string)
    requires forall i :: 0 <= i < |s| ==> IsSlugChar(s[i])
    ensures var r := Squeeze(s);
      && (forall i :: 0 <= i < |r| ==> IsSlugChar(r[i]))
      && (forall i :: 0 <= i < |r| - 1 ==> !(r[i] == '-' && r[i + 1] == '-'))
      && (s == [] <==> r == [])
      && (s != [] ==> r[0] == s[0])
    decreases |s|
  {
    if s == [] {
    } else if s[0] == '-' {
      var t := SkipWhile(s, IsHyphen);
      SqueezeShape(t);
      var r := Squeeze(s);
      assert r == "-" + Squeeze(t);
      assert t != [] ==> t[0] != '-';
    } else {
      SqueezeShape(s[1..]);
    }
  }

  lemma TrimHyphensShape(s: string)
    requires forall i :: 0 <= i < |s| ==> IsSlugChar(s[i])
    requires forall i :: 0 <= i < |s| - 1 ==> !(s[i] == '-' && s[i + 1] == '-')
    ensures WellFormed(TrimHyphens(s))
  {
    var t := if s != [] && s[0] == '-' then s[1..] else s;
    assert forall i :: 0 <= i < |t| - 1 ==> !(t[i] == '-' && t[i + 1] == '-');
    if t != [] && t[|t| - 1] == '-' {
      assert |t| >= 2 ==> t[|t| - 2] != '-';
    }
  }

  /** The slug only ever holds `[a-z0-9-]`, with no leading, trailing or doubled hyphen. */
  lemma StripKeeps(k: string)
    requires forall i :: 0 <= i < |k| ==> IsKept(k[i])
    ensures forall i :: 0 <= i < |Strip(k)| ==> IsKept(Strip(k)[i])
  {
    var l := DropLeading(k);
    assert forall i :: 0 <= i < |l| ==> l[i] == k[|k| - |l| + i];
    var t := DropTrailing(l);
    assert forall i :: 0 <= i < |t| ==> t[i] == l[i];
  }

  lemma SanitizeWellFormed(s: string)
    ensures WellFormed(Sanitize(s))
  {
    var k := KeepSlugChars(Downcase(s));
    StripKeeps(k);
    var st := Strip(k);
    HyphenateRunsSlugChars(st);
    var h := HyphenateRuns(st);
    SqueezeShape(h);
    TrimHyphensShape(Squeeze(h));
    assert Sanitize(s) == TrimHyphens(Squeeze(h));
  }

  // ---------------------------------------------------------------------------
  // Sanitising twice is sanitising once.

  lemma {:induction false} KeepSlugCharsId(s: string)
    requires forall i :: 0 <= i < |s| ==> IsSlugChar(s[i])
    ensures KeepSlugChars(s) == s
    decreases |s|
  {
    if s != [] {
      KeepSlugCharsId(s[1..]);
    }
  }

  lemma {:induction false} HyphenateRunsId(s: string)
    requires forall i :: 0 <= i < |s| ==> IsSlugChar(s[i])
    ensures HyphenateRuns(s) == s
    decreases |s|
  {
    if s != [] {
      HyphenateRunsId(s[1..]);
    }
  }

  lemma {:induction false} SqueezeId(s: string)
    requires forall i :: 0 <= i < |s| - 1 ==> !(s[i] == '-' && s[i + 1] == '-')
    ensures Squeeze(s) == s
    decreases |s|
  {
    if s != [] {
      SqueezeId(s[1..]);
      if s[0] == '-' {
        assert SkipWhile(s, IsHyphen) == s[1..];
      }
    }
  }

  lemma DowncaseId(s: string)
    requires forall i :: 0 <= i < |s| ==> IsSlugChar(s[i])
    ensures Downcase(s) == s
  {
  }

  lemma StripId(s: string)
    requires forall i :: 0 <= i < |s| ==> IsSlugChar(s[i])
    ensures Strip(s) == s
  {
    if s != [] {
      assert IsSlugChar(s[0]) && IsSlugChar(s[|s| - 1]);
      StripNoEdges(s);
    }
  }

  /** A well-formed slug passes through every stage unchanged. */
  lemma SanitizeFixesWellFormed(s: string)
    requires WellFormed(s)
    ensures Sanitize(s) == s
  {
    DowncaseId(s);
    KeepSlugCharsId(s);
    StripId(s);
    HyphenateRunsId(s);
    SanitizeStages(s, s, s, s);
    FinishWellFormed(s);
  }

  lemma SanitizeIdempotent(s: string)
    ensures Sanitize(Sanitize(s)) == Sanitize(s)
  {
    SanitizeWellFormed(s);
    SanitizeFixesWellFormed(Sanitize(s));
  }

  /** A well-formed slug is blank exactly when it is empty. */
  lemma WellFormedBlank(c: string)
    requires WellFormed(c)
    ensures Blank(Some(c)) <==> c == []
  {
    if c != [] {
      assert !IsSpace(c[0]);
    }
  }

  /** The fallback `article-<id>` is itself a well-formed slug. */
  lemma FallbackWellFormed(id: nat)
    ensures WellFormed("article-" + NatToString(id))
  {
    var n := NatToString(id);
    var r := "article-" + n;
    assert forall i :: 8 <= i < |r| ==> r[i] == n[i - 8];
    assert forall i :: 0 <= i < 8 ==> IsSlugChar(r[i]);
  }

  /** The saved slug is never empty, is well formed, and is the fallback exactly when the sanitised code is empty. */
  lemma CleanCodeShape(raw: string, id: nat)
    ensures var r := CleanCode(raw, id);
      && |r| > 0 && WellFormed(r)
      && (Sanitize(raw) == [] ==> r == "article-" + NatToString(id))
      && (Sanitize(raw) != [] ==> r == Sanitize(raw))
  {
    SanitizeWellFormed(raw);
    OrFallbackShape(Sanitize(raw), id);
  }

  lemma OrFallbackShape(c: string, id: nat)
    requires WellFormed(c)
    ensures var r := OrFallback(c, id);
      && |r| > 0 && WellFormed(r)
      && (c == [] ==> r == "article-" + NatToString(id))
      && (c != [] ==> r == c)
  {
    WellFormedBlank(c);
    FallbackWellFormed(id);
  }

  /** A nil or empty code falls back to `article-<id>`. */
  lemma EmptyCodeFallsBack(raw: string, id: nat)
    requires |raw| == 0
    ensures CleanCode(raw, id) == "article-" + NatToString(id)
  {
    var d := Downcase(raw);
    assert |d| == 0;
    var k := KeepSlugChars(d);
    assert k == [];
    var t := Strip(k);
    assert t == [];
    var h := HyphenateRuns(t);
    assert h == [];
    assert Squeeze(h) == [];
  }

  lemma {:induction false} KeepSlugCharsKept(s: string)
    requires forall i :: 0 <= i < |s| ==> IsKept(s[i])
    ensures KeepSlugChars(s) == s
    decreases |s|
  {
    if s != [] {
      KeepSlugCharsKept(s[1..]);
    }
  }

  lemma {:induction false} KeepSlugCharsAppend(a: string, b: string)
    ensures KeepSlugChars(a + b) == KeepSlugChars(a) + KeepSlugChars(b)
    decreases |a|
  {
    if a != [] {
      assert (a + b)[1..] == a[1..] + b;
      KeepSlugCharsAppend(a[1..], b);
    } else {
      assert a + b == b;
    }
  }

  /** Text without white space or underscores is copied through by `HyphenateRuns`. */
  lemma {:induction false} HyphenateRunsWord(a: string, b: string)
    requires forall i :: 0 <= i < |a| ==> !IsRunChar(a[i])
    ensures HyphenateRuns(a + b) == a + HyphenateRuns(b)
    decreases |a|
  {
    if a != [] {
      assert (a + b)[1..] == a[1..] + b;
      HyphenateRunsWord(a[1..], b);
    } else {
      assert a + b == b;
    }
  }

  /** One space before a word becomes one hyphen. */
  lemma HyphenateRunsSpace(b: string)
    requires b != [] && !IsRunChar(b[0])
    ensures HyphenateRuns(" " + b) == "-" + HyphenateRuns(b)
  {
    assert SkipWhile(b, IsRunChar) == b;
    assert SkipWhile(" " + b, IsRunChar) == b by {
      assert (" " + b)[1..] == b;
    }
  }

  /** A word, one space, then more text: the space becomes a hyphen. */
  lemma HyphenateWordSpace(w: string, rest: string)
    requires forall i :: 0 <= i < |w| ==> !IsRunChar(w[i])
    requires rest != [] && !IsRunChar(rest[0])
    ensures HyphenateRuns(w + " " + rest) == w + "-" + HyphenateRuns(rest)
  {
    assert w + " " + rest == w + (" " + rest);
    HyphenateRunsWord(w, " " + rest);
    HyphenateRunsSpace(rest);
  }

  /** Text with no strippable character at either end is left alone by `strip`. */
  lemma StripNoEdges(k: string)
    requires k != [] && !IsStripChar(k[0]) && !IsStripChar(k[|k| - 1])
    ensures Strip(k) == k
  {
    assert DropLeading(k) == k;
    assert DropTrailing(k) == k;
  }

  /** The chain, stage by stage. */
  lemma SanitizeStages(s: string, d: string, k: string, h: string)
    requires Downcase(s) == d && KeepSlugChars(d) == k && Strip(k) == k && HyphenateRuns(k) == h
    ensures Sanitize(s) == TrimHyphens(Squeeze(h))
  {
  }

  // ---------------------------------------------------------------------------
  // A title of plain words.

  /** A non-empty run of `[a-z0-9]`. */
  predicate Word(w: string) {
    w != [] && forall i :: 0 <= i < |w| ==> IsLowerAlnum(w[i])
  }

  /** The words joined by `sep`. */
  function Join(ws: seq<string>, sep: char): string
    requires |ws| > 0
    decreases |ws|
  {
    if |ws| == 1 then ws[0] else ws[0] + [sep] + Join(ws[1..], sep)
  }

  /** Only word characters and `sep`, starting and ending with a word character. */
  predicate Joined(r: string, sep: char) {
    && r != [] && IsLowerAlnum(r[0]) && IsLowerAlnum(r[|r| - 1])
    && forall i :: 0 <= i < |r| ==> IsLowerAlnum(r[i]) || r[i] == sep
  }

  /** Indexing into `w + [c] + t`. */
  lemma ConcatAt(w: string, c: char, t: string, i: nat)
    requires i < |w| + 1 + |t|
    ensures (w + [c] + t)[i] == if i < |w| then w[i] else if i == |w| then c else t[i - |w| - 1]
  {
  }

  /** A word, `sep`, then joined text, is joined text. */
  lemma JoinedCons(w: string, sep: char, t: string)
    requires Word(w) && Joined(t, sep)
    ensures Joined(w + [sep] + t, sep)
  {
    var r := w + [sep] + t;
    ConcatAt(w, sep, t, 0);
    ConcatAt(w, sep, t, |r| - 1);
    forall i | 0 <= i < |r| ensures IsLowerAlnum(r[i]) || r[i] == sep {
      ConcatAt(w, sep, t, i);
    }
  }

  lemma {:induction false} JoinJoined(ws: seq<string>, sep: char)
    requires |ws| > 0 && forall i :: 0 <= i < |ws| ==> Word(ws[i])
    ensures Joined(Join(ws, sep), sep)
    decreases |ws|
  {
    if |ws| > 1 {
      JoinJoined(ws[1..], sep);
      JoinedCons(ws[0], sep, Join(ws[1..], sep));
    }
  }

  /** Spaces between words become hyphens. */
  lemma {:induction false} HyphenateJoin(ws: seq<string>)
    requires |ws| > 0 && forall i :: 0 <= i < |ws| ==> Word(ws[i])
    ensures HyphenateRuns(Join(ws, ' ')) == Join(ws, '-')
    decreases |ws|
  {
    var w := ws[0];
    if |ws| == 1 {
      HyphenateRunsWord(w, []);
      assert w + [] == w;
    } else {
      var t := Join(ws[1..], ' ');
      HyphenateJoin(ws[1..]);
      JoinJoined(ws[1..], ' ');
      HyphenateWordSpace(w, t);
    }
  }

  /** A word, a hyphen, then a well-formed slug is a well-formed slug. */
  lemma WellFormedCons(w: string, t: string)
    requires Word(w) && Joined(t, '-') && WellFormed(t)
    ensures WellFormed(w + "-" + t)
  {
    var r := w + "-" + t;
    JoinedCons(w, '-', t);
    forall i | 0 <= i < |r| - 1 ensures !(r[i] == '-' && r[i + 1] == '-') {
      ConcatAt(w, '-', t, i);
      ConcatAt(w, '-', t, i + 1);
    }
  }

  /** Words joined by single hyphens form a well-formed slug. */
  lemma {:induction false} JoinWellFormed(ws: seq<string>)
    requires |ws| > 0 && forall i :: 0 <= i < |ws| ==> Word(ws[i])
    ensures WellFormed(Join(ws, '-'))
    decreases |ws|
  {
    if |ws| == 1 {
      JoinJoined(ws, '-');
    } else {
      JoinWellFormed(ws[1..]);
      JoinJoined(ws[1..], '-');
      WellFormedCons(ws[0], Join(ws[1..], '-'));
    }
  }

  /** Trailing characters that `gsub(/[^a-z0-9\s\-]/, '')` removes vanish. */
  lemma {:induction false} KeepSlugCharsNone(p: string)
    requires forall i :: 0 <= i < |p| ==> !IsKept(p[i])
    ensures KeepSlugChars(p) == []
    decreases |p|
  {
    if p != [] {
      KeepSlugCharsNone(p[1..]);
    }
  }

  /** A well-formed slug survives the last two stages. */
  lemma FinishWellFormed(h: string)
    requires WellFormed(h)
    ensures TrimHyphens(Squeeze(h)) == h
  {
    SqueezeId(h);
  }

  /**
   * A title that downcases to `[a-z0-9]` words separated by single spaces,
   * followed by punctuation the slug drops, becomes the words joined by single
   * hyphens ("Cargo Partner Guide!!" becomes "cargo-partner-guide").
   */
  lemma SanitizeTitle(s: string, ws: seq<string>, p: string)
    requires |ws| > 0 && forall i :: 0 <= i < |ws| ==> Word(ws[i])
    requires Downcase(s) == Join(ws, ' ') + p
    requires forall i :: 0 <= i < |p| ==> !IsKept(p[i])
    ensures Sanitize(s) == Join(ws, '-')
  {
    var k := Join(ws, ' ');
    TitleKeep(ws, p);
    TitleHyphens(ws);
    SanitizeStages(s, k + p, k, HyphenateRuns(k));
  }

  /** Dropping the punctuation and stripping give back the spaced words. */
  lemma TitleKeep(ws: seq<string>, p: string)
    requires |ws| > 0 && forall i :: 0 <= i < |ws| ==> Word(ws[i])
    requires forall i :: 0 <= i < |p| ==> !IsKept(p[i])
    ensures var k := Join(ws, ' ');
      KeepSlugChars(k + p) == k && Strip(k) == k
  {
    var k := Join(ws, ' ');
    JoinJoined(ws, ' ');
    assert forall i :: 0 <= i < |k| ==> IsKept(k[i]);
    KeepSlugCharsAppend(k, p);
    KeepSlugCharsKept(k);
    KeepSlugCharsNone(p);
    assert k + [] == k;
    StripNoEdges(k);
  }

  /** The last three stages turn the spaced words into the hyphenated slug. */
  lemma TitleHyphens(ws: seq<string>)
    requires |ws| > 0 && forall i :: 0 <= i < |ws| ==> Word(ws[i])
    ensures TrimHyphens(Squeeze(HyphenateRuns(Join(ws, ' ')))) == Join(ws, '-')
  {
    HyphenateJoin(ws);
    JoinWellFormed(ws);
    FinishWellFormed(Join(ws, '-'));
  }
}
