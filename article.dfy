/**
 * `GptArticleGenerator.generate_body`: the keyword-only category detection, the
 * structure step with its fall-backs to the original body, and the assembly of
 * introduction, H2 sections (one call per H3, or one for the H2) and conclusion.
 * Generative calls are oracle values.
 */
module ArticleGenerator {
  import opened Wrappers
  import opened Text
  import opened Keywords
  import opened Replies
  import opened Assembly
  import opened Schema

  /** `CATEGORY_KEYWORDS`, in declaration order. */
  const CategoryKeywords: seq<Category> := [
    Category("警備", ["警備"]),
    Category("軽貨物", ["軽貨物", "配送"]),
    Category("清掃", ["清掃"]),
    Category("営業代行", ["営業代行", "テレアポ"]),
    Category("ブログ", ["ブログ"]),
    Category("建設", ["建設", "現場"])
  ]

  const OtherCategory := "その他"

  /** The call names of the introduction and the conclusion. */
  const IntroName := "導入"
  const ConclusionName := "まとめ"

  /** `detect_category(keyword)`: "その他" for a blank keyword, else the first table category it contains. */
  function DetectCategory(keyword: Option<string>): (cat: string)
    ensures Blank(keyword) ==> cat == OtherCategory
    ensures !Blank(keyword) && cat != OtherCategory ==>
      exists i :: IsFirstMatch(CategoryKeywords, keyword.value, i) && CategoryKeywords[i].name == cat
    ensures !Blank(keyword) ==> (cat == OtherCategory <==>
      forall i :: 0 <= i < |CategoryKeywords| ==> !AnyWord(keyword.value, CategoryKeywords[i].words))
  {
    if Blank(keyword) then OtherCategory
    else match FirstMatch(CategoryKeywords, keyword.value)
      case Some(name) => name
      case None => OtherCategory
  }

  /** "警備の現場" holds keywords of both "警備" and "建設"; the earlier entry wins. */
  lemma DetectCategoryExample(k: string)
    requires k == "警備の現場"
    ensures DetectCategory(Some(k)) == "警備"
  {
    assert k[0..2] == "警備";
    WordAt(k, CategoryKeywords[0].words, 0, 0);
    assert !IsSpace(k[0]);
    FirstMatchIs(CategoryKeywords, k, 0);
  }

  // ---------------------------------------------------------------------------
  // Body assembly.

  /** `generate_section_content`'s text for a call that gave no content. */
  function Sentinel(name: string): string {
    "（" + name + "生成失敗）"
  }

  function ContentOr(o: Option<string>, name: string): string {
    o.GetOr(Sentinel(name))
  }

  /** `h2["h3_sub_sections"].present?`, for a list. */
  predicate H3Present(e: Entry) {
    e.h3SubSections.Some? && |e.h3SubSections.value| > 0
  }

  /** The names of the content calls an entry makes: its H3s, or its H2 title. */
  function EntryNames(e: Entry): seq<string> {
    if H3Present(e) then e.h3SubSections.value else [Interp(e.h2Title)]
  }

  /** The names of the section calls of the outline, in call order. */
  function CallNames(es: seq<Entry>): seq<string> {
    if es == [] then [] else CallNames(es[..|es| - 1]) + EntryNames(es[|es| - 1])
  }

  /** Content blocks for the calls named `names`, the first answered by call `k`. */
  function ContentBlocks(names: seq<string>, answers: seq<Option<string>>, k: nat): seq<Block> {
    if names == [] then []
    else ContentBlocks(names[..|names| - 1], answers, k)
         + [Prose(ContentOr(Answer(answers, k + |names| - 1), names[|names| - 1]))]
  }

  /** The blocks of the outline: per entry, its `## ` heading and its content blocks. */
  function ArticleBlocks(es: seq<Entry>, answers: seq<Option<string>>): seq<Block> {
    if es == [] then []
    else
      var init := es[..|es| - 1];
      var e := es[|es| - 1];
      ArticleBlocks(init, answers) + [Heading(Interp(e.h2Title))]
        + ContentBlocks(EntryNames(e), answers, 1 + |CallNames(init)|)
  }

  /** The generated article: introduction (call 0), sections, and the conclusion with no blank line after it. */
  function ArticleBody(es: seq<Entry>, answers: seq<Option<string>>): string {
    Render(ContentOr(Answer(answers, 0), IntroName), ArticleBlocks(es, answers),
           ContentOr(Answer(answers, 1 + |CallNames(es)|), ConclusionName))
  }

  /** What `generate_body` ends with: a value (`nil` or a body), or an exception. */
  datatype BodyResult = Returned(body: Option<string>) | Raises

  /** `generate_body`, as a function of the API key, the record and the oracle. */
  function GenerateBodyResult(apiKey: Option<string>, c: Column, outline: Reply<Structure>,
                              answers: seq<Option<string>>): BodyResult {
    if !Present(apiKey) then Returned(None)
    else match outline
      case NoResponse => Returned(c.body)
      case Unparseable => Returned(c.body)
      case Parsed(Missing) => Returned(c.body)
      case Parsed(NotEntries(n)) => if n < 3 then Returned(c.body) else Raises
      case Parsed(Entries(es)) => if |es| < 3 then Returned(c.body) else Returned(Some(ArticleBody(es, answers)))
  }

  /**
   * The names passed to the content calls `generate_body` makes, in order.  A
   * "structure" value of length 3 or more that is not a list of entries passes
   * the length test, so the introduction is requested before `each` raises.
   */
  function CallsMade(apiKey: Option<string>, outline: Reply<Structure>): seq<string> {
    if !Present(apiKey) || !outline.Parsed? then []
    else match outline.value
      case Entries(es) => if |es| >= 3 then [IntroName] + CallNames(es) + [ConclusionName] else []
      case NotEntries(n) => if n >= 3 then [IntroName] else []
      case Missing => []
  }

  // ---------------------------------------------------------------------------
  // Properties of the assembly.

  /** The content blocks are the answers to calls `k`, `k + 1`, ... or their sentinels. */
  lemma {:induction false} ContentBlocksTexts(names: seq<string>, answers: seq<Option<string>>, k: nat)
    ensures HeadingTitles(ContentBlocks(names, answers, k)) == []
    ensures Answered(ProseTexts(ContentBlocks(names, answers, k)), names, answers, k)
    decreases |names|
  {
    if names != [] {
      var init := names[..|names| - 1];
      var b := [Prose(ContentOr(Answer(answers, k + |names| - 1), names[|names| - 1]))];
      ContentBlocksTexts(init, answers, k);
      HeadingTitlesAppend(ContentBlocks(init, answers, k), b);
      ProseTextsAppend(ContentBlocks(init, answers, k), b);
      assert b[..0] == [];
      assert ProseTexts(ContentBlocks(names, answers, k)) == ProseTexts(ContentBlocks(init, answers, k)) + [b[0].text];
    }
  }

  /** The only headings the code writes are the outline's H2 titles, in order, one per entry. */
  lemma {:induction false} ArticleHeadings(es: seq<Entry>, answers: seq<Option<string>>)
    ensures |HeadingTitles(ArticleBlocks(es, answers))| == |es|
    ensures forall i :: 0 <= i < |es| ==> HeadingTitles(ArticleBlocks(es, answers))[i] == Interp(es[i].h2Title)
    decreases |es|
  {
    if es != [] {
      var init := es[..|es| - 1];
      var e := es[|es| - 1];
      var h := [Heading(Interp(e.h2Title))];
      var cb := ContentBlocks(EntryNames(e), answers, 1 + |CallNames(init)|);
      ArticleHeadings(init, answers);
      ContentBlocksTexts(EntryNames(e), answers, 1 + |CallNames(init)|);
      HeadingTitlesAppend(ArticleBlocks(init, answers) + h, cb);
      HeadingTitlesAppend(ArticleBlocks(init, answers), h);
      assert h[..0] == [];
      var t := HeadingTitles(ArticleBlocks(es, answers));
      assert t == HeadingTitles(ArticleBlocks(init, answers)) + [Interp(e.h2Title)];
      forall i | 0 <= i < |es| ensures t[i] == Interp(es[i].h2Title) {
        if i < |es| - 1 {
          assert init[i] == es[i];
        }
      }
    }
  }

  /**
   * The `j`-th content block is the answer to call `j + 1` (call 0 is the
   * introduction), or the sentinel carrying that call's H3 or H2 name.
   */
  lemma {:induction false} ArticleProse(es: seq<Entry>, answers: seq<Option<string>>)
    ensures Answered(ProseTexts(ArticleBlocks(es, answers)), CallNames(es), answers, 1)
    decreases |es|
  {
    if es != [] {
      var init := es[..|es| - 1];
      var e := es[|es| - 1];
      var h := [Heading(Interp(e.h2Title))];
      var k := 1 + |CallNames(init)|;
      var cb := ContentBlocks(EntryNames(e), answers, k);
      ArticleProse(init, answers);
      ContentBlocksTexts(EntryNames(e), answers, k);
      ProseTextsAppend(ArticleBlocks(init, answers) + h, cb);
      ProseTextsAppend(ArticleBlocks(init, answers), h);
      assert h[..0] == [];
      assert ProseTexts(h) == [];
      assert ArticleBlocks(es, answers) == ArticleBlocks(init, answers) + h + cb;
      assert ProseTexts(ArticleBlocks(init, answers) + h) == ProseTexts(ArticleBlocks(init, answers));
      assert ProseTexts(ArticleBlocks(es, answers)) == ProseTexts(ArticleBlocks(init, answers)) + ProseTexts(cb);
      AnsweredConcat(ProseTexts(ArticleBlocks(init, answers)), ProseTexts(cb), CallNames(init), EntryNames(e), answers);
    }
  }

  /** `texts[j]` is the answer to call `from + j`, or the sentinel named `names[j]`. */
  ghost predicate Answered(texts: seq<string>, names: seq<string>, answers: seq<Option<string>>, from: nat) {
    |texts| == |names| && forall j :: 0 <= j < |texts| ==> texts[j] == ContentOr(Answer(answers, from + j), names[j])
  }

  lemma AnsweredConcat(p1: seq<string>, p2: seq<string>, n1: seq<string>, n2: seq<string>, answers: seq<Option<string>>)
    requires Answered(p1, n1, answers, 1) && Answered(p2, n2, answers, 1 + |n1|)
    ensures Answered(p1 + p2, n1 + n2, answers, 1)
  {
    forall j | 0 <= j < |p1 + p2| ensures (p1 + p2)[j] == ContentOr(Answer(answers, 1 + j), (n1 + n2)[j]) {
      if j >= |p1| {
        assert (p1 + p2)[j] == p2[j - |p1|];
        assert (n1 + n2)[j] == n2[j - |p1|];
      }
    }
  }

  /** Calls made: the introduction, `|h3|` for an entry with H3s or 1 without, and the conclusion. */
  function SectionCalls(es: seq<Entry>): nat {
    if es == [] then 0
    else SectionCalls(es[..|es| - 1]) + (if H3Present(es[|es| - 1]) then |es[|es| - 1].h3SubSections.value| else 1)
  }

  lemma {:induction false} CallCount(es: seq<Entry>)
    ensures |CallNames(es)| == SectionCalls(es)
    decreases |es|
  {
    if es != [] {
      CallCount(es[..|es| - 1]);
    }
  }

  /** Without an API key nothing is called and `nil` is returned; a failed structure step returns the body as it was. */
  lemma FallBacks(apiKey: Option<string>, c: Column, outline: Reply<Structure>, answers: seq<Option<string>>)
    ensures !Present(apiKey) ==>
      GenerateBodyResult(apiKey, c, outline, answers) == Returned(None) && CallsMade(apiKey, outline) == []
    ensures Present(apiKey) && (outline.NoResponse? || outline.Unparseable? || outline == Parsed(Missing)
        || (outline.Parsed? && outline.value.Entries? && |outline.value.items| < 3)
        || (outline.Parsed? && outline.value.NotEntries? && outline.value.length < 3))
      ==> GenerateBodyResult(apiKey, c, outline, answers) == Returned(c.body) && CallsMade(apiKey, outline) == []
  {
  }

  /**
   * A "structure" value of length 3 or more that is not a list of entries (a
   * string, a hash): the introduction is requested, then `each` raises before
   * any section call, so the exception escapes and no body is returned.
   */
  lemma NotEntriesRaisesAfterIntro(apiKey: Option<string>, c: Column, n: nat, answers: seq<Option<string>>)
    requires Present(apiKey) && n >= 3
    ensures GenerateBodyResult(apiKey, c, Parsed(NotEntries(n)), answers) == Raises
    ensures CallsMade(apiKey, Parsed(NotEntries(n))) == [IntroName]
  {
  }

  // ---------------------------------------------------------------------------
  // The method.

  lemma ContentStep(names: seq<string>, answers: seq<Option<string>>, k: nat, j: nat)
    requires j < |names|
    ensures RenderBlocks(ContentBlocks(names[..j + 1], answers, k))
         == RenderBlocks(ContentBlocks(names[..j], answers, k)) + (ContentOr(Answer(answers, k + j), names[j]) + "\n\n")
  {
    var n := names[..j + 1];
    assert n[..|n| - 1] == names[..j] && n[|n| - 1] == names[j];
    var p := [Prose(ContentOr(Answer(answers, k + j), names[j]))];
    assert ContentBlocks(n, answers, k) == ContentBlocks(names[..j], answers, k) + p;
    RenderBlocksAppend(ContentBlocks(names[..j], answers, k), p);
    RenderBlocksLast(p);
    assert p[..0] == [];
  }

  lemma EntryStep(es: seq<Entry>, answers: seq<Option<string>>, i: nat)
    requires i < |es|
    ensures RenderBlocks(ArticleBlocks(es[..i + 1], answers))
         == RenderBlocks(ArticleBlocks(es[..i], answers))
            + ("## " + Interp(es[i].h2Title) + "\n\n" + RenderBlocks(ContentBlocks(EntryNames(es[i]), answers, 1 + |CallNames(es[..i])|)))
    ensures CallNames(es[..i + 1]) == CallNames(es[..i]) + EntryNames(es[i])
  {
    assert es[..i + 1][..i] == es[..i];
    var h := [Heading(Interp(es[i].h2Title))];
    var ab := ArticleBlocks(es[..i], answers);
    var cb := ContentBlocks(EntryNames(es[i]), answers, 1 + |CallNames(es[..i])|);
    assert ArticleBlocks(es[..i + 1], answers) == ab + h + cb;
    RenderBlocksAppend(ab + h, cb);
    RenderBlocksAppend(ab, h);
    assert h[..0] == [];
    assert RenderBlocks(h) == "## " + Interp(es[i].h2Title) + "\n\n";
    Associative(RenderBlocks(ab), RenderBlocks(h), RenderBlocks(cb));
  }

  /** Lines 72-76: one content call per H3, appended in order; `k` is the first call's index. */
  method H3Contents(names: seq<string>, answers: seq<Option<string>>, k: nat) returns (text: string)
    ensures text == RenderBlocks(ContentBlocks(names, answers, k))
  {
    text := "";
    var j := 0;
    while j < |names|
      invariant 0 <= j <= |names|
      invariant text == RenderBlocks(ContentBlocks(names[..j], answers, k))
    {
      ContentStep(names, answers, k, j);
      text := text + (ContentOr(Answer(answers, k + j), names[j]) + "\n\n");
      j := j + 1;
    }
    assert names[..j] == names;
  }

  /**
   * Lines 69-80: one H2 section, its `## ` heading then its content calls;
   * `k` is the index of its first call.  Returns the names of the calls made.
   */
  method Section(h2: Entry, answers: seq<Option<string>>, k: nat) returns (text: string, names: seq<string>)
    ensures text == "## " + Interp(h2.h2Title) + "\n\n" + RenderBlocks(ContentBlocks(EntryNames(h2), answers, k))
    ensures names == EntryNames(h2)
  {
    text := "## " + Interp(h2.h2Title) + "\n\n";
    var contents: string;
    if H3Present(h2) {
      contents := H3Contents(h2.h3SubSections.value, answers, k);
      names := h2.h3SubSections.value;
    } else {
      var t := [Interp(h2.h2Title)];
      ContentStep(t, answers, k, 0);
      assert t[..1] == t && t[..0] == [];
      contents := ContentOr(Answer(answers, k), Interp(h2.h2Title)) + "\n\n";
      names := t;
    }
    text := text + contents;
  }

  /** The loop step of `AssembleArticle`: one more section appended to the text and to the call names. */
  lemma ArticleStep(es: seq<Entry>, answers: seq<Option<string>>, i: nat, head: string, text: string, names: seq<string>)
    requires i < |es|
    requires text == "## " + Interp(es[i].h2Title) + "\n\n" + RenderBlocks(ContentBlocks(EntryNames(es[i]), answers, 1 + |CallNames(es[..i])|))
    requires names == EntryNames(es[i])
    ensures head + RenderBlocks(ArticleBlocks(es[..i], answers)) + text == head + RenderBlocks(ArticleBlocks(es[..i + 1], answers))
    ensures [IntroName] + CallNames(es[..i]) + names == [IntroName] + CallNames(es[..i + 1])
    ensures |CallNames(es[..i])| + |names| == |CallNames(es[..i + 1])|
  {
    EntryStep(es, answers, i);
    Associative(head, RenderBlocks(ArticleBlocks(es[..i], answers)), text);
    Associative([IntroName], CallNames(es[..i]), names);
  }

  /**
   * Lines 59-93: the article is built by appending, one call at a time.  `asked`
   * records the name of each content call in the order it is made.
   */
  method AssembleArticle(structure: seq<Entry>, answers: seq<Option<string>>) returns (full: string, asked: seq<string>)
    ensures full == ArticleBody(structure, answers)
    ensures asked == [IntroName] + CallNames(structure) + [ConclusionName]
  {
    var intro := ContentOr(Answer(answers, 0), IntroName);
    full := intro + "\n\n";
    asked := [IntroName];
    var k := 1;
    var i := 0;
    while i < |structure|
      invariant 0 <= i <= |structure|
      invariant k == 1 + |CallNames(structure[..i])|
      invariant asked == [IntroName] + CallNames(structure[..i])
      invariant full == intro + "\n\n" + RenderBlocks(ArticleBlocks(structure[..i], answers))
    {
      var text, names := Section(structure[i], answers, k);
      ArticleStep(structure, answers, i, intro + "\n\n", text, names);
      full := full + text;
      asked := asked + names;
      k := k + |names|;
      i := i + 1;
    }
    assert structure[..i] == structure;
    full := full + ContentOr(Answer(answers, k), ConclusionName);
    asked := asked + [ConclusionName];
  }

  /** Lines 26-94, with the network as the oracle; `asked` names the content calls made, in order. */
  method GenerateBody(apiKey: Option<string>, c: Column, outline: Reply<Structure>, answers: seq<Option<string>>)
    returns (result: BodyResult, asked: seq<string>)
    ensures result == GenerateBodyResult(apiKey, c, outline, answers)
    ensures asked == CallsMade(apiKey, outline)
  {
    asked := [];
    if !Present(apiKey) {
      return Returned(None), asked;
    }
    var originalBody := c.body;
    match outline {
      case NoResponse => return Returned(originalBody), asked;
      case Unparseable => return Returned(originalBody), asked;
      case Parsed(Missing) => return Returned(originalBody), asked;
      case Parsed(NotEntries(n)) =>
        if n < 3 {
          return Returned(originalBody), asked;
        }
        // The introduction is requested first; then `each` over a value that
        // is not a list of entries raises.
        asked := [IntroName];
        return Raises, asked;
      case Parsed(Entries(structure)) =>
        if |structure| < 3 {
          return Returned(originalBody), asked;
        }
        var full;
        full, asked := AssembleArticle(structure, answers);
        return Returned(Some(full)), asked;
    }
  }
}
