/**
 * The Markdown both generators stitch together: an introduction, then heading
 * and prose blocks, then the conclusion.  Each block is followed by a blank
 * line; a heading block is a `## ` line.
 */
module Assembly {
  import Text

  datatype Block = Heading(title: string) | Prose(text: string)

  function RenderBlock(b: Block): string {
    match b
    case Heading(t) => "## " + t + "\n\n"
    case Prose(t) => t + "\n\n"
  }

  /** The blocks rendered in order. */
  function RenderBlocks(bs: seq<Block>): string {
    if bs == [] then "" else RenderBlocks(bs[..|bs| - 1]) + RenderBlock(bs[|bs| - 1])
  }

  /** `intro + "\n\n"`, the blocks, then the conclusion with no trailing blank line. */
  function Render(intro: string, bs: seq<Block>, conclusion: string): string {
    intro + "\n\n" + RenderBlocks(bs) + conclusion
  }

  /** The titles of the heading blocks, in order. */
  function HeadingTitles(bs: seq<Block>): seq<string> {
    if bs == [] then []
    else HeadingTitles(bs[..|bs| - 1]) + (if bs[|bs| - 1].Heading? then [bs[|bs| - 1].title] else [])
  }

  /** The texts of the prose blocks, in order. */
  function ProseTexts(bs: seq<Block>): seq<string> {
    if bs == [] then []
    else ProseTexts(bs[..|bs| - 1]) + (if bs[|bs| - 1].Prose? then [bs[|bs| - 1].text] else [])
  }

  lemma {:induction false} RenderBlocksAppend(a: seq<Block>, b: seq<Block>)
    ensures RenderBlocks(a + b) == RenderBlocks(a) + RenderBlocks(b)
    decreases |b|
  {
    if b == [] {
      assert a + b == a;
    } else {
      var ab := a + b;
      var b' := b[..|b| - 1];
      assert ab[..|ab| - 1] == a + b';
      assert ab[|ab| - 1] == b[|b| - 1];
      RenderBlocksLast(ab);
      RenderBlocksLast(b);
      RenderBlocksAppend(a, b');
      Text.Associative(RenderBlocks(a), RenderBlocks(b'), RenderBlock(b[|b| - 1]));
    }
  }

  lemma RenderBlocksLast(bs: seq<Block>)
    requires bs != []
    ensures RenderBlocks(bs) == RenderBlocks(bs[..|bs| - 1]) + RenderBlock(bs[|bs| - 1])
  {
  }

  lemma {:induction false} HeadingTitlesAppend(a: seq<Block>, b: seq<Block>)
    ensures HeadingTitles(a + b) == HeadingTitles(a) + HeadingTitles(b)
    decreases |b|
  {
    if b == [] {
      assert a + b == a;
    } else {
      var b' := b[..|b| - 1];
      assert (a + b)[..|a + b| - 1] == a + b';
      HeadingTitlesAppend(a, b');
    }
  }

  lemma {:induction false} ProseTextsAppend(a: seq<Block>, b: seq<Block>)
    ensures ProseTexts(a + b) == ProseTexts(a) + ProseTexts(b)
    decreases |b|
  {
    if b == [] {
      assert a + b == a;
    } else {
      var b' := b[..|b| - 1];
      assert (a + b)[..|a + b| - 1] == a + b';
      ProseTextsAppend(a, b');
    }
  }

  /** A heading followed by its prose. */
  lemma Section(t: string, p: string)
    ensures RenderBlocks([Heading(t), Prose(p)]) == "## " + t + "\n\n" + p + "\n\n"
    ensures HeadingTitles([Heading(t), Prose(p)]) == [t]
    ensures ProseTexts([Heading(t), Prose(p)]) == [p]
  {
    var h := [Heading(t)];
    var bs := h + [Prose(p)];
    assert bs[..|bs| - 1] == h;
    assert h[..|h| - 1] == [];
    assert RenderBlocks(h) == "## " + t + "\n\n";
    assert HeadingTitles(h) == [t];
    assert ProseTexts(h) == [];
    assert bs == [Heading(t), Prose(p)];
  }
}
