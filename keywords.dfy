/** Category detection by the first table entry, in declaration order, with a keyword in the text. */
module Keywords {
  import opened Wrappers
  import opened Text

  /** One entry of a `CATEGORY_KEYWORDS` table. */
  datatype Category = Category(name: string, words: seq<string>)

  /** `words.any? { |w| text.include?(w) }`. */
  predicate AnyWord(text: string, words: seq<string>) {
    exists j | 0 <= j < |words| :: Contains(text, words[j])
  }

  /** The first index at or after `from` whose entry has a keyword in `text`, or `|table|`. */
  function FirstIndex(table: seq<Category>, text: string, from: nat): (r: nat)
    requires from <= |table|
    ensures from <= r <= |table|
    ensures forall j :: from <= j < r ==> !AnyWord(text, table[j].words)
    ensures r < |table| ==> AnyWord(text, table[r].words)
    decreases |table| - from
  {
    if from == |table| then from
    else if AnyWord(text, table[from].words) then from
    else FirstIndex(table, text, from + 1)
  }

  /** Entry `i` has a keyword in `text` and no earlier entry does. */
  predicate IsFirstMatch(table: seq<Category>, text: string, i: int) {
    && 0 <= i < |table|
    && AnyWord(text, table[i].words)
    && forall j :: 0 <= j < i ==> !AnyWord(text, table[j].words)
  }

  /** The name of the first entry with a keyword in `text`; `None` when no entry matches. */
  function FirstMatch(table: seq<Category>, text: string): (r: Option<string>)
    ensures r.None? <==> forall i :: 0 <= i < |table| ==> !AnyWord(text, table[i].words)
    ensures r.Some? ==> exists i :: IsFirstMatch(table, text, i) && table[i].name == r.value
  {
    var i := FirstIndex(table, text, 0);
    if i < |table| then Some(table[i].name) else None
  }

  /** The converse: an entry that matches, after entries that do not, is the one chosen. */
  lemma FirstMatchIs(table: seq<Category>, text: string, i: nat)
    requires IsFirstMatch(table, text, i)
    ensures FirstMatch(table, text) == Some(table[i].name)
  {
    var k := FirstIndex(table, text, 0);
    assert !(k < i) && !(i < k);
  }

  /** A keyword found in the text is a match for its entry. */
  lemma WordAt(text: string, words: seq<string>, j: nat, at: nat)
    requires j < |words| && OccursAt(text, words[j], at)
    ensures AnyWord(text, words)
  {
  }
}
