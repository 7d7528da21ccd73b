/**
 * `ColumnsController`: the public and draft listings, the `show` page (its
 * canonical-path redirect and its pass over the rendered HTML), and the admin
 * actions that approve records and enqueue body jobs.
 */
module ColumnsController {
  import opened Wrappers
  import opened Text
  import opened Schema
  import GeminiGenerator

  // ---------------------------------------------------------------- listings

  /** A body that is neither NULL nor the empty string (`where.not(body: [nil, ""])`). */
  predicate HasBody(c: Column) {
    c.body.Some? && c.body.value != ""
  }

  /** The base condition of the public listing: a status other than "draft" (NULL fails SQL's `<>`) and a body. */
  predicate Published(c: Column) {
    c.status.Some? && c.status.value != Draft && HasBody(c)
  }

  /** The optional `status`, `article_type` and `genre` query parameters of the listing. */
  datatype IndexParams = IndexParams(status: Option<string>, articleType: Option<string>, genre: Option<string>)

  /** `Column::GENRE_MAPPING[genre] || [genre]`; the mapping belongs to the record model and is a parameter here. */
  function AllowedGenres(genreMapping: map<string, seq<string>>, g: string): seq<string> {
    if g in genreMapping then genreMapping[g] else [g]
  }

  /** Whether a record survives every `where` of `index`; each parameter narrows only when present. */
  predicate IndexMatch(c: Column, p: IndexParams, genreMapping: map<string, seq<string>>) {
    && Published(c)
    && (Present(p.status) ==> c.status == p.status)
    && (Present(p.articleType) ==> c.articleType == p.articleType.value)
    && (Present(p.genre) ==> c.genre.Some? && c.genre.value in AllowedGenres(genreMapping, p.genre.value))
  }

  /** The timestamp an `order(...: :desc)` sorts on. */
  datatype OrderKey = UpdatedAt | CreatedAt

  function KeyOf(c: Column, k: OrderKey): int {
    if k == UpdatedAt then c.updatedAt else c.createdAt
  }

  predicate Descending(cs: seq<Column>, k: OrderKey) {
    forall i, j :: 0 <= i < j < |cs| ==> KeyOf(cs[i], k) >= KeyOf(cs[j], k)
  }

  /** Prepending a key no smaller than every key of a descending list keeps it descending. */
  lemma DescendingCons(a: Column, rest: seq<Column>, k: OrderKey)
    requires Descending(rest, k)
    requires forall x :: x in rest ==> KeyOf(a, k) >= KeyOf(x, k)
    ensures Descending([a] + rest, k)
  {
    forall i, j | 0 <= i < j < |[a] + rest| ensures KeyOf(([a] + rest)[i], k) >= KeyOf(([a] + rest)[j], k) {
      assert ([a] + rest)[j] == rest[j - 1];
      if i > 0 {
        assert ([a] + rest)[i] == rest[i - 1];
      }
    }
  }

  /** Places `c` into a descending list, before the first element whose key is not larger. */
  function InsertDesc(c: Column, cs: seq<Column>, k: OrderKey): (r: seq<Column>)
    requires Descending(cs, k)
    ensures Descending(r, k)
    ensures multiset(r) == multiset(cs) + multiset{c}
  {
    if cs == [] then [c]
    else if KeyOf(cs[0], k) <= KeyOf(c, k) then
      DescendingCons(c, cs, k);
      [c] + cs
    else
      var rest := InsertDesc(c, cs[1..], k);
      assert cs == [cs[0]] + cs[1..];
      assert forall x :: x in rest ==> KeyOf(cs[0], k) >= KeyOf(x, k) by {
        forall x | x in rest ensures KeyOf(cs[0], k) >= KeyOf(x, k) {
          assert x in multiset(rest);
          if x != c {
            var j :| 0 <= j < |cs[1..]| && cs[1..][j] == x;
            assert cs[j + 1] == x;
          }
        }
      }
      DescendingCons(cs[0], rest, k);
      [cs[0]] + rest
  }

  /**
   * `order(key: :desc)`: the same records, newest first.  SQL leaves the order of
   * equal keys open; this model keeps one of the admissible orders.
   */
  function OrderDesc(cs: seq<Column>, k: OrderKey): (r: seq<Column>)
    ensures Descending(r, k)
    ensures multiset(r) == multiset(cs)
  {
    if cs == [] then []
    else
      assert cs == [cs[0]] + cs[1..];
      InsertDesc(cs[0], OrderDesc(cs[1..], k), k)
  }

  /** `where(condition)`: the rows that satisfy `f`, each as often as in the table. */
  function Where(rows: seq<Column>, f: Column -> bool): (r: seq<Column>)
    ensures forall c :: multiset(r)[c] == if f(c) then multiset(rows)[c] else 0
  {
    if rows == [] then []
    else
      var init := rows[..|rows| - 1];
      var last := rows[|rows| - 1];
      assert rows == init + [last];
      Where(init, f) + (if f(last) then [last] else [])
  }

  /** `@columns` of `index`: exactly the matching records, ordered by `updated_at` descending. */
  function Index(rows: seq<Column>, p: IndexParams, genreMapping: map<string, seq<string>>): (listed: seq<Column>)
    ensures Descending(listed, UpdatedAt)
    ensures forall c :: multiset(listed)[c] == if IndexMatch(c, p, genreMapping) then multiset(rows)[c] else 0
    ensures forall c :: c in listed <==> c in rows && IndexMatch(c, p, genreMapping)
  {
    var matching := Where(rows, c => IndexMatch(c, p, genreMapping));
    var r := OrderDesc(matching, UpdatedAt);
    assert forall c :: c in r <==> c in multiset(r);
    r
  }

  /** The `id`s of a listing, in order (`map(&:id)`). */
  function Ids(cs: seq<Column>): (ids: seq<int>)
    ensures |ids| == |cs| && forall i :: 0 <= i < |cs| ==> ids[i] == cs[i].id
  {
    if cs == [] then [] else Ids(cs[..|cs| - 1]) + [cs[|cs| - 1].id]
  }

  /** The number of rows with `parent_id == p` and a body. */
  function ChildCount(rows: seq<Column>, p: int): (n: nat)
    ensures n <= |rows|
  {
    if rows == [] then 0
    else
      var last := rows[|rows| - 1];
      ChildCount(rows[..|rows| - 1], p) + (if last.parentId == Some(p) && HasBody(last) then 1 else 0)
  }

  /** A parent's count is positive exactly when some row is its child and has a body. */
  lemma {:induction false} ChildCountPositive(rows: seq<Column>, p: int)
    ensures ChildCount(rows, p) > 0 <==> exists i :: 0 <= i < |rows| && rows[i].parentId == Some(p) && HasBody(rows[i])
  {
    if rows != [] {
      var init := rows[..|rows| - 1];
      ChildCountPositive(init, p);
      if ChildCount(init, p) > 0 {
        var i :| 0 <= i < |init| && init[i].parentId == Some(p) && HasBody(init[i]);
        assert rows[i] == init[i];
      }
      if exists i :: 0 <= i < |rows| && rows[i].parentId == Some(p) && HasBody(rows[i]) {
        var i :| 0 <= i < |rows| && rows[i].parentId == Some(p) && HasBody(rows[i]);
        if i < |init| {
          assert init[i] == rows[i];
        }
      }
    }
  }

  /**
   * `@child_counts`: `where(parent_id: ids).where.not(body: [nil, ""]).group(:parent_id).count`.
   * A `GROUP BY` yields no entry for a parent without children, and no ids give `{}`.
   */
  function ChildCounts(rows: seq<Column>, ids: seq<int>): (m: map<int, nat>)
    ensures forall p :: p in m <==> p in ids && exists i :: 0 <= i < |rows| && rows[i].parentId == Some(p) && HasBody(rows[i])
    ensures forall p :: p in m ==> m[p] == ChildCount(rows, p) && 0 < m[p] <= |rows|
    ensures ids == [] ==> m == map[]
  {
    var m := map p | p in ids && ChildCount(rows, p) > 0 :: ChildCount(rows, p);
    assert forall p :: p in m <==> p in ids && exists i :: 0 <= i < |rows| && rows[i].parentId == Some(p) && HasBody(rows[i]) by {
      forall p ensures p in m <==> p in ids && exists i :: 0 <= i < |rows| && rows[i].parentId == Some(p) && HasBody(rows[i]) {
        ChildCountPositive(rows, p);
      }
    }
    m
  }

  /** `index`: the listing and the child counts of the listed records. */
  function IndexPage(rows: seq<Column>, p: IndexParams, genreMapping: map<string, seq<string>>): (r: (seq<Column>, map<int, nat>))
    ensures r.0 == Index(rows, p, genreMapping)
    ensures forall q :: q in r.1 ==> exists c :: c in r.0 && c.id == q
  {
    var listed := Index(rows, p, genreMapping);
    var ids := Ids(listed);
    assert forall q :: q in ids ==> exists c :: c in listed && c.id == q by {
      forall q | q in ids ensures exists c :: c in listed && c.id == q {
        var i :| 0 <= i < |ids| && ids[i] == q;
        assert listed[i] in listed;
      }
    }
    (listed, ChildCounts(rows, ids))
  }

  /** Asking `index` for `status=draft` lists nothing: the base condition already excludes drafts. */
  lemma DraftStatusListsNothing(rows: seq<Column>, p: IndexParams, genreMapping: map<string, seq<string>>)
    requires p.status == Some(Draft)
    ensures Index(rows, p, genreMapping) == []
  {
    assert !IsSpace(Draft[0]);
    assert Present(p.status);
    assert forall c :: !IndexMatch(c, p, genreMapping);
    var listed := Index(rows, p, genreMapping);
    assert multiset(listed) == multiset{};
  }

  /** The condition of `draft`: status "draft", or a NULL or empty body. */
  predicate DraftListed(c: Column) {
    c.status == Some(Draft) || !HasBody(c)
  }

  /** `@columns` of `draft`: exactly the records in draft or without body, newest `created_at` first. */
  function DraftList(rows: seq<Column>): (listed: seq<Column>)
    ensures Descending(listed, CreatedAt)
    ensures forall c :: multiset(listed)[c] == if DraftListed(c) then multiset(rows)[c] else 0
    ensures forall c :: c in listed <==> c in rows && DraftListed(c)
  {
    var r := OrderDesc(Where(rows, DraftListed), CreatedAt);
    assert forall c :: c in r <==> c in multiset(r);
    r
  }

  /**
   * The two listings split the records with a status: each such record is in
   * exactly one of them.  A record with a NULL status and a body is in neither.
   */
  lemma ListingsSplit(rows: seq<Column>, c: Column)
    requires c in rows
    ensures c.status.Some? ==> (c in Index(rows, IndexParams(None, None, None), map[]) <==> c !in DraftList(rows))
    ensures c.status.None? && HasBody(c) ==> c !in Index(rows, IndexParams(None, None, None), map[]) && c !in DraftList(rows)
  {
  }

  // ------------------------------------------------------------- show: path

  /** The genres of the nested route, which `show` tests with an unanchored `match?`. */
  const RouteGenres: seq<string> := ["cargo", "security", "cleaning", "app", "construction"]

  /** `genre.present? && genre.match?(/cargo|security|cleaning|app|construction/)`. */
  predicate GenreMatches(genre: Option<string>) {
    Present(genre) && exists w :: w in RouteGenres && Contains(genre.value, w)
  }

  /**
   * The canonical path of a record, or `None` where Rails cannot build it: the
   * nested route's constraint is anchored, so a genre that only contains a route
   * genre fails, and so does a missing or empty `code`.  `toParam` is
   * `column_path`'s parameter (the friendly slug or the id).
   */
  function CanonicalPath(c: Column, toParam: string): (path: Option<string>)
    ensures !GenreMatches(c.genre) ==> path == Some("/columns/" + toParam)
    ensures GenreMatches(c.genre) && path.Some? ==>
      c.genre.value in RouteGenres && c.code.Some? && c.code.value != [] &&
      path.value == "/" + c.genre.value + "/columns/" + c.code.value
    ensures GenreMatches(c.genre) && c.genre.value in RouteGenres && c.code.Some? && c.code.value != [] ==> path.Some?
  {
    if GenreMatches(c.genre) then
      if c.genre.value in RouteGenres && c.code.Some? && c.code.value != [] then
        Some("/" + c.genre.value + "/columns/" + c.code.value)
      else None
    else Some("/columns/" + toParam)
  }

  /** A genre that merely contains a route genre passes `show`'s test but not the route's constraint. */
  lemma ContainedGenreFails(c: Column, toParam: string)
    requires c.genre == Some("app-cargo")
    ensures GenreMatches(c.genre) && CanonicalPath(c, toParam) == None
  {
    assert !IsSpace(c.genre.value[0]);
    assert OccursAt(c.genre.value, "app", 0);
    assert "app" in RouteGenres;
  }

  // ------------------------------------------------------------- show: HTML

  /** One attribute of a rendered tag. */
  datatype Attr = Attr(name: string, value: string)

  /** Rendered HTML, as the token stream of the Markdown converter's output. */
  datatype Token = Text(text: string) | Open(tag: string, attrs: seq<Attr>) | Close(tag: string)

  /** What `/<span[^>]*>|<\/span>/` removes: an opening tag whose name starts with "span", or `</span>`. */
  predicate IsSpanTag(t: Token) {
    (t.Open? && |t.tag| >= 4 && t.tag[..4] == "span") || t == Close("span")
  }

  /** The first `gsub`: every span tag is dropped, every other token kept in order. */
  function StripSpans(ts: seq<Token>): (r: seq<Token>)
    ensures forall t :: t in r <==> t in ts && !IsSpanTag(t)
    ensures |r| <= |ts|
  {
    if ts == [] then []
    else
      var init := StripSpans(ts[..|ts| - 1]);
      var last := ts[|ts| - 1];
      assert ts == ts[..|ts| - 1] + [last];
      init + (if IsSpanTag(last) then [] else [last])
  }

  /** The attributes without any `style` attribute, the others kept in order. */
  function WithoutStyle(attrs: seq<Attr>): (r: seq<Attr>)
    ensures forall a :: a in r <==> a in attrs && a.name != "style"
  {
    if attrs == [] then []
    else
      var init := WithoutStyle(attrs[..|attrs| - 1]);
      var last := attrs[|attrs| - 1];
      assert attrs == attrs[..|attrs| - 1] + [last];
      init + (if last.name == "style" then [] else [last])
  }

  /** The second `gsub`: every `style` attribute is dropped; tokens stay where they are. */
  function StripStyles(ts: seq<Token>): (r: seq<Token>)
    ensures |r| == |ts|
    ensures forall i :: 0 <= i < |ts| ==> (ts[i].Open? <==> r[i].Open?)
    ensures forall i :: 0 <= i < |ts| && !ts[i].Open? ==> r[i] == ts[i]
    ensures forall i :: 0 <= i < |ts| && ts[i].Open? ==> r[i] == Open(ts[i].tag, WithoutStyle(ts[i].attrs))
  {
    seq(|ts|, i requires 0 <= i < |ts| => if ts[i].Open? then Open(ts[i].tag, WithoutStyle(ts[i].attrs)) else ts[i])
  }

  /** `sanitized_html_body`: no span tag and no `style` attribute is left. */
  function SanitizeHtml(ts: seq<Token>): (r: seq<Token>)
    ensures forall i :: 0 <= i < |r| ==> !IsSpanTag(r[i])
    ensures forall i, a :: 0 <= i < |r| && r[i].Open? && a in r[i].attrs ==> a.name != "style"
  {
    var s := StripSpans(ts);
    var r := StripStyles(s);
    assert forall i :: 0 <= i < |r| ==> !IsSpanTag(r[i]) by {
      forall i | 0 <= i < |r| ensures !IsSpanTag(r[i]) {
        assert s[i] in s;
      }
    }
    r
  }

  /** The tags `/<(h[2-4])>/` accepts. */
  predicate IsHeadingTag(tag: string) {
    tag == "h2" || tag == "h3" || tag == "h4"
  }

  /** An opening heading tag with no attribute, the only form the pattern `<h2>` matches. */
  predicate IsBareHeading(t: Token) {
    t.Open? && IsHeadingTag(t.tag) && t.attrs == []
  }

  /** `tag[1].to_i`: the digit after the "h". */
  function Level(tag: string): (n: nat)
    ensures IsHeadingTag(tag) ==> 2 <= n <= 4 && n == tag[1] as int - '0' as int
  {
    if |tag| >= 2 && '0' <= tag[1] <= '9' then tag[1] as int - '0' as int else 0
  }

  /** `"heading-#{idx}"`. */
  function HeadingId(idx: nat): string {
    "heading-" + NatToString(idx)
  }

  /** Distinct indices give distinct ids. */
  lemma HeadingIdsDistinct(a: nat, b: nat)
    requires a != b
    ensures HeadingId(a) != HeadingId(b)
  {
    if HeadingId(a) == HeadingId(b) {
      assert NatToString(a) == HeadingId(a)[8..];
      assert NatToString(b) == HeadingId(b)[8..];
      NatToStringInjective(a, b);
    }
  }

  /** One entry of `@headings`: the tag, the inner markup, the id and the level. */
  datatype HeadingEntry = HeadingEntry(tag: string, inner: seq<Token>, id: string, level: nat)

  /** The position of the first `Close(tag)` at or after `from` (the lazy `.*?` stops there). */
  function FindClose(ts: seq<Token>, tag: string, from: nat): (r: Option<nat>)
    ensures r.Some? ==> from <= r.value < |ts| && ts[r.value] == Close(tag)
    ensures r.Some? ==> forall j :: from <= j < r.value ==> ts[j] != Close(tag)
    ensures r.None? ==> forall j :: from <= j < |ts| ==> ts[j] != Close(tag)
    decreases |ts| - from
  {
    if from >= |ts| then None
    else if ts[from] == Close(tag) then Some(from)
    else FindClose(ts, tag, from + 1)
  }

  /** The rewritten markup and the collected headings. */
  datatype Numbered = Numbered(html: seq<Token>, headings: seq<HeadingEntry>)

  /**
   * The third `gsub`, scanning from the left with the next index `k`: a bare
   * heading with a matching close is rewritten with id "heading-k" and recorded,
   * and the scan resumes after the close; every other token is kept.
   */
  function NumberFrom(ts: seq<Token>, k: nat): Numbered
    decreases |ts|
  {
    if ts == [] then Numbered([], [])
    else if IsBareHeading(ts[0]) && FindClose(ts, ts[0].tag, 1).Some? then
      var j := FindClose(ts, ts[0].tag, 1).value;
      var rest := NumberFrom(ts[j + 1..], k + 1);
      Numbered([Open(ts[0].tag, [Attr("id", HeadingId(k))])] + ts[1..j + 1] + rest.html,
               [HeadingEntry(ts[0].tag, ts[1..j], HeadingId(k), Level(ts[0].tag))] + rest.headings)
    else
      var rest := NumberFrom(ts[1..], k);
      Numbered([ts[0]] + rest.html, rest.headings)
  }

  /** `u` is the rewritten form of the bare heading `t`, with an id "heading-q" for some `lo <= q < hi`. */
  predicate Renumbered(t: Token, u: Token, lo: nat, hi: nat) {
    IsBareHeading(t) && exists q :: lo <= q < hi && u == Open(t.tag, [Attr("id", HeadingId(q))])
  }

  /** An entry with id `k` in front of entries numbered from `k + 1` gives entries numbered from `k`. */
  lemma IdsCons(e: HeadingEntry, rest: seq<HeadingEntry>, k: nat)
    requires e.id == HeadingId(k) && IsHeadingTag(e.tag) && e.level == Level(e.tag)
    requires forall q :: 0 <= q < |rest| ==>
      rest[q].id == HeadingId(k + 1 + q) && IsHeadingTag(rest[q].tag) && rest[q].level == Level(rest[q].tag)
    ensures forall q :: 0 <= q < |[e] + rest| ==>
      var f := ([e] + rest)[q];
      f.id == HeadingId(k + q) && IsHeadingTag(f.tag) && f.level == Level(f.tag)
  {
    forall q | 0 < q < |[e] + rest|
      ensures ([e] + rest)[q] == rest[q - 1] && k + q == k + 1 + (q - 1)
    {
    }
  }

  /** The markup keeps its length, and the entries carry the ids `k, k + 1, ...` in document order, each with its tag's level. */
  lemma {:induction false} NumberedIds(ts: seq<Token>, k: nat)
    ensures |NumberFrom(ts, k).html| == |ts|
    ensures forall q :: 0 <= q < |NumberFrom(ts, k).headings| ==>
      var e := NumberFrom(ts, k).headings[q];
      e.id == HeadingId(k + q) && IsHeadingTag(e.tag) && e.level == Level(e.tag)
    decreases |ts|
  {
    if ts != [] {
      if IsBareHeading(ts[0]) && FindClose(ts, ts[0].tag, 1).Some? {
        var j := FindClose(ts, ts[0].tag, 1).value;
        NumberedIds(ts[j + 1..], k + 1);
        var rest := NumberFrom(ts[j + 1..], k + 1).headings;
        var e := HeadingEntry(ts[0].tag, ts[1..j], HeadingId(k), Level(ts[0].tag));
        assert NumberFrom(ts, k).headings == [e] + rest;
        IdsCons(e, rest, k);
      } else {
        NumberedIds(ts[1..], k);
      }
    }
  }

  /** Position by position, `html` keeps the token of `ts` or holds its bare heading rewritten with an id in `lo..hi`. */
  ghost predicate KeptOrRenumbered(ts: seq<Token>, html: seq<Token>, lo: nat, hi: nat) {
    |html| == |ts| && forall p :: 0 <= p < |ts| ==> html[p] == ts[p] || Renumbered(ts[p], html[p], lo, hi)
  }

  lemma KeptSame(ts: seq<Token>, lo: nat, hi: nat)
    ensures KeptOrRenumbered(ts, ts, lo, hi)
  {
  }

  lemma KeptAppend(ts1: seq<Token>, html1: seq<Token>, ts2: seq<Token>, html2: seq<Token>, lo: nat, hi: nat)
    requires KeptOrRenumbered(ts1, html1, lo, hi) && KeptOrRenumbered(ts2, html2, lo, hi)
    ensures KeptOrRenumbered(ts1 + ts2, html1 + html2, lo, hi)
  {
    var ts, html := ts1 + ts2, html1 + html2;
    forall p | 0 <= p < |ts| ensures html[p] == ts[p] || Renumbered(ts[p], html[p], lo, hi) {
      if p >= |ts1| {
        assert html[p] == html2[p - |ts1|] && ts[p] == ts2[p - |ts1|];
      } else {
        assert html[p] == html1[p] && ts[p] == ts1[p];
      }
    }
  }

  lemma KeptWiden(ts: seq<Token>, html: seq<Token>, lo: nat, hi: nat, lo': nat, hi': nat)
    requires KeptOrRenumbered(ts, html, lo, hi) && lo' <= lo && hi <= hi'
    ensures KeptOrRenumbered(ts, html, lo', hi')
  {
  }

  /** Every position keeps its token, or holds a bare heading rewritten with one of the ids handed out. */
  lemma {:induction false} NumberedPositions(ts: seq<Token>, k: nat)
    ensures KeptOrRenumbered(ts, NumberFrom(ts, k).html, k, k + |NumberFrom(ts, k).headings|)
    decreases |ts|
  {
    if ts == [] {
    } else if IsBareHeading(ts[0]) && FindClose(ts, ts[0].tag, 1).Some? {
      var r := NumberFrom(ts, k);
      var j := FindClose(ts, ts[0].tag, 1).value;
      var tail := ts[j + 1..];
      var rest := NumberFrom(tail, k + 1);
      var hi := k + |r.headings|;
      var open := Open(ts[0].tag, [Attr("id", HeadingId(k))]);
      NumberedPositions(tail, k + 1);
      assert |r.headings| == 1 + |rest.headings|;
      KeptWiden(tail, rest.html, k + 1, k + 1 + |rest.headings|, k, hi);
      assert Renumbered(ts[0], open, k, hi);
      assert KeptOrRenumbered([ts[0]], [open], k, hi);
      KeptSame(ts[1..j + 1], k, hi);
      KeptAppend([ts[0]], [open], ts[1..j + 1], ts[1..j + 1], k, hi);
      KeptAppend([ts[0]] + ts[1..j + 1], [open] + ts[1..j + 1], tail, rest.html, k, hi);
      assert ts == [ts[0]] + ts[1..j + 1] + tail;
    } else {
      var rest := NumberFrom(ts[1..], k);
      var hi := k + |rest.headings|;
      NumberedPositions(ts[1..], k);
      KeptSame([ts[0]], k, hi);
      KeptAppend([ts[0]], [ts[0]], ts[1..], rest.html, k, hi);
      assert ts == [ts[0]] + ts[1..];
    }
  }

  /**
   * Entry `e` belongs to a rewritten heading at position `p`: the input holds a
   * bare opening tag there, then the inner markup, then the matching close, and
   * the output holds the tag with the entry's id.
   */
  predicate EntryAt(ts: seq<Token>, html: seq<Token>, e: HeadingEntry, p: int) {
    0 <= p && p + |e.inner| + 1 < |ts| && |html| == |ts| &&
    IsBareHeading(ts[p]) && ts[p].tag == e.tag &&
    ts[p + 1..p + 1 + |e.inner|] == e.inner && ts[p + 1 + |e.inner|] == Close(e.tag) &&
    html[p] == Open(e.tag, [Attr("id", e.id)])
  }

  /** Each entry belongs to one rewritten heading of the input. */
  ghost predicate EntriesPlaced(ts: seq<Token>, r: Numbered) {
    AllPlaced(ts, r.html, r.headings)
  }

  ghost predicate AllPlaced(ts: seq<Token>, html: seq<Token>, hs: seq<HeadingEntry>) {
    forall q :: 0 <= q < |hs| ==> Placed(ts, html, hs[q])
  }

  /** Entry `e` belongs to a rewritten heading at some position. */
  ghost predicate Placed(ts: seq<Token>, html: seq<Token>, e: HeadingEntry) {
    exists p :: EntryAt(ts, html, e, p)
  }

  /** The entries of the scan belong to rewritten headings of the input. */
  lemma {:induction false} NumberedEntries(ts: seq<Token>, k: nat)
    ensures EntriesPlaced(ts, NumberFrom(ts, k))
    decreases |ts|, 1
  {
    if ts != [] {
      if IsBareHeading(ts[0]) && FindClose(ts, ts[0].tag, 1).Some? {
        EntriesAfterHeading(ts, k);
      } else {
        EntriesAfterToken(ts, k);
      }
    }
  }

  /** An entry placed in a suffix of the input is placed in the whole input, `d` positions further on. */
  lemma ShiftEntry(ts: seq<Token>, d: nat, html: seq<Token>, tailHtml: seq<Token>, e: HeadingEntry, p: int)
    requires d <= |ts| && |html| == |ts|
    requires EntryAt(ts[d..], tailHtml, e, p)
    requires forall i :: 0 <= i < |tailHtml| ==> html[d + i] == tailHtml[i]
    ensures EntryAt(ts, html, e, p + d)
  {
    var n := |e.inner|;
    assert ts[p + d + 1..p + d + 1 + n] == ts[d..][p + 1..p + 1 + n];
    assert html[p + d] == tailHtml[p];
  }

  /** The entry for a heading rewritten at the front of the input is placed at position 0. */
  lemma FrontEntry(ts: seq<Token>, j: nat, html: seq<Token>, e: HeadingEntry, id: string)
    requires 0 < j < |ts| == |html| && IsBareHeading(ts[0]) && ts[j] == Close(ts[0].tag)
    requires e == HeadingEntry(ts[0].tag, ts[1..j], id, Level(ts[0].tag))
    requires html[0] == Open(ts[0].tag, [Attr("id", id)])
    ensures EntryAt(ts, html, e, 0)
  {
    assert |e.inner| == j - 1;
  }

  /** Entries placed in a suffix of the input are placed in the whole input. */
  lemma ShiftAll(ts: seq<Token>, d: nat, html: seq<Token>, tailHtml: seq<Token>, hs: seq<HeadingEntry>)
    requires d <= |ts| && |html| == |ts| && d + |tailHtml| <= |html|
    requires AllPlaced(ts[d..], tailHtml, hs)
    requires forall i :: 0 <= i < |tailHtml| ==> html[d + i] == tailHtml[i]
    ensures AllPlaced(ts, html, hs)
  {
    forall q | 0 <= q < |hs| ensures Placed(ts, html, hs[q]) {
      var p' :| EntryAt(ts[d..], tailHtml, hs[q], p');
      ShiftEntry(ts, d, html, tailHtml, hs[q], p');
    }
  }

  lemma PlacedCons(ts: seq<Token>, html: seq<Token>, e: HeadingEntry, hs: seq<HeadingEntry>)
    requires Placed(ts, html, e) && AllPlaced(ts, html, hs)
    ensures AllPlaced(ts, html, [e] + hs)
  {
    forall q | 0 < q < |[e] + hs| ensures ([e] + hs)[q] == hs[q - 1] {
    }
  }

  /** `NumberedEntries` when the scan rewrites the heading at the front. */
  lemma {:induction false} EntriesAfterHeading(ts: seq<Token>, k: nat)
    requires ts != [] && IsBareHeading(ts[0]) && FindClose(ts, ts[0].tag, 1).Some?
    ensures EntriesPlaced(ts, NumberFrom(ts, k))
    decreases |ts|, 0
  {
    var r := NumberFrom(ts, k);
    var j := FindClose(ts, ts[0].tag, 1).value;
    var rest := NumberFrom(ts[j + 1..], k + 1);
    var e := HeadingEntry(ts[0].tag, ts[1..j], HeadingId(k), Level(ts[0].tag));
    NumberedIds(ts, k);
    NumberedIds(ts[j + 1..], k + 1);
    NumberedEntries(ts[j + 1..], k + 1);
    var head := [Open(ts[0].tag, [Attr("id", HeadingId(k))])] + ts[1..j + 1];
    assert r.html == head + rest.html;
    assert forall i :: 0 <= i < |rest.html| ==> r.html[j + 1 + i] == rest.html[i];
    ShiftAll(ts, j + 1, r.html, rest.html, rest.headings);
    FrontEntry(ts, j, r.html, e, HeadingId(k));
    PlacedCons(ts, r.html, e, rest.headings);
    assert r.headings == [e] + rest.headings;
  }

  /** `NumberedEntries` when the scan keeps the front token. */
  lemma {:induction false} EntriesAfterToken(ts: seq<Token>, k: nat)
    requires ts != [] && !(IsBareHeading(ts[0]) && FindClose(ts, ts[0].tag, 1).Some?)
    ensures EntriesPlaced(ts, NumberFrom(ts, k))
    decreases |ts|, 0
  {
    var r := NumberFrom(ts, k);
    var rest := NumberFrom(ts[1..], k);
    NumberedIds(ts, k);
    NumberedIds(ts[1..], k);
    NumberedEntries(ts[1..], k);
    assert r.html == [ts[0]] + rest.html && r.headings == rest.headings;
    assert forall i :: 0 <= i < |rest.html| ==> r.html[1 + i] == rest.html[i];
    ShiftAll(ts, 1, r.html, rest.html, rest.headings);
  }

  /** No two entries share an id. */
  lemma HeadingIdsUnique(ts: seq<Token>, k: nat)
    ensures forall a, b :: 0 <= a < b < |NumberFrom(ts, k).headings| ==>
      NumberFrom(ts, k).headings[a].id != NumberFrom(ts, k).headings[b].id
  {
    NumberedIds(ts, k);
    forall a, b | 0 <= a < b < |NumberFrom(ts, k).headings|
      ensures NumberFrom(ts, k).headings[a].id != NumberFrom(ts, k).headings[b].id
    {
      HeadingIdsDistinct(k + a, k + b);
    }
  }

  /** Markup without a bare heading passes through unchanged and yields no entry. */
  lemma {:induction false} NoHeadingUnchanged(ts: seq<Token>, k: nat)
    requires forall p :: 0 <= p < |ts| ==> !IsBareHeading(ts[p])
    ensures NumberFrom(ts, k) == Numbered(ts, [])
    decreases |ts|
  {
    if ts != [] {
      NoHeadingUnchanged(ts[1..], k);
      assert ts == [ts[0]] + ts[1..];
    }
  }

  /** `FindClose` returns the first close at or after `from`, whichever way it is found. */
  lemma FindCloseIs(ts: seq<Token>, tag: string, from: nat, j: nat)
    requires from <= j < |ts| && ts[j] == Close(tag)
    requires forall m :: from <= m < j ==> ts[m] != Close(tag)
    ensures FindClose(ts, tag, from) == Some(j)
  {
  }

  /** One step of the scan at position `i`, where a bare heading finds its first close at `j`. */
  lemma ScanHeading(ts: seq<Token>, i: nat, j: nat, k: nat)
    requires i < j < |ts| && IsBareHeading(ts[i]) && ts[j] == Close(ts[i].tag)
    requires forall m :: i < m < j ==> ts[m] != Close(ts[i].tag)
    ensures var rest := NumberFrom(ts[j + 1..], k + 1);
      NumberFrom(ts[i..], k) ==
        Numbered([Open(ts[i].tag, [Attr("id", HeadingId(k))])] + ts[i + 1..j + 1] + rest.html,
                 [HeadingEntry(ts[i].tag, ts[i + 1..j], HeadingId(k), Level(ts[i].tag))] + rest.headings)
  {
    var u := ts[i..];
    FindCloseIs(u, ts[i].tag, 1, j - i);
    assert u[1..j - i + 1] == ts[i + 1..j + 1];
    assert u[1..j - i] == ts[i + 1..j];
    assert u[j - i + 1..] == ts[j + 1..];
  }

  /** One step of the scan at position `i`, where the token is kept. */
  lemma ScanToken(ts: seq<Token>, i: nat, k: nat)
    requires i < |ts|
    requires !IsBareHeading(ts[i]) || forall m :: i < m < |ts| ==> ts[m] != Close(ts[i].tag)
    ensures NumberFrom(ts[i..], k) ==
      Numbered([ts[i]] + NumberFrom(ts[i + 1..], k).html, NumberFrom(ts[i + 1..], k).headings)
  {
    var u := ts[i..];
    assert u[1..] == ts[i + 1..];
    if IsBareHeading(ts[i]) {
      assert forall m :: 1 <= m < |u| ==> u[m] != Close(u[0].tag);
    }
  }

  /** The scan has produced `html` and `headings` from `ts[..i]`; the rest of the result is the scan of `ts[i..]`. */
  ghost predicate Scanned(ts: seq<Token>, i: nat, html: seq<Token>, headings: seq<HeadingEntry>) {
    i <= |ts| &&
    var rest := NumberFrom(ts[i..], |headings|);
    NumberFrom(ts, 0) == Numbered(html + rest.html, headings + rest.headings)
  }

  /** Rewriting the heading at `i`, closed at `j`, extends the scanned prefix to `j + 1`. */
  lemma HeadingScanned(ts: seq<Token>, i: nat, j: nat, html: seq<Token>, headings: seq<HeadingEntry>)
    requires Scanned(ts, i, html, headings)
    requires i < j < |ts| && IsBareHeading(ts[i]) && ts[j] == Close(ts[i].tag)
    requires forall m :: i < m < j ==> ts[m] != Close(ts[i].tag)
    ensures Scanned(ts, j + 1,
      html + ([Open(ts[i].tag, [Attr("id", HeadingId(|headings|))])] + ts[i + 1..j + 1]),
      headings + [HeadingEntry(ts[i].tag, ts[i + 1..j], HeadingId(|headings|), Level(ts[i].tag))])
  {
    var k := |headings|;
    var rewritten := [Open(ts[i].tag, [Attr("id", HeadingId(k))])] + ts[i + 1..j + 1];
    var entry := HeadingEntry(ts[i].tag, ts[i + 1..j], HeadingId(k), Level(ts[i].tag));
    var rest := NumberFrom(ts[j + 1..], k + 1);
    ScanHeading(ts, i, j, k);
    Associative(html, rewritten, rest.html);
    Associative(headings, [entry], rest.headings);
  }

  /** Keeping the token at `i` extends the scanned prefix to `i + 1`. */
  lemma TokenScanned(ts: seq<Token>, i: nat, html: seq<Token>, headings: seq<HeadingEntry>)
    requires Scanned(ts, i, html, headings) && i < |ts|
    requires !IsBareHeading(ts[i]) || forall m :: i < m < |ts| ==> ts[m] != Close(ts[i].tag)
    ensures Scanned(ts, i + 1, html + [ts[i]], headings)
  {
    var rest := NumberFrom(ts[i + 1..], |headings|);
    ScanToken(ts, i, |headings|);
    Associative(html, [ts[i]], rest.html);
  }

  /** The position of the first `Close(tag)` after `from`, or `|ts|` when there is none. */
  method FirstClose(ts: seq<Token>, tag: string, from: nat) returns (j: nat)
    requires from <= |ts|
    ensures from <= j <= |ts| && (j < |ts| ==> ts[j] == Close(tag))
    ensures forall m :: from <= m < j ==> ts[m] != Close(tag)
  {
    j := from;
    while j < |ts| && ts[j] != Close(tag)
      invariant from <= j <= |ts|
      invariant forall m :: from <= m < j ==> ts[m] != Close(tag)
    {
      j := j + 1;
    }
  }

  /**
   * `gsub(/<(h[2-4])>(.*?)<\/\1>/m) { ... }`: the scan with `@headings` growing
   * and its size as the running index.  The result is `NumberFrom(ts, 0)`,
   * whose properties the lemmas above state.
   */
  method NumberHeadings(ts: seq<Token>) returns (html: seq<Token>, headings: seq<HeadingEntry>)
    ensures Numbered(html, headings) == NumberFrom(ts, 0)
  {
    html := [];
    headings := [];
    var i := 0;
    while i < |ts|
      invariant Scanned(ts, i, html, headings)
      decreases |ts| - i
    {
      var t := ts[i];
      var j := |ts|;
      if IsBareHeading(t) {
        j := FirstClose(ts, t.tag, i + 1);
      }
      if IsBareHeading(t) && j < |ts| {
        var idx := |headings|;
        HeadingScanned(ts, i, j, html, headings);
        html := html + ([Open(t.tag, [Attr("id", HeadingId(idx))])] + ts[i + 1..j + 1]);
        headings := headings + [HeadingEntry(t.tag, ts[i + 1..j], HeadingId(idx), Level(t.tag))];
        i := j + 1;
      } else {
        TokenScanned(ts, i, html, headings);
        html := html + [t];
        i := i + 1;
      }
    }
    assert ts[i..] == [];
    assert html + [] == html && headings + [] == headings;
  }

  /** `markdown_body`: the body when present, otherwise the placeholder heading. */
  const NoBodyYet := "## 記事はまだ生成されていません。"

  function MarkdownSource(c: Column): (md: string)
    ensures Present(c.body) ==> md == c.body.value
    ensures Blank(c.body) ==> md == NoBodyYet
  {
    if Present(c.body) then c.body.value else NoBodyYet
  }

  /** `@children`: for a pillar, its published children, newest `updated_at` first; otherwise none. */
  function Children(rows: seq<Column>, c: Column): (cs: seq<Column>)
    ensures c.articleType != Pillar ==> cs == []
    ensures Descending(cs, UpdatedAt)
    ensures forall x :: x in cs <==> c.articleType == Pillar && x in rows && x.parentId == Some(c.id) && Published(x)
  {
    if c.articleType == Pillar then
      var r := OrderDesc(Where(rows, (x: Column) => x.parentId == Some(c.id) && Published(x)), UpdatedAt);
      assert forall x :: x in r <==> x in multiset(r);
      r
    else []
  }

  /** What `show` responds with. */
  datatype ShowResult =
    | UrlError                          // the canonical path cannot be generated
    | MovedPermanently(location: string)
    | Page(children: seq<Column>, html: seq<Token>, headings: seq<HeadingEntry>)

  /**
   * `show` for the record `c` found by `set_column`, requested at `requestPath`.
   * `render` is the Markdown converter (`Kramdown::Document#to_html`) as tokens.
   */
  method Show(rows: seq<Column>, c: Column, requestPath: string, toParam: string, render: string -> seq<Token>)
    returns (result: ShowResult)
    ensures CanonicalPath(c, toParam).None? ==> result == UrlError
    ensures CanonicalPath(c, toParam).Some? && CanonicalPath(c, toParam).value != requestPath ==>
      result == MovedPermanently(CanonicalPath(c, toParam).value)
    ensures CanonicalPath(c, toParam) == Some(requestPath) ==>
      var numbered := NumberFrom(SanitizeHtml(render(MarkdownSource(c))), 0);
      result == Page(Children(rows, c), numbered.html, numbered.headings)
  {
    var path := CanonicalPath(c, toParam);
    if path.None? {
      return UrlError;
    }
    if requestPath != path.value {
      return MovedPermanently(path.value);
    }
    var children := Children(rows, c);
    var sanitized := SanitizeHtml(render(MarkdownSource(c)));
    var html, headings := NumberHeadings(sanitized);
    return Page(children, html, headings);
  }

  // ------------------------------------------------------------ admin actions

  /** `approved?`: the record's status is "approved". */
  predicate IsApproved(c: Column) {
    c.status == Some(Approved)
  }

  /** The table and the body-job queue together. */
  datatype Store = Store(rows: seq<Column>, queue: seq<nat>)

  /**
   * `approve` on the record `c` loaded by `set_column`: unless approved, its
   * status is written as "approved" and one body job is enqueued.  A rejected
   * write raises from `update!` before the enqueue, leaving both unchanged.
   */
  function ApproveStore(s: Store, c: Column): Store {
    if IsApproved(c) then s
    else match SaveRows(s.rows, Obj(c, c.(status := Some(Approved))))
      case Success(rows) => Store(rows, s.queue + [c.id])
      case Failure(_) => s
  }

  /** Approving a record of a valid table writes exactly its status and enqueues it once; an approved record is left alone. */
  lemma ApproveEffect(s: Store, i: nat)
    requires TableValid(s.rows) && i < |s.rows|
    ensures var c := s.rows[i]; var r := ApproveStore(s, c);
      && (IsApproved(c) ==> r == s)
      && (!IsApproved(c) ==> Updated(s.rows, r.rows, c.(status := Some(Approved))) && r.queue == s.queue + [c.id])
      && TableValid(r.rows)
  {
    var c := s.rows[i];
    FindAt(s.rows, i);
    SaveLoaded(s.rows, Obj(c, c.(status := Some(Approved))));
  }

  /** Approving twice is approving once: the second request finds the record approved. */
  lemma ApproveIdempotent(s: Store, i: nat)
    requires TableValid(s.rows) && i < |s.rows|
    ensures var once := ApproveStore(s, s.rows[i]);
      |once.rows| == |s.rows| && ApproveStore(once, once.rows[i]) == once
  {
    ApproveEffect(s, i);
  }

  /** The outcome of `approve`: `set_column` finds no record (404), or the redirect after approving. */
  datatype ApproveOutcome = NotFound | ApproveRedirect

  /** `approve` for the record keyed `id`, on the database. */
  method Approve(db: Database, id: int) returns (outcome: ApproveOutcome)
    requires db.Valid()
    modifies db`rows, db`queue
    ensures db.Valid()
    ensures Find(old(db.rows), id).None? ==> outcome == NotFound && db.rows == old(db.rows) && db.queue == old(db.queue)
    ensures Find(old(db.rows), id).Some? ==>
      && outcome == ApproveRedirect
      && Store(db.rows, db.queue) == ApproveStore(Store(old(db.rows), old(db.queue)), Find(old(db.rows), id).value)
  {
    var found := Find(db.rows, id);
    if found.None? {
      return NotFound;
    }
    var c := found.value;
    if !IsApproved(c) {
      var ok, _ := db.Save(Obj(c, c.(status := Some(Approved))));
      if ok {
        db.Enqueue(c.id);
      }
    }
    return ApproveRedirect;
  }

  /** The rows after approving every matching record that is not approved yet. */
  function ApproveAll(rows: seq<Column>, ids: seq<int>): (r: seq<Column>)
    ensures |r| == |rows|
  {
    seq(|rows|, i requires 0 <= i < |rows| =>
      if rows[i].id in ids && !IsApproved(rows[i]) then rows[i].(status := Some(Approved)) else rows[i])
  }

  /** The ids enqueued by the bulk approval: the matching records not yet approved, in table order. */
  function PendingIds(rows: seq<Column>, ids: seq<int>): (r: seq<nat>)
    ensures |r| <= |rows|
  {
    if rows == [] then []
    else
      var last := rows[|rows| - 1];
      PendingIds(rows[..|rows| - 1], ids) + (if last.id in ids && !IsApproved(last) then [last.id] else [])
  }

  /** An id is enqueued exactly when its record matches and is not approved. */
  lemma {:induction false} PendingIdsExactly(rows: seq<Column>, ids: seq<int>, x: nat)
    ensures x in PendingIds(rows, ids) <==> exists i :: 0 <= i < |rows| && rows[i].id == x && x in ids && !IsApproved(rows[i])
  {
    if rows != [] {
      var init := rows[..|rows| - 1];
      var last := rows[|rows| - 1];
      var tail := if last.id in ids && !IsApproved(last) then [last.id] else [];
      PendingIdsExactly(init, ids, x);
      assert PendingIds(rows, ids) == PendingIds(init, ids) + tail;
      assert x in PendingIds(rows, ids) <==> x in PendingIds(init, ids) || x in tail;
      if exists i :: 0 <= i < |init| && init[i].id == x && x in ids && !IsApproved(init[i]) {
        var i :| 0 <= i < |init| && init[i].id == x && x in ids && !IsApproved(init[i]);
        assert rows[i] == init[i];
      }
      if exists i :: 0 <= i < |rows| && rows[i].id == x && x in ids && !IsApproved(rows[i]) {
        var i :| 0 <= i < |rows| && rows[i].id == x && x in ids && !IsApproved(rows[i]);
        if i < |init| {
          assert init[i] == rows[i];
        }
      }
    }
  }

  /** Bulk approval is idempotent: a second run changes no row and enqueues nothing. */
  lemma {:induction false} ApproveAllIdempotent(rows: seq<Column>, ids: seq<int>)
    ensures ApproveAll(ApproveAll(rows, ids), ids) == ApproveAll(rows, ids)
    ensures PendingIds(ApproveAll(rows, ids), ids) == []
  {
    var once := ApproveAll(rows, ids);
    if PendingIds(once, ids) != [] {
      var x := PendingIds(once, ids)[0];
      PendingIdsExactly(once, ids, x);
    }
  }

  /** No ids: bulk approval changes no row and enqueues nothing. */
  lemma {:induction false} ApproveNone(rows: seq<Column>)
    ensures ApproveAll(rows, []) == rows && PendingIds(rows, []) == []
  {
    if rows != [] {
      ApproveNone(rows[..|rows| - 1]);
    }
  }

  /** Bulk approval of one id does what `approve` does to that record. */
  lemma BulkMatchesSingle(s: Store, i: nat)
    requires TableValid(s.rows) && i < |s.rows|
    ensures var c := s.rows[i];
      Store(ApproveAll(s.rows, [c.id]), s.queue + PendingIds(s.rows, [c.id])) == ApproveStore(s, c)
  {
    var c := s.rows[i];
    ApproveEffect(s, i);
    var r := ApproveStore(s, c);
    assert ApproveAll(s.rows, [c.id]) == r.rows;
    SinglePending(s.rows, i);
  }

  /** With distinct keys, the ids pending for the single id of row `i` are that id, or none if it is approved. */
  lemma {:induction false} SinglePending(rows: seq<Column>, i: nat)
    requires IdsUnique(rows) && i < |rows|
    ensures PendingIds(rows, [rows[i].id]) == if IsApproved(rows[i]) then [] else [rows[i].id]
  {
    var x := rows[i].id;
    var init := rows[..|rows| - 1];
    assert IdsUnique(init);
    if i == |rows| - 1 {
      assert forall m :: 0 <= m < |init| ==> init[m].id != x;
      NoneMatch(init, [x]);
    } else {
      assert init[i] == rows[i];
      SinglePending(init, i);
    }
  }

  /** No record matches: nothing is pending. */
  lemma {:induction false} NoneMatch(rows: seq<Column>, ids: seq<int>)
    requires forall m :: 0 <= m < |rows| ==> rows[m].id !in ids
    ensures PendingIds(rows, ids) == []
  {
    if rows != [] {
      NoneMatch(rows[..|rows| - 1], ids);
    }
  }

  /** The rows `Column.where(id: ids).destroy_all` leaves. */
  function Remaining(rows: seq<Column>, ids: seq<int>): (r: seq<Column>)
    ensures forall c :: c in r <==> c in rows && c.id !in ids
  {
    var r := Where(rows, (c: Column) => c.id !in ids);
    assert forall c :: c in r <==> c in multiset(r);
    r
  }

  /** The `action_type` of `bulk_update_drafts`. */
  datatype BulkAction = ApproveBulk | DeleteBulk | OtherAction(name: Option<string>)

  /** The redirect of `bulk_update_drafts`, with the number its notice reports. */
  datatype BulkOutcome = NothingSelected | ApprovedCount(count: nat) | DeletedRows(rows: seq<Column>) | InvalidAction

  /** The number of rows whose key is in `ids` (`columns.count`). */
  function CountIn(rows: seq<Column>, ids: seq<int>): (n: nat)
    ensures n <= |rows|
  {
    if rows == [] then 0
    else CountIn(rows[..|rows| - 1], ids) + (if rows[|rows| - 1].id in ids then 1 else 0)
  }

  /** One step of the bulk approval over the table snapshot. */
  lemma ApproveStep(snap: seq<Column>, ids: seq<int>, i: nat)
    requires i < |snap|
    ensures ApproveAll(snap, ids)[i] == if snap[i].id in ids && !IsApproved(snap[i]) then snap[i].(status := Some(Approved)) else snap[i]
    ensures PendingIds(snap[..i + 1], ids) ==
      PendingIds(snap[..i], ids) + (if snap[i].id in ids && !IsApproved(snap[i]) then [snap[i].id] else [])
  {
    assert snap[..i + 1][..i] == snap[..i];
  }

  /** `column.update!(status: "approved")` and the enqueue, for the record at position `i`. */
  method ApproveAt(db: Database, i: nat)
    requires db.Valid() && i < |db.rows|
    modifies db`rows, db`queue
    ensures db.Valid()
    ensures db.rows == old(db.rows)[i := old(db.rows)[i].(status := Some(Approved))]
    ensures db.queue == old(db.queue) + [old(db.rows)[i].id]
  {
    var c := db.rows[i];
    StatusSaveAt(db.rows, i, Some(Approved));
    var ok, _ := db.Save(Obj(c, c.(status := Some(Approved))));
    db.Enqueue(c.id);
  }

  /** The approve branch: `Column.where(id: ids).each`, in table order. */
  method ApproveEach(db: Database, ids: seq<int>)
    requires db.Valid()
    modifies db`rows, db`queue
    ensures db.Valid()
    ensures db.rows == ApproveAll(old(db.rows), ids)
    ensures db.queue == old(db.queue) + PendingIds(old(db.rows), ids)
  {
    ghost var snap := db.rows;
    ghost var queue0 := db.queue;
    var i := 0;
    while i < |db.rows|
      invariant db.Valid() && |db.rows| == |snap| && 0 <= i <= |snap|
      invariant forall m :: 0 <= m < i ==> db.rows[m] == ApproveAll(snap, ids)[m]
      invariant forall m :: i <= m < |snap| ==> db.rows[m] == snap[m]
      invariant db.queue == queue0 + PendingIds(snap[..i], ids)
    {
      ApproveStep(snap, ids, i);
      if db.rows[i].id in ids && !IsApproved(db.rows[i]) {
        ApproveAt(db, i);
      }
      i := i + 1;
    }
    assert snap[..i] == snap;
  }

  /** `bulk_update_drafts` with the selected `ids` (blank when empty) and the chosen action. */
  method BulkUpdateDrafts(db: Database, ids: seq<int>, action: BulkAction) returns (outcome: BulkOutcome)
    requires db.Valid()
    modifies db`rows, db`queue
    ensures db.Valid()
    ensures ids == [] ==> outcome == NothingSelected && db.rows == old(db.rows) && db.queue == old(db.queue)
    ensures ids != [] && action == ApproveBulk ==>
      && db.rows == ApproveAll(old(db.rows), ids)
      && db.queue == old(db.queue) + PendingIds(old(db.rows), ids)
      && outcome == ApprovedCount(CountIn(old(db.rows), ids))
    ensures ids != [] && action == DeleteBulk ==>
      && db.rows == Remaining(old(db.rows), ids) && db.queue == old(db.queue)
      && outcome == DeletedRows(Where(old(db.rows), (c: Column) => c.id in ids))
    ensures ids != [] && action.OtherAction? ==> outcome == InvalidAction && db.rows == old(db.rows) && db.queue == old(db.queue)
  {
    if ids == [] {
      return NothingSelected;
    }
    match action {
      case ApproveBulk =>
        ghost var before := db.rows;
        ApproveEach(db, ids);
        CountApproved(before, ids);
        return ApprovedCount(CountIn(db.rows, ids));
      case DeleteBulk =>
        var destroyed := Where(db.rows, (c: Column) => c.id in ids);
        RemainingValid(db.rows, ids, db.nextId);
        db.rows := Remaining(db.rows, ids);
        return DeletedRows(destroyed);
      case OtherAction(_) =>
        return InvalidAction;
    }
  }

  /** Approval keeps every key, so the count taken afterwards is the count of the selection. */
  lemma {:induction false} CountApproved(rows: seq<Column>, ids: seq<int>)
    ensures CountIn(ApproveAll(rows, ids), ids) == CountIn(rows, ids)
  {
    if rows != [] {
      var init := rows[..|rows| - 1];
      assert ApproveAll(rows, ids)[..|rows| - 1] == ApproveAll(init, ids);
      CountApproved(init, ids);
    }
  }

  /** Deleting rows keeps the table valid. */
  lemma RemainingValid(rows: seq<Column>, ids: seq<int>, nextId: nat)
    requires TableValid(rows) && forall i :: 0 <= i < |rows| ==> rows[i].id < nextId
    ensures TableValid(Remaining(rows, ids))
    ensures forall i :: 0 <= i < |Remaining(rows, ids)| ==> Remaining(rows, ids)[i].id < nextId
  {
    SubsequenceValid(rows, (c: Column) => c.id !in ids);
    var r := Remaining(rows, ids);
    forall i | 0 <= i < |r| ensures r[i].id < nextId {
      assert r[i] in rows;
    }
  }

  /** `Where` keeps a valid table valid. */
  lemma {:induction false} SubsequenceValid(rows: seq<Column>, f: Column -> bool)
    requires TableValid(rows)
    ensures TableValid(Where(rows, f))
  {
    if rows != [] {
      var init := rows[..|rows| - 1];
      var last := rows[|rows| - 1];
      assert TableValid(init);
      SubsequenceValid(init, f);
      var w := Where(init, f);
      if f(last) {
        forall c | c in w ensures c in init {
          assert c in multiset(w);
        }
        LastDiffers(rows, w);
        AppendValid(w, last);
      }
    }
  }

  /** The last row of a valid table differs in key and code from every row kept from the rows before it. */
  lemma LastDiffers(rows: seq<Column>, w: seq<Column>)
    requires TableValid(rows) && rows != []
    requires forall c :: c in w ==> c in rows[..|rows| - 1]
    ensures forall c :: c in w ==> c.id != rows[|rows| - 1].id && (c.code.Some? ==> c.code != rows[|rows| - 1].code)
  {
    forall c | c in w ensures c.id != rows[|rows| - 1].id && (c.code.Some? ==> c.code != rows[|rows| - 1].code) {
      var m :| 0 <= m < |rows| - 1 && rows[..|rows| - 1][m] == c;
      assert rows[m] == c;
    }
  }

  /** Appending a row whose key and code no row holds keeps a table valid. */
  lemma AppendValid(w: seq<Column>, last: Column)
    requires TableValid(w)
    requires forall c :: c in w ==> c.id != last.id && (c.code.Some? ==> c.code != last.code)
    ensures TableValid(w + [last])
  {
    var r := w + [last];
    forall a, b | 0 <= a < b < |r| ensures r[a].id != r[b].id && (r[a].code.Some? ==> r[a].code != r[b].code) {
      if b < |w| {
        assert r[a] == w[a] && r[b] == w[b];
      } else {
        assert r[a] in w;
      }
    }
  }

  /** `where(id: ids, article_type: "pillar")`. */
  predicate SelectedPillar(c: Column, ids: seq<int>) {
    c.id in ids && c.articleType == Pillar
  }

  /** The ids `generate_from_selected` enqueues: the selected pillars, in table order. */
  function SelectedPillars(rows: seq<Column>, ids: seq<int>): (r: seq<nat>)
    ensures |r| <= |rows|
    ensures forall x :: x in r ==> x in ids
  {
    if rows == [] then []
    else
      var last := rows[|rows| - 1];
      SelectedPillars(rows[..|rows| - 1], ids) + (if SelectedPillar(last, ids) then [last.id] else [])
  }

  /** An id is enqueued exactly when it is selected and keys a pillar. */
  lemma {:induction false} SelectedPillarsExactly(rows: seq<Column>, ids: seq<int>, x: nat)
    ensures x in SelectedPillars(rows, ids) <==> exists i :: 0 <= i < |rows| && rows[i].id == x && SelectedPillar(rows[i], ids)
  {
    if rows != [] {
      var init := rows[..|rows| - 1];
      var last := rows[|rows| - 1];
      var tail := if SelectedPillar(last, ids) then [last.id] else [];
      SelectedPillarsExactly(init, ids, x);
      assert SelectedPillars(rows, ids) == SelectedPillars(init, ids) + tail;
      assert x in SelectedPillars(rows, ids) <==> x in SelectedPillars(init, ids) || x in tail;
      if exists i :: 0 <= i < |init| && init[i].id == x && SelectedPillar(init[i], ids) {
        var i :| 0 <= i < |init| && init[i].id == x && SelectedPillar(init[i], ids);
        assert rows[i] == init[i];
      }
      if exists i :: 0 <= i < |rows| && rows[i].id == x && SelectedPillar(rows[i], ids) {
        var i :| 0 <= i < |rows| && rows[i].id == x && SelectedPillar(rows[i], ids);
        if i < |init| {
          assert init[i] == rows[i];
        }
      }
    }
  }

  /** The redirect of `generate_from_selected`. */
  datatype SelectedOutcome = NoneSelected | NoPillarFound | Started(count: nat)

  /** `generate_from_selected`: one body job per selected pillar; the table is not touched. */
  method GenerateFromSelected(db: Database, ids: seq<int>) returns (outcome: SelectedOutcome)
    modifies db`queue
    ensures ids == [] ==> outcome == NoneSelected && db.queue == old(db.queue)
    ensures ids != [] && SelectedPillars(db.rows, ids) == [] ==> outcome == NoPillarFound && db.queue == old(db.queue)
    ensures ids != [] && SelectedPillars(db.rows, ids) != [] ==>
      outcome == Started(|SelectedPillars(db.rows, ids)|) && db.queue == old(db.queue) + SelectedPillars(db.rows, ids)
  {
    if ids == [] {
      return NoneSelected;
    }
    var pillars := SelectedPillars(db.rows, ids);
    if pillars == [] {
      return NoPillarFound;
    }
    var i := 0;
    while i < |pillars|
      invariant 0 <= i <= |pillars| && db.queue == old(db.queue) + pillars[..i]
    {
      db.Enqueue(pillars[i]);
      assert pillars[..i + 1] == pillars[..i] + [pillars[i]];
      i := i + 1;
    }
    assert pillars[..i] == pillars;
    return Started(|pillars|);
  }

  /**
   * `generate_gemini`: `params[:batch] || 20`, already converted to an integer;
   * the drafts of the batch are appended and the count the batch returns is reported.
   */
  method GenerateGemini(db: Database, batch: Option<int>, now: int, replies: seq<GeminiGenerator.GeminiReply>)
    returns (outcome: GeminiGenerator.BatchOutcome)
    requires db.Valid()
    modifies db`rows, db`nextId
    ensures db.Valid()
    ensures outcome == GeminiGenerator.Batch(batch.GetOr(20), replies).0
    ensures outcome.ReturnedCount? ==> outcome.count == batch.GetOr(20)
    ensures GeminiGenerator.StoredDrafts(db.rows, |old(db.rows)|, now, GeminiGenerator.Batch(batch.GetOr(20), replies).1)
    ensures db.rows[..|old(db.rows)|] == old(db.rows)
  {
    outcome := GeminiGenerator.GenerateColumns(db, batch.GetOr(20), now, replies);
  }
}
