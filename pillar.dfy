/**
 * `GptPillarGenerator.generate_full_from_existing_column!`: category and genre
 * detection, the meta step and its intermediate save, the structure step, the
 * section calls and the final save.  Generative calls are oracle values.
 */
module PillarGenerator {
  import opened Wrappers
  import opened Text
  import opened Keywords
  import opened Replies
  import opened Assembly
  import opened Schema
  import Slug

  /** `CATEGORY_KEYWORDS`, in declaration order. */
  const CategoryKeywords: seq<Category> := [
    Category("警備業", ["警備", "セキュリティー", "施設警備", "交通整理"]),
    Category("軽貨物", ["軽貨物", "配送", "運送", "ドライバー", "宅配"]),
    Category("清掃業", ["清掃", "クリーニング", "ハウスクリーニング", "ビル清掃"]),
    Category("営業代行", ["営業代行", "テレアポ", "インサイドセールス", "コールセンター"]),
    Category("建設", ["建設", "現場", "工務店", "リフォーム", "土木"])
  ]

  /** `GENRE_MAP`. */
  const GenreMap: map<string, string> := map[
    "軽貨物" := "cargo", "清掃業" := "cleaning", "警備業" := "security",
    "営業代行" := "app", "自販機" := "vender", "建設" := "construction"]

  const OtherCategory := "その他"

  /** `call_section`'s text for a call that gave no content. */
  const SectionError := "（コンテンツ生成エラー）"

  /** The directive appended after the conclusion. */
  const AutoIdsOff := "\n\n{::options auto_ids=\"false\" /}"

  /** `"#{title} #{keyword} #{genre} #{choice}"`. */
  function SearchText(c: Column): string {
    Interp(c.title) + " " + Interp(c.keyword) + " " + Interp(c.genre) + " " + Interp(c.choice)
  }

  /** `detect_category`: the first table category with a keyword in the search text, else "その他". */
  function DetectCategory(c: Column): (cat: string)
    ensures cat == OtherCategory <==> forall i :: 0 <= i < |CategoryKeywords| ==> !AnyWord(SearchText(c), CategoryKeywords[i].words)
    ensures cat != OtherCategory ==> exists i :: IsFirstMatch(CategoryKeywords, SearchText(c), i) && CategoryKeywords[i].name == cat
  {
    match FirstMatch(CategoryKeywords, SearchText(c))
    case Some(name) => name
    case None => OtherCategory
  }

  /** `GENRE_MAP[category] || "other"`. */
  function GenreCode(category: string): string {
    if category in GenreMap then GenreMap[category] else "other"
  }

  /** The genre saved is one of six codes; "vender" is unreachable because no keyword entry is named "自販機". */
  lemma GenreNeverVender(c: Column)
    ensures GenreCode(DetectCategory(c)) in {"security", "cargo", "cleaning", "app", "construction", "other"}
    ensures GenreCode(DetectCategory(c)) != "vender"
  {
    var cat := DetectCategory(c);
    if cat != OtherCategory {
      var i :| IsFirstMatch(CategoryKeywords, SearchText(c), i) && CategoryKeywords[i].name == cat;
      assert i in {0, 1, 2, 3, 4};
    }
  }

  // ---------------------------------------------------------------------------
  // Body assembly.

  /** `call_section`: the content, or the error text when the call gave none. */
  function Content(o: Option<string>): string {
    o.GetOr(SectionError)
  }

  /** The `## h2` heading and content blocks of the outline; section `i` takes the answer to call `i + 1`. */
  function SectionBlocks(es: seq<Entry>, answers: seq<Option<string>>): seq<Block> {
    if es == [] then []
    else SectionBlocks(es[..|es| - 1], answers)
         + [Heading(Interp(es[|es| - 1].h2Title)), Prose(Content(Answer(answers, |es|)))]
  }

  /** The body: introduction (call 0), sections, conclusion (call `|es| + 1`), and the auto-ids directive. */
  function PillarBody(es: seq<Entry>, answers: seq<Option<string>>): string {
    Render(Content(Answer(answers, 0)), SectionBlocks(es, answers), Content(Answer(answers, |es| + 1))) + AutoIdsOff
  }

  /** Section `i` is its `## ` heading then the answer to call `i + 1` (or the error text). */
  lemma {:induction false} SectionBlocksAt(es: seq<Entry>, answers: seq<Option<string>>, i: nat)
    requires i < |es|
    ensures |SectionBlocks(es, answers)| == 2 * |es|
    ensures SectionBlocks(es, answers)[2 * i] == Heading(Interp(es[i].h2Title))
    ensures SectionBlocks(es, answers)[2 * i + 1] == Prose(Content(Answer(answers, i + 1)))
    decreases |es|
  {
    var init := es[..|es| - 1];
    if i < |es| - 1 {
      SectionBlocksAt(init, answers, i);
      assert init[i] == es[i];
    } else if |es| > 1 {
      SectionBlocksAt(init, answers, 0);
    }
  }

  lemma TitlesSnoc(es: seq<Entry>)
    requires es != []
    ensures seq(|es|, i requires 0 <= i < |es| => Interp(es[i].h2Title))
         == seq(|es| - 1, i requires 0 <= i < |es| - 1 => Interp(es[..|es| - 1][i].h2Title)) + [Interp(es[|es| - 1].h2Title)]
  {
  }

  /** The body's only headings are the outline's H2 titles, in order. */
  lemma {:induction false} PillarHeadings(es: seq<Entry>, answers: seq<Option<string>>)
    ensures HeadingTitles(SectionBlocks(es, answers)) == seq(|es|, i requires 0 <= i < |es| => Interp(es[i].h2Title))
    decreases |es|
  {
    if es != [] {
      var init := es[..|es| - 1];
      var last := [Heading(Interp(es[|es| - 1].h2Title)), Prose(Content(Answer(answers, |es|)))];
      var t := Interp(es[|es| - 1].h2Title);
      PillarHeadings(init, answers);
      HeadingTitlesAppend(SectionBlocks(init, answers), last);
      Section(t, Content(Answer(answers, |es|)));
      assert HeadingTitles(SectionBlocks(es, answers)) == HeadingTitles(SectionBlocks(init, answers)) + [t];
      TitlesSnoc(es);
    }
  }

  /** Rendering one more section appends its heading line and its content. */
  lemma SectionStep(es: seq<Entry>, answers: seq<Option<string>>, i: nat)
    requires i < |es|
    ensures RenderBlocks(SectionBlocks(es[..i + 1], answers))
         == RenderBlocks(SectionBlocks(es[..i], answers)) + ("## " + Interp(es[i].h2Title) + "\n\n" + Content(Answer(answers, i + 1)) + "\n\n")
  {
    var section := [Heading(Interp(es[i].h2Title)), Prose(Content(Answer(answers, i + 1)))];
    assert es[..i + 1][..i] == es[..i];
    assert SectionBlocks(es[..i + 1], answers) == SectionBlocks(es[..i], answers) + section;
    RenderBlocksAppend(SectionBlocks(es[..i], answers), section);
    Section(Interp(es[i].h2Title), Content(Answer(answers, i + 1)));
  }

  /**
   * Lines 68-78: the body is built by appending, one call at a time.  Returns the
   * number of text calls made: the introduction, one per section, the conclusion.
   */
  method AssembleBody(es: seq<Entry>, answers: seq<Option<string>>) returns (body: string, calls: nat)
    ensures body == PillarBody(es, answers)
    ensures calls == |es| + 2
  {
    var intro := Content(Answer(answers, 0));
    body := intro + "\n\n";
    var k := 1;
    var i := 0;
    while i < |es|
      invariant 0 <= i <= |es| && k == i + 1
      invariant body == intro + "\n\n" + RenderBlocks(SectionBlocks(es[..i], answers))
    {
      SectionStep(es, answers, i);
      Associative(intro + "\n\n", RenderBlocks(SectionBlocks(es[..i], answers)),
        "## " + Interp(es[i].h2Title) + "\n\n" + Content(Answer(answers, k)) + "\n\n");
      body := body + ("## " + Interp(es[i].h2Title) + "\n\n" + Content(Answer(answers, k)) + "\n\n");
      k := k + 1;
      i := i + 1;
    }
    assert es[..i] == es;
    body := body + Content(Answer(answers, k)) + AutoIdsOff;
    calls := k + 1;
  }

  // ---------------------------------------------------------------------------
  // The pipeline.

  /** The oracle for one run: the meta call, the structure call, then the text calls in order. */
  datatype PillarReplies = PillarReplies(meta: Reply<Meta>, outline: Reply<Structure>, sections: seq<Option<string>>)

  /** The table, the in-memory record object, and how the run ended. */
  datatype Run = Run(rows: seq<Column>, obj: Obj, outcome: Outcome)

  /** The attributes assigned by the intermediate `update!`. */
  function MetaApplied(c: Column, m: Meta): Column {
    var cat := DetectCategory(c);
    c.(code := Some(Slug.CleanCode(Interp(m.code), c.id)), description := m.description, keyword := m.keyword,
       choice := Some(cat), genre := Some(GenreCode(cat)), status := Some(Creating), articleType := Pillar)
  }

  /** The outline entries, or why the structure step raises. */
  function OutlineEntries(outline: Reply<Structure>): Result<seq<Entry>, Reason> {
    match outline
    case NoResponse => Failure(NoStructure)
    case Unparseable => Failure(StructureUnparseable)
    case Parsed(Missing) => Failure(NoStructure)
    case Parsed(NotEntries(_)) => Failure(StructureNotEntries)
    case Parsed(Entries(es)) => Success(es)
  }

  /** The whole method, as a function of the table, the record object and the oracle. */
  function PillarRun(rows: seq<Column>, obj: Obj, r: PillarReplies): Run {
    var c := obj.current;
    if Blank(c.title) then Run(rows, obj, Raised(BlankTitle))
    else match r.meta
      case NoResponse => Run(rows, obj, Raised(NoMeta))
      case Unparseable => Run(rows, obj, Raised(MetaUnparseable))
      case Parsed(m) =>
        var obj1 := obj.(current := MetaApplied(c, m));
        match SaveRows(rows, obj1)
        case Failure(_) => Run(rows, obj1, Raised(SlugTaken))
        case Success(rows1) =>
          var obj2 := Load(obj1.current);
          match OutlineEntries(r.outline)
          case Failure(why) => Run(rows1, obj2, Raised(why))
          case Success(es) =>
            var obj3 := obj2.(current := obj2.current.(body := Some(PillarBody(es, r.sections)), status := Some(Completed)));
            match SaveRows(rows1, obj3)
            case Failure(_) => Run(rows1, obj3, Raised(SlugTaken))
            case Success(rows2) => Run(rows2, Load(obj3.current), Done)
  }

  /** `generate_full_from_existing_column!`, on the database. */
  method GenerateFullFromExistingColumn(db: Database, obj: Obj, r: PillarReplies) returns (outcome: Outcome, obj': Obj)
    requires db.Valid()
    modifies db`rows
    ensures db.Valid()
    ensures PillarRun(old(db.rows), obj, r) == Run(db.rows, obj', outcome)
  {
    var c := obj.current;
    if Blank(c.title) {
      return Raised(BlankTitle), obj;
    }
    match r.meta
    case NoResponse => return Raised(NoMeta), obj;
    case Unparseable => return Raised(MetaUnparseable), obj;
    case Parsed(m) =>
      var ok, o1 := db.Save(obj.(current := MetaApplied(c, m)));
      if !ok {
        return Raised(SlugTaken), o1;
      }
      match OutlineEntries(r.outline)
      case Failure(why) => return Raised(why), o1;
      case Success(es) =>
        var body, _ := AssembleBody(es, r.sections);
        var ok2, o2 := db.Save(o1.(current := o1.current.(body := Some(body), status := Some(Completed))));
        if !ok2 {
          return Raised(SlugTaken), o2;
        }
        return Done, o2;
  }

  // ---------------------------------------------------------------------------
  // What a run does to the table.

  /** The object was just read from its row (`find_by`) and is unchanged. */
  predicate Loaded(rows: seq<Column>, obj: Obj) {
    obj.saved == obj.current && Find(rows, obj.current.id) == Some(obj.current)
  }

  /**
   * A blank title raises before anything else: the outcome does not depend on
   * any reply, so no generative call is made, and no row changes.
   */
  lemma BlankTitleRaisesFirst(rows: seq<Column>, obj: Obj, r1: PillarReplies, r2: PillarReplies)
    requires Blank(obj.current.title)
    ensures PillarRun(rows, obj, r1) == PillarRun(rows, obj, r2) == Run(rows, obj, Raised(BlankTitle))
  {
  }

  /**
   * A meta call that gives no meta raises before the intermediate save: the
   * table and the object are as they were, whatever the later calls would answer.
   */
  lemma NoMetaLeavesRecord(rows: seq<Column>, obj: Obj, r1: PillarReplies, r2: PillarReplies)
    requires !Blank(obj.current.title) && !r1.meta.Parsed? && r2.meta == r1.meta
    ensures PillarRun(rows, obj, r1) == PillarRun(rows, obj, r2)
    ensures PillarRun(rows, obj, r1).rows == rows && PillarRun(rows, obj, r1).obj == obj
    ensures PillarRun(rows, obj, r1).outcome == Raised(if r1.meta.NoResponse? then NoMeta else MetaUnparseable)
  {
  }

  /**
   * The successful run: the row ends with the cleaned slug (well formed, never
   * empty), the meta fields, the detected category and genre, the assembled body
   * and status "completed"; no other row changes.
   */
  lemma PillarCompletes(rows: seq<Column>, obj: Obj, r: PillarReplies, m: Meta, es: seq<Entry>)
    requires TableValid(rows) && Loaded(rows, obj)
    requires !Blank(obj.current.title) && r.meta == Parsed(m) && OutlineEntries(r.outline) == Success(es)
    requires !CodeTaken(rows, MetaApplied(obj.current, m))
    ensures var run := PillarRun(rows, obj, r);
      var c := obj.current;
      var cat := DetectCategory(c);
      && run.outcome == Done
      && Updated(rows, run.rows, run.obj.current)
      && run.obj == Load(run.obj.current)
      && run.obj.current == c.(code := Some(Slug.CleanCode(Interp(m.code), c.id)),
           description := m.description, keyword := m.keyword, choice := Some(cat),
           genre := Some(GenreCode(cat)), articleType := Pillar,
           body := Some(PillarBody(es, r.sections)), status := Some(Completed))
      && Slug.WellFormed(Slug.CleanCode(Interp(m.code), c.id)) && |Slug.CleanCode(Interp(m.code), c.id)| > 0
  {
    var c := obj.current;
    var obj1 := obj.(current := MetaApplied(c, m));
    SaveLoaded(rows, obj1);
    var rows1 := SaveRows(rows, obj1).value;
    var c2 := obj1.current.(body := Some(PillarBody(es, r.sections)), status := Some(Completed));
    var obj3 := Load(obj1.current).(current := c2);
    SaveLoaded(rows1, obj3);
    var rows2 := SaveRows(rows1, obj3).value;
    assert Updated(rows, rows2, c2) by {
      forall i | 0 <= i < |rows| ensures rows2[i] == (if rows[i].id == c2.id then c2 else rows[i]) {
        assert rows1[i].id == rows[i].id;
      }
    }
    Slug.CleanCodeShape(Interp(m.code), c.id);
  }

  /**
   * A slug already held by another row: `update!` raises before anything is
   * written, and the object keeps the unsaved meta attributes.
   */
  lemma PillarSlugTaken(rows: seq<Column>, obj: Obj, r: PillarReplies, m: Meta)
    requires TableValid(rows) && Loaded(rows, obj)
    requires !Blank(obj.current.title) && r.meta == Parsed(m)
    requires CodeTaken(rows, MetaApplied(obj.current, m))
    ensures PillarRun(rows, obj, r) == Run(rows, obj.(current := MetaApplied(obj.current, m)), Raised(SlugTaken))
  {
    SaveLoaded(rows, obj.(current := MetaApplied(obj.current, m)));
  }

  /**
   * The structure step fails after the intermediate save: the row keeps the
   * meta attributes with status "creating" and its old body, and the object is
   * clean, so a later `update(status:)` writes the status alone.
   */
  lemma PillarStructureFails(rows: seq<Column>, obj: Obj, r: PillarReplies, m: Meta)
    requires TableValid(rows) && Loaded(rows, obj)
    requires !Blank(obj.current.title) && r.meta == Parsed(m) && OutlineEntries(r.outline).Failure?
    requires !CodeTaken(rows, MetaApplied(obj.current, m))
    ensures var run := PillarRun(rows, obj, r);
      && run.outcome == Raised(OutlineEntries(r.outline).error)
      && run.obj == Load(MetaApplied(obj.current, m))
      && Updated(rows, run.rows, MetaApplied(obj.current, m))
      && TableValid(run.rows) && Loaded(run.rows, run.obj)
      && run.obj.current.status == Some(Creating) && run.obj.current.body == obj.current.body
  {
    SaveLoaded(rows, obj.(current := MetaApplied(obj.current, m)));
  }
}
