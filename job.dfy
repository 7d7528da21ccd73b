/**
 * `GenerateColumnBodyJob#perform`: look the record up, dispatch pillars to the
 * pillar pipeline and everything else to `generate_body` followed by
 * "completed"; on any exception write status "error" and re-raise.
 */
module BodyJob {
  import opened Wrappers
  import opened Text
  import opened Replies
  import opened Schema
  import PillarGenerator
  import ArticleGenerator

  /** Everything the generative services and the environment answer during one job. */
  datatype JobOracle = JobOracle(
    apiKey: Option<string>,                  // `GptArticleGenerator::GPT_API_KEY`
    pillar: PillarGenerator.PillarReplies,   // the pillar pipeline's calls
    outline: Reply<Structure>,               // `generate_body`'s structure call
    sections: seq<Option<string>>)           // `generate_body`'s content calls

  /** How the job ended: no such record, normally, or by re-raising. */
  datatype JobOutcome = NoRecord | Finished | Reraised(reason: Reason)

  datatype JobRun = JobRun(rows: seq<Column>, outcome: JobOutcome)

  /**
   * The rescue's `column.update(status: "error")` on the object as the failed
   * step left it: every unsaved attribute is written with the status.  When the
   * unique index rejects that write too, it raises in turn from inside the
   * rescue (a new `RecordNotUnique`, in place of the re-raise) and the table is
   * left as it was.
   */
  function RescueSave(rows: seq<Column>, obj: Obj): seq<Column> {
    match SaveRows(rows, obj.(current := obj.current.(status := Some(Error))))
    case Success(r) => r
    case Failure(_) => rows
  }

  /** `perform(column_id)`, as a function of the table and the oracle. */
  function PerformRun(rows: seq<Column>, id: int, o: JobOracle): (run: JobRun)
    ensures Find(rows, id).None? ==> run == JobRun(rows, NoRecord)
    ensures Find(rows, id).Some? ==> run.outcome != NoRecord
  {
    match Find(rows, id)
    case None => JobRun(rows, NoRecord)
    case Some(col) =>
      var obj := Load(col);
      if col.articleType == Pillar then
        var run := PillarGenerator.PillarRun(rows, obj, o.pillar);
        if run.outcome == Done then JobRun(run.rows, Finished)
        else JobRun(RescueSave(run.rows, run.obj), Reraised(run.outcome.reason))
      else
        match ArticleGenerator.GenerateBodyResult(o.apiKey, col, o.outline, o.sections)
        case Raises => JobRun(RescueSave(rows, obj), Reraised(StructureNotEntries))
        case Returned(body) =>
          var done := obj.(current := col.(body := body, status := Some(Completed)));
          match SaveRows(rows, done)
          case Success(r) => JobRun(r, Finished)
          case Failure(_) => JobRun(RescueSave(rows, done), Reraised(SlugTaken))
  }

  /** Lines 6-24, on the database. */
  method Perform(db: Database, id: int, o: JobOracle) returns (outcome: JobOutcome)
    requires db.Valid()
    modifies db`rows
    ensures db.Valid()
    ensures PerformRun(old(db.rows), id, o) == JobRun(db.rows, outcome)
  {
    var found := Find(db.rows, id);
    if found.None? {
      return NoRecord;
    }
    var column := Load(found.value);
    var raised: Option<Reason> := None;
    if column.current.articleType == Pillar {
      var r, obj := PillarGenerator.GenerateFullFromExistingColumn(db, column, o.pillar);
      column := obj;
      if r.Raised? {
        raised := Some(r.reason);
      }
    } else {
      var result, _ := ArticleGenerator.GenerateBody(o.apiKey, column.current, o.outline, o.sections);
      if result.Raises? {
        raised := Some(StructureNotEntries);
      } else {
        var ok, obj := db.Save(column.(current := column.current.(body := result.body, status := Some(Completed))));
        column := obj;
        if !ok {
          raised := Some(SlugTaken);
        }
      }
    }
    if raised.None? {
      return Finished;
    }
    // rescue => e: column.update(status: "error"); raise e
    var _, _ := db.Save(column.(current := column.current.(status := Some(Error))));
    return Reraised(raised.value);
  }

  // ---------------------------------------------------------------------------
  // Properties.

  /**
   * A record that is not a pillar always ends "completed" when `generate_body`
   * returns, with whatever it returned: `nil` without an API key, the unchanged
   * body when the structure step fails.  Nothing about the record's earlier
   * status is checked, so a completed record is regenerated.
   */
  lemma NonPillarCompletes(rows: seq<Column>, i: nat, o: JobOracle, body: Option<string>)
    requires TableValid(rows) && i < |rows| && rows[i].articleType != Pillar
    requires ArticleGenerator.GenerateBodyResult(o.apiKey, rows[i], o.outline, o.sections) == ArticleGenerator.Returned(body)
    ensures var run := PerformRun(rows, rows[i].id, o);
      && run.outcome == Finished
      && Updated(rows, run.rows, rows[i].(body := body, status := Some(Completed)))
  {
    FindAt(rows, i);
    var col := rows[i];
    SaveLoaded(rows, Load(col).(current := col.(body := body, status := Some(Completed))));
  }

  /** Without an API key a non-pillar record is completed with a `nil` body. */
  lemma NoApiKeyClearsBody(rows: seq<Column>, i: nat, o: JobOracle)
    requires TableValid(rows) && i < |rows| && rows[i].articleType != Pillar && !Present(o.apiKey)
    ensures var run := PerformRun(rows, rows[i].id, o);
      && run.outcome == Finished
      && Updated(rows, run.rows, rows[i].(body := None, status := Some(Completed)))
  {
    ArticleGenerator.FallBacks(o.apiKey, rows[i], o.outline, o.sections);
    NonPillarCompletes(rows, i, o, None);
  }

  /** When `generate_body` raises, the record gets status "error" and nothing else changes. */
  lemma NonPillarRaises(rows: seq<Column>, i: nat, o: JobOracle)
    requires TableValid(rows) && i < |rows| && rows[i].articleType != Pillar
    requires ArticleGenerator.GenerateBodyResult(o.apiKey, rows[i], o.outline, o.sections) == ArticleGenerator.Raises
    ensures var run := PerformRun(rows, rows[i].id, o);
      && run.outcome == Reraised(StructureNotEntries)
      && Updated(rows, run.rows, rows[i].(status := Some(Error)))
  {
    FindAt(rows, i);
    var col := rows[i];
    SaveLoaded(rows, Load(col).(current := col.(status := Some(Error))));
  }

  /** A pillar whose run raises before the meta save (blank title, no meta) gets status "error" alone. */
  lemma PillarEarlyError(rows: seq<Column>, i: nat, o: JobOracle)
    requires TableValid(rows) && i < |rows| && rows[i].articleType == Pillar
    requires Blank(rows[i].title) || !o.pillar.meta.Parsed?
    ensures var run := PerformRun(rows, rows[i].id, o);
      && run.outcome.Reraised?
      && Updated(rows, run.rows, rows[i].(status := Some(Error)))
  {
    FindAt(rows, i);
    var col := rows[i];
    SaveLoaded(rows, Load(col).(current := col.(status := Some(Error))));
  }

  /**
   * A pillar whose structure step fails keeps the meta attributes of the
   * intermediate save, with status "error" in place of "creating".
   */
  lemma PillarStructureError(rows: seq<Column>, i: nat, o: JobOracle, m: Meta)
    requires TableValid(rows) && i < |rows| && rows[i].articleType == Pillar
    requires !Blank(rows[i].title) && o.pillar.meta == Parsed(m)
    requires !CodeTaken(rows, PillarGenerator.MetaApplied(rows[i], m))
    requires PillarGenerator.OutlineEntries(o.pillar.outline).Failure?
    ensures var run := PerformRun(rows, rows[i].id, o);
      && run.outcome == Reraised(PillarGenerator.OutlineEntries(o.pillar.outline).error)
      && Updated(rows, run.rows, PillarGenerator.MetaApplied(rows[i], m).(status := Some(Error)))
  {
    FindAt(rows, i);
    var col := rows[i];
    PillarGenerator.PillarStructureFails(rows, Load(col), o.pillar, m);
    var run := PillarGenerator.PillarRun(rows, Load(col), o.pillar);
    var c1 := PillarGenerator.MetaApplied(col, m);
    SaveLoaded(run.rows, run.obj.(current := c1.(status := Some(Error))));
    var after := RescueSave(run.rows, run.obj);
    forall j | 0 <= j < |rows| ensures after[j] == (if rows[j].id == col.id then c1.(status := Some(Error)) else rows[j]) {
      assert run.rows[j].id == rows[j].id;
    }
  }

  /**
   * A slug another record holds: the intermediate `update!` raises, and so does
   * the rescue's `update`, which writes the same unsaved code again; the record
   * is left exactly as it was, status included.
   */
  lemma PillarSlugTakenUntouched(rows: seq<Column>, i: nat, o: JobOracle, m: Meta)
    requires TableValid(rows) && i < |rows| && rows[i].articleType == Pillar
    requires !Blank(rows[i].title) && o.pillar.meta == Parsed(m)
    requires CodeTaken(rows, PillarGenerator.MetaApplied(rows[i], m))
    ensures PerformRun(rows, rows[i].id, o) == JobRun(rows, Reraised(SlugTaken))
  {
    FindAt(rows, i);
    var col := rows[i];
    var c1 := PillarGenerator.MetaApplied(col, m);
    PillarGenerator.PillarSlugTaken(rows, Load(col), o.pillar, m);
    SaveLoaded(rows, Load(col).(current := c1.(status := Some(Error))));
  }

  /** A successful pillar run is the pillar pipeline's own result. */
  lemma PillarFinishes(rows: seq<Column>, i: nat, o: JobOracle, m: Meta, es: seq<Entry>)
    requires TableValid(rows) && i < |rows| && rows[i].articleType == Pillar
    requires !Blank(rows[i].title) && o.pillar.meta == Parsed(m)
    requires !CodeTaken(rows, PillarGenerator.MetaApplied(rows[i], m))
    requires PillarGenerator.OutlineEntries(o.pillar.outline) == Success(es)
    ensures var run := PerformRun(rows, rows[i].id, o);
      && run.outcome == Finished
      && Updated(rows, run.rows, PillarGenerator.MetaApplied(rows[i], m).(
           body := Some(PillarGenerator.PillarBody(es, o.pillar.sections)), status := Some(Completed)))
  {
    FindAt(rows, i);
    PillarGenerator.PillarCompletes(rows, Load(rows[i]), o.pillar, m, es);
  }

  /**
   * A job on a record that is not a pillar writes only that record's row,
   * whichever way it ends.
   */
  lemma NonPillarOnlyRow(rows: seq<Column>, i: nat, o: JobOracle)
    requires TableValid(rows) && i < |rows| && rows[i].articleType != Pillar
    ensures OnlyRowChanged(rows, PerformRun(rows, rows[i].id, o).rows, rows[i].id)
  {
    FindAt(rows, i);
    var col := rows[i];
    match ArticleGenerator.GenerateBodyResult(o.apiKey, col, o.outline, o.sections)
    case Raises =>
      SaveOnlyRow(rows, Load(col).(current := col.(status := Some(Error))));
    case Returned(body) =>
      var done := Load(col).(current := col.(body := body, status := Some(Completed)));
      SaveOnlyRow(rows, done);
      SaveOnlyRow(rows, done.(current := done.current.(status := Some(Error))));
  }
}
