/**
 * `Batch::BlogGenerator.run_daily`: when pillars exist, up to `daily_count`
 * times pick a random child record still without a body and run its body job
 * in-process; a job that raises leaves the child marked "failed".
 */
module DailyBatch {
  import opened Wrappers
  import opened Replies
  import opened Schema
  import opened BodyJob
  import ArticleGenerator

  /** `where.not(parent_id: nil).where(article_type: [:child, :cluster], body: nil)`. */
  predicate Eligible(c: Column) {
    c.parentId.Some? && (c.articleType == Child || c.articleType == Cluster) && c.body.None?
  }

  /** `Column.where(article_type: "pillar")` is not empty. */
  predicate HasPillar(rows: seq<Column>) {
    exists i :: 0 <= i < |rows| && rows[i].articleType == Pillar
  }

  /** The job's answers for iteration `i`; iterations past the end meet no key and no response. */
  function OracleAt(oracles: seq<JobOracle>, i: nat): JobOracle {
    if i < |oracles| then oracles[i]
    else JobOracle(None, PillarGenerator.PillarReplies(NoResponse, NoResponse, []), NoResponse, [])
  }

  /**
   * The rescue's `child.update!(status: "failed")` on the object loaded before
   * the job ran: only the status differs from what was loaded, so nothing is
   * written when the child was already "failed" when picked.
   */
  function MarkFailed(rows: seq<Column>, child: Column): seq<Column> {
    match SaveRows(rows, Obj(child, child.(status := Some(Failed))))
    case Success(r) => r
    case Failure(_) => rows
  }

  /** One iteration on the picked child: the job, then the rescue when the job re-raised. */
  function DailyStep(rows: seq<Column>, child: Column, o: JobOracle): seq<Column> {
    var run := PerformRun(rows, child.id, o);
    if run.outcome.Reraised? then MarkFailed(run.rows, child) else run.rows
  }

  /** The ids of rows of `before` that the batch ran on were eligible then; every other row is unchanged. */
  ghost predicate RanOn(before: seq<Column>, after: seq<Column>, ran: seq<nat>) {
    && |after| == |before|
    && (forall j :: 0 <= j < |before| ==> after[j].id == before[j].id && (before[j].id !in ran ==> after[j] == before[j]))
    && (forall i :: 0 <= i < |ran| ==> EligibleIn(before, ran[i]))
  }

  /** Some child with this id was eligible in `rows`. */
  ghost predicate EligibleIn(rows: seq<Column>, id: nat) {
    exists j :: 0 <= j < |rows| && rows[j].id == id && Eligible(rows[j])
  }

  /** One iteration keeps `RanOn` with the picked child's id added. */
  lemma StepRanOn(before: seq<Column>, rows: seq<Column>, ran: seq<nat>, k: nat, o: JobOracle)
    requires TableValid(rows) && RanOn(before, rows, ran) && k < |rows| && Eligible(rows[k])
    ensures RanOn(before, DailyStep(rows, rows[k], o), ran + [rows[k].id])
  {
    StepOnlyRow(rows, k, o);
    RanOnExtend(before, rows, DailyStep(rows, rows[k], o), ran, k);
  }

  /** One iteration writes only the picked child's row. */
  lemma StepOnlyRow(rows: seq<Column>, k: nat, o: JobOracle)
    requires TableValid(rows) && k < |rows| && Eligible(rows[k])
    ensures OnlyRowChanged(rows, DailyStep(rows, rows[k], o), rows[k].id)
  {
    var child := rows[k];
    var run := PerformRun(rows, child.id, o);
    NonPillarOnlyRow(rows, k, o);
    if run.outcome.Reraised? {
      JobKeepsTable(rows, k, o);
      MarkFailedOnlyRow(run.rows, child, k);
      OnlyRowChangedTrans(rows, run.rows, DailyStep(rows, child, o), child.id);
    }
  }

  /** Changing only an eligible row adds its id to the run. */
  lemma RanOnExtend(before: seq<Column>, rows: seq<Column>, after: seq<Column>, ran: seq<nat>, k: nat)
    requires RanOn(before, rows, ran) && k < |rows| && Eligible(rows[k])
    requires OnlyRowChanged(rows, after, rows[k].id)
    ensures RanOn(before, after, ran + [rows[k].id])
  {
    var id := rows[k].id;
    if id !in ran {
      assert rows[k] == before[k];
    }
    assert EligibleIn(before, id);
  }

  /** Marking the child failed succeeds on a valid table and writes only the child's row. */
  lemma MarkFailedOnlyRow(rows: seq<Column>, child: Column, k: nat)
    requires TableValid(rows) && k < |rows| && rows[k].id == child.id
    ensures SaveRows(rows, Obj(child, child.(status := Some(Failed)))).Success?
    ensures OnlyRowChanged(rows, MarkFailed(rows, child), child.id)
  {
    FindAt(rows, k);
    StatusSaveSucceeds(rows, child, Some(Failed));
    SaveOnlyRow(rows, Obj(child, child.(status := Some(Failed))));
  }

  /** The job keeps the table valid. */
  lemma JobKeepsTable(rows: seq<Column>, k: nat, o: JobOracle)
    requires TableValid(rows) && k < |rows| && rows[k].articleType != Pillar
    ensures TableValid(PerformRun(rows, rows[k].id, o).rows)
  {
    var col := rows[k];
    FindAt(rows, k);
    match ArticleGenerator.GenerateBodyResult(o.apiKey, col, o.outline, o.sections)
    case Raises =>
      SaveKeepsTable(rows, Load(col).(current := col.(status := Some(Error))));
    case Returned(body) =>
      var done := Load(col).(current := col.(body := body, status := Some(Completed)));
      SaveKeepsTable(rows, done);
      SaveKeepsTable(rows, done.(current := done.current.(status := Some(Error))));
  }

  /** Lines 31-37 for the child at position `k`: the job in-process, and the rescue when it re-raises. */
  method RunChild(db: Database, k: nat, o: JobOracle)
    requires db.Valid() && k < |db.rows| && Eligible(db.rows[k])
    modifies db`rows
    ensures db.Valid()
    ensures db.rows == DailyStep(old(db.rows), old(db.rows)[k], o)
  {
    var child := db.rows[k];
    NonPillarOnlyRow(db.rows, k, o);
    var outcome := Perform(db, child.id, o);
    if outcome.Reraised? {
      MarkFailedOnlyRow(db.rows, child, k);
      var ok, _ := db.Save(Obj(child, child.(status := Some(Failed))));
    }
  }

  /**
   * The table after the iterations whose picks are `picks`: `picks[i]` is the
   * position of the child taken at iteration `i`, or `None` when `child` was
   * nil and the iteration was skipped; iteration `i` meets `oracles` at `i`.
   */
  function Replay(rows: seq<Column>, picks: seq<Option<nat>>, oracles: seq<JobOracle>): seq<Column>
    decreases |picks|
  {
    if picks == [] then rows
    else
      var t := Replay(rows, picks[..|picks| - 1], oracles);
      match picks[|picks| - 1]
      case None => t
      case Some(k) => if k < |t| then DailyStep(t, t[k], OracleAt(oracles, |picks| - 1)) else t
  }

  /** The ids of the children taken, each read in the table of its own iteration. */
  function PickedIds(rows: seq<Column>, picks: seq<Option<nat>>, oracles: seq<JobOracle>): seq<nat>
    decreases |picks|
  {
    if picks == [] then []
    else
      var t := Replay(rows, picks[..|picks| - 1], oracles);
      var ids := PickedIds(rows, picks[..|picks| - 1], oracles);
      match picks[|picks| - 1]
      case None => ids
      case Some(k) => if k < |t| then ids + [t[k].id] else ids
  }

  /** Lines 18-26: a pick is an eligible row of the current table, and `nil` only when there is none. */
  ghost predicate PickedIn(t: seq<Column>, p: Option<nat>) {
    match p
    case None => forall j :: 0 <= j < |t| ==> !Eligible(t[j])
    case Some(k) => k < |t| && Eligible(t[k])
  }

  /** Every pick of `picks` is allowed by the table its iteration met. */
  ghost predicate Legal(rows: seq<Column>, picks: seq<Option<nat>>, oracles: seq<JobOracle>)
    decreases |picks|
  {
    picks == [] ||
    (Legal(rows, picks[..|picks| - 1], oracles) &&
     PickedIn(Replay(rows, picks[..|picks| - 1], oracles), picks[|picks| - 1]))
  }

  /** One more iteration: the fold takes one `DailyStep` for a pick and nothing for a skip. */
  lemma ReplayStep(rows: seq<Column>, picks: seq<Option<nat>>, oracles: seq<JobOracle>, p: Option<nat>)
    requires Legal(rows, picks, oracles) && PickedIn(Replay(rows, picks, oracles), p)
    ensures Legal(rows, picks + [p], oracles)
    ensures p.None? ==>
      Replay(rows, picks + [p], oracles) == Replay(rows, picks, oracles)
      && PickedIds(rows, picks + [p], oracles) == PickedIds(rows, picks, oracles)
    ensures p.Some? ==>
      var t := Replay(rows, picks, oracles);
      p.value < |t|
      && Replay(rows, picks + [p], oracles) == DailyStep(t, t[p.value], OracleAt(oracles, |picks|))
      && PickedIds(rows, picks + [p], oracles) == PickedIds(rows, picks, oracles) + [t[p.value].id]
  {
    assert (picks + [p])[..|picks|] == picks;
  }

  /** After the iterations `picks`: the fold gives the table, `ran` the ids picked, and `RanOn` holds. */
  ghost predicate Progress(start: seq<Column>, rows: seq<Column>, ran: seq<nat>, picks: seq<Option<nat>>, oracles: seq<JobOracle>) {
    && RanOn(start, rows, ran)
    && Legal(start, picks, oracles)
    && rows == Replay(start, picks, oracles)
    && ran == PickedIds(start, picks, oracles)
  }

  /** An iteration that picks the eligible child at `k` keeps `Progress`. */
  lemma ProgressPicked(start: seq<Column>, rows: seq<Column>, ran: seq<nat>, picks: seq<Option<nat>>, oracles: seq<JobOracle>, k: nat)
    requires TableValid(rows) && Progress(start, rows, ran, picks, oracles) && k < |rows| && Eligible(rows[k])
    ensures Progress(start, DailyStep(rows, rows[k], OracleAt(oracles, |picks|)), ran + [rows[k].id], picks + [Some(k)], oracles)
  {
    ReplayStep(start, picks, oracles, Some(k));
    StepRanOn(start, rows, ran, k, OracleAt(oracles, |picks|));
  }

  /** An iteration that finds no eligible child keeps `Progress` and changes nothing. */
  lemma ProgressSkipped(start: seq<Column>, rows: seq<Column>, ran: seq<nat>, picks: seq<Option<nat>>, oracles: seq<JobOracle>)
    requires Progress(start, rows, ran, picks, oracles) && forall j :: 0 <= j < |rows| ==> !Eligible(rows[j])
    ensures Progress(start, rows, ran, picks + [None], oracles)
  {
    ReplayStep(start, picks, oracles, None);
  }

  /** Lines 31-37 on the child picked at `k`, recorded as iteration `|picks|`. */
  method RunPicked(db: Database, k: nat, oracles: seq<JobOracle>, ghost start: seq<Column>, ran: seq<nat>, picks: seq<Option<nat>>)
    returns (ran': seq<nat>, picks': seq<Option<nat>>)
    requires db.Valid() && Progress(start, db.rows, ran, picks, oracles) && k < |db.rows| && Eligible(db.rows[k])
    modifies db`rows
    ensures db.Valid() && Progress(start, db.rows, ran', picks', oracles)
    ensures picks' == picks + [Some(k)] && |ran'| == |ran| + 1
  {
    var id := db.rows[k].id;
    ProgressPicked(start, db.rows, ran, picks, oracles, k);
    RunChild(db, k, OracleAt(oracles, |picks|));
    ran', picks' := ran + [id], picks + [Some(k)];
  }

  /**
   * Lines 16-39, iteration `|picks|`: take an eligible child if there is one
   * and run it, or skip; the fold and the run record gain that pick.
   */
  method RunIteration(db: Database, oracles: seq<JobOracle>, ghost start: seq<Column>, ran: seq<nat>, picks: seq<Option<nat>>)
    returns (ran': seq<nat>, picks': seq<Option<nat>>)
    requires db.Valid() && Progress(start, db.rows, ran, picks, oracles)
    modifies db`rows
    ensures db.Valid() && Progress(start, db.rows, ran', picks', oracles)
    ensures |picks'| == |picks| + 1 && |ran'| <= |ran| + 1
  {
    if exists k :: 0 <= k < |db.rows| && Eligible(db.rows[k]) {
      var k :| 0 <= k < |db.rows| && Eligible(db.rows[k]);
      ran', picks' := RunPicked(db, k, oracles, start, ran, picks);
    } else {
      ProgressSkipped(start, db.rows, ran, picks, oracles);
      ran', picks' := ran, picks + [None];
    }
  }

  /**
   * Lines 4-43 on the database; `oracles[i]` answers the job of iteration `i`,
   * and the pick among eligible children is left open (`ORDER BY RANDOM()`).
   * Returns the ids of the children whose jobs ran, in order, and the pick of
   * every iteration; the table ends as `Replay` of those picks.
   */
  method RunDaily(db: Database, dailyCount: int, oracles: seq<JobOracle>) returns (ran: seq<nat>, picks: seq<Option<nat>>)
    requires db.Valid()
    modifies db`rows
    ensures db.Valid()
    ensures !HasPillar(old(db.rows)) ==> ran == [] && picks == [] && db.rows == old(db.rows)
    ensures HasPillar(old(db.rows)) ==> |picks| == if dailyCount < 0 then 0 else dailyCount
    ensures Legal(old(db.rows), picks, oracles)
    ensures db.rows == Replay(old(db.rows), picks, oracles)
    ensures ran == PickedIds(old(db.rows), picks, oracles)
    ensures |ran| <= if dailyCount < 0 then 0 else dailyCount
    ensures RanOn(old(db.rows), db.rows, ran)
  {
    ran, picks := [], [];
    if !HasPillar(db.rows) {
      return;
    }
    ghost var start := db.rows;
    var n := if dailyCount < 0 then 0 else dailyCount;
    var i := 0;
    while i < n
      invariant db.Valid() && 0 <= i <= n && |ran| <= i && |picks| == i
      invariant Progress(start, db.rows, ran, picks, oracles)
    {
      ran, picks := RunIteration(db, oracles, start, ran, picks);
      i := i + 1;
    }
  }

  /**
   * While a child is eligible, the iteration runs a job on one: with an
   * eligible row at the start, the first iteration is never skipped.
   */
  lemma {:induction false} EligibleChildRuns(rows: seq<Column>, picks: seq<Option<nat>>, oracles: seq<JobOracle>, j: nat)
    requires Legal(rows, picks, oracles) && |picks| > 0
    requires j < |rows| && Eligible(rows[j])
    ensures picks[0].Some? && picks[0].value < |rows| && Eligible(rows[picks[0].value])
    ensures |PickedIds(rows, picks, oracles)| > 0 && PickedIds(rows, picks, oracles)[0] == rows[picks[0].value].id
    decreases |picks|
  {
    if |picks| == 1 {
      assert picks[..0] == [];
    } else {
      var init := picks[..|picks| - 1];
      EligibleChildRuns(rows, init, oracles, j);
      assert init[0] == picks[0];
      PickedIdsPrefix(rows, picks, oracles);
    }
  }

  /** Later iterations only append to the ids taken. */
  lemma PickedIdsPrefix(rows: seq<Column>, picks: seq<Option<nat>>, oracles: seq<JobOracle>)
    requires |picks| > 0
    ensures PickedIds(rows, picks[..|picks| - 1], oracles) <= PickedIds(rows, picks, oracles)
  {
  }

  /**
   * A job that raises on a child leaves it "failed": the job's own "error" is
   * overwritten by the rescue, and nothing else changes.
   */
  lemma FailedOverwritesError(rows: seq<Column>, k: nat, o: JobOracle)
    requires TableValid(rows) && k < |rows| && Eligible(rows[k]) && rows[k].status != Some(Failed)
    requires ArticleGenerator.GenerateBodyResult(o.apiKey, rows[k], o.outline, o.sections) == ArticleGenerator.Raises
    ensures Updated(rows, DailyStep(rows, rows[k], o), rows[k].(status := Some(Failed)))
  {
    var child := rows[k];
    NonPillarRaises(rows, k, o);
    var run := PerformRun(rows, child.id, o);
    JobKeepsTable(rows, k, o);
    assert run.rows[k] == child.(status := Some(Error));
    FindAt(run.rows, k);
    var obj := Obj(child, child.(status := Some(Failed)));
    assert Merge(run.rows[k], obj.saved, obj.current) == obj.current;
    StatusSaveSucceeds(run.rows, child, Some(Failed));
    assert forall j :: 0 <= j < |run.rows| && j != k ==> run.rows[j].id != child.id;
    UpdatedTwice(rows, run.rows, DailyStep(rows, child, o), child.(status := Some(Error)), obj.current);
  }

  /**
   * A child that was already "failed" when picked keeps the job's "error": the
   * stale object sees no change in setting "failed" again and writes nothing.
   */
  lemma StaleFailedKeepsError(rows: seq<Column>, k: nat, o: JobOracle)
    requires TableValid(rows) && k < |rows| && Eligible(rows[k]) && rows[k].status == Some(Failed)
    requires ArticleGenerator.GenerateBodyResult(o.apiKey, rows[k], o.outline, o.sections) == ArticleGenerator.Raises
    ensures Updated(rows, DailyStep(rows, rows[k], o), rows[k].(status := Some(Error)))
  {
    NonPillarRaises(rows, k, o);
    JobKeepsTable(rows, k, o);
  }

  /**
   * Without an API key the job completes the child with a `nil` body, so the
   * child is still eligible and later iterations may pick it again.
   */
  lemma NoKeyStaysEligible(rows: seq<Column>, k: nat, o: JobOracle)
    requires TableValid(rows) && k < |rows| && Eligible(rows[k]) && !Text.Present(o.apiKey)
    ensures Updated(rows, DailyStep(rows, rows[k], o), rows[k].(status := Some(Completed)))
    ensures Eligible(rows[k].(status := Some(Completed)))
  {
    NoApiKeyClearsBody(rows, k, o);
  }

  /** A job that returns a body takes the child out of the eligible set. */
  lemma GeneratedLeavesPool(rows: seq<Column>, k: nat, o: JobOracle, body: string)
    requires TableValid(rows) && k < |rows| && Eligible(rows[k])
    requires ArticleGenerator.GenerateBodyResult(o.apiKey, rows[k], o.outline, o.sections) == ArticleGenerator.Returned(Some(body))
    ensures Updated(rows, DailyStep(rows, rows[k], o), rows[k].(body := Some(body), status := Some(Completed)))
    ensures !Eligible(rows[k].(body := Some(body), status := Some(Completed)))
  {
    NonPillarCompletes(rows, k, o, Some(body));
  }

  /** Every id in `ran` names a child that was eligible before the batch. */
  lemma RanEligible(before: seq<Column>, after: seq<Column>, ran: seq<nat>, i: nat)
    requires RanOn(before, after, ran) && i < |ran|
    ensures EligibleIn(before, ran[i])
  {
  }

  /** With no eligible child every iteration is skipped: the batch runs nothing and changes nothing. */
  lemma NoEligibleRunsNothing(before: seq<Column>, after: seq<Column>, ran: seq<nat>)
    requires RanOn(before, after, ran)
    requires forall j :: 0 <= j < |before| ==> !Eligible(before[j])
    ensures ran == [] && after == before
  {
    if ran != [] {
      RanEligible(before, after, ran, 0);
      assert false;
    }
  }
}
