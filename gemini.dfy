/**
 * `GeminiColumnGenerator.generate_columns`: `batch_count` iterations, each one
 * generative call whose JSON text becomes a new "draft" record.  The call is an
 * oracle value per iteration.
 */
module GeminiGenerator {
  import opened Wrappers
  import opened Replies
  import opened Schema

  /** The parsed draft: `title`, `description`, `keyword`, `category` (each may be absent). */
  datatype DraftData = DraftData(title: Option<string>, description: Option<string>,
                                 keyword: Option<string>, category: Option<string>)

  /**
   * One iteration's call: it raises (outside the per-iteration rescue, so the
   * whole batch aborts), gives no text (a non-2xx status or no text part), or
   * gives text that parses as a draft object or does not.
   */
  datatype GeminiReply = CallRaises | NoText | Json(data: Reply<DraftData>)

  /** The reply to iteration `i`; iterations past the end of the oracle get no text. */
  function ReplyAt(replies: seq<GeminiReply>, i: nat): (r: GeminiReply)
    ensures i >= |replies| ==> r == NoText
    ensures i < |replies| ==> r == replies[i]
  {
    if i < |replies| then replies[i] else NoText
  }

  /** How the batch ended: `batch_count.times` returns its receiver, or an exception escaped. */
  datatype BatchOutcome = ReturnedCount(count: int) | Aborted

  /** The record `Column.create!` builds from a draft: "draft", the category as `choice`, schema defaults elsewhere. */
  function DraftRecord(id: nat, now: int, d: DraftData): (c: Column)
    ensures c.id == id && c.status == Some(Draft) && c.choice == d.category
    ensures c.title == d.title && c.description == d.description && c.keyword == d.keyword
    ensures c.parentId.None? && c.articleType == Cluster && c.body.None? && c.code.None?
  {
    NewRecord(id, now).(title := d.title, description := d.description, keyword := d.keyword,
                        choice := d.category, status := Some(Draft))
  }

  /** The index of the first iteration below `n` whose call raises, or `n` when none does. */
  function FirstRaise(replies: seq<GeminiReply>, n: nat): (f: nat)
    ensures f <= n
    ensures forall j :: 0 <= j < f ==> ReplyAt(replies, j) != CallRaises
    ensures f < n ==> ReplyAt(replies, f) == CallRaises
  {
    if n == 0 then 0
    else
      var f := FirstRaise(replies, n - 1);
      if f < n - 1 then f
      else if ReplyAt(replies, n - 1) == CallRaises then n - 1
      else n
  }

  /** The drafts that the iterations `0 .. i - 1` turn into records: one per parsed reply, in order. */
  function DraftsUpTo(replies: seq<GeminiReply>, i: nat): (ds: seq<DraftData>)
    ensures |ds| <= i
  {
    if i == 0 then []
    else match ReplyAt(replies, i - 1)
      case Json(Parsed(d)) => DraftsUpTo(replies, i - 1) + [d]
      case _ => DraftsUpTo(replies, i - 1)
  }

  /** What `generate_columns` does as a whole: the outcome and the drafts it stores. */
  function Batch(batchCount: int, replies: seq<GeminiReply>): (r: (BatchOutcome, seq<DraftData>))
    ensures r.0 == Aborted || r.0 == ReturnedCount(batchCount)
    ensures |r.1| <= if batchCount < 0 then 0 else batchCount
  {
    var n: nat := if batchCount < 0 then 0 else batchCount;
    var f := FirstRaise(replies, n);
    (if f < n then Aborted else ReturnedCount(batchCount), DraftsUpTo(replies, f))
  }

  /** When every call answers with a parsable draft, every iteration stores its draft, in order. */
  lemma {:induction false} DraftsAllParsed(replies: seq<GeminiReply>, n: nat)
    requires forall i :: 0 <= i < n ==> ReplyAt(replies, i).Json? && ReplyAt(replies, i).data.Parsed?
    ensures |DraftsUpTo(replies, n)| == n
    ensures forall j :: 0 <= j < n ==> DraftsUpTo(replies, n)[j] == ReplyAt(replies, j).data.value
  {
    if n > 0 {
      DraftsAllParsed(replies, n - 1);
      assert DraftsUpTo(replies, n) == DraftsUpTo(replies, n - 1) + [ReplyAt(replies, n - 1).data.value];
    }
  }

  /** When no call gives a parsable draft, nothing is stored, whatever the count. */
  lemma {:induction false} NothingParsed(replies: seq<GeminiReply>, n: nat)
    requires forall i :: 0 <= i < n ==> !(ReplyAt(replies, i).Json? && ReplyAt(replies, i).data.Parsed?)
    ensures DraftsUpTo(replies, n) == []
  {
    if n > 0 {
      NothingParsed(replies, n - 1);
    }
  }

  /** A count of zero or below runs no iteration, but the method still returns that count. */
  lemma NonPositiveCount(batchCount: int, replies: seq<GeminiReply>)
    requires batchCount <= 0
    ensures Batch(batchCount, replies) == (ReturnedCount(batchCount), [])
  {
  }

  /** The records a list of drafts becomes, at the end of the table from position `base` on. */
  ghost predicate StoredDrafts(rows: seq<Column>, base: nat, now: int, ds: seq<DraftData>) {
    |rows| == base + |ds| &&
    forall j :: 0 <= j < |ds| ==> rows[base + j] == DraftRecord(rows[base + j].id, now, ds[j])
  }

  /** `generate_columns(batch_count:)` on the database; `now` is the clock's value for the timestamps. */
  method GenerateColumns(db: Database, batchCount: int, now: int, replies: seq<GeminiReply>)
    returns (outcome: BatchOutcome)
    requires db.Valid()
    modifies db`rows, db`nextId
    ensures db.Valid()
    ensures outcome == Batch(batchCount, replies).0
    ensures StoredDrafts(db.rows, |old(db.rows)|, now, Batch(batchCount, replies).1)
    ensures db.rows[..|old(db.rows)|] == old(db.rows)
  {
    var n: nat := if batchCount < 0 then 0 else batchCount;
    ghost var start := db.rows;
    var i := 0;
    while i < n
      invariant 0 <= i <= n && db.Valid()
      invariant forall j :: 0 <= j < i ==> ReplyAt(replies, j) != CallRaises
      invariant |db.rows| >= |start| && db.rows[..|start|] == start
      invariant StoredDrafts(db.rows, |start|, now, DraftsUpTo(replies, i))
    {
      var reply := ReplyAt(replies, i);
      if reply == CallRaises {
        assert FirstRaise(replies, n) == i;
        return Aborted;
      }
      if reply.Json? && reply.data.Parsed? {
        var record := DraftRecord(0, now, reply.data.value);
        var created := db.Create(record);
        assert created.Some?;
      }
      i := i + 1;
    }
    assert FirstRaise(replies, n) == n;
    return ReturnedCount(batchCount);
  }
}
