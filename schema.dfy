/**
 * The `columns` table: the record, its column defaults, the unique index on
 * `code`, and the store that enforces it.  ActiveRecord objects are modelled
 * with their dirty tracking, because `update`/`update!` write only the
 * attributes that differ from the values last read or written.
 */
module Schema {
  import opened Wrappers

  // Values of the `status` column used by the system.
  const Draft := "draft"
  const Approved := "approved"
  const Creating := "creating"
  const Completed := "completed"
  const Error := "error"
  const Failed := "failed"

  // Values of the `article_type` column.
  const Pillar := "pillar"
  const Child := "child"
  const Cluster := "cluster"

  /** One row of `columns`; nullable columns are `Option`s. */
  datatype Column = Column(
    id: nat,
    title: Option<string>,
    file: Option<string>,
    choice: Option<string>,
    keyword: Option<string>,
    description: Option<string>,
    status: Option<string>,
    body: Option<string>,
    createdAt: int,
    updatedAt: int,
    serviceType: string,
    genre: Option<string>,
    code: Option<string>,
    articleType: string,
    parentId: Option<int>,
    clusterLimit: Option<int>,
    prompt: Option<string>)

  /** A new row with every column at its schema default. */
  function NewRecord(id: nat, createdAt: int): (c: Column)
    ensures c.id == id && c.createdAt == createdAt && c.updatedAt == createdAt
    ensures c.status == Some(Draft)
    ensures c.articleType == Cluster && c.serviceType == "cargo"
    ensures c.body.None? && c.code.None? && c.parentId.None? && c.title.None? && c.genre.None?
  {
    Column(id, None, None, None, None, None, Some(Draft), None, createdAt, createdAt,
           "cargo", None, None, Cluster, None, None, None)
  }

  /** The first row with primary key `id` (`find_by(id:)`). */
  function Find(rows: seq<Column>, id: int): (r: Option<Column>)
    ensures r.Some? ==> r.value in rows && r.value.id == id
    ensures r.None? ==> forall i :: 0 <= i < |rows| ==> rows[i].id != id
  {
    if rows == [] then None
    else if rows[0].id == id then Some(rows[0])
    else Find(rows[1..], id)
  }

  /** Primary keys are distinct. */
  ghost predicate IdsUnique(rows: seq<Column>) {
    forall i, j :: 0 <= i < j < |rows| ==> rows[i].id != rows[j].id
  }

  /** The unique index on `code`: two rows never share a non-null code. */
  ghost predicate CodesUnique(rows: seq<Column>) {
    forall i, j :: 0 <= i < j < |rows| && rows[i].code.Some? ==> rows[i].code != rows[j].code
  }

  ghost predicate TableValid(rows: seq<Column>) {
    IdsUnique(rows) && CodesUnique(rows)
  }

  /** Some row other than `c`'s own holds `c`'s non-null code. */
  predicate CodeTaken(rows: seq<Column>, c: Column) {
    c.code.Some? && exists i | 0 <= i < |rows| :: rows[i].id != c.id && rows[i].code == c.code
  }

  datatype StoreError = DuplicateCode

  /**
   * `UPDATE columns SET ... WHERE id = c.id`: rejected by the unique index when
   * another row holds `c`'s code; otherwise the row with that key becomes `c`.
   */
  function Replace(rows: seq<Column>, c: Column): (r: Result<seq<Column>, StoreError>)
    ensures r.Failure? <==> CodeTaken(rows, c)
    ensures r.Success? ==> |r.value| == |rows|
    ensures r.Success? ==> forall i :: 0 <= i < |rows| ==>
      r.value[i] == (if rows[i].id == c.id then c else rows[i])
    ensures r.Success? && TableValid(rows) ==> TableValid(r.value)
  {
    if CodeTaken(rows, c) then Failure(DuplicateCode)
    else
      var r := seq(|rows|, i requires 0 <= i < |rows| => if rows[i].id == c.id then c else rows[i]);
      assert TableValid(rows) ==> CodesUnique(r) by {
        if TableValid(rows) {
          forall i, j | 0 <= i < j < |r| && r[i].code.Some?
            ensures r[i].code != r[j].code
          {
            if rows[i].id == c.id && rows[j].id == c.id {
            } else if rows[i].id == c.id {
              assert !(rows[j].id != c.id && rows[j].code == c.code);
            } else if rows[j].id == c.id {
              assert !(rows[i].id != c.id && rows[i].code == c.code);
            }
          }
        }
      }
      Success(r)
  }

  /** `INSERT`: rejected by the unique index when any row already holds `c`'s non-null code. */
  function Insert(rows: seq<Column>, c: Column): (r: Result<seq<Column>, StoreError>)
    ensures r.Failure? <==> (c.code.Some? && exists i | 0 <= i < |rows| :: rows[i].code == c.code)
    ensures r.Success? ==> r.value == rows + [c]
    ensures r.Success? && TableValid(rows) && Find(rows, c.id).None? ==> TableValid(r.value)
  {
    if c.code.Some? && exists i | 0 <= i < |rows| :: rows[i].code == c.code then Failure(DuplicateCode)
    else Success(rows + [c])
  }

  /**
   * An ActiveRecord object: `saved` holds the values last read from or written
   * to the table, `current` the in-memory attribute values.
   */
  datatype Obj = Obj(saved: Column, current: Column)

  /** A freshly loaded object has no unsaved changes. */
  function Load(c: Column): Obj {
    Obj(c, c)
  }

  /** One attribute under a partial write: written only when the object changed it. */
  function Pick<T(==)>(inTable: T, saved: T, current: T): T {
    if current != saved then current else inTable
  }

  /** The row after a partial write of the object's changed attributes onto `row`. */
  function Merge(row: Column, saved: Column, current: Column): (m: Column)
    ensures saved == current ==> m == row
    ensures row == saved ==> m == current
    ensures current.status != saved.status ==> m.status == current.status
    ensures current.status == saved.status ==> m.status == row.status
  {
    Column(
      Pick(row.id, saved.id, current.id),
      Pick(row.title, saved.title, current.title),
      Pick(row.file, saved.file, current.file),
      Pick(row.choice, saved.choice, current.choice),
      Pick(row.keyword, saved.keyword, current.keyword),
      Pick(row.description, saved.description, current.description),
      Pick(row.status, saved.status, current.status),
      Pick(row.body, saved.body, current.body),
      Pick(row.createdAt, saved.createdAt, current.createdAt),
      Pick(row.updatedAt, saved.updatedAt, current.updatedAt),
      Pick(row.serviceType, saved.serviceType, current.serviceType),
      Pick(row.genre, saved.genre, current.genre),
      Pick(row.code, saved.code, current.code),
      Pick(row.articleType, saved.articleType, current.articleType),
      Pick(row.parentId, saved.parentId, current.parentId),
      Pick(row.clusterLimit, saved.clusterLimit, current.clusterLimit),
      Pick(row.prompt, saved.prompt, current.prompt))
  }

  /**
   * `obj.save`: the object's changed attributes are written onto its row.  A row
   * that no longer exists updates nothing; a duplicate code is rejected.
   */
  function SaveRows(rows: seq<Column>, obj: Obj): (r: Result<seq<Column>, StoreError>)
    ensures obj.saved == obj.current && TableValid(rows) ==> r == Success(rows)
  {
    match Find(rows, obj.current.id)
    case None => Success(rows)
    case Some(row) =>
      if obj.saved == obj.current then
        assert TableValid(rows) && Replace(rows, row).Success? ==> Replace(rows, row).value == rows by {
          if TableValid(rows) && Replace(rows, row).Success? {
            var k :| 0 <= k < |rows| && rows[k] == row;
            assert forall i :: 0 <= i < |rows| && rows[i].id == row.id ==> i == k;
          }
        }
        Replace(rows, row)
      else Replace(rows, Merge(row, obj.saved, obj.current))
  }

  /** `after` is `before` with the row keyed `c.id` replaced by `c`, and nothing else changed. */
  ghost predicate Updated(before: seq<Column>, after: seq<Column>, c: Column) {
    |after| == |before| && forall i :: 0 <= i < |before| ==> after[i] == (if before[i].id == c.id then c else before[i])
  }

  /** With distinct keys, `find_by(id:)` returns the row holding that key. */
  lemma {:induction false} FindAt(rows: seq<Column>, i: nat)
    requires IdsUnique(rows) && i < |rows|
    ensures Find(rows, rows[i].id) == Some(rows[i])
  {
    if i > 0 {
      assert IdsUnique(rows[1..]) by {
        forall a, b | 0 <= a < b < |rows[1..]| ensures rows[1..][a].id != rows[1..][b].id {
          assert rows[1..][a] == rows[a + 1] && rows[1..][b] == rows[b + 1];
        }
      }
      FindAt(rows[1..], i - 1);
      assert rows[1..][i - 1] == rows[i];
    }
  }

  /**
   * Saving an object loaded from its row, whose key it has not changed: rejected
   * exactly when its code is another row's; otherwise its row becomes exactly
   * its attributes and every other row is untouched.
   */
  lemma SaveLoaded(rows: seq<Column>, obj: Obj)
    requires TableValid(rows)
    requires Find(rows, obj.current.id) == Some(obj.saved) && obj.saved.id == obj.current.id
    ensures SaveRows(rows, obj).Failure? <==> CodeTaken(rows, obj.current)
    ensures SaveRows(rows, obj).Success? ==> Updated(rows, SaveRows(rows, obj).value, obj.current)
    ensures SaveRows(rows, obj).Success? ==> TableValid(SaveRows(rows, obj).value)
    ensures SaveRows(rows, obj).Success? ==> Find(SaveRows(rows, obj).value, obj.current.id) == Some(obj.current)
  {
    var k :| 0 <= k < |rows| && rows[k] == obj.saved;
    assert forall i :: 0 <= i < |rows| && rows[i].id == obj.saved.id ==> i == k;
    assert SaveRows(rows, obj) == Replace(rows, obj.current);
    var r := Replace(rows, obj.current);
    if r.Success? {
      assert r.value[k] == obj.current;
      FindAt(r.value, k);
    }
  }

  /** `after` has `before`'s keys in the same places, and only rows keyed `id` may differ. */
  ghost predicate OnlyRowChanged(before: seq<Column>, after: seq<Column>, id: int) {
    |after| == |before| &&
    forall j :: 0 <= j < |before| ==> after[j].id == before[j].id && (before[j].id != id ==> after[j] == before[j])
  }

  /**
   * Any save of an object that has not changed its key, however stale: it can
   * only alter the row with that key, and never moves a key.
   */
  lemma SaveOnlyRow(rows: seq<Column>, obj: Obj)
    requires obj.saved.id == obj.current.id
    ensures SaveRows(rows, obj).Success? ==> OnlyRowChanged(rows, SaveRows(rows, obj).value, obj.current.id)
  {
    match Find(rows, obj.current.id)
    case None =>
    case Some(row) =>
      assert Merge(row, obj.saved, obj.current).id == obj.current.id;
  }

  /** Two updates of the same key amount to the second one. */
  lemma UpdatedTwice(a: seq<Column>, b: seq<Column>, c: seq<Column>, x: Column, y: Column)
    requires Updated(a, b, x) && Updated(b, c, y) && x.id == y.id
    ensures Updated(a, c, y)
  {
  }

  /** A save that is not rejected keeps a valid table valid. */
  lemma SaveKeepsTable(rows: seq<Column>, obj: Obj)
    requires TableValid(rows)
    ensures SaveRows(rows, obj).Success? ==> TableValid(SaveRows(rows, obj).value)
  {
    match Find(rows, obj.current.id)
    case None =>
    case Some(row) =>
  }

  /** Two steps that each change only the row keyed `id` change only that row. */
  lemma OnlyRowChangedTrans(a: seq<Column>, b: seq<Column>, c: seq<Column>, id: int)
    requires OnlyRowChanged(a, b, id) && OnlyRowChanged(b, c, id)
    ensures OnlyRowChanged(a, c, id)
  {
  }

  /**
   * Saving a stale object whose only change is its status cannot be rejected:
   * the row keeps its own code, which no other row of a valid table holds.
   */
  lemma StatusSaveSucceeds(rows: seq<Column>, c: Column, status: Option<string>)
    requires TableValid(rows) && Find(rows, c.id).Some?
    ensures SaveRows(rows, Obj(c, c.(status := status))).Success?
  {
    var row := Find(rows, c.id).value;
    var k :| 0 <= k < |rows| && rows[k] == row;
    var m := Merge(row, c, c.(status := status));
    assert m.code == row.code && m.id == row.id;
    forall j | 0 <= j < |rows| && rows[j].id != m.id
      ensures !(m.code.Some? && rows[j].code == m.code)
    {
      assert j != k;
    }
  }

  /** Writing the status of a freshly loaded row replaces exactly that row. */
  lemma StatusSaveAt(rows: seq<Column>, i: nat, status: Option<string>)
    requires TableValid(rows) && i < |rows|
    ensures var c := rows[i];
      SaveRows(rows, Obj(c, c.(status := status))) == Success(rows[i := c.(status := status)])
  {
    var c := rows[i];
    var obj := Obj(c, c.(status := status));
    FindAt(rows, i);
    StatusSaveSucceeds(rows, c, status);
    SaveLoaded(rows, obj);
    var after := SaveRows(rows, obj).value;
    forall m | 0 <= m < |rows|
      ensures after[m] == rows[i := obj.current][m]
    {
      if m != i {
        assert rows[m].id != c.id;
      }
    }
    assert after == rows[i := obj.current];
  }

  /** The database: the `columns` table, its id sequence, and the body-generation job queue. */
  class Database {
    var rows: seq<Column>
    var nextId: nat
    /** Ids passed to `GenerateColumnBodyJob.perform_later`, in order. */
    var queue: seq<nat>

    ghost predicate Valid()
      reads this
    {
      TableValid(rows) && forall i :: 0 <= i < |rows| ==> rows[i].id < nextId
    }

    constructor ()
      ensures Valid() && rows == [] && queue == []
    {
      rows := [];
      nextId := 1;
      queue := [];
    }

    /** `obj.save`/`obj.update(...)`: on success the object is clean again. */
    method Save(obj: Obj) returns (ok: bool, obj': Obj)
      requires Valid()
      modifies this`rows
      ensures Valid()
      ensures ok == SaveRows(old(rows), obj).Success?
      ensures rows == (if ok then SaveRows(old(rows), obj).value else old(rows))
      ensures obj' == (if ok then Load(obj.current) else obj)
    {
      var r := SaveRows(rows, obj);
      if r.Success? {
        assert TableValid(r.value) by {
          var f := Find(rows, obj.current.id);
          if f.Some? && obj.saved != obj.current {
            assert r == Replace(rows, Merge(f.value, obj.saved, obj.current));
          }
        }
        forall i | 0 <= i < |r.value| ensures r.value[i].id < nextId {
          var f := Find(rows, obj.current.id);
          if f.Some? && obj.saved != obj.current {
            assert r == Replace(rows, Merge(f.value, obj.saved, obj.current));
            assert Merge(f.value, obj.saved, obj.current).id == f.value.id || obj.current.id != obj.saved.id;
          }
        }
        rows := r.value;
        ok, obj' := true, Load(obj.current);
      } else {
        ok, obj' := false, obj;
      }
    }

    /** `Column.create!`: the next id is assigned; a duplicate code is rejected. */
    method Create(c: Column) returns (created: Option<Column>)
      requires Valid()
      modifies this`rows, this`nextId
      ensures Valid()
      ensures created.Some? ==> created.value == c.(id := old(nextId))
      ensures created.Some? <==> Insert(old(rows), c.(id := old(nextId))).Success?
      ensures rows == (if created.Some? then old(rows) + [created.value] else old(rows))
      ensures nextId >= old(nextId)
    {
      var row := c.(id := nextId);
      var r := Insert(rows, row);
      if r.Success? {
        rows := r.value;
        nextId := nextId + 1;
        created := Some(row);
      } else {
        created := None;
      }
    }

    /** `GenerateColumnBodyJob.perform_later(id)`. */
    method Enqueue(id: nat)
      modifies this`queue
      ensures queue == old(queue) + [id]
    {
      queue := queue + [id];
    }
  }
}
