/**
 * database::Database of src/database.cpp over an in-memory `tasks` table.
 * The table is a map from id to row; the SERIAL column's sequence is the
 * counter `nextId`. Each method does what the SQL statement it issues does to
 * the table, including the failures PostgreSQL reports for it.
 */
module Storage {
  import opened Ints
  import opened Wrappers
  import opened TimePointJson
  import opened Tasks

  /** Column widths of the CREATE TABLE statement: VARCHAR(255) title, VARCHAR(50) status. */
  const MaxTitleLength: nat := 255
  const MaxStatusLength: nat := 50

  /** Largest value of a SERIAL (int4) sequence. */
  const MaxSerial: int := 0x7fff_ffff

  /** The defaults create_task stores for absent fields. */
  const DefaultTitle: string := ""
  const DefaultDescription: string := ""
  const DefaultStatus: string := "In progress"

  /**
   * One row of `tasks`, without its id (the key). description is a nullable
   * TEXT column; created_at is a BIGINT of epoch seconds.
   */
  datatype Row = Row(title: string, description: Option<string>, status: string, createdAt: int)

  /** What the Database methods throw. */
  datatype DbError =
    | MissingId           // std::bad_optional_access: update_task on a task without id
    | NotFound(id: Int32) // runtime_error "Task with id <id> does not exist"
    | NothingToUpdate     // invalid_argument "Nothing to update"
    | StorageFailure      // a pqxx::sql_error, rethrown as runtime_error

  /**
   * Assigning a string to a VARCHAR(n) column: it is stored as is when it
   * fits; a longer one is an error unless every character past n is a space,
   * in which case it is cut to n characters.
   */
  function Varchar(s: string, n: nat): (r: Option<string>)
    ensures r.Some? ==> |r.value| <= n && r.value <= s
    ensures |s| <= n ==> r == Some(s)
    ensures r.None? <==> exists i :: n <= i < |s| && s[i] != ' '
    ensures |s| > n && r.Some? ==> r.value == s[..n]
  {
    if |s| <= n then Some(s)
    else if forall i :: n <= i < |s| ==> s[i] == ' ' then Some(s[..n])
    else None
  }

  /** The values every row of the table satisfies by the column types. */
  predicate RowFits(row: Row) {
    |row.title| <= MaxTitleLength && |row.status| <= MaxStatusLength
  }

  /**
   * Database::row_to_task: a complete task; a NULL description reads as "",
   * and created_at is the row's seconds as a time point.
   */
  function RowToTask(id: Int32, row: Row): (v: TaskValue)
    ensures IsComplete(v) && v.id == Some(id)
    ensures v.title == Some(row.title) && v.status == Some(row.status)
    ensures v.description == Some(row.description.GetOr(""))
    ensures Seconds(v.createdAt) == row.createdAt && IsWholeSecond(v.createdAt)
  {
    SecondsOfFromSeconds(row.createdAt);
    TaskValue(Some(id), Some(row.title), Some(row.description.GetOr("")), Some(row.status), FromSeconds(row.createdAt))
  }

  /**
   * The row the INSERT of create_task writes for a task, or None when
   * PostgreSQL rejects the title or status as too long.
   */
  function InsertedRow(v: TaskValue): (r: Option<Row>)
    ensures r.Some? ==> RowFits(r.value) && r.value.createdAt == Seconds(v.createdAt)
  {
    var title := Varchar(v.title.GetOr(DefaultTitle), MaxTitleLength);
    var status := Varchar(v.status.GetOr(DefaultStatus), MaxStatusLength);
    if title.None? || status.None? then None
    else Some(Row(title.value, Some(v.description.GetOr(DefaultDescription)), status.value, Seconds(v.createdAt)))
  }

  /** At least one of title, description and status is supplied. */
  predicate SuppliesUpdate(v: TaskValue) {
    v.title.Some? || v.description.Some? || v.status.Some?
  }

  /**
   * The row the read-modify-write of update_task writes: the current task with
   * the supplied fields replaced, or None when PostgreSQL rejects a value.
   */
  function MergedRow(current: Row, v: TaskValue): (r: Option<Row>)
    ensures RowFits(current) ==> (r.None? <==>
      (v.title.Some? && Varchar(v.title.value, MaxTitleLength).None?) ||
      (v.status.Some? && Varchar(v.status.value, MaxStatusLength).None?))
  {
    var task := RowToTask(0, current);
    var title := Varchar(v.title.GetOr(task.title.value), MaxTitleLength);
    var status := Varchar(v.status.GetOr(task.status.value), MaxStatusLength);
    if title.None? || status.None? then None
    else Some(Row(title.value, Some(v.description.GetOr(task.description.value)), status.value, current.createdAt))
  }

  /** create_task fills absent fields with "", "" and "In progress" and stores created_at in whole seconds. */
  lemma InsertedRowDefaults(v: TaskValue)
    ensures v.title.None? && InsertedRow(v).Some? ==> InsertedRow(v).value.title == ""
    ensures v.status.None? && InsertedRow(v).Some? ==> InsertedRow(v).value.status == "In progress"
    ensures v.title.None? && v.status.None? ==>
      InsertedRow(v) == Some(Row("", Some(v.description.GetOr("")), "In progress", Seconds(v.createdAt)))
    ensures v.description.None? && InsertedRow(v).Some? ==> InsertedRow(v).value.description == Some("")
  {
    assert |DefaultStatus| <= MaxStatusLength;
  }

  /** A title and status that fit their columns are stored exactly as given. */
  lemma InsertedRowKeepsFittingValues(v: TaskValue)
    requires v.title.Some? && |v.title.value| <= MaxTitleLength
    requires v.status.Some? && |v.status.value| <= MaxStatusLength
    ensures InsertedRow(v) == Some(Row(v.title.value, Some(v.description.GetOr("")), v.status.value, Seconds(v.createdAt)))
  {
  }

  /**
   * A merge replaces only the supplied fields: unsupplied title and status
   * keep their values, an unsupplied description keeps its value (a NULL one
   * reads as ""), and created_at never changes.
   */
  lemma MergedRowReplacesOnlySupplied(current: Row, v: TaskValue)
    requires RowFits(current)
    requires v.title.Some? ==> |v.title.value| <= MaxTitleLength
    requires v.status.Some? ==> |v.status.value| <= MaxStatusLength
    ensures MergedRow(current, v) == Some(Row(
      v.title.GetOr(current.title),
      Some(v.description.GetOr(current.description.GetOr(""))),
      v.status.GetOr(current.status),
      current.createdAt))
  {
  }

  /** A listing of the table: each entry is a full row of it. */
  predicate ListsRow(rows: map<Int32, Row>, t: TaskValue) {
    t.id.Some? && t.id.value in rows && t == RowToTask(t.id.value, rows[t.id.value])
  }

  ghost predicate Listed(tasks: seq<TaskValue>, id: Int32) {
    exists i :: 0 <= i < |tasks| && tasks[i].id == Some(id)
  }

  /** The result of `SELECT ... ORDER BY created_at DESC`: every row once, newest first. */
  ghost predicate IsNewestFirst(rows: map<Int32, Row>, tasks: seq<TaskValue>) {
    && (forall i :: 0 <= i < |tasks| ==> ListsRow(rows, tasks[i]))
    && (forall i, j :: 0 <= i < j < |tasks| ==> tasks[i].id != tasks[j].id)
    && (forall id :: id in rows ==> Listed(tasks, id))
    && (forall i, j :: 0 <= i < j < |tasks| ==> tasks[j].createdAt.ticks <= tasks[i].createdAt.ticks)
  }

  /** Some row of a non-empty set of ids is at least as new as every other. */
  lemma {:induction false} NewestExists(rows: map<Int32, Row>, ids: set<Int32>)
    requires ids != {} && ids <= rows.Keys
    ensures exists k :: k in ids && forall j :: j in ids ==> rows[j].createdAt <= rows[k].createdAt
  {
    var x :| x in ids;
    if ids != {x} {
      NewestExists(rows, ids - {x});
      var k :| k in ids - {x} && forall j :: j in ids - {x} ==> rows[j].createdAt <= rows[k].createdAt;
      if rows[x].createdAt > rows[k].createdAt {
        assert forall j :: j in ids ==> rows[j].createdAt <= rows[x].createdAt;
      } else {
        assert forall j :: j in ids ==> rows[j].createdAt <= rows[k].createdAt;
      }
    } else {
      assert forall j :: j in ids ==> j == x;
    }
  }

  /** The ids of a sequence of distinct ids number as many as its entries. */
  lemma {:induction false} DistinctIdsCount(tasks: seq<TaskValue>)
    requires forall i :: 0 <= i < |tasks| ==> tasks[i].id.Some?
    requires forall i, j :: 0 <= i < j < |tasks| ==> tasks[i].id != tasks[j].id
    ensures |set i | 0 <= i < |tasks| :: tasks[i].id.value| == |tasks|
  {
    if tasks != [] {
      var rest := tasks[..|tasks| - 1];
      DistinctIdsCount(rest);
      var last := tasks[|tasks| - 1].id.value;
      var s := set i | 0 <= i < |tasks| :: tasks[i].id.value;
      var s' := set i | 0 <= i < |rest| :: rest[i].id.value;
      assert s == s' + {last};
      assert last !in s';
    }
  }

  /** A newest-first listing has exactly one entry per row; an empty table lists nothing. */
  lemma ListingHasOneEntryPerRow(rows: map<Int32, Row>, tasks: seq<TaskValue>)
    requires IsNewestFirst(rows, tasks)
    ensures |tasks| == |rows|
    ensures rows == map[] <==> tasks == []
  {
    DistinctIdsCount(tasks);
    var s := set i | 0 <= i < |tasks| :: tasks[i].id.value;
    forall id | id in rows ensures id in s {
      assert Listed(tasks, id);
      var i :| 0 <= i < |tasks| && tasks[i].id == Some(id);
    }
    assert s == rows.Keys;
  }

  /**
   * A prefix of the newest-first listing: the rows already taken, each once
   * and newest first, none of them still remaining and none older than a
   * remaining row.
   */
  ghost predicate PartialListing(rows: map<Int32, Row>, tasks: seq<TaskValue>, remaining: set<Int32>) {
    && remaining <= rows.Keys
    && (forall i :: 0 <= i < |tasks| ==> ListsRow(rows, tasks[i]) && tasks[i].id.value !in remaining)
    && (forall i, j :: 0 <= i < j < |tasks| ==> tasks[i].id != tasks[j].id)
    && (forall id :: id in rows && id !in remaining ==> Listed(tasks, id))
    && (forall i, j :: 0 <= i < j < |tasks| ==> tasks[j].createdAt.ticks <= tasks[i].createdAt.ticks)
    && (forall i, k :: 0 <= i < |tasks| && k in remaining ==> rows[k].createdAt <= Seconds(tasks[i].createdAt))
  }

  /** Taking a newest remaining row extends the listing. */
  lemma ListingStep(rows: map<Int32, Row>, tasks: seq<TaskValue>, remaining: set<Int32>, k: Int32)
    requires PartialListing(rows, tasks, remaining)
    requires k in remaining && forall j :: j in remaining ==> rows[j].createdAt <= rows[k].createdAt
    ensures PartialListing(rows, tasks + [RowToTask(k, rows[k])], remaining - {k})
  {
    var t := RowToTask(k, rows[k]);
    var tasks' := tasks + [t];
    forall i | 0 <= i < |tasks| ensures t.createdAt.ticks <= tasks[i].createdAt.ticks {
      var r := rows[tasks[i].id.value];
      assert rows[k].createdAt <= Seconds(tasks[i].createdAt) == r.createdAt;
      assert tasks[i].createdAt == FromSeconds(r.createdAt);
    }
    forall i, j | 0 <= i < |tasks'| && j in remaining - {k}
      ensures rows[j].createdAt <= Seconds(tasks'[i].createdAt)
    {
      if i == |tasks| {
        assert Seconds(tasks'[i].createdAt) == rows[k].createdAt;
      }
    }
    forall id | id in rows && id !in remaining - {k} ensures Listed(tasks', id) {
      if id == k {
        assert tasks'[|tasks|].id == Some(id);
      } else {
        assert Listed(tasks, id);
        var i :| 0 <= i < |tasks| && tasks[i].id == Some(id);
        assert tasks'[i].id == Some(id);
      }
    }
  }

  /** With nothing remaining, the listing is complete. */
  lemma ListingComplete(rows: map<Int32, Row>, tasks: seq<TaskValue>)
    requires PartialListing(rows, tasks, {})
    ensures IsNewestFirst(rows, tasks)
  {
  }

  class Database {
    /** The `tasks` table. */
    var rows: map<Int32, Row>
    /** The next value of the id column's sequence. */
    var nextId: int

    /** Ids come from the sequence, and every row fits its columns. */
    ghost predicate Valid()
      reads this
    {
      && 1 <= nextId <= MaxSerial + 1
      && (forall id :: id in rows ==> 1 <= id < nextId && RowFits(rows[id]))
    }

    /** A database whose `tasks` table is empty and whose sequence starts at 1. */
    constructor ()
      ensures Valid() && rows == map[] && nextId == 1
    {
      rows := map[];
      nextId := 1;
    }

    /** Database::check_id_exists */
    method CheckIdExists(id: Int32) returns (found: bool)
      ensures found <==> id in rows
    {
      found := id in rows;
    }

    /** Database::get_task_by_id: none exactly when no row has the id, else that row as a complete task. */
    method GetTaskById(id: Int32) returns (r: Option<TaskValue>)
      ensures r.None? <==> id !in rows
      ensures r.Some? ==> IsComplete(r.value) && r.value.id == Some(id) && ListsRow(rows, r.value)
    {
      if id !in rows {
        return None;
      }
      return Some(RowToTask(id, rows[id]));
    }

    /**
     * Database::get_all_tasks. Each turn of the loop takes the next row of the
     * ORDER BY created_at DESC result, a newest row not yet taken; rows with
     * the same created_at come in no particular order.
     */
    method GetAllTasks() returns (tasks: seq<TaskValue>)
      ensures IsNewestFirst(rows, tasks)
    {
      tasks := [];
      var remaining := rows.Keys;
      while remaining != {}
        invariant PartialListing(rows, tasks, remaining)
        decreases remaining
      {
        NewestExists(rows, remaining);
        var k :| k in remaining && forall j :: j in remaining ==> rows[j].createdAt <= rows[k].createdAt;
        ListingStep(rows, tasks, remaining, k);
        tasks := tasks + [RowToTask(k, rows[k])];
        remaining := remaining - {k};
      }
      ListingComplete(rows, tasks);
    }

    /**
     * Database::create_task: inserts the task with defaults for absent
     * fields and returns the sequence's next id, which no row had; the other
     * rows are unchanged. PostgreSQL's failures (a value too long for its
     * column, an exhausted sequence) leave the table as it was.
     */
    method CreateTask(task: Task) returns (r: Result<Int32, DbError>)
      requires Valid()
      modifies this
      ensures Valid()
      ensures r.Ok? <==> old(nextId) <= MaxSerial && InsertedRow(task.Value()).Some?
      ensures r.Ok? ==>
        && r.value == old(nextId) && r.value !in old(rows)
        && rows == old(rows)[r.value := InsertedRow(task.Value()).value]
        && nextId == old(nextId) + 1
      ensures r.Err? ==> r.error == StorageFailure && rows == old(rows) && nextId == old(nextId)
    {
      var row := InsertedRow(task.Value());
      if nextId > MaxSerial || row.None? {
        return Err(StorageFailure);
      }
      var id: Int32 := nextId;
      rows := rows[id := row.value];
      nextId := nextId + 1;
      return Ok(id);
    }

    /**
     * Database::update_task. Without an id it throws bad_optional_access; on an
     * id with no row it fails with "does not exist" before anything else is
     * looked at; with nothing supplied it fails with "Nothing to update"; a
     * value too long for its column fails in PostgreSQL. Each failure leaves
     * the table unchanged. Otherwise exactly that row gets the merge.
     */
    method UpdateTask(task: Task) returns (r: Outcome<DbError>)
      requires Valid()
      modifies this
      ensures Valid() && nextId == old(nextId)
      ensures task.id.None? ==> r == Fail(MissingId) && rows == old(rows)
      ensures task.id.Some? && task.id.value !in old(rows) ==>
        r == Fail(NotFound(task.id.value)) && rows == old(rows)
      ensures task.id.Some? && task.id.value in old(rows) && !SuppliesUpdate(task.Value()) ==>
        r == Fail(NothingToUpdate) && rows == old(rows)
      ensures task.id.Some? && task.id.value in old(rows) && SuppliesUpdate(task.Value()) ==>
        match MergedRow(old(rows)[task.id.value], task.Value())
        case None => r == Fail(StorageFailure) && rows == old(rows)
        case Some(row) => r == Pass && rows == old(rows)[task.id.value := row]
    {
      if task.id.None? {
        return Fail(MissingId);
      }
      var id := task.id.value;
      var found := GetTaskById(id);
      if found.None? {
        return Fail(NotFound(id));
      }
      var v := found.value;
      var current := new Task.Make(id, v.title.value, v.description.value, v.status.value, v.createdAt);
      var isUpdated := false;
      if task.title.Some? {
        isUpdated := true;
        current.SetTitle(task.title.value);
      }
      if task.description.Some? {
        isUpdated := true;
        current.SetDescription(task.description.value);
      }
      if task.status.Some? {
        isUpdated := true;
        current.SetStatus(task.status.value);
      }
      if !isUpdated {
        return Fail(NothingToUpdate);
      }
      var title := Varchar(current.title.value, MaxTitleLength);
      var status := Varchar(current.status.value, MaxStatusLength);
      if title.None? || status.None? {
        return Fail(StorageFailure);
      }
      rows := rows[id := Row(title.value, Some(current.description.value), status.value, rows[id].createdAt)];
      return Pass;
    }

    /**
     * Database::delete_task: an id with no row fails with "does not exist" and
     * changes nothing; otherwise exactly that row is removed.
     */
    method DeleteTask(id: Int32) returns (r: Outcome<DbError>)
      requires Valid()
      modifies this
      ensures Valid() && nextId == old(nextId)
      ensures id !in old(rows) ==> r == Fail(NotFound(id)) && rows == old(rows)
      ensures id in old(rows) ==> r == Pass && rows == old(rows) - {id}
    {
      var found := CheckIdExists(id);
      if !found {
        return Fail(NotFound(id));
      }
      rows := rows - {id};
      return Pass;
    }
  }

  /**
   * Two rows, the second newer: the listing is the newer one, then the older
   * one, whatever order they were inserted in.
   */
  lemma TwoRowListing(rows: map<Int32, Row>, tasks: seq<TaskValue>, older: Int32, newer: Int32)
    requires IsNewestFirst(rows, tasks)
    requires rows.Keys == {older, newer} && older != newer
    requires rows[older].createdAt < rows[newer].createdAt
    ensures tasks == [RowToTask(newer, rows[newer]), RowToTask(older, rows[older])]
  {
    ListingHasOneEntryPerRow(rows, tasks);
    assert |rows| == |rows.Keys| == 2;
    assert ListsRow(rows, tasks[0]) && ListsRow(rows, tasks[1]);
    assert tasks[0].id != tasks[1].id;
    assert tasks[1].createdAt.ticks <= tasks[0].createdAt.ticks;
  }

  /**
   * A client of the contracts: a task with a title and status that fit is
   * stored under a fresh id and reads back with its fields; once it is
   * deleted the lookup finds nothing and a second delete fails.
   */
  method CreateReadDelete(db: Database, task: Task)
    returns (id: Int32, read: Option<TaskValue>, afterDelete: Option<TaskValue>, secondDelete: Outcome<DbError>)
    requires db.Valid() && db.nextId <= MaxSerial
    requires task.title.Some? && |task.title.value| <= MaxTitleLength
    requires task.status.Some? && |task.status.value| <= MaxStatusLength
    modifies db
    ensures read.Some? && read.value.id == Some(id)
    ensures read.value.title == task.title && read.value.status == task.status
    ensures read.value.description == Some(task.description.GetOr(""))
    ensures afterDelete == None && secondDelete == Fail(NotFound(id))
  {
    InsertedRowKeepsFittingValues(task.Value());
    var created := db.CreateTask(task);
    id := created.value;
    read := db.GetTaskById(id);
    var deleted := db.DeleteTask(id);
    afterDelete := db.GetTaskById(id);
    secondDelete := db.DeleteTask(id);
  }
}
