/**
 * The task entity of src/database.cpp and include/database.hpp: the Task
 * class with its optional fields, its constructors and setters, and its JSON
 * conversions `from_json` (tolerant, field by field, in place) and `to_json`
 * (every field must be present).
 */
module Tasks {
  import opened Ints
  import opened Wrappers
  import opened JsonModel
  import opened TimePointJson

  /**
   * The value of a Task: id, title, description and status are optional,
   * created_at is not.
   */
  datatype TaskValue = TaskValue(
    id: Option<Int32>,
    title: Option<string>,
    description: Option<string>,
    status: Option<string>,
    createdAt: TimePoint)

  /** `Task() = default`: every optional field empty, created_at the epoch. */
  const DefaultTask: TaskValue := TaskValue(None, None, None, None, Epoch)

  /** All four optional fields are populated, as for a task loaded from storage. */
  predicate IsComplete(v: TaskValue) {
    v.id.Some? && v.title.Some? && v.description.Some? && v.status.Some?
  }

  /**
   * database::Task. The getters get_id ... get_created_at are reads of these
   * fields; Value() is the whole record at once.
   */
  class Task {
    var id: Option<Int32>
    var title: Option<string>
    var description: Option<string>
    var status: Option<string>
    var createdAt: TimePoint

    function Value(): TaskValue
      reads this
    {
      TaskValue(id, title, description, status, createdAt)
    }

    /** Task() = default */
    constructor ()
      ensures Value() == DefaultTask
    {
      id, title, description, status := None, None, None, None;
      createdAt := Epoch;
    }

    /** Task(int id): the other optional fields empty, created_at the current time. */
    constructor WithId(id: Int32, now: TimePoint)
      ensures Value() == TaskValue(Some(id), None, None, None, now)
    {
      this.id := Some(id);
      title, description, status := None, None, None;
      createdAt := now;
    }

    /** Task(id, title, description, status, created_at): a complete task. */
    constructor Make(id: Int32, title: string, description: string, status: string, createdAt: TimePoint)
      ensures Value() == TaskValue(Some(id), Some(title), Some(description), Some(status), createdAt)
      ensures IsComplete(Value())
    {
      this.id := Some(id);
      this.title := Some(title);
      this.description := Some(description);
      this.status := Some(status);
      this.createdAt := createdAt;
    }

    method SetTitle(title: string)
      modifies this
      ensures Value() == old(Value()).(title := Some(title))
    {
      this.title := Some(title);
    }

    method SetDescription(description: string)
      modifies this
      ensures Value() == old(Value()).(description := Some(description))
    {
      this.description := Some(description);
    }

    method SetStatus(status: string)
      modifies this
      ensures Value() == old(Value()).(status := Some(status))
    {
      this.status := Some(status);
    }
  }

  // ---------------------------------------------------------------------
  // from_json

  /** What from_json throws: nlohmann's type error for a field, or "Invalid date format". */
  datatype DecodeError = TypeMismatch(key: string) | InvalidDateFormat

  /**
   * The effect of from_json on the task it fills: the new value on a normal
   * return, or, when it throws, the value the task was left with (fields
   * assigned before the throw keep their new values) and the exception.
   */
  datatype DecodeOutcome = Decoded(value: TaskValue) | Threw(partial: TaskValue, error: DecodeError)

  /** One `if (j.contains(key) && !j[key].is_null()) field = j[key].get<int>();` step. */
  function ReadInt(j: Json, key: string, current: Option<Int32>): Result<Option<Int32>, DecodeError> {
    if !HasValue(j, key) then Ok(current)
    else match GetInt(j.fields[key])
      case Ok(n) => Ok(Some(n))
      case Err(_) => Err(TypeMismatch(key))
  }

  /** One `if (j.contains(key) && !j[key].is_null()) field = j[key].get<std::string>();` step. */
  function ReadString(j: Json, key: string, current: Option<string>): Result<Option<string>, DecodeError> {
    if !HasValue(j, key) then Ok(current)
    else match GetString(j.fields[key])
      case Ok(s) => Ok(Some(s))
      case Err(_) => Err(TypeMismatch(key))
  }

  /**
   * from_json(j, t) on a task whose value is t. `now` is system_clock::now()
   * and parseIso is the `%Y-%m-%dT%H:%M:%SZ` parse followed by timegm, giving
   * epoch seconds or None when the stream fails.
   */
  function Decode(j: Json, t: TaskValue, now: TimePoint, parseIso: string -> Option<int>): DecodeOutcome {
    match ReadInt(j, "id", t.id)
    case Err(e) => Threw(t, e)
    case Ok(id) =>
      var t1 := t.(id := id);
      match ReadString(j, "title", t1.title)
      case Err(e) => Threw(t1, e)
      case Ok(title) =>
        var t2 := t1.(title := title);
        match ReadString(j, "description", t2.description)
        case Err(e) => Threw(t2, e)
        case Ok(description) =>
          var t3 := t2.(description := description);
          match ReadString(j, "status", t3.status)
          case Err(e) => Threw(t3, e)
          case Ok(status) =>
            var t4 := t3.(status := status);
            if !HasValue(j, "created_at") then Decoded(t4.(createdAt := now))
            else match GetString(j.fields["created_at"])
              case Err(_) => Threw(t4, TypeMismatch("created_at"))
              case Ok(text) =>
                match parseIso(text)
                case None => Threw(t4, InvalidDateFormat)
                case Some(secs) => Decoded(t4.(createdAt := FromSeconds(secs)))
  }

  /** database::from_json, assigning the fields of t in place. */
  method FromJson(j: Json, t: Task, now: TimePoint, parseIso: string -> Option<int>) returns (thrown: Option<DecodeError>)
    modifies t
    ensures Decode(j, old(t.Value()), now, parseIso).Decoded? ==>
      thrown == None && t.Value() == Decode(j, old(t.Value()), now, parseIso).value
    ensures Decode(j, old(t.Value()), now, parseIso).Threw? ==>
      thrown == Some(Decode(j, old(t.Value()), now, parseIso).error) &&
      t.Value() == Decode(j, old(t.Value()), now, parseIso).partial
  {
    if HasValue(j, "id") {
      var n := GetInt(j.fields["id"]);
      if n.Err? { return Some(TypeMismatch("id")); }
      t.id := Some(n.value);
    }
    if HasValue(j, "title") {
      var s := GetString(j.fields["title"]);
      if s.Err? { return Some(TypeMismatch("title")); }
      t.title := Some(s.value);
    }
    if HasValue(j, "description") {
      var s := GetString(j.fields["description"]);
      if s.Err? { return Some(TypeMismatch("description")); }
      t.description := Some(s.value);
    }
    if HasValue(j, "status") {
      var s := GetString(j.fields["status"]);
      if s.Err? { return Some(TypeMismatch("status")); }
      t.status := Some(s.value);
    }
    if HasValue(j, "created_at") {
      var text := GetString(j.fields["created_at"]);
      if text.Err? { return Some(TypeMismatch("created_at")); }
      var secs := parseIso(text.value);
      if secs.None? { return Some(InvalidDateFormat); }
      t.createdAt := FromSeconds(secs.value);
    } else {
      t.createdAt := now;
    }
    return None;
  }

  /**
   * from_json returns normally exactly when every present, non-null field has
   * the right JSON type and a present created_at parses.
   */
  lemma DecodeSucceedsIff(j: Json, t: TaskValue, now: TimePoint, parseIso: string -> Option<int>)
    ensures Decode(j, t, now, parseIso).Decoded? <==>
      && (HasValue(j, "id") ==> j.fields["id"].JInt? || j.fields["id"].JBool?)
      && (HasValue(j, "title") ==> j.fields["title"].JStr?)
      && (HasValue(j, "description") ==> j.fields["description"].JStr?)
      && (HasValue(j, "status") ==> j.fields["status"].JStr?)
      && (HasValue(j, "created_at") ==> j.fields["created_at"].JStr? && parseIso(j.fields["created_at"].s).Some?)
  {
  }

  /**
   * A normal return overwrites id, title, description and status only when the
   * key is present and non-null and leaves them untouched otherwise; created_at
   * becomes the parsed instant when given and "now" when absent or null.
   */
  lemma DecodeCopiesOnlyPresentFields(j: Json, t: TaskValue, now: TimePoint, parseIso: string -> Option<int>)
    requires Decode(j, t, now, parseIso).Decoded?
    ensures var v := Decode(j, t, now, parseIso).value;
      && v.id == (if HasValue(j, "id") then Some(GetInt(j.fields["id"]).value) else t.id)
      && v.title == (if HasValue(j, "title") then Some(j.fields["title"].s) else t.title)
      && v.description == (if HasValue(j, "description") then Some(j.fields["description"].s) else t.description)
      && v.status == (if HasValue(j, "status") then Some(j.fields["status"].s) else t.status)
      && v.createdAt == (if HasValue(j, "created_at") then FromSeconds(parseIso(j.fields["created_at"].s).value) else now)
  {
  }

  /**
   * A present created_at string that does not parse makes from_json throw
   * "Invalid date format" once the four fields before it were read; the
   * task keeps its old created_at.
   */
  lemma DecodeRejectsMalformedDate(j: Json, t: TaskValue, now: TimePoint, parseIso: string -> Option<int>)
    requires HasValue(j, "created_at") && j.fields["created_at"].JStr?
    requires parseIso(j.fields["created_at"].s).None?
    ensures Decode(j, t, now, parseIso).Threw?
    ensures Decode(j, t, now, parseIso).error == InvalidDateFormat <==>
      && ReadInt(j, "id", t.id).Ok?
      && ReadString(j, "title", t.title).Ok?
      && ReadString(j, "description", t.description).Ok?
      && ReadString(j, "status", t.status).Ok?
    ensures Decode(j, t, now, parseIso).partial.createdAt == t.createdAt
  {
  }

  /**
   * When from_json throws, created_at is untouched and every other field holds
   * either its old value or the one from the JSON.
   */
  lemma DecodeThrowLeavesPartialTask(j: Json, t: TaskValue, now: TimePoint, parseIso: string -> Option<int>)
    requires Decode(j, t, now, parseIso).Threw?
    ensures var p := Decode(j, t, now, parseIso).partial;
      && p.createdAt == t.createdAt
      && (p.id == t.id || (HasValue(j, "id") && p.id == Some(GetInt(j.fields["id"]).value)))
      && (p.title == t.title || (HasValue(j, "title") && p.title == Some(j.fields["title"].s)))
      && (p.description == t.description || (HasValue(j, "description") && p.description == Some(j.fields["description"].s)))
      && (p.status == t.status || (HasValue(j, "status") && p.status == Some(j.fields["status"].s)))
  {
  }

  /** A JSON value that is not an object has no keys: only created_at changes, to "now". */
  lemma DecodeNonObject(j: Json, t: TaskValue, now: TimePoint, parseIso: string -> Option<int>)
    requires !j.JObj?
    ensures Decode(j, t, now, parseIso) == Decoded(t.(createdAt := now))
  {
  }

  // ---------------------------------------------------------------------
  // to_json

  /** std::bad_optional_access, thrown by `.value()` on an empty field. */
  datatype EncodeError = BadOptionalAccess

  /**
   * database::to_json. formatUtc stands for gmtime followed by
   * put_time(`%Y-%m-%d %H:%M:%S`) applied to the whole seconds of created_at.
   */
  function ToJson(v: TaskValue, formatUtc: int -> string): (r: Result<Json, EncodeError>)
    ensures r.Ok? <==> IsComplete(v)
    ensures r.Ok? ==> r.value.JObj? && r.value.fields.Keys == {"id", "title", "description", "status", "created_at"}
  {
    if !IsComplete(v) then Err(BadOptionalAccess)
    else Ok(JObj(map[
      "id" := JInt(v.id.value),
      "title" := JStr(v.title.value),
      "description" := JStr(v.description.value),
      "status" := JStr(v.status.value),
      "created_at" := JStr(formatUtc(Seconds(v.createdAt)))]))
  }

  /**
   * Decoding the encoding of a complete task, into any task, restores id,
   * title, description and status; when the date parser reads back what the
   * formatter wrote, created_at comes back truncated to whole seconds.
   */
  lemma DecodeOfToJson(v: TaskValue, t: TaskValue, now: TimePoint, formatUtc: int -> string, parseIso: string -> Option<int>)
    requires IsComplete(v)
    requires parseIso(formatUtc(Seconds(v.createdAt))) == Some(Seconds(v.createdAt))
    ensures Decode(ToJson(v, formatUtc).value, t, now, parseIso) == Decoded(v.(createdAt := FromSeconds(Seconds(v.createdAt))))
  {
  }

  /**
   * The output format (`%Y-%m-%d %H:%M:%S`) is not the input format
   * (`%Y-%m-%dT%H:%M:%SZ`): when the parser rejects what the formatter wrote,
   * decoding an encoded task throws "Invalid date format" after taking over
   * the other four fields.
   */
  lemma DecodeOfToJsonWithForeignDateFormat(v: TaskValue, t: TaskValue, now: TimePoint, formatUtc: int -> string, parseIso: string -> Option<int>)
    requires IsComplete(v)
    requires parseIso(formatUtc(Seconds(v.createdAt))).None?
    ensures Decode(ToJson(v, formatUtc).value, t, now, parseIso) == Threw(v.(createdAt := t.createdAt), InvalidDateFormat)
  {
  }
}
