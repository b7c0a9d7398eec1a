/**
 * One task of the payload and the table row the view draws for it: status
 * DONE / LATE / TODO, the time column, and the name with its parse-error note.
 */
module TaskRows {
  import opened Wrappers
  import opened Json
  import opened IsoTime

  /** The three keys the view reads from a task dictionary; absent keys are None. */
  datatype Task = Task(name: Option<Json>, checked: Option<Json>, dueTime: Option<Json>)

  function FieldOf(fields: map<string, Json>, key: string): Option<Json>
  {
    if key in fields then Some(fields[key]) else None
  }

  /** The view's reading of one JSON object of the payload, with the source's defaults. */
  function TaskOf(fields: map<string, Json>): (t: Task)
    ensures DisplayName(t) == if "name" in fields then fields["name"] else JStr("Unknown task")
    ensures IsChecked(t) <==> "checked" in fields && Truthy(fields["checked"])
    ensures DueValue(t) == if "dueTime" in fields then fields["dueTime"] else JStr("")
  {
    Task(FieldOf(fields, "name"), FieldOf(fields, "checked"), FieldOf(fields, "dueTime"))
  }

  /** `task.get('name', 'Unknown task')`. */
  function DisplayName(t: Task): Json
  {
    t.name.GetOr(JStr("Unknown task"))
  }

  /** `task.get('checked', False)`, read for its truthiness. */
  predicate IsChecked(t: Task)
  {
    t.checked.Some? && Truthy(t.checked.value)
  }

  /** `task.get('dueTime', '')`: the raw due value, also the sort key. */
  function DueValue(t: Task): Json
  {
    t.dueTime.GetOr(JStr(""))
  }

  /** The outcome of reading a due value: none given, an instant, or a caught exception. */
  datatype Due = NoDue | DueAt(utc: int) | Unparsable

  function DueOf(v: Json, parse: Parser): (d: Due)
    ensures d.NoDue? <==> !Truthy(v)
    ensures d.DueAt? ==> v.JStr? && parse(ReplaceZ(v.s)).Some?
    ensures d.DueAt? ==> d.utc == Utc(parse(ReplaceZ(v.s)).value)
    ensures d.Unparsable? <==> Truthy(v) && (!v.JStr? || parse(ReplaceZ(v.s)).None?)
  {
    if !Truthy(v) then NoDue
    else if !v.JStr? then Unparsable  // `.replace` on a non-string raises, and the except catches it
    else match parse(ReplaceZ(v.s))
      case Some(dt) => DueAt(Utc(dt))
      case None => Unparsable
  }

  /**
   * Leaving the offset out and writing `Z` mean the same instant, for a parser that
   * reads `+00:00` as offset 0 and the bare string as the same wall-clock reading.
   */
  lemma NaiveAndZuluAgree(s: string, wall: int, parse: Parser)
    requires s != [] && 'Z' !in s
    requires parse(s) == Some(DateTime(wall, None))
    requires parse(s + "+00:00") == Some(DateTime(wall, Some(0)))
    ensures DueOf(JStr(s), parse) == DueOf(JStr(s + "Z"), parse) == DueAt(wall)
  {
    ReplaceZKeepsZFree(s);
    ReplaceZConcat(s, "Z");
    ReplaceZOfZ();
  }

  /** Handing over a due time that is already rewritten reads the same. */
  lemma DueOfIgnoresRewrite(s: string, parse: Parser)
    ensures DueOf(JStr(ReplaceZ(s)), parse) == DueOf(JStr(s), parse)
  {
    ReplaceZIdempotent(s);
  }

  /** The task's due time, when it is given and parses, lies strictly before `now`. */
  predicate IsPastDue(t: Task, now: int, parse: Parser)
  {
    match DueOf(DueValue(t), parse)
    case DueAt(u) => u < now
    case _ => false
  }

  datatype Status = Done | Late | Todo

  /** The status column: being checked wins over being late. */
  function StatusOf(t: Task, now: int, parse: Parser): (st: Status)
    ensures st == Done <==> IsChecked(t)
    ensures st == Late <==> !IsChecked(t) && IsPastDue(t, now, parse)
    ensures st == Todo <==> !IsChecked(t) && !IsPastDue(t, now, parse)
  {
    if IsChecked(t) then Done else if IsPastDue(t, now, parse) then Late else Todo
  }

  /** The time column: `"??:??"`, or the local clock reading of a UTC instant. */
  datatype TimeText = Unknown | LocalTimeOf(utc: int)

  /** A table row: one per task, or the single `ERR` row for a payload that is not a list. */
  datatype Row =
    | TaskRow(status: Status, time: TimeText, name: Json, parseError: bool)
    | ErrRow

  /** The row drawn for task `t` when the current UTC instant is `now`. */
  function Classify(t: Task, now: int, parse: Parser): (r: Row)
    ensures r.TaskRow? && r.name == DisplayName(t) && r.status == StatusOf(t, now, parse)
    // a missing or empty due time shows "??:??" and is never late
    ensures !Truthy(DueValue(t)) ==> r.time == Unknown && r.status != Late && !r.parseError
    // a due string the parser rejects shows "??:??", is never late, and marks the name
    ensures DueValue(t).JStr? && DueValue(t).s != "" && parse(ReplaceZ(DueValue(t).s)).None?
      ==> r.time == Unknown && r.status != Late && r.parseError
    // a due string that parses shows its instant and is late iff unchecked and before now
    ensures DueValue(t).JStr? && DueValue(t).s != "" && parse(ReplaceZ(DueValue(t).s)).Some?
      ==> var u := Utc(parse(ReplaceZ(DueValue(t).s)).value);
          r.time == LocalTimeOf(u) && !r.parseError
          && (r.status == Late <==> !IsChecked(t) && u < now)
    // any other due value (a number, a list, ...) is caught like a parse failure
    ensures Truthy(DueValue(t)) && !DueValue(t).JStr? ==> r.time == Unknown && r.status != Late && r.parseError
  {
    var due := DueOf(DueValue(t), parse);
    TaskRow(
      StatusOf(t, now, parse),
      if due.DueAt? then LocalTimeOf(due.utc) else Unknown,
      DisplayName(t),
      due == Unparsable)
  }

  /** The rows, in order, drawn for the tasks `ts`. */
  function RowsOf(ts: seq<Task>, now: int, parse: Parser): (rows: seq<Row>)
    ensures |rows| == |ts|
  {
    if ts == [] then []
    else RowsOf(ts[..|ts| - 1], now, parse) + [Classify(ts[|ts| - 1], now, parse)]
  }

  /** Exactly one row per task, at the task's own position. */
  lemma {:induction false} RowsOfEach(ts: seq<Task>, now: int, parse: Parser)
    ensures forall i :: 0 <= i < |ts| ==> RowsOf(ts, now, parse)[i] == Classify(ts[i], now, parse)
  {
    if ts != [] {
      var init := ts[..|ts| - 1];
      RowsOfEach(init, now, parse);
      forall i | 0 <= i < |ts| ensures RowsOf(ts, now, parse)[i] == Classify(ts[i], now, parse) {
        if i < |init| {
          assert ts[i] == init[i];
        }
      }
    }
  }

  /** Number of tasks of `ts` with status `st`: what the loop's counter reaches. */
  function Tally(ts: seq<Task>, st: Status, now: int, parse: Parser): nat
  {
    if ts == [] then 0
    else Tally(ts[..|ts| - 1], st, now, parse)
         + (if StatusOf(ts[|ts| - 1], now, parse) == st then 1 else 0)
  }

  /** Number of task rows with status `st` in a drawn table. */
  function Count(rows: seq<Row>, st: Status): nat
  {
    if rows == [] then 0
    else Count(rows[..|rows| - 1], st)
         + (if rows[|rows| - 1].TaskRow? && rows[|rows| - 1].status == st then 1 else 0)
  }

  /** Each statistics box shows how many rows of its status the table holds. */
  lemma {:induction false} TallyCountsRows(ts: seq<Task>, st: Status, now: int, parse: Parser)
    ensures Count(RowsOf(ts, now, parse), st) == Tally(ts, st, now, parse)
  {
    if ts != [] {
      TallyCountsRows(ts[..|ts| - 1], st, now, parse);
      var rows := RowsOf(ts, now, parse);
      assert rows[..|rows| - 1] == RowsOf(ts[..|ts| - 1], now, parse);
    }
  }

  lemma {:induction false} TallyConcat(a: seq<Task>, b: seq<Task>, st: Status, now: int, parse: Parser)
    ensures Tally(a + b, st, now, parse) == Tally(a, st, now, parse) + Tally(b, st, now, parse)
    decreases |b|
  {
    if b == [] {
      assert a + b == a;
    } else {
      assert (a + b)[..|a + b| - 1] == a + b[..|b| - 1];
      TallyConcat(a, b[..|b| - 1], st, now, parse);
    }
  }

  /** Every task is counted in exactly one of DONE, LATE and TODO. */
  lemma {:induction false} TallyPartition(ts: seq<Task>, now: int, parse: Parser)
    ensures Tally(ts, Done, now, parse) + Tally(ts, Late, now, parse) + Tally(ts, Todo, now, parse) == |ts|
  {
    if ts != [] {
      TallyPartition(ts[..|ts| - 1], now, parse);
    }
  }
}
