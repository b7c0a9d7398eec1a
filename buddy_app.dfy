/**
 * `TaskBuddyApp._refresh_table`: redraw the task table and the four statistics
 * boxes from the payload last received on POST /tasks.
 */
module BuddyApp {
  import opened Wrappers
  import opened Json
  import opened IsoTime
  import opened TaskRows
  import opened DueSort

  /** The exceptions that can escape the refresh, both raised by the `sorted` call. */
  datatype PyError =
    | AttributeError  // an element of the list is not a dictionary: `x.get` fails in the key
    | TypeError       // two desired sort keys cannot be compared with `<`

  /** What happens to a payload before the row loop starts. */
  datatype Prepared =
    | NotAList
    | Raises(error: PyError)
    | Listed(tasks: seq<Task>)  // `sorted_tasks`

  predicate AllObjects(items: seq<Json>)
  {
    forall i :: 0 <= i < |items| ==> items[i].JObject?
  }

  /** The tasks the list's dictionaries describe, in payload order. */
  function Decode(items: seq<Json>): (ts: seq<Task>)
    requires AllObjects(items)
    ensures |ts| == |items|
    ensures forall i :: 0 <= i < |items| ==> ts[i] == TaskOf(items[i].fields)
  {
    if items == [] then [] else [TaskOf(items[0].fields)] + Decode(items[1..])
  }

  /**
   * Python's `sorted` compares keys only when there are two tasks or more; the
   * model lets it through when every key is a string.
   */
  predicate KeysComparable(ts: seq<Task>)
  {
    |ts| <= 1 || forall i :: 0 <= i < |ts| ==> DueValue(ts[i]).JStr?
  }

  /** The shape check and the sort. */
  function Prepare(payload: Json): (p: Prepared)
    ensures p.NotAList? <==> !payload.JArray?
    ensures p == Raises(AttributeError) <==> payload.JArray? && !AllObjects(payload.items)
    ensures p == Raises(TypeError) <==>
      payload.JArray? && AllObjects(payload.items) && !KeysComparable(Decode(payload.items))
    ensures p.Listed? ==> |p.tasks| == |payload.items|
  {
    if !payload.JArray? then NotAList
    else if !AllObjects(payload.items) then Raises(AttributeError)
    else
      var ts := Decode(payload.items);
      if !KeysComparable(ts) then Raises(TypeError)
      else
        SortByDuePermutes(ts);
        Listed(SortByDue(ts))
  }

  /** The listed tasks are the payload's tasks, stably sorted by due-time string. */
  lemma PrepareSortsStably(payload: Json)
    requires Prepare(payload).Listed?
    ensures IsStableSortOf(Prepare(payload).tasks, Decode(payload.items))
    ensures multiset(Prepare(payload).tasks) == multiset(Decode(payload.items))
    ensures Ascending(Prepare(payload).tasks)
  {
    var ts := Decode(payload.items);
    SortByDueIsStableSort(ts);
    SortByDuePermutes(ts);
    SortedAscending(SortByDue(ts));
  }

  /** Python's `sorted` returns a stable ordered permutation, and there is only one. */
  lemma PrepareIsPythonSorted(payload: Json, out: seq<Task>)
    requires Prepare(payload).Listed?
    requires IsStableSortOf(out, Decode(payload.items))
    ensures Prepare(payload).tasks == out
  {
    PrepareSortsStably(payload);
    StableSortUnique(Prepare(payload).tasks, out);
  }

  /** The text of the status bar. */
  datatype StatusLine =
    | Waiting      // "Waiting for connection..."
    | InvalidData  // "Connected • Invalid data"
    | Updated      // "Connected • Updated at <local time>"

  class TaskBuddyApp {
    var rows: seq<Row>           // the DataTable's rows
    var status: StatusLine
    var total: nat               // the four statistics boxes
    var done: nat
    var todo: nat
    var overdue: nat

    /** What the boxes show always adds up: every counted task is in one box. */
    ghost predicate Balanced()
      reads this
    {
      done + todo + overdue == total
    }

    /** The widgets as first composed: empty table, waiting status, every box at 0. */
    constructor ()
      ensures Balanced()
      ensures rows == [] && status == Waiting
      ensures total == 0 && done == 0 && todo == 0 && overdue == 0
    {
      rows := [];
      status := Waiting;
      total, done, todo, overdue := 0, 0, 0, 0;
    }

    /**
     * Redraw from `payload` at UTC instant `now`. `error` is the exception the
     * call lets escape, if any; the table has been cleared by then.
     */
    method RefreshTable(payload: Json, now: int, parse: Parser) returns (error: Option<PyError>)
      requires Balanced()
      modifies this
      ensures Balanced()
      ensures Prepare(payload).NotAList? ==>
        && rows == [ErrRow] && status == InvalidData && error == None
        && total == old(total) && done == old(done) && todo == old(todo) && overdue == old(overdue)
      ensures Prepare(payload).Raises? ==>
        && rows == [] && status == old(status) && error == Some(Prepare(payload).error)
        && total == old(total) && done == old(done) && todo == old(todo) && overdue == old(overdue)
      ensures Prepare(payload).Listed? ==>
        && rows == RowsOf(Prepare(payload).tasks, now, parse)
        && status == Updated && error == None
        && total == |payload.items|
        && done == Tally(Prepare(payload).tasks, Done, now, parse)
        && overdue == Tally(Prepare(payload).tasks, Late, now, parse)
        && todo == Tally(Prepare(payload).tasks, Todo, now, parse)
    {
      rows := [];
      var prepared := Prepare(payload);
      match prepared
      case NotAList =>
        rows := [ErrRow];
        status := InvalidData;
        error := None;
      case Raises(e) =>
        error := Some(e);
      case Listed(ts) =>
        var totalTasks := |payload.items|;
        var doneCount, todoCount, overdueCount := DrawTaskRows(ts, now, parse);
        status := Updated;
        total, done, todo, overdue := totalTasks, doneCount, todoCount, overdueCount;
        error := None;
    }

    /** The row loop: append one row per task, in order, counting each status. */
    method DrawTaskRows(ts: seq<Task>, now: int, parse: Parser)
      returns (doneCount: nat, todoCount: nat, overdueCount: nat)
      requires rows == []
      modifies this`rows
      ensures rows == RowsOf(ts, now, parse)
      ensures doneCount == Tally(ts, Done, now, parse)
      ensures overdueCount == Tally(ts, Late, now, parse)
      ensures todoCount == Tally(ts, Todo, now, parse)
      ensures doneCount + todoCount + overdueCount == |ts|
    {
      doneCount, todoCount, overdueCount := 0, 0, 0;
      var i := 0;
      while i < |ts|
        invariant 0 <= i <= |ts|
        invariant rows == RowsOf(ts[..i], now, parse)
        invariant doneCount == Tally(ts[..i], Done, now, parse)
        invariant overdueCount == Tally(ts[..i], Late, now, parse)
        invariant todoCount == Tally(ts[..i], Todo, now, parse)
        invariant doneCount + todoCount + overdueCount == i
      {
        var row := Classify(ts[i], now, parse);
        assert ts[..i + 1][..i] == ts[..i];
        rows := rows + [row];
        match row.status {
          case Done => doneCount := doneCount + 1;
          case Late => overdueCount := overdueCount + 1;
          case Todo => todoCount := todoCount + 1;
        }
        i := i + 1;
      }
      assert ts[..|ts|] == ts;
    }
  }

  /** The statistics of a listed payload do not depend on the order the tasks arrived in. */
  lemma TallyIgnoresOrder(payload: Json, st: Status, now: int, parse: Parser)
    requires Prepare(payload).Listed?
    ensures Tally(Prepare(payload).tasks, st, now, parse) == Tally(Decode(payload.items), st, now, parse)
  {
    SortByDueKeepsTally(Decode(payload.items), st, now, parse);
  }
}
