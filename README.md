# Buddy Terminal task view — a Dafny model

Buddy Terminal is a terminal dashboard. A browser sends it the user's task list as JSON.
Each time a payload arrives, the app clears its table and redraws it from that payload.
`TaskBuddyApp._refresh_table` does this work:

- A payload that is not a list shows a single `ERR` row and the "Invalid data" status line.
- A list is sorted, stably, by each task's `dueTime` string. A missing key sorts as `""`.
- Each task is classified as DONE, LATE or TODO. It gets one row: status, `HH:MM` time (or `??:??`), and name.
- A `Z` in the due time is read as the `+00:00` offset. A timestamp with no offset is taken as UTC.
- A due time that cannot be parsed shows `??:??`, is flagged "(parse error)" and is never late.
- The four counters (Total, Done, Todo, Overdue) are updated, along with the status line.

The model is organised like this:

- `Json` is the decoded payload.
- `StringOrder` is Python's code-point order on strings.
- `IsoTime` holds the `Z` rewrite and the naive-as-UTC rule. The ISO-8601 parser is a parameter.
- `TaskRows` covers task fields with their defaults, the classification of one task, the rows and the tallies.
- `DueSort` is the stable sort by due time. It is proved sorted, a permutation, stable, and the only stable sorted permutation.
- `BuddyApp` holds the list check and sort (`Prepare`) and the class `TaskBuddyApp`. The class keeps the table rows, the status line and the four counters. Its method `RefreshTable` redraws them from a payload.

Clock and parser are parameters:

- `now` is the current UTC instant, in microseconds, the resolution of Python's `datetime`. Parsed readings and offsets use the same unit.
- `parse` stands for `datetime.fromisoformat`. `None` stands for the `except` branch at lines 249-252. That covers a string `fromisoformat` rejects and any error from the conversion at line 246.

## Model

| member | source | states |
|---|---|---|
| TaskRows.TaskOf | BuddyTerminal.py:233-235 | a missing `name` reads as "Unknown task"; `checked` holds only when present and truthy; a missing `dueTime` reads as `""`; present fields are taken as given |
| IsoTime.ReplaceZ | BuddyTerminal.py:242 | the rewritten string has no `Z` left, and each `Z` adds five characters |
| IsoTime.ReplaceZConcat | BuddyTerminal.py:242 | the rewrite works piece by piece: rewriting `a + b` is rewriting `a`, then `b` |
| IsoTime.ReplaceZKeepsZFree | BuddyTerminal.py:242 | a string without `Z` is left as it is |
| IsoTime.ReplaceZIdempotent | BuddyTerminal.py:242 | rewriting twice is the same as rewriting once |
| IsoTime.ZReadsAsUtcOffset | BuddyTerminal.py:242 | writing `Z` or `+00:00` at any point of a due time gives the parser the same string |
| IsoTime.NaiveReadsAsOffsetZero | BuddyTerminal.py:244-245 | a naive reading denotes the same instant as that reading at `+00:00` |
| IsoTime.SameInstantAcrossOffsets | BuddyTerminal.py:243-248 | one instant written at two offsets is the same instant, so the `<` at line 248 compares instants, not wall clocks |
| IsoTime.ReplaceZOfZ | BuddyTerminal.py:242 | a lone `Z` becomes exactly `+00:00` |
| TaskRows.NaiveAndZuluAgree | BuddyTerminal.py:237-245 | for a parser that reads `+00:00` as offset 0, a non-empty timestamp with no offset and the same timestamp ending in `Z` give the same instant |
| Json.Truthy | BuddyTerminal.py:234-237 | a value is falsy exactly when it is `None`, `False`, `0`, `""`, `[]` or `{}` |
| BuddyApp.Decode | BuddyTerminal.py:223-235 | every dictionary of the list becomes one task, read from its own fields, in payload order |
| TaskRows.DueOf | BuddyTerminal.py:237-252 | no due time exactly when the value is falsy. An instant only for a string that parses after the `Z` rewrite, and then the instant of what was parsed. A parse error exactly when the value is truthy and either not a string or not parseable |
| TaskRows.DueOfIgnoresRewrite | BuddyTerminal.py:242-243 | a due time that is already rewritten reads the same as the original |
| TaskRows.StatusOf | BuddyTerminal.py:255-266 | DONE iff checked; LATE iff unchecked and past due; TODO iff unchecked and not past due |
| TaskRows.Classify | BuddyTerminal.py:233-268 | one row per task with its name and status. Empty due: `??:??`, never late, no parse error. Parse failure or non-string due: `??:??`, never late, marked as a parse error. Parsed: its instant, late iff unchecked and before `now` |
| TaskRows.RowsOfEach | BuddyTerminal.py:232-268 | row `i` of the table is the classification of the `i`-th task |
| TaskRows.TallyCountsRows | BuddyTerminal.py:254-266 | the tally of a status over the tasks equals the number of rows showing that status |
| TaskRows.TallyConcat | BuddyTerminal.py:254-266 | tallies add over concatenated task lists |
| TaskRows.TallyPartition | BuddyTerminal.py:227-266 | Done + Overdue + Todo equals the number of tasks |
| StringOrder.LexLeReflexive | BuddyTerminal.py:223 | every key sorts at or before itself |
| StringOrder.LexLeTotal | BuddyTerminal.py:223 | any two keys are comparable |
| StringOrder.LexLeAntisymmetric | BuddyTerminal.py:223 | keys that sort at or before each other are equal |
| StringOrder.LexLeTransitive | BuddyTerminal.py:223 | the key order is transitive |
| DueSort.SortByDueSorted | BuddyTerminal.py:223 | the sorted list is non-decreasing by due-time key |
| DueSort.SortedAscending | BuddyTerminal.py:223 | non-decreasing between neighbours means non-decreasing between any two positions |
| DueSort.SortByDuePermutes | BuddyTerminal.py:223 | the sorted list holds exactly the input tasks (same length, same multiset) |
| DueSort.SortByDueStable | BuddyTerminal.py:223 | tasks with equal keys keep their input order |
| DueSort.SortByDueIsStableSort | BuddyTerminal.py:223 | `SortByDue`, the model of the `sorted` call, returns its input sorted by key and, for every key, with the tasks of that key in input order |
| DueSort.SortByDueShort | BuddyTerminal.py:223 | lists of zero or one task are left as they are |
| DueSort.StableSortUnique | BuddyTerminal.py:223 | any two sorted permutations of one list that keep equal keys in input order are equal; with `SortByDueIsStableSort` this pins `SortByDue` to what a stable sort returns |
| DueSort.SortByDueKeepsTally | BuddyTerminal.py:223-266 | sorting does not change how many tasks have each status |
| BuddyApp.Prepare | BuddyTerminal.py:218-223 | not a list iff the invalid-data path; an element that is not an object iff an AttributeError from the sort key; otherwise two or more tasks with some non-string due time iff a TypeError from the comparison; a listed result keeps every task |
| BuddyApp.PrepareSortsStably | BuddyTerminal.py:223 | what `Prepare` lists is a stable, ascending permutation of the decoded tasks |
| BuddyApp.PrepareIsPythonSorted | BuddyTerminal.py:223 | any stable sorted permutation of the decoded tasks equals what `Prepare` lists |
| BuddyApp.TallyIgnoresOrder | BuddyTerminal.py:223-266 | each counter is the same whether counted in payload order or in sorted order |
| BuddyApp.TaskBuddyApp.constructor | BuddyTerminal.py:185-192 | the table starts empty, the status waits for a connection, and every counter is 0 |
| BuddyApp.TaskBuddyApp.DrawTaskRows | BuddyTerminal.py:228-268 | the loop appends one classified row per task, in order; each counter is that status's tally, and together they add up to the number of tasks |
| BuddyApp.TaskBuddyApp.RefreshTable | BuddyTerminal.py:214-280 | Non-list: one ERR row, "Invalid data", counters untouched. Raising payload: table cleared, the error escapes, nothing else changes. List: rows of the sorted tasks, "Updated", Total is the payload length, the other counters are the tallies, and Done + Todo + Overdue == Total is kept |

## Left out

- The HTTP server (`TaskServer`, `handle_ping`, `handle_tasks` at lines 11-55) hands the decoded body to the view unchanged. `RefreshTable` takes any `Json` value, which covers what it can pass on. JSON decoding, request errors and the 500 response are not modelled.
- The scheduling hop through `call_later` (lines 211-212), `compose`, `on_mount`, `on_unmount` and the CSS are UI plumbing outside the logic.
- `datetime.fromisoformat` is the parameter `parse`. The ISO-8601 grammar it accepts is not modelled. An error from `astimezone` is folded into `parse` returning `None`, the same `except` branch.
- Converting to local time and formatting with `strftime("%H:%M")` (lines 246-247) is not modelled. A row keeps the UTC instant; local offsets depend on the host's zone database.
- The wall-clock text in the status line (line 271) is not modelled. The source sets four status texts (lines 185, 205, 220, 273). The model keeps three of them: `Waiting` (line 185), `InvalidData` (line 220) and `Updated` (line 273). The "Server Running" text that `on_mount` sets at line 205 is dropped with the server start-up.
- Rich markup (colours, strike-through, the `[dim] … (parse error)` wrapping) becomes a status, a time and a `parseError` flag on the row. Markup escaping of task names is not modelled.
- JSON numbers are integers: floats, and so truthiness of `0.0`, are not modelled.
- Python renders non-string names with `str()`; the model keeps the name as a `Json` value.
- BuddyApp.Prepare: Python sorts some lists of two or more tasks without error that the model reports as a TypeError. Examples are due times that are all numbers or booleans, freely mixed, and due times that are all lists (two tasks with `"dueTime": []`). The model treats only string keys as comparable; comparing any other JSON values with Python's `<` is not modelled.
- BuddyApp.TaskBuddyApp.RefreshTable: when the sort raises, the escaping exception is returned as a value. What Textual does with it afterwards is not modelled.
