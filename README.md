# YumlJira projects core, modelled in Dafny

YumlJira is a small Jira-like tracker built on Django and Django REST
framework. This project models the `projects` application:

- projects, with a kanban or a scrum board;
- board columns, numbered uniquely within a project;
- tasks, which may be attached to a story;
- time logs and comments on tasks.

It models five pieces of that application and proves properties of each:

- **TimeLogNormaliser.dfy** covers `TimeLogSerializer.validate_time_logged`
  and `_get_value`. The field takes either a plain count of minutes (`'20'`)
  or space-separated periods (`'1h 30m'`). The model follows the code:
  - Python's `int()`, `Decimal()` and `str.split(' ')`;
  - building the dict, where a repeated unit keeps its first position and its
    last value;
  - the negative-to-zero clamp;
  - the checks applied in source order;
  - the weighted sum.

  Lemmas restate the inputs of `tests/test_timelog_validation.py` and prove
  that the model gives the expected outcome for each. The hypothesis
  strategies draw the test characters from Unicode letter categories, which
  contain non-ASCII letters as well. The lemmas cover the printable ASCII
  characters only, the domain of the model.
- **Serializers.dfy** covers the cross-field checks of `TaskSerializer.validate`
  (story nesting) and of `ProjectSerializer.validate` (sprint name against
  board type).
- **Validators.dfy** covers `validate_number_in_board` and the insertion shift
  its docstring describes. The shift is also written as an in-place method on
  an array.
- **Models.dfy** holds the records and a `Store` class: one table per model
  and a shared key counter. Its invariant covers keys, foreign keys and the
  `unique_together` column numbers. It models:
  - board provisioning (`_create_columns`, `create_kanban_board`,
    `create_scrum_board`);
  - `Task.time_logged`;
  - deleting a task: the `story` cascade is computed as a least closed set,
    comments go with the task (`CASCADE`) and the task's logs are detached
    (`SET_NULL`).
- **Views.dfy** covers the `get_object` guards, and a class `Api` whose methods
  are the viewsets' `perform_create`, `perform_update` and `perform_destroy`.
  They run over the store and record each renumbering call they make.

Minutes per day and per week are a `Rates` parameter. Minutes and hours are
fixed at 1 and 60. Magnitudes, products and sums are exact `real`s; Python
rounds the products and the sum to 28 significant digits, so accepted values
agree with the source only within that precision (see "## Left out").

## Model

| member | source | states |
|---|---|---|
| TimeLogNormaliser.NormaliseTimeLogged | yumljira/apps/projects/serializers.py:139-170 | defines `validate_time_logged` as written: the `int()` path, then the split, the pairs, the dict and its checks; its outcomes are stated by IntegerLiteralPath, IllFormedToken and PeriodPath |
| TimeLogNormaliser.IntegerLiteralPath | yumljira/apps/projects/serializers.py:139-145 | for every numeral `int()` accepts, the input is accepted as that count exactly when it is positive, and refused as "not more than 0 minutes" otherwise |
| TimeLogNormaliser.PaddedCounts | yumljira/apps/projects/serializers.py:139-145 | `'007'` is accepted as 7 minutes and `'-0'` is refused as "not more than 0 minutes" |
| TimeLogNormaliser.IsIntegerLiteral | yumljira/apps/projects/serializers.py:140 | defines the numerals `int()` accepts on the modelled domain: `-?[0-9]+` |
| TimeLogNormaliser.IntegerValue | yumljira/apps/projects/serializers.py:140 | defines the value `int()` gives such a numeral; ShowIntRoundTrip inverts it |
| TimeLogNormaliser.ParseDecimal | yumljira/apps/projects/serializers.py:172-173 | defines `Decimal(value)` on the modelled domain, `None` standing for `InvalidOperation`; IntegerIsDecimal and DecimalMagnitude state its values |
| TimeLogNormaliser.Split | yumljira/apps/projects/serializers.py:148 | defines `str.split(' ')`: a non-empty list of space-free pieces, empty pieces kept; SplitJoin and JoinSplit prove it inverse to the join |
| TimeLogNormaliser.ScanTokens | yumljira/apps/projects/serializers.py:148-150 | defines the list comprehension with its two exceptions; ScanAllWellFormed and ScanFirstError state its outcomes |
| TimeLogNormaliser.Insert | yumljira/apps/projects/serializers.py:148 | defines one dict assignment; InsertSpec states it |
| TimeLogNormaliser.Collect | yumljira/apps/projects/serializers.py:148 | defines `dict(pairs)` as left-to-right insertion; CollectSpec states it against the reference LastValue and FirstOccurrences |
| TimeLogNormaliser.CheckDict | yumljira/apps/projects/serializers.py:152-168 | defines the checks on the dict in source order and the weighted sum; PeriodPath states them on the pairs |
| TimeLogNormaliser.Total | yumljira/apps/projects/serializers.py:168 | defines the weighted sum of the dict entries, exactly; CollectTotal and TotalIsLookupSum relate it to the reference sum |
| TimeLogNormaliser.IntegerPath | yumljira/apps/projects/serializers.py:139-145 | for every integer n, the input `str(n)` is accepted as `Count(n)` exactly when n > 0, and refused as "not more than 0 minutes" otherwise |
| TimeLogNormaliser.ShowIntRoundTrip | yumljira/apps/projects/serializers.py:140 | `int(str(n)) == n`: rendering an integer and reading it back with the modelled `int()` is the identity |
| TimeLogNormaliser.IntegerIsDecimal | yumljira/apps/projects/serializers.py:172-173 | a numeral that `int()` accepts is accepted by `Decimal()` with the same value |
| TimeLogNormaliser.SplitJoin | yumljira/apps/projects/serializers.py:148 | `' '.join(s.split(' ')) == s` for every string |
| TimeLogNormaliser.JoinSplit | yumljira/apps/projects/serializers.py:148 | splitting the `' '`-join of a non-empty list of space-free tokens gives the list back |
| TimeLogNormaliser.Clamp | yumljira/apps/projects/serializers.py:172-173 | `max(v, 0)`: the result is non-negative, at least v, and equal either to v or to 0 |
| TimeLogNormaliser.TokenEntry | yumljira/apps/projects/serializers.py:148 | the pair of a well-formed token has the token's last character as its unit and a non-negative value |
| TimeLogNormaliser.ScanAllWellFormed | yumljira/apps/projects/serializers.py:148 | when every token is well formed, the comprehension yields one pair per token, in token order |
| TimeLogNormaliser.ScanFirstError | yumljira/apps/projects/serializers.py:148-150 | the first ill-formed token decides the exception: `IndexError` when it is empty, `InvalidOperation` otherwise, whatever follows it |
| TimeLogNormaliser.IllFormedToken | yumljira/apps/projects/serializers.py:148-150 | on the period path, the first ill-formed token rejects the input: an empty one lets `IndexError` escape, any other is "Wrong values" |
| TimeLogNormaliser.CollectSpec | yumljira/apps/projects/serializers.py:148 | `dict(pairs)` has distinct units and the same set of units as the pairs, keeps the order of first occurrence, and maps each unit to the value of its last pair |
| TimeLogNormaliser.InsertSpec | yumljira/apps/projects/serializers.py:148 | one dict assignment keeps the units distinct, appends a new unit at the end and keeps an existing unit's position while replacing its value |
| TimeLogNormaliser.FirstDictValue | yumljira/apps/projects/serializers.py:152-166 | `time_values[0]` holds the first-mentioned unit and that unit's last value, not the value of the first token |
| TimeLogNormaliser.DistinctUnitsCount | yumljira/apps/projects/serializers.py:153-157 | a list with distinct units has as many units in its set as entries |
| TimeLogNormaliser.CollectTotal | yumljira/apps/projects/serializers.py:168 | the dict's weighted sum equals the reference sum over the four units of each unit's last value |
| TimeLogNormaliser.TotalIsLookupSum | yumljira/apps/projects/serializers.py:168 | summing a dict entry by entry equals weighting each unit's stored value (units absent count 0) |
| TimeLogNormaliser.LastValueSwap | yumljira/apps/projects/serializers.py:148-168 | swapping two adjacent tokens with different units changes no unit's last value, hence not the sum |
| TimeLogNormaliser.Message | yumljira/apps/projects/serializers.py:143-166 | every refusal is reported under the `time_logged` field |
| TimeLogNormaliser.PeriodPath | yumljira/apps/projects/serializers.py:148-170 | with every token well formed, the outcome is the reference verdict on the token pairs: any unit outside m, h, d, w is refused; otherwise a zero last value of the first-mentioned unit is refused; otherwise the result is the weighted sum of each unit's last value |
| TimeLogNormaliser.RepeatCheckNeverFires | yumljira/apps/projects/serializers.py:156-158 | on no input is the result "You cannot repeat periods" (see Findings) |
| TimeLogNormaliser.AcceptedIsPositive | yumljira/apps/projects/serializers.py:139-168 | with positive day and week weights every accepted value is positive: a count above 0, or a duration above 0 |
| TimeLogNormaliser.TotalPositive | yumljira/apps/projects/serializers.py:164-168 | a weighted sum of non-negative values is non-negative, and positive when the first value is |
| TimeLogNormaliser.CountWithUnit | yumljira/apps/projects/tests/test_timelog_validation.py:44-157 | the input `f'{n}{c}'`, for a printable non-digit c and every integer n, is refused when c is not one of m, h, d, w or when n <= 0, and is otherwise n times the unit's weight; for ASCII characters this covers `test_time_logged_correct_w_integer`, `test_time_logged_wrong_option`, `test_time_logged_upper_case`, `-1h` and `0m` |
| TimeLogNormaliser.CountPeriod | yumljira/apps/projects/serializers.py:148-170 | `f'{n}{c}'` reaches the period checks with the single pair `(c, max(n, 0))` |
| TimeLogNormaliser.SinglePairOutcome | yumljira/apps/projects/serializers.py:160-168 | the period checks on one pair: an unknown unit or a zero value is refused, anything else is its weighted value |
| TimeLogNormaliser.DecimalWithUnit | yumljira/apps/projects/tests/test_timelog_validation.py:53-67 | `f'{number}{c}'` for a float number `{w}.{f}` with w >= 1, as `str()` prints a float between 1 and 200, and c one of m, h, d, w, is accepted with the value of the numeral times the unit's weight, computed exactly |
| TimeLogNormaliser.DecimalMagnitude | yumljira/apps/projects/serializers.py:172-173 | `Decimal('{w}.{f}')` is the exact value `w + f / 10^len(f)` |
| TimeLogNormaliser.OneWrongOption | yumljira/apps/projects/tests/test_timelog_validation.py:96-107 | `'15m 2h 1c'` for a printable character c that is not a digit and not one of m, h, d, w is refused with the invalid-periods message |
| TimeLogNormaliser.JoinPlain | yumljira/apps/projects/serializers.py:148 | printable tokens without spaces joined by single spaces split back into exactly those tokens |
| TimeLogNormaliser.LoneCharacter | yumljira/apps/projects/tests/test_timelog_validation.py:73-80 | a lone non-digit character is "Wrong values" |
| TimeLogNormaliser.HourAndHalf | yumljira/apps/projects/tests/test_timelog_validation.py:185-198 | `'1h 30m'` and `'30m 1h'` both give 90 minutes |
| TimeLogNormaliser.HalfHour | yumljira/apps/projects/tests/test_timelog_validation.py:200-207 | `'0.5h'` gives 30 minutes |
| TimeLogNormaliser.NegativeLater | yumljira/apps/projects/tests/test_timelog_validation.py:127-134 | `'1h -30m'` gives 60 minutes, because the negative magnitude counts as 0 |
| TimeLogNormaliser.JoinedPeriods | yumljira/apps/projects/tests/test_timelog_validation.py:109-116 | `'2h15m'` is "Wrong values", because periods must be separated by spaces |
| TimeLogNormaliser.RepeatedHours | yumljira/apps/projects/serializers.py:157 | `'1h 2h'` is accepted as written with 120 minutes, and is refused by the corrected normaliser |
| TimeLogNormaliser.NormaliseTimeLoggedChecked | yumljira/apps/projects/serializers.py:124-127 | defines the corrected normaliser, whose repeat check looks at the tokens' units before the dict merges them; CheckedPeriodPath and CheckedAgrees state it |
| TimeLogNormaliser.CheckedVerdict | yumljira/apps/projects/serializers.py:154-168 | defines the corrected period checks on the pairs: a repeated unit is refused, otherwise the verdict of the code as written |
| TimeLogNormaliser.CheckedPeriodPath | yumljira/apps/projects/serializers.py:124-127 | the corrected normaliser, with every token well formed, refuses a repeated unit and otherwise gives the same verdict as the period path of the code as written |
| TimeLogNormaliser.DistinctLastValue | yumljira/apps/projects/serializers.py:164-166 | with distinct units, each unit's last value is the value of its only token, so the corrected normaliser's zero check is on the first token, as the docstring says |
| TimeLogNormaliser.CheckedAgrees | yumljira/apps/projects/serializers.py:156-158 | the corrected normaliser differs from the code as written only by refusing repeated units |
| TimeLogNormaliser.UnitsCountBound | yumljira/apps/projects/serializers.py:154-157 | a list has at most as many distinct units as entries, and has distinct units exactly when the counts agree |
| TimeLogNormaliser.CollectDistinct | yumljira/apps/projects/serializers.py:148 | pairs with distinct units build a dict holding exactly those pairs, in order |
| Serializers.ValidateTask | yumljira/apps/projects/serializers.py:34-45 | the payload is returned unchanged unless both fields are present and either the target is not a story or the task is itself a story; the error is under `story` when the target is a story and under `task_type` otherwise |
| Serializers.StoryNeverNested | yumljira/apps/projects/serializers.py:38-43 | a story attached to any task is refused |
| Serializers.AcceptedNesting | yumljira/apps/projects/serializers.py:38-45 | an accepted task attached to a story always names a story, and the task itself is not a story |
| Serializers.ValidateProject | yumljira/apps/projects/serializers.py:73-83 | a kanban board with a truthy sprint name is refused with the kanban message, a scrum board without one with the scrum message (both directions), and otherwise the payload is returned unchanged |
| Serializers.AcceptedProjectSprint | yumljira/apps/projects/serializers.py:73-83 | an accepted payload with a board type has a sprint name exactly when the board is scrum |
| Validators.ValidateNumberInBoard | yumljira/apps/projects/validators.py:4-53 | success exactly when the message is empty; 0 is refused with its own message on any board, other refusals are "too big"; when creating (no old value, or 0), a number is accepted exactly when it is at most last+1; when moving the last column, exactly when it is that column's number; when moving any other column, exactly when it is at most last+1 and already on the board |
| Validators.AcceptedNumber | yumljira/apps/projects/validators.py:35-51 | an accepted number lies in 1..last+1, equals the old value when the last column is moved, and is already on the board whenever an old value is given |
| Validators.CreateOnBoard | yumljira/apps/projects/validators.py:21-33 | on a board numbered 1..n, creation accepts exactly 1..n+1 |
| Validators.MoveOnBoard | yumljira/apps/projects/validators.py:44-51 | on a board numbered 1..n, moving column `current` accepts exactly 1..n, and only n when `current` is the last column |
| Validators.ShiftUp | yumljira/apps/projects/validators.py:25-27 | defines the shift: every number at or above the insertion point moves up by one, the others stay; ShiftKeepsOrder and InsertionKeepsContiguous state it, and ShiftNumbers implements it in place |
| Validators.ShiftKeepsOrder | yumljira/apps/projects/validators.py:25-27 | the shift keeps the relative order and the distinctness of the column numbers |
| Validators.InsertionKeepsContiguous | yumljira/apps/projects/validators.py:25-27 | shifting a board numbered 1..n at p (1 <= p <= n+1) and adding p gives a board numbered 1..n+1 |
| Validators.AcceptedInsertion | yumljira/apps/projects/validators.py:21-27 | every creation the validator accepts on a board numbered 1..n leaves, after the shift and the insert, a board numbered 1..n+1 |
| Validators.ShiftNumbers | yumljira/apps/projects/validators.py:25-27 | the in-place loop leaves the array equal to the shift of its old contents |
| Models.Store.Valid | yumljira/apps/projects/models.py:86-145 | defines the store invariant: keys below the counter, every foreign key pointing at an existing row, and unique column numbers per project (`unique_together`); every Store and Api method preserves it |
| Models.Store.TimeLogged | yumljira/apps/projects/models.py:129-131 | defines `Task.time_logged` as the sum of the minutes of the task's logs; NoLogsNoTime, LoggedAdd, LoggedSame and SurvivorsKeepTime state it |
| Models.Store.constructor | yumljira/apps/projects/models.py:31-159 | an empty database satisfies the invariant |
| Models.Store.AddProject | yumljira/apps/projects/views.py:37 | a new project is stored under a fresh key and nothing else changes |
| Models.Store.AddSprint | yumljira/apps/projects/models.py:48-51 | a new sprint is stored under a fresh key and the invariant is kept |
| Models.Store.InsertColumn | yumljira/apps/projects/models.py:101-102 | an insert is refused exactly when the project already has a column with that number; otherwise the column is stored under a fresh key; the numbers stay unique |
| Models.Store.UpdateColumn | yumljira/apps/projects/models.py:101-102 | an update is refused exactly when another column of the project has the new number; otherwise only that column changes |
| Models.Store.Renumber | yumljira/apps/projects/views.py:104-122 | a renumbering that keeps the numbers unique is applied as given, and the other tables are unchanged |
| Models.Store.DeleteColumn | yumljira/apps/projects/views.py:122 | the column is removed and the invariant is kept |
| Models.Store.AddTask | yumljira/apps/projects/views.py:56 | a new task is stored under a fresh key and the invariant is kept |
| Models.Store.AddTimeLog | yumljira/apps/projects/models.py:129-131 | saving a log adds its minutes to its task's `time_logged`; every other task's `time_logged` is unchanged |
| Models.Store.AddComment | yumljira/apps/projects/views.py:88 | a new comment is stored under a fresh key and the invariant is kept |
| Models.Store.UpdateTimeLog | yumljira/apps/projects/views.py:70-76 | the log's fields are replaced and the invariant is kept |
| Models.Store.DeleteTimeLog | yumljira/apps/projects/views.py:70-76 | the log is removed and the invariant is kept |
| Models.Store.UpdateComment | yumljira/apps/projects/views.py:90-96 | the comment's fields are replaced and the invariant is kept |
| Models.Store.DeleteComment | yumljira/apps/projects/views.py:90-96 | the comment is removed and the invariant is kept |
| Models.Store.CreateColumns | yumljira/apps/projects/models.py:53-82 | the project's columns are exactly BACKLOG (1, hidden), the given second title (2), IN PROGRESS (3) and DONE (4); every other project's columns and every existing column are unchanged |
| Models.Store.AddBoardColumn | yumljira/apps/projects/models.py:59-82 | one `Column.objects.create` with a free number adds exactly that column to its project |
| Models.Store.CreateKanbanBoard | yumljira/apps/projects/models.py:42-43 | a kanban project gets the four columns with SELECTED FOR DEVELOPMENT second |
| Models.Store.CreateScrumBoard | yumljira/apps/projects/models.py:45-51 | a scrum project gets the four columns with TO DO second, plus exactly one new open sprint with the given name |
| Models.Store.DeleteTask | yumljira/apps/projects/models.py:123-155 | deleting a task removes the least set of tasks that holds it and is closed under `story` (`CASCADE`), removes their comments, and detaches their logs without removing them (`SET_NULL`); surviving tasks keep their `time_logged` |
| Models.Cascade | yumljira/apps/projects/models.py:123-124 | the worklist loop returns a set of tasks that holds t, is closed under the `story` link and reaches t along `story` links |
| Models.RootedIsLeast | yumljira/apps/projects/models.py:123-124 | a set that reaches t along `story` links lies inside every closed set holding t, so the cascade deletes nothing beyond what `CASCADE` demands |
| Models.KeepComments | yumljira/apps/projects/models.py:155 | the comments that remain are exactly those whose task is not deleted, unchanged |
| Models.Detach | yumljira/apps/projects/models.py:138-140 | every log remains with its user and minutes; a log loses its task exactly when the task is deleted |
| Models.DeleteKeepsLinks | yumljira/apps/projects/models.py:123-155 | deleting a closed set of tasks, with their comments, and detaching their logs leaves every foreign key pointing at an existing row |
| Models.SurvivorsKeepTime | yumljira/apps/projects/models.py:129-140 | detaching the logs of deleted tasks leaves every surviving task's `time_logged` unchanged |
| Models.NoLogsNoTime | yumljira/apps/projects/models.py:129-131 | a task without logs has logged 0 minutes |
| Models.LoggedAdd | yumljira/apps/projects/models.py:129-131 | a new log adds its minutes to its own task's sum and nothing to any other task's |
| Models.LoggedSame | yumljira/apps/projects/models.py:129-131 | two stores of logs that agree on a task's logs give it the same sum |
| Views.GetTimeLog | yumljira/apps/projects/views.py:70-76 | a log is found exactly when it exists and belongs to the requester |
| Views.GetComment | yumljira/apps/projects/views.py:90-96 | a comment is found exactly when it exists and the requester owns it |
| Views.GetColumn | yumljira/apps/projects/views.py:124-130 | a column is found exactly when it exists and, for `destroy`, is removable |
| Views.ColumnGuardOnlyDestroy | yumljira/apps/projects/views.py:127 | every action other than `destroy` finds any existing column |
| Views.Api.CreateProject | yumljira/apps/projects/views.py:35-42 | the project is saved with the requester as creator (kanban by default); a kanban project gets the kanban columns and no sprint; a scrum project gets the scrum columns and exactly one sprint with the popped name |
| Views.Api.CreateTask | yumljira/apps/projects/views.py:55-56 | the task is saved with the requester as its creator; every other table is unchanged |
| Views.Api.CreateTimeLog | yumljira/apps/projects/views.py:67-68 | the log is saved as the requester's, and its task's `time_logged` grows by its minutes; every other table is unchanged |
| Views.Api.CreateComment | yumljira/apps/projects/views.py:87-88 | the comment is saved with the requester as owner; every other table is unchanged |
| Views.Api.UpdateTimeLog | yumljira/apps/projects/views.py:70-76 | a log changes exactly when its owner asks; otherwise nothing changes; no other table and not the id counter ever changes |
| Views.Api.DestroyTimeLog | yumljira/apps/projects/views.py:70-76 | a log is deleted exactly when its owner asks; otherwise nothing changes; no other table and not the id counter ever changes |
| Views.Api.UpdateComment | yumljira/apps/projects/views.py:90-96 | a comment changes exactly when its owner asks; otherwise nothing changes; no other table and not the id counter ever changes |
| Views.Api.DestroyComment | yumljira/apps/projects/views.py:90-96 | a comment is deleted exactly when its owner asks; otherwise nothing changes; no other table and not the id counter ever changes |
| Views.Api.CreateColumn | yumljira/apps/projects/views.py:104-109 | every create first records `update_board_numbers(number, 'create', project)` and renumbers, then inserts; the insert is refused exactly when the renumbered board still has the number; no table other than the columns changes |
| Views.Api.UpdateColumn | yumljira/apps/projects/views.py:111-117 | a renumbering is recorded and applied exactly when a non-zero number is supplied; the save is then refused exactly when another column has the new number; no table other than the columns changes, nor the id counter |
| Views.Api.DestroyColumn | yumljira/apps/projects/views.py:119-130 | a column that exists and is removable is renumbered with its own number and project, then deleted; otherwise nothing changes; no table other than the columns changes, nor the id counter |

## Left out

- Minutes per day and per week: `OPTION_TO_MINUTE` and
  `AVAILABLE_TIME_OPTIONS` are imported from `choices.py`, which defines
  neither. The day and week weights are the `Rates` parameter. The four units
  are taken from the error message at serializers.py:162.
- The column titles and the board-type constants are taken from the module
  docstring at models.py:20-25. Their definitions in `choices.py` are not part
  of this model.
- `Column.update_board_numbers`, `Column.update_board_numbers_exist` and
  `Column.removable` are not part of this model. The views take the
  renumbered columns, and the `removable` flag, as parameters. The recorded
  calls state which renumbering was asked for. Only the insertion shift that the
  validator's docstring describes is modelled (`Validators.ShiftUp`).
- The time-log normaliser covers only inputs that satisfy
  `PlainNumerals`: printable ASCII with no surrounding spaces, and no `+`,
  `_`, `e`, `E`, `n` or `N` before the last character of a token. This
  excludes the exotic literal forms of `int()` and `Decimal()`: a `+` sign, digit
  separators, exponents, `inf`, `nan`, and non-ASCII digits and spaces. The
  `-` sign is modelled.
- TimeLogNormaliser.Total computes the products `OPTION_TO_MINUTE[option] * time`
  and the `sum` at serializers.py:168 exactly. Python computes them in the
  default decimal context, which rounds each result to 28 significant digits
  and bounds exponents to about a million. The model and the source agree only
  while every product and partial sum fits in 28 significant digits within that
  range. Beyond it the source rounds a long magnitude, gives a sum that depends
  on the order of the tokens, turns a positive magnitude below the smallest
  exponent into 0 (then accepted), or raises `decimal.Overflow` for a numeral
  of about a million digits. Every refusal is decided before this arithmetic,
  so only accepted values are affected. The lemmas on the next lines are
  stated in exact arithmetic.
- CollectTotal: the dict sum equals the reference sum in exact arithmetic only;
  the source's rounded sum in dict order can differ from it.
- TotalIsLookupSum: summing entry by entry equals weighting each unit's value
  in exact arithmetic only; rounded addition depends on the order.
- LastValueSwap: the last values are unchanged in the source too, but the sum
  is unchanged only in exact arithmetic; with a day of 480 minutes,
  `'10000000000000000000000000000m 0.05h 0.00625d'` and
  `'0.05h 0.00625d 10000000000000000000000000000m'` round to different sums.
- PeriodPath: the refusals and their order are the source's; the accepted
  value is the exact weighted sum, which the source rounds to 28 digits.
- AcceptedIsPositive: in the source a positive magnitude below the smallest
  exponent of the context underflows to 0, and that input is accepted with 0.
- TotalPositive: the same underflow can make a positive first value sum to 0
  in the source.
- CountWithUnit: for n with more than 28 digits the source rounds n times the
  weight; the model keeps the exact product.
- SinglePairOutcome: the accepted product is exact; the source rounds it to 28
  significant digits.
- DecimalWithUnit: the value is exact for any fraction; the source rounds a
  numeral of more than 28 significant digits, such as
  `'1.00000000000000000000000000001m'`. `str()` of a float prints at most 17
  significant digits, so for the test's floats and weights of a few digits the
  two agree.
- Storing a fractional number of minutes into the integer field
  `TimeLog.time_logged` (models.py:145) is not modelled. A log in the store
  holds whole minutes.
- Validators.ValidateNumberInBoard requires a project with at least one
  column only for a non-zero number; 0 is refused before the query on any
  board. A non-zero number on an empty board makes `number > None` raise
  `TypeError` in the source, and that path is not modelled.
- Hypothesis draws non-ASCII letters in several tests of
  `tests/test_timelog_validation.py`; the lemmas restating those tests cover
  the printable ASCII characters only.
- Models.Store.CreateColumns, CreateKanbanBoard and CreateScrumBoard require a
  project that has no columns yet. This is always the case for a project just
  created through `ProjectViewset.perform_create`.
- Views.Api.UpdateColumn requires that a supplied non-zero number is the
  number of the column being saved: the validated data that holds the number
  is the data the serializer saves.
- Views.Api.CreateProject requires a payload that `ProjectSerializer.validate`
  accepted, as DRF guarantees before `perform_create` runs.
- Field-level validation, serialization, permissions, filters, pagination and
  HTTP status codes are Django REST framework behaviour. They are not
  modelled, and neither is `validate_task`.
- Deleting projects, sprints and users is not modelled; the on-delete rules
  modelled are those of `Task.story`, `TimeLog.task` and `Comment.task`. The
  timestamps and `date` fields, task priority, assignee and description are
  left out because no core operation reads them.
- Database keys come from one shared counter rather than one per table.
- Transactions and concurrent requests are not modelled.
- `Task.column` is a plain number, as the source declares it.
- The `users` application, the JavaScript client and the build configuration
  are not part of this model.

## Findings

| source | as written | input that shows it | evidently intended | confidence | as-written member | corrected member |
|---|---|---|---|---|---|---|
| yumljira/apps/projects/serializers.py:156-158 | The repeat check compares the sizes of the dict's key set and its keys. A dict never holds a key twice, so the check can never fire, and a repeated unit silently keeps only its last value. | `'1h 2h'` is accepted as 120 minutes | refuse a repeated period with "You cannot repeat periods", as the docstring (serializers.py:124-127) and the comment at line 156 say | not executed | TimeLogNormaliser.RepeatedHours | TimeLogNormaliser.CheckedPeriodPath |
