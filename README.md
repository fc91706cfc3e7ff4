# Databricks Apps scheduler: a verified model of its decision and reconciliation core

`databricks-apps-scheduler` is a command-line tool. It starts or stops a
configured set of Databricks Apps depending on a daily hour window and a set
of active weekdays. It can also force a start or a stop. It reports the run
as an exit code and a summary record. This project models the tool's core
from `src/databricks_apps_scheduler/cli.py` in Dafny and proves properties
of the model.

The project has four modules:

- `Wrappers` (`wrappers.dfy`) defines `Option` and `Result`.
- `Text` (`text.dfy`) holds the Python string operations the core relies on:
  - `str.strip`, with Python's whitespace set;
  - `str.split` on one character, and the join that inverts it;
  - ASCII `lower`/`upper`;
  - `str.replace(pattern, "")`;
  - `int()` on a decimal token.
- `Resolver` (`resolver.dfy`) is the schedule resolver:
  - `_csv_tokens`;
  - `parse_app_names` (first occurrence wins);
  - `parse_active_days`, with its two error messages;
  - `resolve_action` over a same-day or an overnight window;
  - `_validate_hour`;
  - the choice in `main` between the automatic and the forced action;
  - the trailing `Z` rewrite of `--now`.
- `Driver` (`driver.dfy`) is the reconciliation driver:
  - `_state_name`;
  - the terminal state sets `RUNNING_STATES` and `STOPPED_STATES`;
  - the name table and `_select_target_apps`;
  - the apps directory as the tool's tests fake it: a class with the app listing, the `started`/`stopped` call logs and the names whose call raises;
  - the start/stop loop of `main`;
  - the early exits for a failed setup, missing apps and no targets;
  - `_summary_payload`.

Each function that computes a result is tied to lemmas about what the result
means. The lemmas cover these results:

- the token list and how it round-trips;
- app names that are de-duplicated and in first-seen order;
- the weekday set, or the first rejected token;
- `resolve_action` as a circular hour window;
- the exit code and the counts of every path through `main`;
- the calls made, which are the unsettled targets in order.

The loops of the source, and the loop turn and the section of `main` around
them, are methods. Each is proved equal to its specification function:
`ParseAppNames`, `ParseActiveDays` and `SelectTargetApps` carry loop
invariants; `Visit` is one turn of the start/stop loop, `RunTargets` the loop
itself, and `Run` the section of `main` from target selection on.

## Model

| member | source | states |
|---|---|---|
| Text.Strip | src/databricks_apps_scheduler/cli.py:31 | `str.strip()` with Python's whitespace set; its meaning is `StripSpec`, `TrimStartSpec`, `TrimEndSpec` and `StripPadded` |
| Text.Split | src/databricks_apps_scheduler/cli.py:31 | `str.split(sep)`: at least one piece; `SplitSpec` and `SplitJoin` make it the inverse of `Join` |
| Text.Join | src/databricks_apps_scheduler/cli.py:31 | `sep.join(parts)`, the reference `SplitSpec` and `SplitJoin` relate `Split` to |
| Text.Lower | src/databricks_apps_scheduler/cli.py:48 | ASCII `str.lower()`; `UpperIgnoresCase` relates it to `Upper` |
| Text.Upper | src/databricks_apps_scheduler/cli.py:111-112 | ASCII `str.upper()`: no lower-case letter remains and it is idempotent (`UpperIgnoresCase`) |
| Text.RemoveAll | src/databricks_apps_scheduler/cli.py:112 | `str.replace(pattern, "")`: never longer than its input; `RemoveAllAbsent` gives its effect on state names |
| Text.ParseInt | src/databricks_apps_scheduler/cli.py:54 | `int(token)` on a decimal token; `DecimalRoundTrip` shows it reads numerals back |
| Text.StripSpec | src/databricks_apps_scheduler/cli.py:31 | `strip` leaves no whitespace at either end and keeps only characters of the input |
| Text.TrimStartSpec | src/databricks_apps_scheduler/cli.py:31 | the leading trim removes exactly the leading whitespace, and the rest is a suffix of the input |
| Text.TrimEndSpec | src/databricks_apps_scheduler/cli.py:31 | the trailing trim removes exactly the trailing whitespace, and the rest is a prefix of the input |
| Text.StripPadded | src/databricks_apps_scheduler/cli.py:31 | stripping a stripped non-empty text padded with whitespace on both sides gives that text back |
| Text.SplitSpec | src/databricks_apps_scheduler/cli.py:31 | no piece of `split(sep)` contains the separator, and joining the pieces with it gives the input back |
| Text.SplitJoin | src/databricks_apps_scheduler/cli.py:31 | splitting a join of separator-free pieces gives exactly those pieces |
| Text.UpperIgnoresCase | src/databricks_apps_scheduler/cli.py:111-112 | `upper` leaves no lower-case letter, is idempotent, and gives the same result on the lower-cased text |
| Text.RemoveAllAbsent | src/databricks_apps_scheduler/cli.py:112 | removing a pattern that holds a lower-case letter leaves a text without lower-case letters unchanged |
| Text.DecimalRoundTrip | src/databricks_apps_scheduler/cli.py:54 | `int()` of the decimal numeral of n, bare or with a sign, is n or -n |
| Resolver.Tokens | src/databricks_apps_scheduler/cli.py:31-33 | the non-empty stripped pieces in order; `TokensAreTokens` and `TokensOfTokens` give its meaning |
| Resolver.Dedup | src/databricks_apps_scheduler/cli.py:37-44 | the first occurrence of each name; every kept name is in the input, and `DedupSpec`/`DedupOrder`/`DedupDistinct` give the rest |
| Resolver.AppNames | src/databricks_apps_scheduler/cli.py:36-44 | de-duplicated tokens; specified by `AppNamesSpec` and `AppNamesStable`, computed by `ParseAppNames` |
| Resolver.CollectDays | src/databricks_apps_scheduler/cli.py:51-59 | the weekday loop as a function; specified by `CollectDaysSpec` and `CollectDaysErrSticks` |
| Resolver.ActiveDays | src/databricks_apps_scheduler/cli.py:47-62 | `parse_active_days` as a function; specified by `ActiveDaysAll` and `ActiveDaysSpec`, computed by `ParseActiveDays` |
| Resolver.ResolveAction | src/databricks_apps_scheduler/cli.py:65-80 | `resolve_action`; `ResolveActionCircular` states it as a circular window, `SwappedWindowIsComplement` relates swapped hours |
| Resolver.Decide | src/databricks_apps_scheduler/cli.py:313-326 | the forced or resolved action with the days used; specified by `DecideSpec` |
| Resolver.CsvTokens | src/databricks_apps_scheduler/cli.py:30-33 | every token is non-empty, stripped and comma-free |
| Resolver.CsvJoinRoundTrip | src/databricks_apps_scheduler/cli.py:30-33 | tokenizing the comma-join of a list of tokens gives that list back |
| Resolver.DedupSpec | src/databricks_apps_scheduler/cli.py:36-44 | the de-duplicated list has the same members as its input and no repeats |
| Resolver.DedupOrder | src/databricks_apps_scheduler/cli.py:36-44 | the de-duplicated names appear in the order of their first occurrence |
| Resolver.DedupDistinct | src/databricks_apps_scheduler/cli.py:36-44 | a list without repeats is unchanged |
| Resolver.ParseAppNames | src/databricks_apps_scheduler/cli.py:36-44 | the loop with its `seen` set computes `AppNames` |
| Resolver.AppNamesSpec | src/databricks_apps_scheduler/cli.py:36-44 | the app names are distinct tokens, exactly the tokens of the input, in first-seen order |
| Resolver.AppNamesStable | src/databricks_apps_scheduler/cli.py:36-44 | parsing the comma-join of parsed app names gives the same names |
| Resolver.AppNamesPattern | tests/test_databricks_apps_scheduler.py:28-33 | for any three distinct tokens a, b, c, the input " a,b,a,, c " parses to [a, b, c] |
| Resolver.ParseWeekday | src/databricks_apps_scheduler/cli.py:53-58 | a token is a weekday exactly when `int()` accepts it and the value is in 0..6 |
| Resolver.CollectDaysSpec | src/databricks_apps_scheduler/cli.py:51-59 | the loop succeeds iff every token is a weekday; the set holds exactly the tokens' values; an error carries the first rejected token |
| Resolver.CollectDaysErrSticks | src/databricks_apps_scheduler/cli.py:55-58 | once a token is rejected, later tokens do not change the error |
| Resolver.ParseActiveDays | src/databricks_apps_scheduler/cli.py:47-62 | the loop method computes `ActiveDays` |
| Resolver.ActiveDaysAll | src/databricks_apps_scheduler/cli.py:48-49 | an input that strips and lower-cases to "" or "all" gives all seven days |
| Resolver.ActiveDaysSpec | src/databricks_apps_scheduler/cli.py:47-62 | otherwise: success iff there are tokens and each is a weekday; the set is non-empty and within 0..6 and holds exactly the tokens' values; "no active day" iff there are no tokens; an invalid weekday is the first rejected token |
| Resolver.CollectedDays | src/databricks_apps_scheduler/cli.py:51-62 | collected days lie in 0..6 and are empty only for no tokens |
| Resolver.ActiveDaysOfNumerals | tests/test_databricks_apps_scheduler.py:40-41 | a non-empty comma list of weekday numerals parses to exactly the weekdays listed |
| Resolver.NumeralOutOfRange | tests/test_databricks_apps_scheduler.py:44-50 | the numeral of any n > 6 is rejected as an invalid weekday naming that numeral |
| Resolver.OnlyBlankTokens | src/databricks_apps_scheduler/cli.py:60-61 | any comma list of two or more pieces, each of them whitespace only, is rejected with "no active day" |
| Resolver.ActiveDaysAllExamples | tests/test_databricks_apps_scheduler.py:36-37 | "all" and "" both give all seven days |
| Resolver.ResolveActionCircular | src/databricks_apps_scheduler/cli.py:65-80 | start iff the weekday is active and either start equals end (always on) or the hour lies in the circular window [start, end) |
| Resolver.SwappedWindowIsComplement | src/databricks_apps_scheduler/cli.py:71-80 | on an active day, swapping start and end hours inverts the action |
| Resolver.ResolveActionExamples | tests/test_databricks_apps_scheduler.py:53-68 | the tests' cases (inactive day, overnight window) and the window bounds |
| Resolver.AppNamesTestCase | tests/test_databricks_apps_scheduler.py:28-33 | `" app-a,app-b,app-a,, app-c "` parses to `["app-a", "app-b", "app-c"]` |
| Resolver.ActiveDaysSubsetTestCase | tests/test_databricks_apps_scheduler.py:40-41 | `"0,2,4"` parses to `{0, 2, 4}` |
| Resolver.ActiveDaysRangeTestCase | tests/test_databricks_apps_scheduler.py:44-50 | `"7"` is rejected as an invalid weekday naming `7` |
| Resolver.ActiveDaysBlankTestCase | src/databricks_apps_scheduler/cli.py:60-61 | `" , "` is rejected with "no active day" |
| Resolver.DaysErrorMessages | src/databricks_apps_scheduler/cli.py:17-19 | the message `parse_active_days` raises for `"7"` is the invalid-weekday text naming `7`, and for `" , "` the no-active-day text of line 61 |
| Resolver.ValidateHour | src/databricks_apps_scheduler/cli.py:211-213 | an error is raised iff the hour is outside 0..23, and it names the flag |
| Resolver.DecideSpec | src/databricks_apps_scheduler/cli.py:313-326 | a forced mode ignores clock, window and days and reports no days; auto mode succeeds iff the days parse, reports them, and its action is `ResolveAction` on those days, so it starts only on an active day |
| Resolver.NormalizeNow | src/databricks_apps_scheduler/cli.py:87-89 | a stripped timestamp ending in `Z` becomes the same text with `+00:00` in place of the `Z`; any other is returned stripped and unchanged; the result never ends in `Z` |
| Driver.StateName | src/databricks_apps_scheduler/cli.py:103-112 | a state name has no lower-case letter |
| Driver.StateNameAgrees | src/databricks_apps_scheduler/cli.py:103-112 | the printed form `ComputeState.X` and the member name `X` give the same state name, whatever the name's case |
| Driver.TerminalStates | src/databricks_apps_scheduler/cli.py:437 | the terminal set is the running set exactly for a start |
| Driver.TerminalStatesSpec | src/databricks_apps_scheduler/cli.py:15-16 | running and stopped sets are disjoint; `UNKNOWN` is in neither |
| Driver.IsSettled | src/databricks_apps_scheduler/cli.py:442-447 | whether the loop skips an app: its state name is terminal for the action; `TerminalStatesSpec` and `StatelessAppIsActedOn` give its cases |
| Driver.StatelessAppIsActedOn | src/databricks_apps_scheduler/cli.py:106-107 | an app without a compute state is never skipped, for either action |
| Driver.ByName | src/databricks_apps_scheduler/cli.py:118 | `{app.name: app for app in listing}`; specified by `ByNameSpec` and `ByNameKeys` |
| Driver.Found | src/databricks_apps_scheduler/cli.py:119-127 | the targets in request order; specified by `SelectSpec` and `FoundFromListing` |
| Driver.Missing | src/databricks_apps_scheduler/cli.py:119-127 | the missing names in request order; specified by `SelectSpec` |
| Driver.LastIndex | src/databricks_apps_scheduler/cli.py:118 | the last listing position carrying a name, or -1 |
| Driver.ByNameSpec | src/databricks_apps_scheduler/cli.py:118 | the table's keys are the listed names, and each maps to the last app listed with it |
| Driver.ByNameKeys | src/databricks_apps_scheduler/cli.py:118 | each table entry carries its key as its name |
| Driver.SelectSpec | src/databricks_apps_scheduler/cli.py:115-129 | each requested name goes to exactly one of targets and missing, in request order; missing holds exactly the requested names without an app |
| Driver.FoundFromListing | src/databricks_apps_scheduler/cli.py:115-129 | each target was requested and is the last listed app of its name |
| Driver.AppsApi.constructor | tests/test_databricks_apps_scheduler.py:97-101 | the fake directory starts with the given listing and empty call logs |
| Driver.AppsApi.StartAndWait | tests/test_databricks_apps_scheduler.py:106-107 | the call is appended to `started` only; it succeeds iff the name is not failing |
| Driver.AppsApi.StopAndWait | tests/test_databricks_apps_scheduler.py:109-110 | the call is appended to `stopped` only; it succeeds iff the name is not failing |
| Driver.SelectTargetApps | src/databricks_apps_scheduler/cli.py:115-129 | the two loops return the targets and missing names that `SelectSpec` describes |
| Driver.Step | src/databricks_apps_scheduler/cli.py:440-455 | one turn of the loop; `Visit` is proved to compute it |
| Driver.RunLoop | src/databricks_apps_scheduler/cli.py:431-455 | the loop over the targets; specified by `RunLoopSpec`, computed by `RunTargets` |
| Driver.PendingSpec | src/databricks_apps_scheduler/cli.py:440-447 | a name is pending iff some target of that name is not in a terminal state |
| Driver.RunLoopSpec | src/databricks_apps_scheduler/cli.py:431-455 | changed + failures + skipped = targets; the calls are the pending names in order (none in a dry run); failures are the pending names that fail |
| Driver.Visit | src/databricks_apps_scheduler/cli.py:440-455 | one turn: skip a settled app; count a dry-run change; else call, log it, and count a change or a failure |
| Driver.RunTargets | src/databricks_apps_scheduler/cli.py:431-455 | the loop's counts and calls are those of `RunLoop`, and each call is logged for its action |
| Driver.Reconcile | src/databricks_apps_scheduler/cli.py:381-471 | the outcome of `main` from target selection on; specified by `ReconcileExits`, `ReconcileLoop` and `ReconcileSettled`, computed by `Run` |
| Driver.ReconcileExits | src/databricks_apps_scheduler/cli.py:341-471 | exit 2 iff setup failed (0/0/1 counts, no missing); missing and not ignored: exit 1, no call, evaluated = targets found; no target: no call, exit 0 iff missing ignored; otherwise exit 1 iff a failure |
| Driver.FoundCountSpec | src/databricks_apps_scheduler/cli.py:405 | the number of targets is the number of requested names present in the listing |
| Driver.NoTargetsMeansAllMissing | src/databricks_apps_scheduler/cli.py:398-429 | with names requested and no target found, every name is missing |
| Driver.ReconcileLoop | src/databricks_apps_scheduler/cli.py:431-471 | on the loop path the outcome's counts and calls are those of the pending targets |
| Driver.ReconcileSettled | src/databricks_apps_scheduler/cli.py:440-447 | when every target is settled, no call is made and nothing changes or fails |
| Driver.DryRunExample | tests/test_databricks_apps_scheduler.py:83-150 | one stopped app, forced start, dry run: exit 0, one change, one evaluated, no failure, no call |
| Driver.Sorted | src/databricks_apps_scheduler/cli.py:246 | `sorted` of a set: the same elements, strictly increasing |
| Driver.SummaryPayload | src/databricks_apps_scheduler/cli.py:216-247 | `active_days` is present iff days were computed, and then holds them sorted |
| Driver.DryRunSummary | tests/test_databricks_apps_scheduler.py:83-150 | the summary of the forced-start dry run of one stopped app: action `start`, the forced mode `--action start`, dry run, one app changed and evaluated, no failure, no missing app, exit 0, no `active_days` |
| Driver.ReportedDaysOnlyInAuto | src/databricks_apps_scheduler/cli.py:313-326 | the summary carries `active_days` exactly in auto mode, and reports the mode as given |
| Driver.SortedDays | src/databricks_apps_scheduler/cli.py:245-246 | the reported days of a non-empty weekday set are a non-empty list of weekday numbers |
| Driver.ReportedDaysRoundTrip | src/databricks_apps_scheduler/cli.py:245-246 | the reported days, as a comma list, parse back to the days used |
| Driver.Run | src/databricks_apps_scheduler/cli.py:381-471 | exit code and record are those of `Reconcile`; the directory's logs grow by exactly its calls, under the action's log |

## Left out

- Argument parsing (`build_parser`, `parser.error`) is not modelled. Hours, app names, mode, output and time zone arrive as values, and the errors are `Option`/`Result` values. There is no process exit.
- `resolve_now` is left out apart from the `Z` rewrite. ISO-8601 parsing, `datetime.now`, time zones and the conversion to local time are clock and library code. The current weekday and hour are an input, `Instant`.
- `configure_logging` and all logging are output only.
- `emit_result`/`_emit_and_return` are left out. JSON printing is output; the model returns the record and the exit code.
- The early failures are one `setupFailed` input flag: importing `databricks.sdk` (`_workspace_client_class`), building the client, and listing the apps while selecting targets. All three give exit 2, no change, none evaluated, one failure and no missing app.
- `__main__.py` only calls `main` and is not part of this model.
- Text.Lower and Text.Upper map ASCII letters only. Python's full Unicode case mapping is not modelled.
- Text.ParseInt accepts ASCII digits with optional sign and single underscores between digits. Unicode digits and the 4300-digit limit of `int()` are not modelled.
- Driver.App always has a name. The `getattr(app, "name", "<unknown>")` fallback of the loop is not modelled.
- Driver.StateName sees a state as either a member with a string name or some other value given by its printed form. Arbitrary Python objects are not modelled.
- Driver.AppsApi.StartAndWait and StopAndWait report a raised exception as `ok == false`. The fake directory logs each call, failed or not; the tests' fake never raises.
