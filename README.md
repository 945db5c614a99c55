# Host report callback, modelled in Dafny

This project models the Ansible callback plugin `callback_plugins/report.py`.
The plugin collects a per-host report of a playbook run and writes it as CSV
or JSON. The model covers the plugin's four jobs:

- reading its four settings from the environment when it is created: format,
  file name, dump flag and print flag, each with its default. The format and
  the two flags are then lowered with `lower()`; the file name is not, but its
  default is built from the lowered format;
- recording one failure record per host on every `failed` or `unreachable`
  event (`fail_action`, `fail_result`, `fail_ip`), where the last event wins;
- at the end of the run, building the summary dict: the processed hosts in
  sorted order, each with its counters updated by its failure record or by
  the two placeholders `fail_action` and `fail_report`, both empty;
- dispatching to the CSV path (format `csv`) or the JSON path (anything
  else), where each path prints and/or writes according to its two flags.

Layout:

- `wrappers.dfy`: `Option`.
- `ordered_dict.dfy`: a Python dict as an insertion-ordered sequence of
  pairs. It provides `d[k] = v` (`Set`), `d.update(e)` (`Update`) and lookup
  (`Get`), with their laws.
- `field_values.dfy`: field values (integers and strings), and Python's
  `str` on them, with a decimal round trip.
- `strings.dfy`: ASCII `lower()`, and joining cells with a separator, with
  the split-after-join round trip.
- `host_order.dfy`: Python's string order and `sorted` on host names.
- `config.dfy`: the environment settings and what each value selects.
- `report.dfy`: what the plugin computes, as functions, with lemmas about
  failure records, the summary, and the CSV and JSON output.
- `callback.dfy`: the class `CallbackModule`, whose constructor reads the
  settings and whose event methods change `failReport` in place, and the
  loops the plugin runs over hosts, fields and rows, written as
  module-level methods (`MergeAll`, `HostLines`, `RowOf`, `HeaderText`,
  `PrintedLines`, `WrittenRows`) that the class's methods call. Each method
  is proved to produce exactly what a function describes: the setting
  functions of `config.dfy`, `Join` of `strings.dfy`, or the functions of
  `report.dfy`.
- `example.dfy`: a two-host run followed from the failure event to the
  CSV file.

Output is modelled as a value, `Emitted`: the items sent to the console and
at most one file write. A CSV file write holds the path and its rows of
cells. A JSON file write holds the path and the summary.

The header and the rows do not line up, and the model keeps that behaviour:

- A failure record's keys are `fail_action`, `fail_result` and `fail_ip`.
  The header and the placeholders use `fail_report`.
- A row holds the values of its dict in insertion order, not in header order.
- So a host without a failure gets ten cells, one fewer than the header.
  Its last two cells are the empty placeholders.
- A failed host gets eleven cells, and its failure message lands under the
  `fail_report` column.
- `Report.CleanHostRow` and `Report.FailedHostRow` state both rows exactly.

One might expect one cell per header name, so eleven for a clean host
(`h1,1,0,0,0,0,0,0,,,`). The code writes ten, and `Example.TwoHosts` shows
both rows of a two-host run.

## Model

| member | source | states |
|---|---|---|
| Config.Format | callback_plugins/report.py:18 | definition: the format variable or "csv", lowered; laws in `Config.CsvSelected` and `Config.Defaults` |
| Config.Filename | callback_plugins/report.py:19 | definition: the file name variable as given, or `result.` plus the lowered format; law in `Config.Defaults` |
| Config.DumpSetting | callback_plugins/report.py:20 | definition: the dump variable or "True", lowered; law in `Config.DumpOn` |
| Config.PrintSetting | callback_plugins/report.py:21 | definition: the print variable or "False", lowered; law in `Config.PrintOn` |
| Config.IsOn | callback_plugins/report.py:79 | definition: a flag is on when it reads exactly "true", the test at lines 79, 90, 101 and 103; laws in `Config.DumpOn` and `Config.PrintOn` |
| Config.SelectsCsv | callback_plugins/report.py:43 | definition: the CSV path is taken when the format reads exactly "csv"; law in `Config.CsvSelected` |
| Config.Defaults | callback_plugins/report.py:18-21 | with no variable set, the format selects CSV, the file is `result.csv`, dump is on and print is off |
| Config.DumpOn | callback_plugins/report.py:20 | dump is on exactly when the variable is unset or spells "true" in any case |
| Config.PrintOn | callback_plugins/report.py:21 | print is on exactly when the variable is set and spells "true" in any case |
| Config.CsvSelected | callback_plugins/report.py:18 | the CSV path is chosen exactly when the format is unset or spells "csv" in any case; every other value takes the JSON path |
| Config.LowerIsTrue | callback_plugins/report.py:20-21 | a lowered value equals "true" iff the value spells "true" ignoring case |
| Config.LowerIsCsv | callback_plugins/report.py:18 | a lowered value equals "csv" iff the value spells "csv" ignoring case |
| Strings.LowerChar | callback_plugins/report.py:18-21 | definition: `lower()` on one ASCII character; law in `Strings.LowerCharIs` |
| Strings.LowerCharIs | callback_plugins/report.py:18-21 | a character lowers to a given lower-case letter exactly when it is that letter or its upper-case form, 32 code points below it |
| Strings.Lower | callback_plugins/report.py:18-21 | `lower()` keeps the length and lowers each character in place |
| Strings.Join | callback_plugins/report.py:80-83 | definition: the cells with one separator between neighbours; laws in `Strings.JoinSnoc` and `Strings.SplitJoin` |
| Strings.JoinSnoc | callback_plugins/report.py:80-83 | appending one cell to a join adds one separator and the cell |
| Strings.SplitJoin | callback_plugins/report.py:83 | splitting a comma-joined line gives its cells back when no cell holds a comma |
| FieldValues.NatToDecimal | callback_plugins/report.py:87 | `str` of a natural number is a non-empty string of digits, with no leading zero |
| FieldValues.IntToDecimal | callback_plugins/report.py:87 | definition: `str` of an integer, a minus sign before a negative one; law in `FieldValues.ShowNumRoundTrip` |
| FieldValues.Show | callback_plugins/report.py:87 | definition: `str(v)` of a field value (also at line 97), a string as itself; law in `FieldValues.ShowNumRoundTrip` |
| FieldValues.Decimals | callback_plugins/report.py:87 | one cell per counter, each its `str` |
| FieldValues.DecimalRoundTrip | callback_plugins/report.py:87 | reading the decimal digits of `n` gives back `n` |
| FieldValues.ShowNumRoundTrip | callback_plugins/report.py:87 | the cell written for an integer counter reads back as that integer, including negative ones |
| HostOrder.Below | callback_plugins/report.py:34 | definition: the string order `sorted` uses, code point by code point with a proper prefix first; laws in `HostOrder.BelowTotal` and `HostOrder.BelowTransitive` |
| HostOrder.BelowTotal | callback_plugins/report.py:34 | two different host names are ordered one way or the other |
| HostOrder.BelowTransitive | callback_plugins/report.py:34 | the string order is transitive |
| HostOrder.Insert | callback_plugins/report.py:34 | inserting into an ascending list keeps it ascending and adds exactly that name |
| HostOrder.Sort | callback_plugins/report.py:34 | `sorted` returns a permutation of its input, in ascending order |
| HostOrder.AscendingPairwise | callback_plugins/report.py:34 | in a sorted list every earlier name is at most every later one |
| HostOrder.SortDistinct | callback_plugins/report.py:34 | sorting distinct dict keys gives a strictly ascending list: each earlier name is below each later one and never above it |
| OrderedDict.Keys | callback_plugins/report.py:74 | a dict's keys, one per entry, in insertion order |
| OrderedDict.Get | callback_plugins/report.py:40-42 | the read of a field dict (`d[k]`) in which the laws of `update` are stated: it finds a value exactly when the key is present, and the value is stored under that key |
| OrderedDict.Set | callback_plugins/report.py:38 | `d[k] = v` keeps the order of existing keys and appends a new key at the end |
| OrderedDict.SetGet | callback_plugins/report.py:38 | after `d[k] = v`, `k` reads `v` and every other key reads what it read before |
| OrderedDict.SetAppends | callback_plugins/report.py:38 | assigning a new key appends its entry |
| OrderedDict.Update | callback_plugins/report.py:40-42 | definition: `d.update(e)` assigns each pair of `e` in order; laws in `OrderedDict.UpdateKeys`, `OrderedDict.UpdateGet` and `OrderedDict.UpdateDisjoint` |
| OrderedDict.UpdateKeys | callback_plugins/report.py:40-42 | `d.update(e)` keeps `d`'s keys in place, then appends `e`'s keys that `d` lacks, in `e`'s order, each once; keys stay distinct |
| OrderedDict.UpdateFresh | callback_plugins/report.py:40-42 | the keys after `d.update(e)` are `d`'s keys followed by the new keys of `e` in `e`'s order |
| OrderedDict.UpdateGet | callback_plugins/report.py:40-42 | after `d.update(e)`, keys of `e` read `e`'s value and all other keys read `d`'s |
| OrderedDict.UpdateDisjoint | callback_plugins/report.py:76 | updating with a dict whose keys are all new appends it |
| OrderedDict.SetTwice | callback_plugins/report.py:38-42 | assigning a key twice is the same as assigning the second value once |
| Report.FailureRecord | callback_plugins/report.py:48-57 | a record exists iff the result has `msg`; it holds keys fail_action, fail_result and fail_ip, with the task name, the message and the address |
| Report.FailIp | callback_plugins/report.py:51 | definition: the host's `ansible_host` variable, or its address when it has none; used by `Report.FailureRecord` |
| Report.AfterFailure | callback_plugins/report.py:53-57 | a failure adds or replaces the host's record and leaves every other host's record as it was; without `msg` nothing changes |
| Report.Replay | callback_plugins/report.py:27-31 | definition: a run's failure and unreachable events applied in order; laws in `Report.LastWriteWins` and `Report.ReplayKeepsRecordsWf` |
| Report.LastWriteWins | callback_plugins/report.py:27-31 | after a sequence of events, a host's record is the one its last recorded failure wrote |
| Report.ReplayKeepsRecordsWf | callback_plugins/report.py:53-57 | every record stays a dict with distinct keys |
| Report.PlaceholderFields | callback_plugins/report.py:42 | the placeholders are two distinct names, `fail_action` and `fail_report`, each holding an empty string |
| Report.MergeHost | callback_plugins/report.py:39-42 | definition: the counters updated by the host's record, or by the placeholders; laws in `Report.MergeWithoutRecord` and `Report.MergeWithRecord` |
| Report.MergeWithoutRecord | callback_plugins/report.py:41-42 | a host without a record gets empty `fail_action` and `fail_report`, and its other fields are its counters |
| Report.MergeWithRecord | callback_plugins/report.py:39-40 | a host with a record gets the record's values on its keys, and its other fields are its counters |
| Report.AssignEach | callback_plugins/report.py:36-38 | definition: each host assigned its value in turn; law in `Report.AssignEachLayout` |
| Report.SummaryOf | callback_plugins/report.py:35-42 | definition: each host assigned its merged fields in turn; laws in `Report.SummaryLayout` and `Report.SummaryOfStats` |
| Report.AssignEachLayout | callback_plugins/report.py:36-38 | assigning distinct hosts in turn gives one entry per host, in visiting order |
| Report.SummaryStep | callback_plugins/report.py:36-42 | visiting one more host assigns it its merged fields in the summary built so far |
| Report.SummaryLayout | callback_plugins/report.py:36-42 | the summary of distinct hosts has exactly those hosts as keys, in order, each with its merged fields |
| Report.SummaryOfStats | callback_plugins/report.py:34-42 | the summary's keys are a permutation of the processed hosts, strictly ascending, and each host holds its counters merged with its record or the placeholders |
| Report.HostLine | callback_plugins/report.py:75-76 | definition: `{"hostname": k}` updated with the host's fields; law in `Report.RowLayout` |
| Report.Row | callback_plugins/report.py:85-87 | definition: `str` of each value of a dict, in insertion order; laws in `Report.RowLayout` and `Report.RecordRow` |
| Report.RowLayout | callback_plugins/report.py:74-77 | a host's row is exactly its name followed by `str` of each of its field values, in insertion order, when no field is called `hostname` |
| Report.RowsOf | callback_plugins/report.py:84-87 | definition: the cells of each host dict, in order; law in `Callback.LinesGiveRows` |
| Report.PrintedRows | callback_plugins/report.py:84-88 | definition: each row's cells joined by commas, one console line per row; law in `Callback.PrintedLines` |
| Report.CsvRows | callback_plugins/report.py:74-77 | definition: one row per summary entry, built from its host dict; law in `Report.CsvRowsLayout` |
| Report.CsvRowsLayout | callback_plugins/report.py:74-98 | one row per summary entry, in summary order, each the host's name followed by the cells of its fields |
| Report.CsvPrinted | callback_plugins/report.py:79-88 | definition: the header line and one line per host when print is "true"; law in `Report.PrintedHeader` |
| Report.CsvWritten | callback_plugins/report.py:90-98 | definition: the header row and one row per host when dump is "true"; law in `Report.CsvFileLayout` |
| Report.CsvEmitted | callback_plugins/report.py:79-98 | definition: what is printed and what is written, decided independently; laws in `Report.SilentWhenOff` and `Report.DumpOnly` |
| Report.JsonEmitted | callback_plugins/report.py:100-105 | definition: the summary printed when print is "true" and written when dump is "true"; law in `Report.SilentWhenOff` |
| Report.CsvFileLayout | callback_plugins/report.py:90-98 | a file is written iff dump is on, to the configured name; it holds the header, then one row per summary host in summary order, each the host's name followed by `str` of each of its field values |
| Report.Header | callback_plugins/report.py:60-72 | definition: the eleven column names, in order; laws in `Report.HeaderNamesFree` and `Report.PrintedHeader` |
| Report.HeaderNamesFree | callback_plugins/report.py:60-72 | no header name contains a comma |
| Report.PrintedHeader | callback_plugins/report.py:79-83 | with print on, one line per host follows the header, and splitting the printed header at commas gives the header names |
| Report.SilentWhenOff | callback_plugins/report.py:79-105 | with print and dump both off, neither path emits anything |
| Report.DumpOnly | callback_plugins/report.py:90-98 | with print off and dump on, the CSV path writes the header and the rows and prints nothing |
| Report.RunnerCounters | callback_plugins/report.py:37 | an assumption about the runner, not code of the plugin: `stats.summarize(h)` gives the seven counters in header order; used by `Report.CleanHostRow` and `Report.FailedHostRow` |
| Report.FieldNamesDistinct | callback_plugins/report.py:42 | the field names of a clean host and of a failed host are distinct and never `hostname` |
| Report.CleanMerge | callback_plugins/report.py:41-42 | a clean host's fields are its counters followed by the two placeholders |
| Report.FailedMerge | callback_plugins/report.py:39-40 | a failed host's fields are its counters followed by its record |
| Report.RecordRow | callback_plugins/report.py:53-57 | the cells of a failure record are the task name, `str` of the message and `str` of the address, in that order |
| Report.CleanHostRow | callback_plugins/report.py:60-77 | a clean host's row is its name, its seven counters and two empty cells: one cell fewer than the header |
| Report.FailedHostRow | callback_plugins/report.py:53-77 | a failed host's row is its name, its seven counters, the task, the message and the address; the message stands under `fail_report` |
| Callback.RowOf | callback_plugins/report.py:85-87 | the loop builds `str` of each value in insertion order |
| Callback.HeaderText | callback_plugins/report.py:80-83 | each name plus a comma, with the last comma cut off, is the names joined by commas |
| Callback.HostLines | callback_plugins/report.py:73-77 | one dict per summary entry, `hostname` first and then that host's fields |
| Callback.LinesGiveRows | callback_plugins/report.py:73-77 | the host dicts built from the summary give exactly the summary's CSV rows |
| Callback.PrintedLines | callback_plugins/report.py:79-88 | prints the header line, then each host's cells joined by commas, in summary order |
| Callback.WrittenRows | callback_plugins/report.py:92-98 | writes the header row, then one row per host, in summary order |
| Callback.MergeAll | callback_plugins/report.py:35-42 | the loop over the hosts builds exactly the summary: each host assigned its counters, then updated with its record or the placeholders |
| Callback.CallbackModule.constructor | callback_plugins/report.py:15-22 | each setting is its environment value or default, lowered except the file name; the file name defaults to `result.` plus the lowered format; no failures are recorded yet; every stored record is a dict with exactly the keys `fail_action`, `fail_result`, `fail_ip` (`Valid`) |
| Callback.CallbackModule.FillErrorReport | callback_plugins/report.py:48-57 | the new `fail_report` is the old one after the failure; a result without `msg` raises KeyError and changes nothing; every stored record keeps exactly the keys `fail_action`, `fail_result`, `fail_ip` |
| Callback.CallbackModule.OnUnreachable | callback_plugins/report.py:27-28 | an unreachable host is recorded as a failure |
| Callback.CallbackModule.OnFailed | callback_plugins/report.py:30-31 | a failed task is recorded whether or not its errors are ignored |
| Callback.CallbackModule.OnStats | callback_plugins/report.py:33-46 | the summary is the merge over the sorted processed hosts, and the output is the CSV path's when the format is "csv" and the JSON path's otherwise |
| Callback.CallbackModule.ReportCsv | callback_plugins/report.py:59-98 | the CSV path prints exactly `CsvPrinted` and writes exactly `CsvWritten` of the summary and the settings |
| Callback.CallbackModule.PrintCsv | callback_plugins/report.py:79-88 | nothing is printed unless print is "true"; then the header line and one comma-joined line per host, in summary order |
| Callback.CallbackModule.DumpCsv | callback_plugins/report.py:90-98 | nothing is written unless dump is "true"; then the configured file gets the header row and one row per host, in summary order |
| Callback.CallbackModule.ReportJson | callback_plugins/report.py:100-105 | the JSON path prints the summary when print is on and writes it when dump is on |
| Example.TwoHosts | callback_plugins/report.py:33-98 | hosts h2 (failed "install pkg" with "timeout" at 10.0.0.2) and h1 (clean), with dump on: the file holds the header, then h1's ten-cell row, then h2's eleven-cell row |

## Left out

- Reading the environment is not modelled: the four variables are an input, `Config.Env`, with `None` for an unset variable.
- Opening and writing the file, and printing, are not modelled: both paths return the console items and the file write as a value.
- The CSV writer's quoting is left out. A file write holds rows of cells, not the quoted text, so a cell holding a comma, a quote or a newline is not escaped. Console lines are joined with commas unquoted, as `print(*row, sep=",")` does.
- JSON and console formatting are left out: `json.dump` with indentation, and the text `print` gives for the summary dict. The model keeps the summary value.
- The three informational `print` calls at lines 23-25 are not modelled.
- The plugin's class attributes (lines 10-13) and `CallbackBase` are not modelled: they register the plugin with Ansible, which is not part of this model.
- `host_label`, `result._result`, `task_name`, `result._host.vars` and `result._host.address` become fields of `Report.RunnerResult`. How Ansible computes them is not part of this model.
- `stats.processed` and `stats.summarize` become a list of host names and a function in `Report.Stats`. In the source, `summary[h].update(...)` also mutates the dict that `summarize` returned. That aliasing is not modelled, because the runner never reads that dict again.
- Field values are integers or strings (`FieldValues.Value`). A `msg` or `ansible_host` of another Python type, and its `str`, are not modelled.
- Strings.Lower: implements `lower()` on ASCII only. Other Unicode letters are kept as they are.
- Report.RunnerCounters: the runner's `stats.summarize(h)` is not part of this model. The rows of `Report.CleanHostRow` and `Report.FailedHostRow`, and so the ten and eleven cells above, assume it returns exactly the seven counters `ok` to `ignored` in header order; other summaries go through the general laws (`Report.RowLayout`, `Report.CsvFileLayout`).
- Report.FailureRecord: a missing `msg` is modelled as the `KeyError` completion of `Callback.CallbackModule.FillErrorReport`. What Ansible does with an exception raised from a callback is not modelled.
- Errors raised while opening or writing the report file are not modelled.
