/** The callback object the runner drives: it reads its settings when it
    is created, records a failure per host as failure and unreachable
    events arrive, and at the end of the run merges those records into the
    runner's statistics and emits the report. Each method is proved to
    produce exactly what the functions of module Report describe. */
module Callback {

  import opened Wrappers
  import opened OrderedDict
  import opened FieldValues
  import opened Strings
  import opened Report
  import HostOrder
  import Config

  /** The cells of one host's row: `str` of each value, in insertion order. */
  method RowOf(line: FieldDict) returns (row: seq<string>)
    ensures row == Row(line)
  {
    row := [];
    for i := 0 to |line|
      invariant row == seq(i, j requires 0 <= j < i => Show(line[j].1))
    {
      row := row + [Show(line[i].1)];
    }
  }

  /** The header line: each name followed by a comma, then the last comma
      cut off. */
  method HeaderText(fields: seq<string>) returns (line: string)
    ensures line == Join(fields, ',')
  {
    var header := "";
    for i := 0 to |fields|
      invariant i == 0 ==> header == ""
      invariant i > 0 ==> header == Join(fields[..i], ',') + [',']
    {
      if i > 0 {
        JoinSnoc(fields[..i], fields[i], ',');
        assert fields[..i] + [fields[i]] == fields[..i + 1];
      }
      header := header + fields[i] + [','];
    }
    assert fields[..|fields|] == fields;
    line := if |header| == 0 then header else header[..|header| - 1];
  }

  /** One dict per host: `hostname` first, then that host's fields. */
  method HostLines(summary: Summary) returns (lines: seq<FieldDict>)
    ensures |lines| == |summary|
    ensures forall i :: 0 <= i < |summary| ==> lines[i] == HostLine(summary[i].0, summary[i].1)
  {
    lines := [];
    for i := 0 to |summary|
      invariant |lines| == i
      invariant forall j :: 0 <= j < i ==> lines[j] == HostLine(summary[j].0, summary[j].1)
    {
      var (k, v) := summary[i];
      var line := [("hostname", Text(k))];
      line := Update(line, v);
      lines := lines + [line];
    }
  }

  /** What the CSV path prints: the header line, then one line per host
      with its cells separated by commas. */
  method PrintedLines(fields: seq<string>, lines: seq<FieldDict>) returns (console: seq<ConsoleItem>)
    ensures console == [Printed(Join(fields, ','))] + PrintedRows(RowsOf(lines))
  {
    var header := HeaderText(fields);
    console := [Printed(header)];
    for i := 0 to |lines|
      invariant console == [Printed(header)] + seq(i, j requires 0 <= j < i => Printed(Join(Row(lines[j]), ',')))
    {
      var row := RowOf(lines[i]);
      console := console + [Printed(Join(row, ','))];
    }
    assert PrintedRows(RowsOf(lines)) == seq(|lines|, j requires 0 <= j < |lines| => Printed(Join(Row(lines[j]), ',')));
  }

  /** What the CSV path writes: the header row, then one row per host. */
  method WrittenRows(fields: seq<string>, lines: seq<FieldDict>) returns (written: seq<seq<string>>)
    ensures written == [fields] + RowsOf(lines)
  {
    written := [fields];
    for i := 0 to |lines|
      invariant written == [fields] + seq(i, j requires 0 <= j < i => Row(lines[j]))
    {
      var row := RowOf(lines[i]);
      written := written + [row];
    }
  }

  /** The host dicts built from a summary give the summary's rows. */
  lemma LinesGiveRows(summary: Summary, lines: seq<FieldDict>)
    requires |lines| == |summary|
    requires forall i :: 0 <= i < |summary| ==> lines[i] == HostLine(summary[i].0, summary[i].1)
    ensures RowsOf(lines) == CsvRows(summary)
  {
  }

  /** The loop over the sorted hosts: each host is assigned its counters,
      which are then updated in place with its failure record or with the
      placeholders. */
  method MergeAll(hosts: seq<string>, fr: FailReport, summarize: string -> FieldDict) returns (summary: Summary)
    ensures summary == SummaryOf(hosts, fr, summarize)
  {
    summary := [];
    for i := 0 to |hosts|
      invariant summary == SummaryOf(hosts[..i], fr, summarize)
    {
      var h := hosts[i];
      var t := summarize(h);
      ghost var before := summary;
      summary := Set(summary, h, t);
      var merged := if h in fr then Update(t, fr[h]) else Update(t, Placeholders);
      summary := Set(summary, h, merged);
      SetTwice(before, h, t, merged);
      SummaryStep(hosts, i, fr, summarize);
    }
    assert hosts[..|hosts|] == hosts;
  }

  class CallbackModule {
    var format: string
    var filename: string
    var dumpSetting: string
    var printSetting: string
    var failReport: FailReport

    /** Every stored record is a dict with distinct keys, exactly the
        three keys a failure writes. */
    ghost predicate Valid()
      reads this
    {
      && RecordsWf(failReport)
      && forall h :: h in failReport ==> Keys(failReport[h]) == ["fail_action", "fail_result", "fail_ip"]
    }

    /** Defaults for unset variables, then `lower()` on all but the file
        name; no failure recorded yet. */
    constructor (env: Config.Env)
      ensures format == Config.Format(env) && filename == Config.Filename(env)
      ensures dumpSetting == Config.DumpSetting(env) && printSetting == Config.PrintSetting(env)
      ensures failReport == map[]
      ensures Valid()
    {
      var fmt := Lower(GetOr(env.format, "csv"));
      format := fmt;
      filename := GetOr(env.filename, "result." + fmt);
      dumpSetting := Lower(GetOr(env.dump, "True"));
      printSetting := Lower(GetOr(env.printing, "False"));
      failReport := map[];
    }

    /** Record the failure in `result` for its host, replacing any earlier
        record for that host. A result without `msg` raises before
        anything is written. */
    method FillErrorReport(result: RunnerResult) returns (c: Completion)
      requires Valid()
      modifies this`failReport
      ensures Valid()
      ensures failReport == AfterFailure(old(failReport), result)
      ensures c == if "msg" in result.data then Normal else KeyError("msg")
    {
      var host := result.hostLabel;
      if "msg" !in result.data {
        return KeyError("msg");
      }
      var failResult := result.data["msg"];
      var failIp := if "ansible_host" in result.hostVars then result.hostVars["ansible_host"] else Text(result.hostAddress);
      var failAction := result.taskName;
      failReport := failReport[host := [("fail_action", Text(failAction)), ("fail_result", failResult), ("fail_ip", failIp)]];
      c := Normal;
    }

    method OnUnreachable(result: RunnerResult) returns (c: Completion)
      requires Valid()
      modifies this`failReport
      ensures Valid()
      ensures failReport == AfterFailure(old(failReport), result)
      ensures c == if "msg" in result.data then Normal else KeyError("msg")
    {
      c := FillErrorReport(result);
    }

    /** Whether the task's errors were ignored makes no difference. */
    method OnFailed(result: RunnerResult, ignoreErrors: bool) returns (c: Completion)
      requires Valid()
      modifies this`failReport
      ensures Valid()
      ensures failReport == AfterFailure(old(failReport), result)
      ensures c == if "msg" in result.data then Normal else KeyError("msg")
    {
      c := FillErrorReport(result);
    }

    /** End of run: visit the processed hosts in sorted order, give each
        its counters merged with its failure record (or the placeholders),
        then take the CSV path when the format is "csv" and the JSON path
        otherwise. Changes no field: `fail_report` is only read. */
    method OnStats(stats: Stats) returns (summary: Summary, out: Emitted)
      requires Valid()
      ensures summary == SummaryOf(HostOrder.Sort(stats.processed), failReport, stats.summarize)
      ensures out == if Config.SelectsCsv(format) then CsvEmitted(summary, printSetting, dumpSetting, filename)
                     else JsonEmitted(summary, printSetting, dumpSetting, filename)
    {
      var hosts := HostOrder.Sort(stats.processed);
      summary := MergeAll(hosts, failReport, stats.summarize);
      if format == "csv" {
        out := ReportCsv(summary);
      } else {
        out := ReportJson(summary);
      }
    }

    /** The CSV path: print the header and each row when printing is on,
        write them when dumping is on. */
    method ReportCsv(summary: Summary) returns (out: Emitted)
      ensures out == CsvEmitted(summary, printSetting, dumpSetting, filename)
    {
      var lines := HostLines(summary);
      var console := PrintCsv(summary, lines);
      var file := DumpCsv(summary, lines);
      out := Emitted(console, file);
    }

    /** The printing half of the CSV path. */
    method PrintCsv(summary: Summary, lines: seq<FieldDict>) returns (console: seq<ConsoleItem>)
      requires |lines| == |summary|
      requires forall i :: 0 <= i < |summary| ==> lines[i] == HostLine(summary[i].0, summary[i].1)
      ensures console == CsvPrinted(summary, printSetting)
    {
      LinesGiveRows(summary, lines);
      console := [];
      if printSetting == "true" {
        console := PrintedLines(Header, lines);
      }
    }

    /** The writing half of the CSV path. */
    method DumpCsv(summary: Summary, lines: seq<FieldDict>) returns (file: Option<FileWrite>)
      requires |lines| == |summary|
      requires forall i :: 0 <= i < |summary| ==> lines[i] == HostLine(summary[i].0, summary[i].1)
      ensures file == CsvWritten(summary, dumpSetting, filename)
    {
      LinesGiveRows(summary, lines);
      file := None;
      if dumpSetting == "true" {
        var written := WrittenRows(Header, lines);
        file := Some(CsvFile(filename, written));
      }
    }

    /** The JSON path: print the summary when printing is on, write it
        when dumping is on. */
    method ReportJson(summary: Summary) returns (out: Emitted)
      ensures out == JsonEmitted(summary, printSetting, dumpSetting, filename)
    {
      var console: seq<ConsoleItem> := [];
      if printSetting == "true" {
        console := [PrintedSummary(summary)];
      }
      var file: Option<FileWrite> := None;
      if dumpSetting == "true" {
        file := Some(JsonFile(filename, summary));
      }
      out := Emitted(console, file);
    }
  }
}
