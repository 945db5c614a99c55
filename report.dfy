/** What the host report callback records and emits, as values: the
    failure record written for a host, the per-host summary built at the
    end of the run, and the rows, lines and file contents produced from it. */
module Report {

  import opened Wrappers
  import opened OrderedDict
  import opened FieldValues
  import opened Strings
  import HostOrder
  import Config

  /** One host's fields, in insertion order. */
  type FieldDict = Dict<string, Value>

  /** Host name to fields, in insertion order. */
  type Summary = Dict<string, FieldDict>

  /** `fail_report`: host label to failure record. Its own key order is
      never observed, so it is a map. */
  type FailReport = map<string, FieldDict>

  /** What a failure callback reads from the runner's result object. */
  datatype RunnerResult = RunnerResult(
    hostLabel: string,             // the runner's label for the host
    data: map<string, Value>,      // the task result
    taskName: string,              // the failing task's name
    hostVars: map<string, Value>,  // the host's variables
    hostAddress: string)           // the host's address

  /** How a callback ends: normally, or with an uncaught KeyError. */
  datatype Completion = Normal | KeyError(key: string)

  /** The runner's end-of-run statistics: the keys of its `processed`
      dict, in that dict's order, and its per-host counter dict. */
  datatype Stats = Stats(processed: seq<string>, summarize: string -> FieldDict)

  /** What a report sends to the console and to its file. */
  datatype ConsoleItem = Printed(text: string) | PrintedSummary(summary: Summary)
  datatype FileWrite = CsvFile(path: string, rows: seq<seq<string>>) | JsonFile(path: string, document: Summary)
  datatype Emitted = Emitted(console: seq<ConsoleItem>, file: Option<FileWrite>)

  /** The CSV header, in its fixed order. */
  const Header: seq<string> := ["hostname", "ok", "failures", "unreachable", "changed",
                                "skipped", "rescued", "ignored", "fail_action", "fail_report", "fail_ip"]

  /** The fields given to a host that has no failure record. */
  const Placeholders: FieldDict := [("fail_action", Text("")), ("fail_report", Text(""))]

  // ---------------------------------------------------------------------
  // Failure records

  /** The host's `ansible_host` variable when it has one, else its address. */
  function FailIp(r: RunnerResult): Value {
    if "ansible_host" in r.hostVars then r.hostVars["ansible_host"] else Text(r.hostAddress)
  }

  /** The record a failure writes, or None when the result has no `msg`
      (the lookup raises before anything is written). */
  function FailureRecord(r: RunnerResult): (rec: Option<FieldDict>)
    ensures rec.Some? <==> "msg" in r.data
    ensures rec.Some? ==> Wf(rec.value) && Keys(rec.value) == ["fail_action", "fail_result", "fail_ip"]
    ensures rec.Some? ==> && Get(rec.value, "fail_action") == Some(Text(r.taskName))
                          && Get(rec.value, "fail_result") == Some(r.data["msg"])
                          && Get(rec.value, "fail_ip") == Some(FailIp(r))
  {
    if "msg" in r.data then
      Some([("fail_action", Text(r.taskName)), ("fail_result", r.data["msg"]), ("fail_ip", FailIp(r))])
    else None
  }

  /** `fail_report` after one failure or unreachable event. */
  function AfterFailure(fr: FailReport, r: RunnerResult): (fr': FailReport)
    ensures "msg" !in r.data ==> fr' == fr
    ensures "msg" in r.data ==> fr'.Keys == fr.Keys + {r.hostLabel} && fr'[r.hostLabel] == FailureRecord(r).value
    ensures forall h :: h != r.hostLabel ==> (h in fr' <==> h in fr) && (h in fr ==> fr'[h] == fr[h])
  {
    match FailureRecord(r)
    case Some(rec) => fr[r.hostLabel := rec]
    case None => fr
  }

  /** Every record in `fail_report` is a dict. */
  predicate RecordsWf(fr: FailReport) {
    forall h :: h in fr ==> Wf(fr[h])
  }

  /** `fail_report` after a run's failure events, in the order they came. */
  function Replay(fr: FailReport, rs: seq<RunnerResult>): FailReport {
    if rs == [] then fr else AfterFailure(Replay(fr, rs[..|rs| - 1]), rs[|rs| - 1])
  }

  /** The record of the last event for host `h` that wrote one. */
  function LastRecordFor(rs: seq<RunnerResult>, h: string): Option<FieldDict> {
    if rs == [] then None
    else if rs[|rs| - 1].hostLabel == h && "msg" in rs[|rs| - 1].data then FailureRecord(rs[|rs| - 1])
    else LastRecordFor(rs[..|rs| - 1], h)
  }

  function Lookup(fr: FailReport, h: string): Option<FieldDict> {
    if h in fr then Some(fr[h]) else None
  }

  /** Last write wins: after a run, a host's record is the one its last
      recorded failure wrote, and a host that recorded none keeps what it had. */
  lemma {:induction false} LastWriteWins(fr: FailReport, rs: seq<RunnerResult>, h: string)
    ensures Lookup(Replay(fr, rs), h) == if LastRecordFor(rs, h).Some? then LastRecordFor(rs, h) else Lookup(fr, h)
  {
    if rs != [] {
      LastWriteWins(fr, rs[..|rs| - 1], h);
    }
  }

  /** Failure events keep every record a dict. */
  lemma {:induction false} ReplayKeepsRecordsWf(fr: FailReport, rs: seq<RunnerResult>)
    requires RecordsWf(fr)
    ensures RecordsWf(Replay(fr, rs))
  {
    if rs != [] {
      ReplayKeepsRecordsWf(fr, rs[..|rs| - 1]);
    }
  }

  // ---------------------------------------------------------------------
  // The summary

  /** A host's summary fields: its counters updated by its failure record,
      or by the two placeholders when it has none. */
  function MergeHost(fr: FailReport, h: string, counters: FieldDict): FieldDict {
    if h in fr then Update(counters, fr[h]) else Update(counters, Placeholders)
  }

  /** The placeholders: two distinct names, each an empty string. */
  lemma PlaceholderFields(e: FieldDict)
    requires e == Placeholders
    ensures Keys(e) == ["fail_action", "fail_report"] && Wf(e)
    ensures Get(e, "fail_action") == Some(Text("")) && Get(e, "fail_report") == Some(Text(""))
  {
    assert Keys(e) == ["fail_action", "fail_report"];
  }

  /** Without a record, `fail_action` and `fail_report` are empty strings
      and every other field is the counter's. */
  lemma MergeWithoutRecord(fr: FailReport, h: string, counters: FieldDict, k: string)
    requires h !in fr
    ensures Get(MergeHost(fr, h, counters), "fail_action") == Some(Text(""))
    ensures Get(MergeHost(fr, h, counters), "fail_report") == Some(Text(""))
    ensures k != "fail_action" && k != "fail_report" ==> Get(MergeHost(fr, h, counters), k) == Get(counters, k)
    ensures Keys(counters) <= Keys(MergeHost(fr, h, counters))
  {
    var e := Placeholders;
    PlaceholderFields(e);
    UpdateGet(counters, e, "fail_action");
    UpdateGet(counters, e, "fail_report");
    UpdateGet(counters, e, k);
    UpdateKeys(counters, e);
  }

  /** With a record, the record's values win on shared keys and every
      other field is the counter's. */
  lemma MergeWithRecord(fr: FailReport, h: string, counters: FieldDict, k: string)
    requires h in fr && Wf(fr[h])
    ensures Get(MergeHost(fr, h, counters), k) == if k in Keys(fr[h]) then Get(fr[h], k) else Get(counters, k)
    ensures Keys(counters) <= Keys(MergeHost(fr, h, counters))
  {
    UpdateGet(counters, fr[h], k);
    UpdateKeys(counters, fr[h]);
  }

  /** The dict a loop over `hosts` builds by assigning each host its value
      in turn (`d[h] = value(h)`). */
  function AssignEach(hosts: seq<string>, value: string -> FieldDict): Summary {
    if hosts == [] then []
    else
      var h := hosts[|hosts| - 1];
      Set(AssignEach(hosts[..|hosts| - 1], value), h, value(h))
  }

  /** The summary dict: each host assigned its merged fields, in turn. */
  function SummaryOf(hosts: seq<string>, fr: FailReport, summarize: string -> FieldDict): Summary {
    AssignEach(hosts, h => MergeHost(fr, h, summarize(h)))
  }

  /** One more host: the summary so far, with that host assigned its
      merged fields. */
  lemma SummaryStep(hosts: seq<string>, i: nat, fr: FailReport, summarize: string -> FieldDict)
    requires i < |hosts|
    ensures SummaryOf(hosts[..i + 1], fr, summarize)
         == Set(SummaryOf(hosts[..i], fr, summarize), hosts[i], MergeHost(fr, hosts[i], summarize(hosts[i])))
  {
    assert hosts[..i + 1][..i] == hosts[..i];
  }

  /** Dropping the last of distinct names keeps them distinct, and the
      dropped name is not among the others. */
  lemma DistinctInit(names: seq<string>)
    requires Distinct(names) && names != []
    ensures Distinct(names[..|names| - 1]) && names[|names| - 1] !in names[..|names| - 1]
  {
  }

  /** The entries of `hosts` in order, each with its value. */
  function Entries(hosts: seq<string>, value: string -> FieldDict): Summary {
    seq(|hosts|, i requires 0 <= i < |hosts| => (hosts[i], value(hosts[i])))
  }

  /** Assigning a host not yet among the entries appends its entry. */
  lemma AssignFresh(prefix: seq<string>, h: string, value: string -> FieldDict)
    requires h !in prefix
    ensures Set(Entries(prefix, value), h, value(h)) == Entries(prefix + [h], value)
  {
    var before := Entries(prefix, value);
    KeysAre(before, prefix);
    SetAppends(before, h, value(h));
  }

  /** For distinct hosts the loop leaves exactly one entry per host, in
      the order the hosts were visited. */
  lemma {:induction false} AssignEachLayout(hosts: seq<string>, value: string -> FieldDict)
    requires Distinct(hosts)
    ensures AssignEach(hosts, value) == Entries(hosts, value)
  {
    if hosts != [] {
      var n := |hosts| - 1;
      DistinctInit(hosts);
      AssignEachLayout(hosts[..n], value);
      AssignFresh(hosts[..n], hosts[n], value);
      assert hosts[..n] + [hosts[n]] == hosts;
    }
  }

  /** The summary of distinct hosts: one entry per host, in visiting
      order, holding that host's merged fields. */
  lemma SummaryLayout(hosts: seq<string>, fr: FailReport, summarize: string -> FieldDict)
    requires Distinct(hosts)
    ensures Keys(SummaryOf(hosts, fr, summarize)) == hosts
    ensures forall i :: 0 <= i < |hosts| ==>
      SummaryOf(hosts, fr, summarize)[i].1 == MergeHost(fr, hosts[i], summarize(hosts[i]))
  {
    AssignEachLayout(hosts, h => MergeHost(fr, h, summarize(h)));
  }

  /** The summary built at the end of a run: its keys are the processed
      hosts in ascending order, each once, and each host's fields are its
      merged fields. */
  lemma SummaryOfStats(stats: Stats, fr: FailReport)
    requires Distinct(stats.processed)
    ensures var s := SummaryOf(HostOrder.Sort(stats.processed), fr, stats.summarize);
      && multiset(Keys(s)) == multiset(stats.processed)
      && (forall i, j :: 0 <= i < j < |s| ==> HostOrder.Below(s[i].0, s[j].0))
      && (forall i :: 0 <= i < |s| ==> s[i].1 == MergeHost(fr, s[i].0, stats.summarize(s[i].0)))
  {
    var hosts := HostOrder.Sort(stats.processed);
    forall i, j | 0 <= i < j < |hosts| ensures hosts[i] != hosts[j] {
      HostOrder.SortDistinct(stats.processed, i, j);
      HostOrder.BelowIrreflexive(hosts[i]);
    }
    SummaryLayout(hosts, fr, stats.summarize);
    forall i, j | 0 <= i < j < |hosts| ensures HostOrder.Below(hosts[i], hosts[j]) {
      HostOrder.SortDistinct(stats.processed, i, j);
    }
  }

  // ---------------------------------------------------------------------
  // CSV rows and what is emitted

  /** The dict written for one host: `hostname` first, then its fields. */
  function HostLine(h: string, fields: FieldDict): FieldDict {
    Update([("hostname", Text(h))], fields)
  }

  /** The cells of a row: `str` of each value, in insertion order. */
  function Row(line: FieldDict): seq<string> {
    seq(|line|, i requires 0 <= i < |line| => Show(line[i].1))
  }

  /** The rows of the given host dicts, one each, in order. */
  function RowsOf(lines: seq<FieldDict>): seq<seq<string>> {
    seq(|lines|, i requires 0 <= i < |lines| => Row(lines[i]))
  }

  /** Each row printed as its cells joined by commas. */
  function PrintedRows(rows: seq<seq<string>>): seq<ConsoleItem> {
    seq(|rows|, i requires 0 <= i < |rows| => Printed(Join(rows[i], ',')))
  }

  function CsvRows(summary: Summary): seq<seq<string>> {
    seq(|summary|, i requires 0 <= i < |summary| => Row(HostLine(summary[i].0, summary[i].1)))
  }

  /** What the CSV path prints: when printing is on, the header line and
      one line per host. */
  function CsvPrinted(summary: Summary, printSetting: string): seq<ConsoleItem> {
    if Config.IsOn(printSetting) then [Printed(Join(Header, ','))] + PrintedRows(CsvRows(summary)) else []
  }

  /** What the CSV path writes: when dumping is on, the header row and one
      row per host. */
  function CsvWritten(summary: Summary, dumpSetting: string, filename: string): Option<FileWrite> {
    if Config.IsOn(dumpSetting) then Some(CsvFile(filename, [Header] + CsvRows(summary))) else None
  }

  /** The CSV path: printing and writing are decided independently. */
  function CsvEmitted(summary: Summary, printSetting: string, dumpSetting: string, filename: string): Emitted {
    Emitted(CsvPrinted(summary, printSetting), CsvWritten(summary, dumpSetting, filename))
  }

  /** The JSON path: the summary itself printed and written. */
  function JsonEmitted(summary: Summary, printSetting: string, dumpSetting: string, filename: string): Emitted {
    Emitted(
      if Config.IsOn(printSetting) then [PrintedSummary(summary)] else [],
      if Config.IsOn(dumpSetting) then Some(JsonFile(filename, summary)) else None)
  }

  /** The cells of two dicts laid end to end are their cells end to end. */
  lemma RowAppend(a: FieldDict, b: FieldDict)
    ensures Row(a + b) == Row(a) + Row(b)
  {
    var ab := a + b;
    forall k | 0 <= k < |ab| ensures Row(ab)[k] == (Row(a) + Row(b))[k] {
      if k >= |a| {
        assert ab[k] == b[k - |a|];
      }
    }
  }

  /** A row is the host name followed by the string of each field value,
      in the fields' insertion order (when no field is itself called
      `hostname`). */
  lemma RowLayout(h: string, fields: FieldDict)
    requires Wf(fields) && "hostname" !in Keys(fields)
    ensures Row(HostLine(h, fields)) == [h] + Row(fields)
  {
    var first := [("hostname", Text(h))];
    assert Keys(first) == ["hostname"];
    UpdateDisjoint(first, fields);
    RowAppend(first, fields);
    assert Row(first) == [h];
  }

  /** One row per summary entry, in summary order: the host's name, then
      the cells of its fields. */
  lemma CsvRowsLayout(summary: Summary)
    requires forall i :: 0 <= i < |summary| ==> Wf(summary[i].1) && "hostname" !in Keys(summary[i].1)
    ensures |CsvRows(summary)| == |summary|
    ensures forall i :: 0 <= i < |summary| ==> CsvRows(summary)[i] == [summary[i].0] + Row(summary[i].1)
  {
    forall i | 0 <= i < |summary| ensures CsvRows(summary)[i] == [summary[i].0] + Row(summary[i].1) {
      RowLayout(summary[i].0, summary[i].1);
    }
  }

  /** The CSV file holds the header, then exactly one row per summary
      host, in summary order, each starting with that host's name. */
  lemma CsvFileLayout(summary: Summary, dumpSetting: string, filename: string)
    requires forall i :: 0 <= i < |summary| ==> Wf(summary[i].1) && "hostname" !in Keys(summary[i].1)
    ensures var file := CsvWritten(summary, dumpSetting, filename);
      && (file.Some? <==> Config.IsOn(dumpSetting))
      && (file.Some? ==>
            && file.value.CsvFile?
            && file.value.path == filename
            && |file.value.rows| == 1 + |summary|
            && file.value.rows[0] == Header
            && forall i :: 0 <= i < |summary| ==> file.value.rows[i + 1] == [summary[i].0] + Row(summary[i].1))
  {
    var rows := CsvRows(summary);
    CsvRowsLayout(summary);
    var written := [Header] + rows;
    forall i | 0 <= i < |summary| ensures written[i + 1] == [summary[i].0] + Row(summary[i].1) {
      assert written[i + 1] == rows[i];
    }
  }

  /** No header name contains a comma. */
  lemma HeaderNamesFree()
    ensures forall i :: 0 <= i < |Header| ==> Free(Header[i], ',')
  {
    forall i | 0 <= i < |Header| ensures Free(Header[i], ',') {
      assert Header[i] in Header;
    }
  }

  /** The printed header is the header's names separated by commas, with
      nothing before the first or after the last: splitting it at the
      commas gives the names back. */
  lemma PrintedHeader(summary: Summary, printSetting: string)
    requires Config.IsOn(printSetting)
    ensures var console := CsvPrinted(summary, printSetting);
      && |console| == 1 + |summary|
      && console[0].Printed?
      && Split(console[0].text, ',') == Header
  {
    HeaderNamesFree();
    SplitJoin(Header, ',');
  }

  /** With dumping and printing both off, neither path emits anything. */
  lemma SilentWhenOff(summary: Summary, printSetting: string, dumpSetting: string, filename: string)
    requires !Config.IsOn(printSetting) && !Config.IsOn(dumpSetting)
    ensures CsvEmitted(summary, printSetting, dumpSetting, filename) == Emitted([], None)
    ensures JsonEmitted(summary, printSetting, dumpSetting, filename) == Emitted([], None)
  {
  }

  /** With printing off and dumping on, the CSV path only writes. */
  lemma DumpOnly(summary: Summary, printSetting: string, dumpSetting: string, filename: string)
    requires !Config.IsOn(printSetting) && Config.IsOn(dumpSetting)
    ensures CsvEmitted(summary, printSetting, dumpSetting, filename)
      == Emitted([], Some(CsvFile(filename, [Header] + CsvRows(summary))))
  {
  }

  // ---------------------------------------------------------------------
  // The header and the rows do not line up

  /** The counter dict the runner reports for a host: its seven counters,
      in the header's order. */
  function RunnerCounters(ok: int, failures: int, unreachable: int, changed: int,
                          skipped: int, rescued: int, ignored: int): FieldDict {
    [("ok", Num(ok)), ("failures", Num(failures)), ("unreachable", Num(unreachable)),
     ("changed", Num(changed)), ("skipped", Num(skipped)), ("rescued", Num(rescued)),
     ("ignored", Num(ignored))]
  }

  /** The field names a clean host and a failed host end up with: none of
      them repeats, and none is `hostname`. */
  lemma FieldNamesDistinct()
    ensures Distinct(Header[1..10]) && "hostname" !in Header[1..10]
    ensures Distinct(Header[1..8] + ["fail_action", "fail_result", "fail_ip"])
    ensures "hostname" !in Header[1..8] + ["fail_action", "fail_result", "fail_ip"]
  {
    assert Header[1..10] == ["ok", "failures", "unreachable", "changed", "skipped", "rescued", "ignored", "fail_action", "fail_report"];
    assert Header[1..8] + ["fail_action", "fail_result", "fail_ip"]
        == ["ok", "failures", "unreachable", "changed", "skipped", "rescued", "ignored", "fail_action", "fail_result", "fail_ip"];
  }

  /** The counters' keys are the header's seven counter names, and their
      values are the counters, position by position. */
  lemma CounterValues(c: seq<int>)
    requires |c| == 7
    ensures var counters := RunnerCounters(c[0], c[1], c[2], c[3], c[4], c[5], c[6]);
      && Keys(counters) == Header[1..8]
      && |counters| == 7 && forall i :: 0 <= i < 7 ==> counters[i].1 == Num(c[i])
  {
    var counters := RunnerCounters(c[0], c[1], c[2], c[3], c[4], c[5], c[6]);
    KeysAre(counters, Header[1..8]);
  }

  /** The cells of a failure record: the task, the message, the address. */
  lemma RecordRow(r: RunnerResult)
    requires "msg" in r.data
    ensures Row(FailureRecord(r).value) == [r.taskName, Show(r.data["msg"]), Show(FailIp(r))]
  {
  }

  /** The cells of counters are their decimal strings. */
  lemma CounterCells(c: seq<int>, counters: FieldDict)
    requires |counters| == |c| && forall i :: 0 <= i < |c| ==> counters[i].1 == Num(c[i])
    ensures Row(counters) == Decimals(c)
  {
  }

  /** Names that are distinct together: none of the second list is in
      the first. */
  lemma DistinctApart(a: seq<string>, b: seq<string>)
    requires Distinct(a + b)
    ensures forall k :: k in b ==> k !in a
  {
    forall k | k in b ensures k !in a {
      var j :| 0 <= j < |b| && b[j] == k;
      forall i | 0 <= i < |a| ensures a[i] != k {
        assert (a + b)[i] == a[i] && (a + b)[|a| + j] == b[j];
      }
    }
  }

  /** A clean host's fields: the counters, then the two placeholders. */
  lemma CleanMerge(fr: FailReport, h: string, counters: FieldDict)
    requires h !in fr && Keys(counters) == Header[1..8]
    ensures MergeHost(fr, h, counters) == counters + Placeholders
    ensures Wf(counters + Placeholders) && "hostname" !in Keys(counters + Placeholders)
  {
    var names := Header[1..8] + Header[8..10];
    FieldNamesDistinct();
    assert names == Header[1..10];
    KeysAre(Placeholders, Header[8..10]);
    DistinctApart(Header[1..8], Header[8..10]);
    WfSplit(Header[1..8], Header[8..10]);
    UpdateDisjoint(counters, Placeholders);
    KeysAppend(counters, Placeholders);
  }

  /** A failed host's fields: the counters, then its record. */
  lemma FailedMerge(fr: FailReport, h: string, counters: FieldDict, r: RunnerResult)
    requires h in fr && FailureRecord(r) == Some(fr[h]) && Keys(counters) == Header[1..8]
    ensures MergeHost(fr, h, counters) == counters + fr[h]
    ensures Wf(counters + fr[h]) && "hostname" !in Keys(counters + fr[h])
  {
    var recordNames := ["fail_action", "fail_result", "fail_ip"];
    FieldNamesDistinct();
    DistinctApart(Header[1..8], recordNames);
    WfSplit(Header[1..8], recordNames);
    UpdateDisjoint(counters, fr[h]);
    KeysAppend(counters, fr[h]);
  }

  /** The second of two lists that are distinct together is distinct. */
  lemma WfSplit(a: seq<string>, b: seq<string>)
    requires Distinct(a + b)
    ensures Distinct(b)
  {
    forall i, j | 0 <= i < j < |b| ensures b[i] != b[j] {
      assert (a + b)[|a| + i] == b[i] && (a + b)[|a| + j] == b[j];
    }
  }


  /** The row of a host whose fields are its seven counters followed by
      `rest`: the name, the counters' cells, then the cells of `rest`. */
  lemma CountersRow(h: string, c: seq<int>, counters: FieldDict, rest: FieldDict)
    requires |counters| == |c| && forall i :: 0 <= i < |c| ==> counters[i].1 == Num(c[i])
    requires Wf(counters + rest) && "hostname" !in Keys(counters + rest)
    ensures Row(HostLine(h, counters + rest)) == [h] + Decimals(c) + Row(rest)
  {
    RowLayout(h, counters + rest);
    RowAppend(counters, rest);
    CounterCells(c, counters);
  }

  /** A host without a failure record: its row is one cell shorter than
      the header. After the name and the seven counters come the two empty
      placeholders, under `fail_action` and `fail_report`; nothing stands
      under `fail_ip`. */
  lemma CleanHostRow(fr: FailReport, h: string, c: seq<int>)
    requires h !in fr && |c| == 7
    ensures var counters := RunnerCounters(c[0], c[1], c[2], c[3], c[4], c[5], c[6]);
      var row := Row(HostLine(h, MergeHost(fr, h, counters)));
      && |row| == |Header| - 1
      && row == [h] + Decimals(c) + ["", ""]
  {
    var counters := RunnerCounters(c[0], c[1], c[2], c[3], c[4], c[5], c[6]);
    CounterValues(c);
    CleanMerge(fr, h, counters);
    CounterValues(c);
    CountersRow(h, c, counters, Placeholders);
    assert Row(Placeholders) == ["", ""];
  }

  /** A host with a failure record: its row is as long as the header, but
      the record's keys are `fail_action`, `fail_result` and `fail_ip`, so
      the cell under the header's `fail_report` holds the failure message. */
  lemma FailedHostRow(fr: FailReport, h: string, c: seq<int>, r: RunnerResult)
    requires h in fr && FailureRecord(r) == Some(fr[h]) && |c| == 7
    ensures var counters := RunnerCounters(c[0], c[1], c[2], c[3], c[4], c[5], c[6]);
      var row := Row(HostLine(h, MergeHost(fr, h, counters)));
      && |row| == |Header|
      && Header[9] == "fail_report"
      && row == [h] + Decimals(c) + [r.taskName, Show(r.data["msg"]), Show(FailIp(r))]
  {
    var counters := RunnerCounters(c[0], c[1], c[2], c[3], c[4], c[5], c[6]);
    CounterValues(c);
    FailedMerge(fr, h, counters, r);
    CountersRow(h, c, counters, fr[h]);
    RecordRow(r);
  }
}
