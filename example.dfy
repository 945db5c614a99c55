/** A run over two hosts, one clean and one with a failed task, followed
    from the failure event to the rows of the CSV file. */
module Example {

  import opened Wrappers
  import opened OrderedDict
  import opened FieldValues
  import opened Report
  import HostOrder

  /** The failure event for h2: its task reported "timeout"; the host has
      an `ansible_host` variable besides its address. */
  const Failed := RunnerResult("h2", map["msg" := Text("timeout")], "install pkg",
                               map["ansible_host" := Text("10.0.0.2")], "192.168.0.2")

  /** The runner's counters: h1 ran one task, h2 failed one. */
  function Counters(h: string): FieldDict {
    if h == "h2" then RunnerCounters(0, 1, 0, 0, 0, 0, 0) else RunnerCounters(1, 0, 0, 0, 0, 0, 0)
  }

  /** The record that event writes. */
  const Record: FieldDict := [("fail_action", Text("install pkg")), ("fail_result", Text("timeout")),
                               ("fail_ip", Text("10.0.0.2"))]

  /** The failure event leaves one record, keyed by h2, with the task
      name, the message and the `ansible_host` address. */
  lemma Recorded()
    ensures AfterFailure(map[], Failed) == map["h2" := Record]
    ensures FailureRecord(Failed) == Some(Record)
  {
  }

  /** `sorted` puts h1 before h2. */
  lemma SortedHosts()
    ensures HostOrder.Sort(["h2", "h1"]) == ["h1", "h2"]
  {
    assert HostOrder.Sort(["h1"]) == ["h1"];
    assert !HostOrder.Below("h2", "h1");
  }

  /** The counters, as cells. */
  lemma Digits()
    ensures Decimals([1, 0, 0, 0, 0, 0, 0]) == ["1", "0", "0", "0", "0", "0", "0"]
    ensures Decimals([0, 1, 0, 0, 0, 0, 0]) == ["0", "1", "0", "0", "0", "0", "0"]
  {
    assert IntToDecimal(0) == "0" && IntToDecimal(1) == "1";
  }

  /** The summary lists h1 then h2, each with its merged fields. */
  lemma TwoEntries(fr: FailReport, hosts: seq<string>, summary: Summary)
    requires hosts == ["h1", "h2"] && summary == SummaryOf(hosts, fr, Counters)
    ensures |summary| == 2
    ensures forall i :: 0 <= i < 2 ==> summary[i] == (hosts[i], MergeHost(fr, hosts[i], Counters(hosts[i])))
  {
    SummaryLayout(hosts, fr, Counters);
  }

  /** h1 has no record: its row ends with the two empty placeholders. */
  lemma CleanRow(fr: FailReport, h: string, counters: FieldDict, c: seq<int>)
    requires fr == map["h2" := Record] && h == "h1" && c == [1, 0, 0, 0, 0, 0, 0]
    requires counters == RunnerCounters(c[0], c[1], c[2], c[3], c[4], c[5], c[6])
    ensures Row(HostLine(h, MergeHost(fr, h, counters))) == [h] + ["1", "0", "0", "0", "0", "0", "0"] + ["", ""]
  {
    CleanHostRow(fr, h, c);
    Digits();
  }

  /** h2 has a record: its row ends with the task, the message and the
      address. */
  lemma FailedRow(fr: FailReport, h: string, counters: FieldDict, c: seq<int>)
    requires fr == map["h2" := Record] && h == "h2" && c == [0, 1, 0, 0, 0, 0, 0]
    requires counters == RunnerCounters(c[0], c[1], c[2], c[3], c[4], c[5], c[6])
    ensures Row(HostLine(h, MergeHost(fr, h, counters)))
      == [h] + ["0", "1", "0", "0", "0", "0", "0"] + ["install pkg", "timeout", "10.0.0.2"]
  {
    Recorded();
    FailedHostRow(fr, h, c, Failed);
    Digits();
  }

  /** Two summary entries give two rows, in the same order. */
  lemma TwoRows(summary: Summary)
    requires |summary| == 2
    ensures CsvRows(summary) == [Row(HostLine(summary[0].0, summary[0].1)), Row(HostLine(summary[1].0, summary[1].1))]
  {
  }

  /** The expected rows, written out. */
  lemma Cells()
    ensures ["h1"] + ["1", "0", "0", "0", "0", "0", "0"] + ["", ""]
         == ["h1", "1", "0", "0", "0", "0", "0", "0", "", ""]
    ensures ["h2"] + ["0", "1", "0", "0", "0", "0", "0"] + ["install pkg", "timeout", "10.0.0.2"]
         == ["h2", "0", "1", "0", "0", "0", "0", "0", "install pkg", "timeout", "10.0.0.2"]
  {
  }

  /** The two rows the CSV file holds under its header. */
  lemma Emits(fr: FailReport, hosts: seq<string>, summary: Summary)
    requires fr == map["h2" := Record] && hosts == ["h1", "h2"] && summary == SummaryOf(hosts, fr, Counters)
    ensures CsvRows(summary) == [
             ["h1", "1", "0", "0", "0", "0", "0", "0", "", ""],
             ["h2", "0", "1", "0", "0", "0", "0", "0", "install pkg", "timeout", "10.0.0.2"]]
  {
    TwoEntries(fr, hosts, summary);
    TwoRows(summary);
    var h1, h2 := hosts[0], hosts[1];
    CleanRow(fr, h1, Counters(h1), [1, 0, 0, 0, 0, 0, 0]);
    FailedRow(fr, h2, Counters(h2), [0, 1, 0, 0, 0, 0, 0]);
    var rows := CsvRows(summary);
    assert rows[0] == [h1] + ["1", "0", "0", "0", "0", "0", "0"] + ["", ""];
    assert rows[1] == [h2] + ["0", "1", "0", "0", "0", "0", "0"] + ["install pkg", "timeout", "10.0.0.2"];
    assert rows == [rows[0], rows[1]];
    Cells();
  }

  /** Hosts reported in the order h2, h1 come out sorted; h1 gets the
      placeholders and a ten-cell row, h2 its failure record and an
      eleven-cell row whose message sits under `fail_report`. */
  lemma TwoHosts()
    ensures var fr := AfterFailure(map[], Failed);
      var summary := SummaryOf(HostOrder.Sort(["h2", "h1"]), fr, Counters);
      CsvEmitted(summary, "false", "true", "result.csv")
        == Emitted([], Some(CsvFile("result.csv", [Header] + [
             ["h1", "1", "0", "0", "0", "0", "0", "0", "", ""],
             ["h2", "0", "1", "0", "0", "0", "0", "0", "install pkg", "timeout", "10.0.0.2"]])))
  {
    Recorded();
    SortedHosts();
    var fr := AfterFailure(map[], Failed);
    var hosts := HostOrder.Sort(["h2", "h1"]);
    var summary := SummaryOf(hosts, fr, Counters);
    Emits(fr, hosts, summary);
    DumpOnly(summary, "false", "true", "result.csv");
    assert CsvEmitted(summary, "false", "true", "result.csv") == Emitted([], Some(CsvFile("result.csv", [Header] + CsvRows(summary))));
  }
}
