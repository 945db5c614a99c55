/** How the callback reads its four settings from the environment: a
    default when the variable is unset, then `lower()`; a setting is on
    only when it then reads exactly "true", and the CSV path is taken only
    when the format reads exactly "csv". */
module Config {

  import opened Wrappers
  import opened Strings

  /** The values of CALLBACK_REPORT_FORMAT, CALLBACK_REPORT_FILENAME,
      CALLBACK_REPORT_DUMP and CALLBACK_REPORT_PRINT; None when unset. */
  datatype Env = Env(format: Option<string>, filename: Option<string>,
                     dump: Option<string>, printing: Option<string>)

  function Format(env: Env): string {
    Lower(GetOr(env.format, "csv"))
  }

  /** The file name is not lowered, but its default is built from the
      lowered format. */
  function Filename(env: Env): string {
    GetOr(env.filename, "result." + Format(env))
  }

  function DumpSetting(env: Env): string {
    Lower(GetOr(env.dump, "True"))
  }

  function PrintSetting(env: Env): string {
    Lower(GetOr(env.printing, "False"))
  }

  predicate IsOn(setting: string) {
    setting == "true"
  }

  predicate SelectsCsv(format: string) {
    format == "csv"
  }

  /** Spelled "true" in any mix of upper and lower case. */
  predicate SpellsTrue(s: string) {
    |s| == 4 && s[0] in "tT" && s[1] in "rR" && s[2] in "uU" && s[3] in "eE"
  }

  /** Spelled "csv" in any mix of upper and lower case. */
  predicate SpellsCsv(s: string) {
    |s| == 3 && s[0] in "cC" && s[1] in "sS" && s[2] in "vV"
  }

  /** A lowered value reads "true" exactly when the value spells it. */
  lemma LowerIsTrue(s: string)
    ensures IsOn(Lower(s)) <==> SpellsTrue(s)
  {
    var l := Lower(s);
    if |s| == 4 {
      LowerCharIs(s[0], 't');
      LowerCharIs(s[1], 'r');
      LowerCharIs(s[2], 'u');
      LowerCharIs(s[3], 'e');
      if SpellsTrue(s) {
        assert l == [l[0], l[1], l[2], l[3]];
      }
    }
  }

  lemma LowerIsCsv(s: string)
    ensures SelectsCsv(Lower(s)) <==> SpellsCsv(s)
  {
    var l := Lower(s);
    if |s| == 3 {
      LowerCharIs(s[0], 'c');
      LowerCharIs(s[1], 's');
      LowerCharIs(s[2], 'v');
      if SpellsCsv(s) {
        assert l == [l[0], l[1], l[2]];
      }
    }
  }

  /** With nothing set: CSV into result.csv, dump on, print off. */
  lemma Defaults(env: Env)
    requires env == Env(None, None, None, None)
    ensures SelectsCsv(Format(env)) && Filename(env) == "result.csv"
    ensures IsOn(DumpSetting(env)) && !IsOn(PrintSetting(env))
  {
    assert Lower("csv") == "csv";
    assert Lower("True") == "true";
    assert Lower("False")[0] == 'f';
  }

  /** Dump is on unless the variable is set to something other than a
      spelling of "true". */
  lemma DumpOn(env: Env)
    ensures IsOn(DumpSetting(env)) <==> env.dump.None? || SpellsTrue(env.dump.value)
  {
    LowerIsTrue(GetOr(env.dump, "True"));
  }

  /** Print is on only when the variable is set to a spelling of "true". */
  lemma PrintOn(env: Env)
    ensures IsOn(PrintSetting(env)) <==> env.printing.Some? && SpellsTrue(env.printing.value)
  {
    LowerIsTrue(GetOr(env.printing, "False"));
  }

  /** The CSV path is taken when the format is unset or spells "csv";
      every other value takes the JSON path. */
  lemma CsvSelected(env: Env)
    ensures SelectsCsv(Format(env)) <==> env.format.None? || SpellsCsv(env.format.value)
  {
    LowerIsCsv(GetOr(env.format, "csv"));
  }
}
