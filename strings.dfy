/** String operations the callback relies on: `str.lower()` for its
    settings, and joining cells with a separator for the lines it prints. */
module Strings {

  /** `c.lower()` on the ASCII range; every other character is kept. */
  function LowerChar(c: char): char {
    if 'A' <= c <= 'Z' then (c as int + 32) as char else c
  }

  /** A character lowers to a given lower-case letter exactly when it is
      that letter or its upper-case form. */
  lemma LowerCharIs(c: char, l: char)
    requires 'a' <= l <= 'z'
    ensures LowerChar(c) == l <==> c == l || c as int == l as int - 32
  {
  }

  /** `s.lower()`: the same length, each character lowered in place. */
  function Lower(s: string): (r: string)
    ensures |r| == |s|
    ensures forall i :: 0 <= i < |s| ==> r[i] == LowerChar(s[i])
  {
    if s == [] then [] else [LowerChar(s[0])] + Lower(s[1..])
  }

  /** `sep.join(cells)`: the cells with one separator between neighbours,
      none before the first and none after the last. */
  function Join(cells: seq<string>, sep: char): string {
    if |cells| == 0 then ""
    else if |cells| == 1 then cells[0]
    else cells[0] + [sep] + Join(cells[1..], sep)
  }

  /** Cutting a string at every separator (`s.split(sep)`). */
  function Split(s: string, sep: char): (parts: seq<string>)
    ensures |parts| >= 1
  {
    if |s| == 0 then [""]
    else if s[0] == sep then [""] + Split(s[1..], sep)
    else
      var rest := Split(s[1..], sep);
      [[s[0]] + rest[0]] + rest[1..]
  }

  predicate Free(cell: string, sep: char) {
    sep !in cell
  }

  /** Appending one more cell to a non-empty join puts a separator and the
      cell at the end. */
  lemma {:induction false} JoinSnoc(cells: seq<string>, cell: string, sep: char)
    requires |cells| >= 1
    ensures Join(cells + [cell], sep) == Join(cells, sep) + [sep] + cell
  {
    if |cells| > 1 {
      assert (cells + [cell])[1..] == cells[1..] + [cell];
      JoinSnoc(cells[1..], cell, sep);
    }
  }

  /** A string without separators is one part. */
  lemma {:induction false} SplitFree(s: string, sep: char)
    requires Free(s, sep)
    ensures Split(s, sep) == [s]
  {
    if |s| > 0 {
      SplitFree(s[1..], sep);
      assert [s[0]] + s[1..] == s;
    }
  }

  /** A cell without separators, followed by a separator, splits off
      as the first part. */
  lemma {:induction false} SplitPrefix(cell: string, sep: char, tail: string)
    requires Free(cell, sep)
    ensures Split(cell + [sep] + tail, sep) == [cell] + Split(tail, sep)
  {
    var s := cell + [sep] + tail;
    if |cell| == 0 {
      assert s == [sep] + tail;
    } else {
      assert s[1..] == cell[1..] + [sep] + tail;
      SplitPrefix(cell[1..], sep, tail);
      assert [cell[0]] + cell[1..] == cell;
    }
  }

  /** Splitting a join gives the cells back when no cell contains the
      separator: the printed line determines its cells. */
  lemma {:induction false} SplitJoin(cells: seq<string>, sep: char)
    requires |cells| >= 1
    requires forall i :: 0 <= i < |cells| ==> Free(cells[i], sep)
    ensures Split(Join(cells, sep), sep) == cells
  {
    if |cells| == 1 {
      SplitFree(cells[0], sep);
    } else {
      SplitPrefix(cells[0], sep, Join(cells[1..], sep));
      SplitJoin(cells[1..], sep);
      assert [cells[0]] + cells[1..] == cells;
    }
  }
}
