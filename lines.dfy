/**
  createDrawLines: one output line per row, its fields joined by the output
  delimiter, a tab when none is given.
*/
module Lines {
  import opened GoStrings
  import opened Sheet

  /** The separator createDrawLines puts between fields. */
  function OutputDelimiter(delimiter: string): (d: string)
    ensures d != []
    ensures delimiter != [] ==> d == delimiter
    ensures delimiter == [] ==> d == "\t"
  {
    if delimiter == "" then "\t" else delimiter
  }

  /** The line of every row, in row order. */
  function DrawLines(t: Table, delimiter: string): (lines: seq<string>)
    ensures |lines| == |t|
  {
    seq(|t|, i requires 0 <= i < |t| => Join(t[i], OutputDelimiter(delimiter)))
  }

  /** createDrawLines: fills a new slice with the joined fields of each row. */
  method CreateDrawLines(sheet: seq<array<string>>, delimiter: string) returns (lines: seq<string>)
    ensures lines == DrawLines(Cells(sheet), delimiter)
  {
    var d := delimiter;
    if d == "" {
      d := "\t";
    }
    var res := new string[|sheet|];
    for i := 0 to |sheet|
      invariant forall k :: 0 <= k < i ==> res[k] == Join(sheet[k][..], d)
    {
      res[i] := Join(sheet[i][..], d);
    }
    lines := res[..];
  }

  /**
    The lines can be cut back into the table: when the separator is one
    character that no field contains, splitting line `i` at it gives row `i`
    again, so nothing is added before, between or after the fields.
  */
  lemma DrawLinesSplitBack(t: Table, delimiter: string, c: char, i: nat)
    requires OutputDelimiter(delimiter) == [c]
    requires i < |t| && |t[i]| >= 1
    requires forall j :: 0 <= j < |t[i]| ==> c !in t[i][j]
    ensures Split(DrawLines(t, delimiter)[i], [c]) == t[i]
  {
    SplitJoin(t[i], c);
  }
}
