/**
  The aligner's table: Go's `[][]string`. The outer slice is a value that the
  stages pass along; each row is a slice whose backing array the padding and
  truncation stages overwrite in place, so a row is an `array<string>` here.
*/
module Sheet {

  /** The contents of a table: rows of fields. */
  type Table = seq<seq<string>>

  /** What a table of row arrays holds right now. */
  function Cells(sheet: seq<array<string>>): (t: Table)
    reads sheet
    ensures |t| == |sheet|
    ensures forall i :: 0 <= i < |sheet| ==> t[i] == sheet[i][..]
  {
    seq(|sheet|, i requires 0 <= i < |sheet| reads sheet => sheet[i][..])
  }

  /** No two rows share a backing array, so writing one row leaves the others alone. */
  predicate DistinctRows(sheet: seq<array<string>>) {
    forall i, j :: 0 <= i < j < |sheet| ==> sheet[i] != sheet[j]
  }

  /** The length of the longest row, 0 for a table without rows. */
  function ColumnCount(t: Table): (n: nat)
    ensures t == [] ==> n == 0
  {
    if t == [] then 0
    else
      var m := ColumnCount(t[..|t| - 1]);
      var last := |t[|t| - 1]|;
      if m < last then last else m
  }

  /** No row is longer than the column count, and some row is exactly that long. */
  lemma {:induction false} ColumnCountIsLongest(t: Table)
    ensures forall i :: 0 <= i < |t| ==> |t[i]| <= ColumnCount(t)
    ensures t != [] ==> exists i :: 0 <= i < |t| && |t[i]| == ColumnCount(t)
  {
    if t != [] {
      var init := t[..|t| - 1];
      ColumnCountIsLongest(init);
      assert forall i :: 0 <= i < |init| ==> init[i] == t[i];
      if ColumnCount(init) < |t[|t| - 1]| || init == [] {
        assert |t[|t| - 1]| == ColumnCount(t);
      } else {
        var i :| 0 <= i < |init| && |init[i]| == ColumnCount(init);
        assert |t[i]| == ColumnCount(t);
      }
    }
  }
}
