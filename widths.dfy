/**
  countColumn: the display width of every column, the width of its widest
  field over all rows.
*/
module Widths {
  import opened Sheet
  import opened RuneWidth

  /**
    The width of column `j`: the widest field at index `j` over the rows of
    `t`, or 0 when no row reaches that column. Rows are taken in order, a
    wider field replacing the running maximum.
  */
  function ColumnWidth(t: Table, j: nat): (w: nat)
  {
    if t == [] then 0
    else
      var m := ColumnWidth(t[..|t| - 1], j);
      var row := t[|t| - 1];
      if j < |row| && m < StringWidth(row[j]) then StringWidth(row[j]) else m
  }

  /** The widths of columns `0 .. size - 1`. */
  function ColumnWidths(t: Table, size: nat): (counts: seq<int>)
    ensures |counts| == size
  {
    seq(size, j requires 0 <= j => ColumnWidth(t, j))
  }

  /**
    The column width is the maximum: no field of the column is wider, and
    unless it is 0 some field of the column is exactly that wide.
  */
  lemma {:induction false} ColumnWidthIsWidest(t: Table, j: nat)
    ensures forall i :: 0 <= i < |t| && j < |t[i]| ==> StringWidth(t[i][j]) <= ColumnWidth(t, j)
    ensures ColumnWidth(t, j) == 0 || exists i :: 0 <= i < |t| && j < |t[i]| && StringWidth(t[i][j]) == ColumnWidth(t, j)
  {
    if t != [] {
      var init := t[..|t| - 1];
      ColumnWidthIsWidest(init, j);
      assert forall i :: 0 <= i < |init| ==> init[i] == t[i];
      var row := t[|t| - 1];
      if !(j < |row| && ColumnWidth(init, j) < StringWidth(row[j])) && ColumnWidth(init, j) != 0 {
        var i :| 0 <= i < |init| && j < |init[i]| && StringWidth(init[i][j]) == ColumnWidth(init, j);
        assert t[i] == init[i];
      }
    }
  }

  /** Adding one row to the rows already counted: the loop step of countColumn. */
  lemma ColumnWidthStep(t: Table, r: nat, j: nat)
    requires r < |t|
    ensures ColumnWidth(t[..r + 1], j) ==
      if j < |t[r]| && ColumnWidth(t[..r], j) < StringWidth(t[r][j]) then StringWidth(t[r][j]) else ColumnWidth(t[..r], j)
  {
    assert t[..r + 1][..r] == t[..r];
  }

  /** The width of a column does not depend on the order of the rows. */
  lemma ColumnWidthPermutation(a: Table, b: Table, j: nat)
    requires multiset(a) == multiset(b)
    ensures ColumnWidth(a, j) == ColumnWidth(b, j)
  {
    ColumnWidthAtMost(a, b, j);
    ColumnWidthAtMost(b, a, j);
  }

  lemma ColumnWidthAtMost(a: Table, b: Table, j: nat)
    requires multiset(a) == multiset(b)
    ensures ColumnWidth(a, j) <= ColumnWidth(b, j)
  {
    ColumnWidthIsWidest(a, j);
    ColumnWidthIsWidest(b, j);
    if ColumnWidth(a, j) != 0 {
      var i :| 0 <= i < |a| && j < |a[i]| && StringWidth(a[i][j]) == ColumnWidth(a, j);
      assert a[i] in multiset(b);
      var k :| 0 <= k < |b| && b[k] == a[i];
    }
  }

  /** A column that no row reaches has width 0. */
  lemma {:induction false} ColumnWidthBeyondRows(t: Table, j: nat)
    requires forall i :: 0 <= i < |t| ==> |t[i]| <= j
    ensures ColumnWidth(t, j) == 0
  {
    if t != [] {
      ColumnWidthBeyondRows(t[..|t| - 1], j);
    }
  }

  /**
    countColumn: a new array of `columnSize` widths, filled by one pass over
    the rows and, inside it, over the fields of each row. Every row must fit
    in `columnSize` columns, as toSheetString's column count guarantees;
    otherwise the Go code indexes past the end of its slice.
  */
  method CountColumn(sheet: seq<array<string>>, columnSize: nat) returns (counts: array<int>)
    requires forall i :: 0 <= i < |sheet| ==> sheet[i].Length <= columnSize
    ensures fresh(counts)
    ensures counts[..] == ColumnWidths(Cells(sheet), columnSize)
  {
    ghost var t := Cells(sheet);
    counts := new int[columnSize](_ => 0);
    assert counts[..] == ColumnWidths(t[..0], columnSize);
    for r := 0 to |sheet|
      invariant counts[..] == ColumnWidths(t[..r], columnSize)
    {
      var words := sheet[r];
      assert words[..] == t[r];
      for i := 0 to words.Length
        invariant counts[..] == ColumnWidths(t[..r + 1], i) + ColumnWidths(t[..r], columnSize)[i..]
      {
        CountStep(t, r, i, columnSize);
        var runeLen := StringWidth(words[i]);
        if counts[i] < runeLen {
          counts[i] := runeLen;
        }
      }
      CountRowDone(t, r, columnSize);
    }
    assert t[..|sheet|] == t;
  }

  /** One field of countColumn's inner loop: column `i` takes the width of row `r` into account. */
  lemma CountStep(t: Table, r: nat, i: nat, size: nat)
    requires r < |t| && i < |t[r]| <= size
    ensures var before := ColumnWidths(t[..r + 1], i) + ColumnWidths(t[..r], size)[i..];
      var w := StringWidth(t[r][i]);
      ColumnWidths(t[..r + 1], i + 1) + ColumnWidths(t[..r], size)[i + 1..] ==
        before[i := if before[i] < w then w else before[i]]
  {
    ColumnWidthStep(t, r, i);
  }

  /** After the fields of row `r`, the columns it does not reach keep their width. */
  lemma CountRowDone(t: Table, r: nat, size: nat)
    requires r < |t| && |t[r]| <= size
    ensures ColumnWidths(t[..r + 1], |t[r]|) + ColumnWidths(t[..r], size)[|t[r]|..] == ColumnWidths(t[..r + 1], size)
  {
    forall j | |t[r]| <= j < size
      ensures ColumnWidth(t[..r + 1], j) == ColumnWidth(t[..r], j)
    {
      ColumnWidthStep(t, r, j);
    }
  }
}
