/**
  paddingSheet and padRight: every field padded on the right with spaces up
  to the display width of its column, written back into the row it came from.
*/
module Padding {
  import opened Sheet
  import opened RuneWidth
  import opened Widths

  /**
    padRight: the field followed by the blank that `%-*s` prints for an
    empty argument at width `length - StringWidth(s)`. Go's fmt reads a
    negative width as left-justification at its absolute value, so a field
    wider than `length` still gains `StringWidth(s) - length` spaces.
  */
  function PadRight(s: string, length: int): (r: string)
    ensures |s| <= |r| && r[..|s|] == s
    ensures forall k :: |s| <= k < |r| ==> r[k] == ' '
  {
    var gap := length - StringWidth(s);
    s + Spaces(if gap < 0 then -gap else gap)
  }

  /** A field no wider than `length` is kept as it is and filled to exactly `length` columns. */
  lemma PadRightFills(s: string, length: int)
    requires StringWidth(s) <= length
    ensures |s| <= |PadRight(s, length)| && PadRight(s, length)[..|s|] == s
    ensures forall k :: |s| <= k < |PadRight(s, length)| ==> PadRight(s, length)[k] == ' '
    ensures StringWidth(PadRight(s, length)) == length
  {
    var gap := length - StringWidth(s);
    var p := PadRight(s, length);
    assert p == s + Spaces(gap);
    assert StringWidth(p) == length by {
      StringWidthConcat(s, Spaces(gap));
      StringWidthSpaces(gap);
    }
    assert p[..|s|] == s;
  }

  /** A field wider than `length` ends up wider still, by the overshoot. */
  lemma PadRightOverlong(s: string, length: int)
    requires length < StringWidth(s)
    ensures StringWidth(PadRight(s, length)) == 2 * StringWidth(s) - length
  {
    var gap := StringWidth(s) - length;
    assert PadRight(s, length) == s + Spaces(gap);
    StringWidthConcat(s, Spaces(gap));
    StringWidthSpaces(gap);
  }

  /** The fields of one row, each padded to the width of its column. */
  function PadRow(row: seq<string>, counts: seq<int>): (r: seq<string>)
    requires |row| <= |counts|
    ensures |r| == |row|
  {
    seq(|row|, j requires 0 <= j < |row| => PadRight(row[j], counts[j]))
  }

  /** The padded table: the same rows, each padded field by field. */
  function PadTable(t: Table, counts: seq<int>): (p: Table)
    requires forall i :: 0 <= i < |t| ==> |t[i]| <= |counts|
    ensures |p| == |t|
  {
    seq(|t|, i requires 0 <= i < |t| => PadRow(t[i], counts))
  }

  /**
    Padding to the column widths aligns the table: every field keeps its
    text, is followed by spaces only, and occupies exactly the width of its
    column, so the fields of a column line up.
  */
  lemma PadTableAligns(t: Table, size: nat, i: nat, j: nat)
    requires forall r :: 0 <= r < |t| ==> |t[r]| <= size
    requires i < |t| && j < |t[i]|
    ensures var f := PadTable(t, ColumnWidths(t, size))[i][j];
      |t[i][j]| <= |f| && f[..|t[i][j]|] == t[i][j] &&
      (forall k :: |t[i][j]| <= k < |f| ==> f[k] == ' ') &&
      StringWidth(f) == ColumnWidths(t, size)[j]
  {
    ColumnWidthIsWidest(t, j);
    PadRightFills(t[i][j], ColumnWidth(t, j));
  }

  /**
    paddingSheet: overwrites every field of every row, in place, with the
    field padded to its column's width, and hands back the same rows.
  */
  method PaddingSheet(sheet: seq<array<string>>, counts: seq<int>) returns (padded: seq<array<string>>)
    requires DistinctRows(sheet)
    requires forall i :: 0 <= i < |sheet| ==> sheet[i].Length <= |counts|
    modifies set i | 0 <= i < |sheet| :: sheet[i]
    ensures padded == sheet
    ensures Cells(sheet) == PadTable(old(Cells(sheet)), counts)
  {
    for i := 0 to |sheet|
      invariant forall r :: 0 <= r < |sheet| ==> sheet[r][..] == if r < i then PadRow(old(sheet[r][..]), counts) else old(sheet[r][..])
    {
      PadWords(sheet[i], counts);
    }
    padded := sheet;
  }

  /** The inner loop of paddingSheet: the fields of one row padded in place. */
  method PadWords(words: array<string>, counts: seq<int>)
    requires words.Length <= |counts|
    modifies words
    ensures words[..] == PadRow(old(words[..]), counts)
  {
    ghost var row := words[..];
    for j := 0 to words.Length
      invariant words[..] == PadRow(row[..j], counts) + row[j..]
    {
      PadStep(row, counts, j);
      words[j] := PadRight(words[j], counts[j]);
    }
    assert row[..words.Length] == row;
  }

  lemma PadStep(row: seq<string>, counts: seq<int>, j: nat)
    requires j < |row| <= |counts|
    ensures (PadRow(row[..j], counts) + row[j..])[j := PadRight(row[j], counts[j])] ==
      PadRow(row[..j + 1], counts) + row[j + 1..]
  {
  }
}
