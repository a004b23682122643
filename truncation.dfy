/**
  trancateLimitedLength and cutLeft: the first fields of every row cut, in
  place, to the display-width limits given for their columns.
*/
module Truncation {
  import opened Sheet
  import opened RuneWidth

  /** cutLeft: the longest prefix of `s` that fits in `length` columns (runewidth.Truncate, no tail). */
  function CutLeft(s: string, length: int): (r: string)
    ensures |r| <= |s| && r == s[..|r|]
  {
    Truncate(s, length)
  }

  /** One row with each field that has a limit cut to it; fields past the limits are kept. */
  function CutRow(row: seq<string>, limits: seq<int>): (r: seq<string>)
    ensures |r| == |row|
  {
    seq(|row|, j requires 0 <= j < |row| => if j < |limits| then CutLeft(row[j], limits[j]) else row[j])
  }

  /** Every row of the table cut to the limits. */
  function CutTable(t: Table, limits: seq<int>): (c: Table)
    ensures |c| == |t|
  {
    seq(|t|, i requires 0 <= i < |t| => CutRow(t[i], limits))
  }

  /**
    What truncation does to one field: a field with a limit becomes a prefix
    of itself that fits the limit (or stays whole when it already fits);
    a field without a limit is left alone.
  */
  lemma CutRowField(row: seq<string>, limits: seq<int>, j: nat)
    requires j < |row|
    ensures var f := CutRow(row, limits)[j];
      if j < |limits| then
        |f| <= |row[j]| && f == row[j][..|f|] &&
        (StringWidth(row[j]) <= limits[j] ==> f == row[j]) &&
        (limits[j] >= 0 ==> StringWidth(f) <= limits[j]) &&
        (|f| < |row[j]| ==> StringWidth(row[j][..|f| + 1]) > limits[j])
      else f == row[j]
  {
    if j < |limits| {
      TruncateFits(row[j], limits[j]);
    }
  }

  /** Cutting a row twice to the same limits cuts nothing more. */
  lemma CutRowIdempotent(row: seq<string>, limits: seq<int>)
    ensures CutRow(CutRow(row, limits), limits) == CutRow(row, limits)
  {
    forall j | 0 <= j < |row| && j < |limits|
      ensures CutLeft(CutLeft(row[j], limits[j]), limits[j]) == CutLeft(row[j], limits[j])
    {
      TruncateIdempotent(row[j], limits[j]);
    }
  }

  /** trancateLimitedLength is idempotent: a second pass with the same limits changes nothing. */
  lemma CutTableIdempotent(t: Table, limits: seq<int>)
    ensures CutTable(CutTable(t, limits), limits) == CutTable(t, limits)
  {
    forall i | 0 <= i < |t|
      ensures CutRow(CutRow(t[i], limits), limits) == CutRow(t[i], limits)
    {
      CutRowIdempotent(t[i], limits);
    }
  }

  /**
    trancateLimitedLength as written: for every row, every limit's field is
    cut in place. The Go code indexes `words[i]` for every limit with no
    bounds check, so every row must have at least as many fields as there
    are limits; a shorter row makes it panic.
  */
  method TrancateLimitedLength(sheet: seq<array<string>>, limits: seq<int>) returns (cut: seq<array<string>>)
    requires DistinctRows(sheet)
    requires forall i :: 0 <= i < |sheet| ==> |limits| <= sheet[i].Length
    modifies set i | 0 <= i < |sheet| :: sheet[i]
    ensures cut == sheet
    ensures Cells(sheet) == CutTable(old(Cells(sheet)), limits)
  {
    for r := 0 to |sheet|
      invariant forall k :: 0 <= k < |sheet| ==> sheet[k][..] == if k < r then CutRow(old(sheet[k][..]), limits) else old(sheet[k][..])
    {
      CutWords(sheet[r], limits, |limits|);
    }
    cut := sheet;
  }

  /**
    trancateLimitedLength with the bounds check it lacks: a row shorter than
    the limit list has only the fields it has cut, so any table is accepted.
  */
  method TrancateLimitedLengthBounded(sheet: seq<array<string>>, limits: seq<int>) returns (cut: seq<array<string>>)
    requires DistinctRows(sheet)
    modifies set i | 0 <= i < |sheet| :: sheet[i]
    ensures cut == sheet
    ensures Cells(sheet) == CutTable(old(Cells(sheet)), limits)
  {
    for r := 0 to |sheet|
      invariant forall k :: 0 <= k < |sheet| ==> sheet[k][..] == if k < r then CutRow(old(sheet[k][..]), limits) else old(sheet[k][..])
    {
      var words := sheet[r];
      CutWords(words, limits, if |limits| < words.Length then |limits| else words.Length);
    }
    cut := sheet;
  }

  /** The inner loop of trancateLimitedLength: the first `n` fields of one row cut in place. */
  method CutWords(words: array<string>, limits: seq<int>, n: nat)
    requires n <= |limits| && n <= words.Length
    requires n == |limits| || n == words.Length
    modifies words
    ensures words[..] == CutRow(old(words[..]), limits)
  {
    for i := 0 to n
      invariant forall k :: 0 <= k < words.Length ==>
        words[k] == if k < i then CutLeft(old(words[k]), limits[k]) else old(words[k])
    {
      words[i] := CutLeft(words[i], limits[i]);
    }
  }

  /**
    Cuts from the table of the truncation case in main_test.go: a two-column budget keeps "あ" of
    "あい" and a budget of four keeps "あい" of "あいう", each time stopping
    before the wide character that would overflow.
  */
  lemma CutWideExample()
    ensures CutLeft("あい", 2) == "あ"
    ensures CutLeft("あいう", 4) == "あい"
  {
    var s := "あいう";
    assert s[..1] == "あ" && s[..2] == "あい" && s[..3] == s;
    assert StringWidth("あ") == 2 && StringWidth("あい") == 4 && StringWidth(s) == 6;
    assert FitFrom(s, 4, 2) == 2;
    assert FitFrom(s, 4, 0) == 2;
    var t := "あい";
    assert t[..1] == "あ" && t[..2] == t;
    assert FitFrom(t, 2, 0) == 1;
  }

  /** A two-column budget keeps the first two columns of the padded "f   ". */
  lemma CutNarrowExample()
    ensures CutLeft("f   ", 2) == "f "
  {
    var u := "f   ";
    StringWidthAscii(u);
    StringWidthAscii(u[..1]);
    StringWidthAscii(u[..2]);
    StringWidthAscii(u[..3]);
    assert FitFrom(u, 2, 2) == 2;
    assert FitFrom(u, 2, 0) == 2;
  }
}
