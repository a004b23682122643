/**
  The body of `run`: tokenize the input, measure the columns, pad every
  field, optionally cut the fields to the width limits, and join each row
  into an output line. Reading standard input and printing the lines stay
  outside; the input text and the option values are parameters here.
*/
module Pipeline {
  import opened Wrappers
  import opened GoStrings
  import opened RuneWidth
  import opened Sheet
  import opened Tokenizer
  import opened Widths
  import opened Padding
  import opened Limits
  import opened Truncation
  import opened Lines

  /** The tokenized table with every field padded to the width of its column. */
  function Padded(input: string, inputDelimiter: string): (p: Table)
  {
    var t := Tokenize(input, inputDelimiter);
    ColumnCountIsLongest(t);
    PadTable(t, ColumnWidths(t, ColumnCount(t)))
  }

  /**
    The lines the program prints for `input`: the padded table, cut to the
    width limits when the width option is not empty, and joined with the
    output delimiter; the limit error when the width option does not parse.
  */
  function Align(input: string, inputDelimiter: string, width: string, outputDelimiter: string): (r: Result<seq<string>>)
  {
    var padded := Padded(input, inputDelimiter);
    if width == "" then Success(DrawLines(padded, outputDelimiter))
    else
      match ParseLimits(width)
      case Failure(e) => Failure(e)
      case Success(limits) => Success(DrawLines(CutTable(padded, limits), outputDelimiter))
  }

  /**
    The first stages of run: toSheetString, countColumn and paddingSheet.
    paddingSheet hands back the rows it was given, so `paddedSheet` and
    `sheet` are the same arrays, now holding the padded fields.
  */
  method Layout(input: string, inputDelimiter: string) returns (sheet: seq<array<string>>, paddedSheet: seq<array<string>>)
    ensures paddedSheet == sheet
    ensures DistinctRows(sheet)
    ensures forall i :: 0 <= i < |sheet| ==> fresh(sheet[i])
    ensures Cells(sheet) == Padded(input, inputDelimiter)
  {
    var columnSize;
    sheet, columnSize := ToSheetString(input, inputDelimiter);
    ghost var t := Cells(sheet);
    ColumnCountIsLongest(t);
    var counts := CountColumn(sheet, columnSize);
    paddedSheet := PaddingSheet(sheet, counts[..]);
  }

  /**
    What `run` as written needs in order to finish: when the width option is
    given and parses, every row has at least as many fields as there are
    limits. Otherwise trancateLimitedLength reads past a row and panics.
  */
  predicate RowsCoverLimits(input: string, inputDelimiter: string, width: string)
  {
    width != "" && ParseLimits(width).Success? ==>
      forall i :: 0 <= i < |Tokenize(input, inputDelimiter)| ==>
        |ParseLimits(width).value| <= |Tokenize(input, inputDelimiter)[i]|
  }

  /**
    run as written: the stages in order over one table, with the unchecked
    trancateLimitedLength, whose panic on a row shorter than the limit list
    is the precondition. The truncation cuts the rows of `paddedSheet` in
    place, so createDrawLines, which is handed `sheet`, the table
    toSheetString made, still prints the padded and cut fields.
  */
  method RunAsWritten(input: string, inputDelimiter: string, width: string, outputDelimiter: string) returns (r: Result<seq<string>>)
    requires RowsCoverLimits(input, inputDelimiter, width)
    ensures r == Align(input, inputDelimiter, width, outputDelimiter)
  {
    var sheet, paddedSheet := Layout(input, inputDelimiter);
    if width != "" {
      var limits := ParceLimits(width);
      if limits.Failure? {
        return Failure(limits.error);
      }
      assert forall i :: 0 <= i < |paddedSheet| ==> |limits.value| <= paddedSheet[i].Length by {
        forall i | 0 <= i < |paddedSheet|
          ensures |limits.value| <= paddedSheet[i].Length
        {
          assert paddedSheet[i][..] == Padded(input, inputDelimiter)[i];
        }
      }
      paddedSheet := TrancateLimitedLength(paddedSheet, limits.value);
    }
    var lines := CreateDrawLines(sheet, outputDelimiter);
    return Success(lines);
  }

  /**
    run with the truncation corrected to cut only the fields a row has: the
    same stages, defined on every input.
  */
  method Run(input: string, inputDelimiter: string, width: string, outputDelimiter: string) returns (r: Result<seq<string>>)
    ensures r == Align(input, inputDelimiter, width, outputDelimiter)
  {
    var sheet, paddedSheet := Layout(input, inputDelimiter);
    if width != "" {
      var limits := ParceLimits(width);
      if limits.Failure? {
        return Failure(limits.error);
      }
      paddedSheet := TrancateLimitedLengthBounded(paddedSheet, limits.value);
    }
    var lines := CreateDrawLines(sheet, outputDelimiter);
    return Success(lines);
  }

  /** One line per non-empty input line, whatever the options, unless the width option is invalid. */
  lemma AlignLineCount(input: string, inputDelimiter: string, width: string, outputDelimiter: string)
    requires Align(input, inputDelimiter, width, outputDelimiter).Success?
    ensures |Align(input, inputDelimiter, width, outputDelimiter).value| == |NonEmpty(Split(input, "\n"))|
  {
  }

  /** A width option that does not parse makes the whole run fail with the limit error. */
  lemma AlignRejectsBadWidth(input: string, inputDelimiter: string, width: string, outputDelimiter: string)
    requires width != "" && ParseLimits(width).Failure?
    ensures Align(input, inputDelimiter, width, outputDelimiter) == Failure(InvalidLimit)
  {
  }

  /**
    The columns line up: with white-space input, no width limits and the
    default tab separator, cutting line `i` at its tabs gives back the fields
    of row `i`, each followed by spaces only and each exactly as wide as the
    widest field of its column.
  */
  lemma AlignLinesUp(input: string, i: nat, j: nat)
    requires i < |Tokenize(input, "")| && j < |Tokenize(input, "")[i]|
    ensures var t := Tokenize(input, "");
      var lines := Align(input, "", "", "").value;
      var fields := Split(lines[i], "\t");
      |fields| == |t[i]| &&
      |t[i][j]| <= |fields[j]| && fields[j][..|t[i][j]|] == t[i][j] &&
      (forall k :: |t[i][j]| <= k < |fields[j]| ==> fields[j][k] == ' ') &&
      StringWidth(fields[j]) == ColumnWidth(t, j)
  {
    var t := Tokenize(input, "");
    ColumnCountIsLongest(t);
    var counts := ColumnWidths(t, ColumnCount(t));
    var padded := PadTable(t, counts);
    forall q | 0 <= q < |padded[i]|
      ensures '\t' !in padded[i][q]
    {
      TokenizeFieldShape(input, "", i, q);
      PaddedWordHasNoTab(t[i][q], counts[q]);
    }
    DrawLinesSplitBack(padded, "", '\t', i);
    PadTableAligns(t, ColumnCount(t), i, j);
  }

  /** A word padded with spaces holds no tab. */
  lemma PaddedWordHasNoTab(f: string, length: int)
    requires IsWord(f)
    ensures '\t' !in PadRight(f, length)
  {
    AsciiSpaces('\t');
  }

  /**
    trancateLimitedLength indexes `words[i]` for every limit, so a row with
    fewer fields than limits makes it read past the row. The input
    "a,b\nc" with "," as delimiter and the width option "1,2,3,4" reaches it
    with rows of two fields and one: the rows fail the precondition of
    TrancateLimitedLength and RunAsWritten, while Run, with the
    bounds-checked truncation, produces the cut lines.
  */
  lemma TruncationOverrunsShortRows()
    ensures var p := Padded("a,b\nc", ",");
      ParseLimits("1,2,3,4") == Success([1, 2, 3, 4]) &&
      |p| == 2 && |p[0]| == 2 && |p[1]| == 1 &&
      !RowsCoverLimits("a,b\nc", ",", "1,2,3,4") &&
      Align("a,b\nc", ",", "1,2,3,4", "") == Success(DrawLines(CutTable(p, [1, 2, 3, 4]), ""))
  {
    ParseLimitsExample();
    TokenizeExample();
  }
}
