/**
  toSheetString: cut the input into lines, drop the empty ones, and cut each
  remaining line into fields, either on a literal delimiter (each field then
  trimmed of white space) or, without a delimiter, on runs of white space.
*/
module Tokenizer {
  import opened GoStrings
  import opened Sheet

  /** Every part of `parts` with its surrounding white space trimmed. */
  function TrimAll(parts: seq<string>): (r: seq<string>)
    ensures |r| == |parts|
    ensures forall i :: 0 <= i < |r| ==> r[i] == TrimSpace(parts[i])
  {
    seq(|parts|, i requires 0 <= i < |parts| => TrimSpace(parts[i]))
  }

  /** The fields of one line. */
  function SplitLine(line: string, delimiter: string): (row: seq<string>)
  {
    if delimiter != "" then TrimAll(Split(line, delimiter)) else Fields(line)
  }

  /** The non-empty lines, in order. */
  function NonEmpty(lines: seq<string>): (r: seq<string>)
    ensures |r| <= |lines|
    ensures forall i :: 0 <= i < |r| ==> r[i] != ""
  {
    if lines == [] then []
    else
      var last := lines[|lines| - 1];
      NonEmpty(lines[..|lines| - 1]) + (if last == "" then [] else [last])
  }

  /** The row of each line, in order. */
  function Rows(lines: seq<string>, delimiter: string): (t: Table)
    ensures |t| == |lines|
  {
    seq(|lines|, i requires 0 <= i < |lines| => SplitLine(lines[i], delimiter))
  }

  /** The table toSheetString builds from `text`: the row of every non-empty line. */
  function Tokenize(text: string, delimiter: string): (t: Table)
  {
    Rows(NonEmpty(Split(text, "\n")), delimiter)
  }

  lemma NonEmptySnoc(lines: seq<string>, k: nat)
    requires k < |lines|
    ensures NonEmpty(lines[..k + 1]) == NonEmpty(lines[..k]) + (if lines[k] == "" then [] else [lines[k]])
  {
    assert lines[..k + 1][..k] == lines[..k];
  }

  lemma RowsSnoc(lines: seq<string>, v: string, delimiter: string)
    ensures Rows(lines + [v], delimiter) == Rows(lines, delimiter) + [SplitLine(v, delimiter)]
  {
    assert (lines + [v])[..|lines|] == lines;
  }

  lemma RowsConcat(a: seq<string>, b: seq<string>, delimiter: string)
    ensures Rows(a + b, delimiter) == Rows(a, delimiter) + Rows(b, delimiter)
  {
  }

  /**
    toSheetString (main.go): one fresh row array per non-empty line, each
    holding that line's fields, and the length of the longest row.
  */
  method ToSheetString(str: string, delimiter: string) returns (sheet: seq<array<string>>, columnSize: nat)
    ensures forall i :: 0 <= i < |sheet| ==> fresh(sheet[i])
    ensures DistinctRows(sheet)
    ensures Cells(sheet) == Tokenize(str, delimiter)
    ensures columnSize == ColumnCount(Cells(sheet))
  {
    var lines := Split(str, "\n");
    sheet := [];
    columnSize := 0;
    ghost var rows: Table := [];
    for k := 0 to |lines|
      invariant |sheet| == |rows| && forall i :: 0 <= i < |sheet| ==> fresh(sheet[i]) && sheet[i][..] == rows[i]
      invariant DistinctRows(sheet)
      invariant rows == Rows(NonEmpty(lines[..k]), delimiter)
      invariant columnSize == ColumnCount(rows)
    {
      var v := lines[k];
      ToSheetStep(lines, k, delimiter, rows);
      if v != "" {
        var columns := LineColumns(v, delimiter);
        ColumnCountSnoc(rows, columns[..]);
        if columnSize < columns.Length {
          columnSize := columns.Length;
        }
        DistinctSnoc(sheet, columns);
        sheet := sheet + [columns];
        rows := rows + [columns[..]];
      }
    }
    assert lines[..|lines|] == lines;
  }

  /** A row array that is none of the sheet's keeps the rows distinct when appended. */
  lemma DistinctSnoc(sheet: seq<array<string>>, row: array<string>)
    requires DistinctRows(sheet) && forall i :: 0 <= i < |sheet| ==> sheet[i] != row
    ensures DistinctRows(sheet + [row])
  {
  }

  /** One step of toSheetString's loop: an empty line adds no row, any other line adds its own. */
  lemma ToSheetStep(lines: seq<string>, k: nat, delimiter: string, rows: Table)
    requires k < |lines| && rows == Rows(NonEmpty(lines[..k]), delimiter)
    ensures lines[k] == "" ==> Rows(NonEmpty(lines[..k + 1]), delimiter) == rows
    ensures lines[k] != "" ==> Rows(NonEmpty(lines[..k + 1]), delimiter) == rows + [SplitLine(lines[k], delimiter)]
  {
    NonEmptySnoc(lines, k);
    if lines[k] != "" {
      RowsSnoc(NonEmpty(lines[..k]), lines[k], delimiter);
    } else {
      assert NonEmpty(lines[..k + 1]) == NonEmpty(lines[..k]);
    }
  }

  /** The body of toSheetString's loop for one non-empty line: its fields in a new row array. */
  method LineColumns(v: string, delimiter: string) returns (columns: array<string>)
    ensures fresh(columns)
    ensures columns[..] == SplitLine(v, delimiter)
  {
    if delimiter != "" {
      columns := TrimColumns(Split(v, delimiter));
    } else {
      var fields := Fields(v);
      columns := new string[|fields|](i requires 0 <= i < |fields| => fields[i]);
      assert columns[..] == fields;
    }
  }

  /** The parts of a line split on the delimiter, copied into a new array and trimmed in place. */
  method TrimColumns(parts: seq<string>) returns (columns: array<string>)
    ensures fresh(columns)
    ensures columns[..] == TrimAll(parts)
  {
    columns := new string[|parts|](i requires 0 <= i < |parts| => parts[i]);
    for i := 0 to columns.Length
      modifies columns
      invariant forall k :: 0 <= k < columns.Length ==> columns[k] == if k < i then TrimSpace(parts[k]) else parts[k]
    {
      columns[i] := TrimSpace(columns[i]);
    }
  }

  lemma ColumnCountSnoc(t: Table, row: seq<string>)
    ensures ColumnCount(t + [row]) == if ColumnCount(t) < |row| then |row| else ColumnCount(t)
  {
    assert (t + [row])[..|t|] == t;
  }

  lemma {:induction false} NonEmptyConcat(a: seq<string>, b: seq<string>)
    decreases |b|
    ensures NonEmpty(a + b) == NonEmpty(a) + NonEmpty(b)
  {
    if b == [] {
      assert a + b == a;
    } else {
      var b' := b[..|b| - 1];
      NonEmptyConcat(a, b');
      assert (a + b)[..|a + b| - 1] == a + b';
    }
  }

  /** toSheetString keeps exactly the lines that are not empty. */
  lemma {:induction false} NonEmptyKeeps(lines: seq<string>, x: string)
    decreases |lines|
    ensures x in NonEmpty(lines) <==> x in lines && x != ""
  {
    if lines != [] {
      var init := lines[..|lines| - 1];
      NonEmptyKeeps(init, x);
      assert lines == init + [lines[|lines| - 1]];
    }
  }

  /** Text made of two parts joined by a line break gives the rows of each part, in order. */
  lemma TokenizeConcat(a: string, b: string, delimiter: string)
    ensures Tokenize(a + "\n" + b, delimiter) == Tokenize(a, delimiter) + Tokenize(b, delimiter)
  {
    SplitConcat(a, '\n', b);
    NonEmptyConcat(Split(a, "\n"), Split(b, "\n"));
    RowsConcat(NonEmpty(Split(a, "\n")), NonEmpty(Split(b, "\n")), delimiter);
  }

  /** A line without line breaks, unless it is empty, is exactly one row. */
  lemma TokenizeLine(line: string, delimiter: string)
    requires '\n' !in line
    ensures line == "" ==> Tokenize(line, delimiter) == []
    ensures line != "" ==> Tokenize(line, delimiter) == [SplitLine(line, delimiter)]
  {
    NoIndexOfChar(line, '\n');
    assert Split(line, "\n") == [line];
  }

  /** A line break at the end of the text adds no row. */
  lemma TokenizeTrailingNewline(text: string, delimiter: string)
    ensures Tokenize(text + "\n", delimiter) == Tokenize(text, delimiter)
  {
    assert text + "\n" == text + "\n" + "";
    TokenizeConcat(text, "", delimiter);
    TokenizeLine("", delimiter);
  }

  /** Empty lines, trailing ones included, give no row: "...\n\n\n" adds nothing. */
  lemma {:induction false} TokenizeDropsBlankLines(text: string, n: nat, delimiter: string)
    decreases n
    ensures Tokenize(text + Newlines(n), delimiter) == Tokenize(text, delimiter)
  {
    if n > 0 {
      TokenizeDropsBlankLines(text, n - 1, delimiter);
      assert text + Newlines(n) == (text + Newlines(n - 1)) + "\n";
      TokenizeTrailingNewline(text + Newlines(n - 1), delimiter);
    } else {
      assert text + Newlines(n) == text;
    }
  }

  function Newlines(n: nat): (s: string)
    ensures |s| == n && forall k :: 0 <= k < n ==> s[k] == '\n'
  {
    if n == 0 then "" else Newlines(n - 1) + "\n"
  }

  /**
    The shape of a field: without a delimiter, a non-empty run of non-space
    characters; with one, a string already trimmed of white space.
  */
  predicate FieldShape(f: string, delimiter: string) {
    if delimiter == "" then IsWord(f) else TrimSpace(f) == f
  }

  lemma SplitLineShape(line: string, delimiter: string, j: nat)
    requires j < |SplitLine(line, delimiter)|
    ensures FieldShape(SplitLine(line, delimiter)[j], delimiter)
  {
    if delimiter != "" {
      TrimSpaceIdempotent(Split(line, delimiter)[j]);
    }
  }

  /**
    Every field of the table has its shape: in white-space mode no field is
    empty or holds white space; in delimiter mode every field equals its
    trimmed self.
  */
  lemma TokenizeFieldShape(text: string, delimiter: string, i: nat, j: nat)
    requires i < |Tokenize(text, delimiter)| && j < |Tokenize(text, delimiter)[i]|
    ensures delimiter == "" ==> IsWord(Tokenize(text, delimiter)[i][j])
    ensures delimiter != "" ==> TrimSpace(Tokenize(text, delimiter)[i][j]) == Tokenize(text, delimiter)[i][j]
  {
    SplitLineShape(NonEmpty(Split(text, "\n"))[i], delimiter, j);
  }

  /** In white-space mode a line of white space is kept, as a row with no fields. */
  lemma BlankLineIsEmptyRow(line: string)
    requires line != "" && AllSpace(line) && '\n' !in line
    ensures Tokenize(line, "") == [[]]
  {
    TokenizeLine(line, "");
    FieldsOfSpace(line);
  }

  /**
    In white-space mode the kind and length of the gaps do not matter: words
    joined by any non-empty run of spaces and tabs (no line break) are read
    back as exactly those words.
  */
  lemma TokenizeJoinedWords(words: seq<string>, sep: string)
    requires |words| >= 1
    requires sep != [] && AllSpace(sep) && '\n' !in sep
    requires forall i :: 0 <= i < |words| ==> IsWord(words[i])
    ensures Tokenize(Join(words, sep), "") == [words]
  {
    var line := Join(words, sep);
    forall i | 0 <= i < |words| ensures '\n' !in words[i] {
      forall k | 0 <= k < |words[i]| ensures words[i][k] != '\n' {
        assert !IsSpace(words[i][k]);
      }
    }
    JoinOmits(words, sep, '\n');
    assert line[..|words[0]|] == words[0] by { JoinPrefix(words, sep); }
    TokenizeLine(line, "");
    FieldsOfJoin(words, sep);
  }

  /** A join starts with its first part, so it is not empty when that part is a word. */
  lemma JoinPrefix(words: seq<string>, sep: string)
    requires |words| >= 1
    ensures |words[0]| <= |Join(words, sep)| && Join(words, sep)[..|words[0]|] == words[0]
  {
  }

  /**
    With "," as the input delimiter, "a,b\nc" is the table of the rows
    a | b and c: the second row is shorter than the first.
  */
  lemma TokenizeExample()
    ensures Tokenize("a,b\nc", ",") == [["a", "b"], ["c"]]
  {
    var lines := ["a,b", "c"];
    ExampleLines();
    assert NonEmpty(lines) == lines;
    ExampleFields();
    RowsSnoc(["a,b"], "c", ",");
    RowsSnoc([], "a,b", ",");
    assert [] + ["a,b"] == ["a,b"] && ["a,b"] + ["c"] == lines;
  }

  lemma ExampleLines()
    ensures Split("a,b\nc", "\n") == ["a,b", "c"]
  {
    SplitJoin(["a,b", "c"], '\n');
    assert Join(["a,b", "c"], "\n") == "a,b\nc";
  }

  lemma ExampleFields()
    ensures SplitLine("a,b", ",") == ["a", "b"]
    ensures SplitLine("c", ",") == ["c"]
  {
    SplitJoin(["a", "b"], ',');
    assert Join(["a", "b"], ",") == "a,b";
    SplitJoin(["c"], ',');
    assert Join(["c"], ",") == "c";
    TrimLetter('a');
    TrimLetter('b');
    TrimLetter('c');
  }

  lemma TrimLetter(c: char)
    requires 'a' <= c <= 'z'
    ensures TrimSpace([c]) == [c]
  {
    AsciiAlphanumeric(c);
    assert [c][1..] == [];
    assert [c][..0] == [];
  }
}
