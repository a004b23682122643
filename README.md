# candy-align-go, modelled in Dafny

candy-align-go reads a text table from standard input and prints it with
its columns aligned. The model covers the alignment pipeline of `main.go`:

- `toSheetString` splits the text into lines, drops empty lines, and cuts
  each line into fields. With an input delimiter it splits on the
  delimiter and trims each field; without one it splits on white-space
  runs.
- `countColumn` finds the display width of the widest field of every
  column.
- `paddingSheet` and `padRight` pad every field in place with spaces to
  its column's width.
- `parceLimits` reads the width option, a comma-separated list of
  integers.
- `trancateLimitedLength` and `cutLeft` cut the first fields of every row,
  in place, to those limits.
- `createDrawLines` joins each row's fields with the output delimiter (a
  tab by default).

Modules:

- `GoStrings`, `StrConv` and `RuneWidth` give the library functions the
  program calls, as pure functions with their own lemmas:
  - `strings.Split`, `Join`, `TrimSpace`, `Fields` and `Replace` (space
    removal) from Go's standard library;
  - `strconv.Atoi` on 64-bit integers, with `Itoa` beside it as the
    inverse that the round-trip lemmas use (the program never calls it);
  - `StringWidth` and `Truncate` from `go-runewidth`.
- `Sheet` holds the table: a sequence of row arrays. A sequence of
  sequences is the pure table they denote.
- `Tokenizer`, `Widths`, `Padding`, `Limits`, `Truncation` and `Lines`
  hold one stage each:
  - a method with the source's loops, proved against a specification
    function;
  - lemmas about that function.
- `Pipeline` composes the stages as `run` does:
  - `Layout` runs the first three stages.
  - `Run` runs the rest.
  - The pure `Align` states what the program prints.

`paddingSheet` and `trancateLimitedLength` overwrite the row arrays in
place. `run` hands `createDrawLines` the table `toSheetString` built,
not the one those stages returned. The model keeps that aliasing: `Run`
draws its lines from `sheet`, and its postcondition shows that they are
still padded and cut.

The code differs from a plain reading of the program's intent in four
places. The model follows the code in the first three. For the fourth it
gives both: `Pipeline.RunAsWritten` follows the code, and `Pipeline.Run`
uses the corrected truncation:

- `padRight` passes `length - StringWidth(s)` as a `%-*s` width. Go reads
  a negative width as its absolute value, so a field wider than its
  column gains spaces; it is not padded to zero. See
  `Padding.PadRightOverlong`.
- `parceLimits` deletes only the ASCII space, not tabs or other white
  space.
- `parceLimits` accepts any 64-bit integer, negative ones and zero
  included. A negative limit cuts a field to nothing.
- `trancateLimitedLength` has no bounds check for rows shorter than the
  limit list, so `run` panics on such input: see "Findings". Both runs
  return `Pipeline.Align` whenever every row is long enough
  (`Pipeline.RowsCoverLimits`).

## Model

| member | source | states |
|---|---|---|
| GoStrings.Split | main.go:89 | strings.Split with a non-empty separator always yields at least one piece |
| GoStrings.SplitPartsLackSeparator | main.go:100 | no piece of a split contains the separator |
| GoStrings.JoinSplit | main.go:100 | joining the pieces of a split with the separator gives the text back |
| GoStrings.SplitJoin | main.go:179 | splitting a join at a one-character separator that no part contains gives the parts back |
| GoStrings.SplitConcat | main.go:89 | splitting `a + c + b` at `c` gives the pieces of `a` followed by the pieces of `b` |
| GoStrings.Join | main.go:179 | strings.Join; what it means is carried by `JoinSplit`, `SplitJoin`, `JoinOmits` and `DrawLinesSplitBack`: the separator goes only between the parts |
| GoStrings.TrimSpace | main.go:102 | the trimmed field is never longer; `TrimSpaceIs`, `TrimSpaceEnds`, `TrimSpaceCuts` and `TrimSpaceIdempotent` state the rest |
| GoStrings.JoinOmits | main.go:179 | a character in neither the separator nor any part is not in their join |
| GoStrings.AsciiSpaces | main.go:102 | tab, line feed, vertical tab, form feed, carriage return and space are white space for unicode.IsSpace |
| GoStrings.AsciiAlphanumeric | main.go:102 | ASCII letters and digits are not white space |
| GoStrings.TrimSpaceIs | main.go:102 | TrimSpace keeps exactly the text between the leading and the trailing white space, or nothing for all-space text |
| GoStrings.TrimSpaceEnds | main.go:102 | a trimmed field neither starts nor ends with white space |
| GoStrings.TrimSpaceCuts | main.go:102 | the trimmed field is a slice of the original, and only white space is cut on either side |
| GoStrings.TrimSpaceIdempotent | main.go:102 | trimming a trimmed field changes nothing |
| GoStrings.Fields | main.go:105 | every field strings.Fields yields is non-empty and free of white space |
| GoStrings.FieldsOfSpace | main.go:105 | a line of white space has no fields |
| GoStrings.FieldsCons | main.go:105 | a word followed by white space or the end is the first field, and the rest are the fields of what follows |
| GoStrings.FieldsOfJoin | main.go:105 | words joined by any non-empty white-space separator are read back as exactly those words |
| GoStrings.Remove | main.go:145 | removing a character leaves no occurrence of it, and text without it is unchanged |
| GoStrings.RemoveConcat | main.go:145 | removing a character distributes over concatenation |
| StrConv.Atoi | main.go:150 | a successful parse is an optional sign followed only by digits, with the signed decimal value in the 64-bit range |
| StrConv.AtoiAccepts | main.go:150 | every optional sign followed by one or more digits whose signed value is in the 64-bit range is read as that value, leading zeros and '+' included |
| StrConv.AtoiItoa | main.go:150 | Atoi reads back the decimal text of every 64-bit integer |
| StrConv.AtoiNeedsDigits | main.go:150-153 | the empty text and a lone non-digit are rejected |
| StrConv.DecimalValueOfNatDigits | main.go:150 | the decimal digits of `n` have the value `n` |
| RuneWidth.RuneWidth | main.go:121 | every character takes at most two columns, and printable ASCII takes one |
| RuneWidth.StringWidth | main.go:121 | a text takes at most two columns per character and the empty text none; `StringWidthConcat`, `StringWidthPrefix` and `StringWidthAscii` state the rest |
| RuneWidth.Truncate | main.go:169 | the result is a prefix of the text; `TruncateFits`, `TruncateLongest` and `TruncateIdempotent` state that it is the longest one that fits |
| RuneWidth.StringWidthConcat | main.go:121 | the display width of a concatenation is the sum of the widths |
| RuneWidth.StringWidthPrefix | main.go:169 | a longer prefix is never narrower |
| RuneWidth.StringWidthAscii | main.go:121 | printable ASCII text is as wide as it is long |
| RuneWidth.StringWidthSpaces | main.go:140 | `n` spaces are `n` columns wide |
| RuneWidth.FitFromStops | main.go:169 | the truncation scan takes only prefixes that fit and stops at the first that overflows |
| RuneWidth.TruncateFits | main.go:169 | Truncate gives a prefix: the whole text when it fits, else one within the budget (empty for a negative budget), and one more character would overflow |
| RuneWidth.TruncateLongest | main.go:169 | no longer prefix of the text fits the budget |
| RuneWidth.TruncateIdempotent | main.go:169 | truncating twice to the same width cuts nothing more |
| Sheet.Cells | main.go:92 | the table a sheet holds has one row per array, each row that array's contents |
| Sheet.ColumnCountIsLongest | main.go:108-111 | columnSize is at least every row's length and equals some row's length; it is 0 for no rows |
| Tokenizer.ToSheetString | main.go:88-115 | every row is a new array, no two rows share an array, the rows are the fields of the non-empty lines in order, and columnSize is the longest row's length |
| Tokenizer.LineColumns | main.go:98-106 | one line's fields in a new array: split on the delimiter and trimmed, or the white-space fields without one |
| Tokenizer.TrimColumns | main.go:100-103 | the pieces of a line copied into a new array and each trimmed in place |
| Tokenizer.ColumnCountSnoc | main.go:108-111 | appending a row raises the column count to the row's length exactly when the row is longer |
| Tokenizer.NonEmptyKeeps | main.go:93-96 | a line is kept exactly when it occurs in the text and is not empty |
| Tokenizer.TokenizeConcat | main.go:89-113 | text joined by a line break gives the rows of the first part, then those of the second |
| Tokenizer.TokenizeLine | main.go:89-112 | a line without line breaks is one row, or none when it is empty |
| Tokenizer.TokenizeTrailingNewline | main.go:93-96 | a line break at the end adds no row |
| Tokenizer.TokenizeDropsBlankLines | main.go:93-96 | any number of trailing line breaks adds no row |
| Tokenizer.SplitLineShape | main.go:99-106 | a field of one line is a word without a delimiter, and already trimmed with one |
| Tokenizer.TokenizeFieldShape | main.go:99-106 | in white-space mode every field is non-empty and holds no white space; in delimiter mode every field equals its trimmed self |
| Tokenizer.BlankLineIsEmptyRow | main.go:94-105 | in white-space mode a line of white space is kept as a row with no fields |
| Tokenizer.TokenizeJoinedWords | main.go:105 | in white-space mode words separated by any run of spaces and tabs give exactly those words |
| Tokenizer.TokenizeExample | main.go:99-103 | "a,b\nc" with delimiter "," is the table of rows a, b and c |
| Widths.ColumnWidths | main.go:118 | countColumn's result has one entry per column |
| Widths.ColumnWidthIsWidest | main.go:119-125 | a column's count is at least the width of each field in it, and is 0 or the width of one of them |
| Widths.ColumnWidthPermutation | main.go:119-125 | the counts do not depend on the order of the rows |
| Widths.ColumnWidthBeyondRows | main.go:118-125 | a column no row reaches has count 0 |
| Widths.CountColumn | main.go:117-128 | the nested loops leave, in a new array of columnSize entries, the widest field width of every column |
| Padding.PadRight | main.go:139-142 | the field keeps its text and gains only spaces; `PadRightFills` and `PadRightOverlong` state how many |
| Padding.PadRightFills | main.go:139-142 | a field no wider than the length keeps its text, gains only spaces, and becomes exactly the length wide |
| Padding.PadRightOverlong | main.go:139-142 | a field wider than the length gains the overshoot in spaces, not zero |
| Padding.PadRow | main.go:132-134 | padding a row keeps its number of fields |
| Padding.PadTable | main.go:130-137 | padding keeps the number of rows |
| Padding.PadTableAligns | main.go:130-137 | padded to the column widths, every field keeps its text, is followed by spaces only, and is exactly as wide as its column |
| Padding.PaddingSheet | main.go:130-137 | every row is overwritten in place with its padded fields, and the same rows are returned |
| Padding.PadWords | main.go:132-134 | one row's fields padded in place |
| Limits.LimitPieces | main.go:145-146 | the pieces after space removal and comma splitting are never none |
| Limits.ParceLimits | main.go:144-157 | the loop returns the limits ParseLimits denotes, each in the 64-bit range, or the error at the first bad piece |
| Limits.ParseFormatLimits | main.go:144-157 | the comma-joined decimal text of any non-empty list of 64-bit limits is read back as that list |
| Limits.FormatLimitsPieces | main.go:145-146 | the pieces of such a text are the decimal forms of the limits |
| Limits.ItoaAlphabet | main.go:146 | decimal texts contain only digits and a minus sign, so never a comma or a space |
| Limits.ParseLimitsIgnoresSpace | main.go:145 | a space anywhere in the option does not change the result |
| Limits.ParseLimitsTrailingComma | main.go:146-152 | a trailing comma makes the option invalid |
| Limits.ParseLimitsExample | main_test.go:324-330 | "1,2,3,4" reads as 1, 2, 3, 4 |
| Limits.ParseLimitsRejectsLetter | main_test.go:356-362 | "1,a,3,4" is the limit error |
| Truncation.CutLeft | main.go:168-170 | the cut field is a prefix of the field; `CutRowField` and the `RuneWidth.Truncate` lemmas state that it is the longest that fits |
| Truncation.CutRow | main.go:161-163 | cutting a row keeps its number of fields |
| Truncation.CutTable | main.go:160-164 | cutting keeps the number of rows |
| Truncation.CutRowField | main.go:159-170 | a field with a limit becomes its longest prefix that fits the limit (the whole field when it fits); a field past the limits is unchanged |
| Truncation.CutRowIdempotent | main.go:161-163 | cutting a row twice to the same limits cuts nothing more |
| Truncation.CutTableIdempotent | main.go:159-166 | trancateLimitedLength applied twice with the same limits gives what one pass gives |
| Truncation.TrancateLimitedLength | main.go:159-166 | as written: with every row at least as long as the limit list, every row is cut in place and the same rows are returned |
| Truncation.TrancateLimitedLengthBounded | main.go:159-166 | with the missing bounds check: any table has its rows cut in place, fields past a row's end ignored |
| Truncation.CutWords | main.go:161-163 | the first fields of one row cut in place to their limits |
| Truncation.CutWideExample | main_test.go:285-302 | "あい" cut to 2 is "あ" and "あいう" cut to 4 is "あい" |
| Truncation.CutNarrowExample | main_test.go:285-302 | "f   " cut to 2 is "f " |
| Lines.OutputDelimiter | main.go:173-175 | the separator is never empty; a given one is used, and the default is a tab |
| Lines.DrawLines | main.go:177-181 | one line per row |
| Lines.CreateDrawLines | main.go:172-182 | the loop fills one line per row, in order, each the row's fields joined by the separator |
| Lines.DrawLinesSplitBack | main.go:178-180 | a line cut at a one-character separator that no field contains gives back its row, so nothing is added around the fields |
| Pipeline.Layout | main.go:65-68 | toSheetString, countColumn and paddingSheet leave new, distinct rows holding the padded table, and paddedSheet is sheet |
| Pipeline.RunAsWritten | main.go:58-86 | run as written, on input whose rows are at least as long as the limit list: the lines drawn from the original sheet are the padded, and when asked cut, table; an invalid width option gives the limit error |
| Pipeline.Run | main.go:58-86 | run with the corrected truncation, on any input: the same lines as `Align` |
| Pipeline.Align | main.go:58-86 | what run prints; `AlignLineCount`, `AlignRejectsBadWidth` and `AlignLinesUp` state its properties, and `RunAsWritten` and `Run` are proved equal to it |
| Pipeline.AlignLineCount | main.go:58-86 | one printed line per non-empty input line |
| Pipeline.AlignRejectsBadWidth | main.go:71-75 | a width option that does not parse fails the run with "invalid limit option" |
| Pipeline.AlignLinesUp | main.go:64-79 | with white-space input and the default tab, cutting a line at its tabs gives the row's fields, each its word followed by spaces and each as wide as its column |
| Pipeline.PaddedWordHasNoTab | main.go:139-142 | padding a word adds no tab |
| Pipeline.TruncationOverrunsShortRows | main.go:159-166 | "a,b\nc" with width "1,2,3,4" gives rows shorter than the limit list, so it fails `RowsCoverLimits`, the precondition of run as written, while the corrected run returns the cut lines |

## Left out

- `main`, `newApp` and the `cli` flag wiring (main.go:21-56) are not part of this model. The exit codes go with them.
- Reading standard input and printing the lines in `run` are left out. The input text and the option values are parameters of `Pipeline.Run`, and the printed lines are its result.
- `go-runewidth`'s Unicode width tables, grapheme clusters and its handling of ambiguous-width characters are not modelled. `RuneWidth.RuneWidth` is a small instance: control characters and combining marks take 0 columns, the main East Asian wide blocks take 2, and everything else takes 1.
- Strings are sequences of Unicode scalar values. Invalid UTF-8 in the input, which Go would meet as `U+FFFD`, is not modelled.
- `unicode.IsSpace` is modelled by the White_Space ranges. Its Latin-1 fast path gives the same answers.
- `StrConv.Atoi` states that a syntax or range error is reported, but not which one. Only the fact of failure reaches `parceLimits`.
- `fmt.Sprintf`'s internals are left out. `Padding.PadRight` appends the number of spaces `%-*s` prints for an empty argument.
- `Benchmark_padFields` (main_test.go:260-273) measures time and has no behaviour.
- Panics are not modelled as values. Go's index-out-of-range panic in `trancateLimitedLength` is the precondition of `Truncation.TrancateLimitedLength`.
- Pipeline.Run: uses the corrected `TrancateLimitedLengthBounded`, so on input with a row shorter than the parsed limit list it returns lines where `run` panics at main.go:162. `Pipeline.RunAsWritten` is `run` as written, with that case as its precondition.
- Pipeline.AlignLineCount: one line per non-empty input line holds for the program only when `Pipeline.RowsCoverLimits` holds; otherwise `run` panics and prints nothing.
- `run`'s body is split at the padding stage into `Pipeline.Layout` and `Pipeline.RunAsWritten` (or `Pipeline.Run`). The stages run in the same order on the same arrays.

## Findings

| source | as written | input that shows it | evidently intended | confidence | as-written member | corrected member |
|---|---|---|---|---|---|---|
| main.go:160-163 | `words[i]` is read and written for every `i` below `len(limits)`, with no check against `len(words)` | input "a,b\nc", input delimiter ",", width "1,2,3,4": the rows have two fields and one, fewer than the four limits, so the read goes past the row and the program panics | cut only the fields a row has; leave rows shorter than the limit list as they are | not executed | Truncation.TrancateLimitedLength, Pipeline.RunAsWritten, Pipeline.TruncationOverrunsShortRows | Truncation.TrancateLimitedLengthBounded, Pipeline.Run |
