/**
  parceLimits: the width-limit option, a comma-separated list of decimal
  integers, read into one limit per column.
*/
module Limits {
  import opened Wrappers
  import opened GoStrings
  import opened StrConv

  /** The one error parceLimits reports, whichever piece is at fault. */
  const InvalidLimit: string := "invalid limit option"

  /** The pieces parceLimits reads: every space deleted, then split at each comma. */
  function LimitPieces(str: string): (pieces: seq<string>)
    ensures |pieces| >= 1
  {
    Split(Remove(str, ' '), ",")
  }

  /**
    The limits `str` denotes: one integer per piece, in order, when every
    piece is a decimal integer Atoi accepts; the error otherwise.
  */
  function ParseLimits(str: string): (r: Result<seq<int>>)
  {
    var pieces := LimitPieces(str);
    if forall i :: 0 <= i < |pieces| ==> Atoi(pieces[i]).Success? then
      Success(seq(|pieces|, i requires 0 <= i < |pieces| => Atoi(pieces[i]).value))
    else
      Failure(InvalidLimit)
  }

  /**
    parceLimits: fills a new array with the value of each piece and gives
    up, with the error, at the first piece that is not an integer.
  */
  method ParceLimits(str: string) returns (r: Result<seq<int>>)
    ensures r == ParseLimits(str)
    ensures r.Success? ==> forall i :: 0 <= i < |r.value| ==> MinInt <= r.value[i] <= MaxInt
  {
    var s := Remove(str, ' ');
    var sp := Split(s, ",");
    var limits := new int[|sp|];
    for i := 0 to |sp|
      invariant forall k :: 0 <= k < i ==> Atoi(sp[k]).Success? && limits[k] == Atoi(sp[k]).value
    {
      var limit := Atoi(sp[i]);
      if limit.Failure? {
        return Failure(InvalidLimit);
      }
      limits[i] := limit.value;
    }
    assert limits[..] == seq(|sp|, i requires 0 <= i < |sp| => Atoi(sp[i]).value);
    return Success(limits[..]);
  }

  /** The option text for a list of limits: their decimal forms joined by commas. */
  function FormatLimits(limits: seq<int>): (s: string)
  {
    Join(Texts(limits), ",")
  }

  /** The decimal forms of the limits, in order. */
  function Texts(limits: seq<int>): (texts: seq<string>)
    ensures |texts| == |limits|
  {
    seq(|limits|, i requires 0 <= i < |limits| => Itoa(limits[i]))
  }

  /** Reading back the text of any non-empty list of 64-bit limits gives the same list. */
  lemma ParseFormatLimits(limits: seq<int>)
    requires |limits| >= 1
    requires forall i :: 0 <= i < |limits| ==> MinInt <= limits[i] <= MaxInt
    ensures ParseLimits(FormatLimits(limits)) == Success(limits)
  {
    FormatLimitsPieces(limits);
    var pieces := LimitPieces(FormatLimits(limits));
    forall i | 0 <= i < |pieces|
      ensures Atoi(pieces[i]) == Success(limits[i])
    {
      AtoiItoa(limits[i]);
    }
    assert seq(|pieces|, i requires 0 <= i < |pieces| => Atoi(pieces[i]).value) == limits;
  }

  /** The pieces of the formatted option are the decimal forms of the limits. */
  lemma FormatLimitsPieces(limits: seq<int>)
    requires |limits| >= 1
    ensures LimitPieces(FormatLimits(limits)) == Texts(limits)
  {
    var texts := Texts(limits);
    forall i | 0 <= i < |texts|
      ensures ',' !in texts[i] && ' ' !in texts[i]
    {
      ItoaAlphabet(limits[i]);
    }
    JoinOmits(texts, ",", ' ');
    SplitJoin(texts, ',');
  }

  /** Itoa writes only digits and a leading minus sign. */
  lemma ItoaAlphabet(n: int)
    ensures forall k :: 0 <= k < |Itoa(n)| ==> IsDigit(Itoa(n)[k]) || Itoa(n)[k] == '-'
  {
    if n < 0 {
      assert forall k :: 1 <= k < |Itoa(n)| ==> Itoa(n)[k] == NatDigits(-n)[k - 1];
    }
  }

  /** Spaces anywhere in the option are ignored: "1, 2" reads like "1,2". */
  lemma ParseLimitsIgnoresSpace(a: string, b: string)
    ensures ParseLimits(a + " " + b) == ParseLimits(a + b)
  {
    RemoveSpace(a, b);
    assert LimitPieces(a + " " + b) == LimitPieces(a + b);
  }

  lemma RemoveSpace(a: string, b: string)
    ensures Remove(a + " " + b, ' ') == Remove(a + b, ' ')
  {
    RemoveConcat(a + " ", b, ' ');
    RemoveConcat(a, " ", ' ');
    RemoveConcat(a, b, ' ');
    assert Remove(" ", ' ') == [];
    assert Remove(a, ' ') + [] == Remove(a, ' ');
  }

  /** A trailing comma leaves an empty last piece, which Atoi rejects. */
  lemma ParseLimitsTrailingComma(a: string)
    ensures ParseLimits(a + ",").Failure?
  {
    RemoveConcat(a, ",", ' ');
    assert Remove(",", ' ') == ",";
    var s := Remove(a, ' ');
    assert s + "," == s + [','] + [];
    SplitConcat(s, ',', []);
    assert Split([], ",") == [[]];
    var pieces := LimitPieces(a + ",");
    assert pieces[|pieces| - 1] == [];
    AtoiNeedsDigits([]);
  }

  /** The text "1,2,3,4" reads as the limits 1, 2, 3 and 4. */
  lemma ParseLimitsExample()
    ensures ParseLimits("1,2,3,4") == Success([1, 2, 3, 4])
  {
    var texts := ["1", "2", "3", "4"];
    assert Texts([1, 2, 3, 4]) == texts;
    JoinFour(texts);
    ParseFormatLimits([1, 2, 3, 4]);
  }

  /** A letter among the limits, as in "1,a,3,4", is the limit error. */
  lemma ParseLimitsRejectsLetter()
    ensures ParseLimits("1,a,3,4") == Failure(InvalidLimit)
  {
    var pieces := LimitPieces("1,a,3,4");
    LetterPieces();
    AtoiNeedsDigits("a");
    assert !Atoi(pieces[1]).Success?;
  }

  lemma LetterPieces()
    ensures LimitPieces("1,a,3,4") == ["1", "a", "3", "4"]
  {
    FourPieces(["1", "a", "3", "4"]);
  }

  /** Four one-character pieces, neither comma nor space, come back from their joined text. */
  lemma FourPieces(texts: seq<string>)
    requires |texts| == 4 && forall i :: 0 <= i < 4 ==> |texts[i]| == 1
    requires forall i :: 0 <= i < 4 ==> texts[i][0] != ',' && texts[i][0] != ' '
    ensures LimitPieces([texts[0][0], ',', texts[1][0], ',', texts[2][0], ',', texts[3][0]]) == texts
  {
    JoinFour(texts);
    forall i | 0 <= i < 4
      ensures ',' !in texts[i] && ' ' !in texts[i]
    {
      assert texts[i] == [texts[i][0]];
    }
    JoinOmits(texts, ",", ' ');
    SplitJoin(texts, ',');
  }

  /** Four one-character pieces joined by commas. */
  lemma JoinFour(texts: seq<string>)
    requires |texts| == 4 && forall i :: 0 <= i < 4 ==> |texts[i]| == 1
    ensures Join(texts, ",") == [texts[0][0], ',', texts[1][0], ',', texts[2][0], ',', texts[3][0]]
  {
    assert texts[1..][1..][1..] == [texts[3]];
    assert Join(texts[1..][1..], ",") == texts[2] + "," + texts[3];
    assert Join(texts[1..], ",") == texts[1] + "," + texts[2] + "," + texts[3];
    assert texts[0] == [texts[0][0]] && texts[1] == [texts[1][0]];
    assert texts[2] == [texts[2][0]] && texts[3] == [texts[3][0]];
  }
}
