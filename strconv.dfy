/**
  The part of Go's `strconv` package the aligner uses: `Atoi`, which reads a
  decimal integer the width of Go's `int` (64 bits here), and `Itoa`, its
  inverse, which the model uses to state round trips.
*/
module StrConv {
  import opened Wrappers

  const MinInt: int := -0x8000_0000_0000_0000
  const MaxInt: int := 0x7FFF_FFFF_FFFF_FFFF
  /** The largest magnitude the unsigned scan can hold before it reports a range error. */
  const MaxUint: int := 0xFFFF_FFFF_FFFF_FFFF

  /** The texts of strconv.ErrSyntax and strconv.ErrRange. */
  const ErrSyntax: string := "invalid syntax"
  const ErrRange: string := "value out of range"

  predicate IsDigit(c: char) {
    '0' <= c <= '9'
  }

  predicate AllDigits(s: string) {
    forall k :: 0 <= k < |s| ==> IsDigit(s[k])
  }

  function DigitValue(c: char): (d: nat)
    requires IsDigit(c)
    ensures d < 10
  {
    c as int - '0' as int
  }

  function DigitChar(d: nat): (c: char)
    requires d < 10
    ensures IsDigit(c) && DigitValue(c) == d
  {
    ('0' as int + d) as char
  }

  /** The value of a run of decimal digits, most significant first. */
  function DecimalValue(s: string): (v: nat)
    requires AllDigits(s)
    ensures s == [] ==> v == 0
  {
    if s == [] then 0
    else DecimalValue(s[..|s| - 1]) * 10 + DigitValue(s[|s| - 1])
  }

  /** Length of the longest prefix of `s[i..]` made of digits, counted from `i`. */
  function DigitEnd(s: string, i: nat): (j: nat)
    requires i <= |s|
    decreases |s| - i
    ensures i <= j <= |s|
    ensures forall k :: i <= k < j ==> IsDigit(s[k])
    ensures j < |s| ==> !IsDigit(s[j])
  {
    if i < |s| && IsDigit(s[i]) then DigitEnd(s, i + 1) else i
  }

  /** Where the digits start: after one optional '+' or '-'. */
  function SignLength(s: string): (n: nat)
    ensures n <= 1 && n <= |s|
    ensures n == 1 <==> (|s| > 0 && (s[0] == '+' || s[0] == '-'))
  {
    if |s| > 0 && (s[0] == '+' || s[0] == '-') then 1 else 0
  }

  /**
    strconv.Atoi: an optional sign, then one or more decimal digits, whose
    value must fit in 64 bits. The unsigned scan stops with a range error as
    soon as the digits read so far exceed 64 unsigned bits, even when a
    non-digit follows; otherwise any non-digit is a syntax error, and a
    magnitude beyond the signed range is a range error.
  */
  function Atoi(s: string): (r: Result<int>)
    ensures r.Success? ==> MinInt <= r.value <= MaxInt
    ensures r.Success? ==> (var n := SignLength(s);
      n < |s| && AllDigits(s[n..]) &&
      r.value == (if n == 1 && s[0] == '-' then -(DecimalValue(s[n..]) as int) else DecimalValue(s[n..])))
    ensures r.Failure? ==> r.error == ErrSyntax || r.error == ErrRange
  {
    var n := SignLength(s);
    var neg := n == 1 && s[0] == '-';
    if n == |s| then Failure(ErrSyntax)
    else
      var e := DigitEnd(s, n);
      assert AllDigits(s[n..e]) by {
        forall k | 0 <= k < e - n ensures IsDigit(s[n..e][k]) { assert s[n..e][k] == s[n + k]; }
      }
      var u: int := DecimalValue(s[n..e]);
      if u > MaxUint then Failure(ErrRange)
      else if e < |s| then Failure(ErrSyntax)
      else
        assert s[n..] == s[n..e];
        if neg then (if -u < MinInt then Failure(ErrRange) else Success(-u))
        else (if u > MaxInt then Failure(ErrRange) else Success(u))
  }

  /** The decimal digits of `n`, without leading zeros. */
  function NatDigits(n: nat): (s: string)
    decreases n
    ensures s != [] && AllDigits(s)
    ensures s[0] != '0' || n == 0
  {
    if n < 10 then [DigitChar(n)] else NatDigits(n / 10) + [DigitChar(n % 10)]
  }

  /** strconv.Itoa: the shortest decimal text of `n`, with '-' when it is negative. */
  function Itoa(n: int): (s: string)
    ensures s != []
  {
    if n < 0 then "-" + NatDigits(-n) else NatDigits(n)
  }

  lemma {:induction false} DecimalValueOfNatDigits(n: nat)
    decreases n
    ensures DecimalValue(NatDigits(n)) == n
  {
    var s := NatDigits(n);
    if n >= 10 {
      DecimalValueOfNatDigits(n / 10);
      assert s[..|s| - 1] == NatDigits(n / 10);
    }
  }

  /** Atoi reads back what Itoa writes, for every 64-bit integer. */
  lemma AtoiItoa(n: int)
    requires MinInt <= n <= MaxInt
    ensures Atoi(Itoa(n)) == Success(n)
  {
    var s := Itoa(n);
    var m := if n < 0 then -n else n;
    var d := NatDigits(m);
    var k := SignLength(s);
    DecimalValueOfNatDigits(m);
    if n < 0 {
      assert s[0] == '-' && k == 1;
    } else {
      assert IsDigit(s[0]) && k == 0;
    }
    assert s[k..] == d;
    DigitEndAll(s, k);
    assert s[k..|s|] == d;
  }

  /** On a string of digits from `i` on, the digit scan reaches the end. */
  lemma DigitEndAll(s: string, i: nat)
    requires i <= |s| && AllDigits(s[i..])
    ensures DigitEnd(s, i) == |s|
  {
    forall k | i <= k < |s| ensures IsDigit(s[k]) {
      assert s[i..][k - i] == s[k];
    }
  }

  /**
    Atoi accepts every text it can read: an optional sign followed by one or
    more digits whose signed value fits in 64 bits, leading zeros and a '+'
    included.
  */
  lemma AtoiAccepts(s: string)
    requires var n := SignLength(s);
      n < |s| && AllDigits(s[n..]) &&
      MinInt <= (if n == 1 && s[0] == '-' then -(DecimalValue(s[n..]) as int) else DecimalValue(s[n..])) <= MaxInt
    ensures var n := SignLength(s);
      Atoi(s) == Success(if n == 1 && s[0] == '-' then -(DecimalValue(s[n..]) as int) else DecimalValue(s[n..]))
  {
    var n := SignLength(s);
    DigitEndAll(s, n);
    assert s[n..DigitEnd(s, n)] == s[n..];
  }

  /** Atoi rejects the empty string and a lone sign. */
  lemma AtoiNeedsDigits(s: string)
    requires |s| <= 1
    requires s == [] || !IsDigit(s[0])
    ensures Atoi(s).Failure?
  {
  }
}
