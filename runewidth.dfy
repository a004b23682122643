/**
  Display width, as the `go-runewidth` library measures it: every character
  occupies 0, 1 or 2 terminal columns and a string occupies the sum of its
  characters' widths. `Truncate` with an empty tail cuts a string to the
  longest prefix that fits a width budget.
*/
module RuneWidth {

  /**
    A small instance of the library's width classes: control characters and
    combining diacritical marks take no column; Hangul Jamo, CJK symbols,
    Hiragana, Katakana, CJK ideographs, Hangul syllables and the fullwidth
    forms take two; everything else takes one.
  */
  function RuneWidth(c: char): (w: nat)
    ensures w <= 2
    ensures ' ' <= c <= '~' ==> w == 1
  {
    if c < ' ' || ('\U{7F}' <= c <= '\U{9F}') || ('\U{0300}' <= c <= '\U{036F}') then 0
    else if ('\U{1100}' <= c <= '\U{115F}') || ('\U{2E80}' <= c <= '\U{303E}')
      || ('\U{3041}' <= c <= '\U{33FF}') || ('\U{3400}' <= c <= '\U{4DBF}')
      || ('\U{4E00}' <= c <= '\U{9FFF}') || ('\U{AC00}' <= c <= '\U{D7A3}')
      || ('\U{F900}' <= c <= '\U{FAFF}') || ('\U{FF00}' <= c <= '\U{FF60}')
      || ('\U{FFE0}' <= c <= '\U{FFE6}') then 2
    else 1
  }

  /** runewidth.StringWidth: the sum of the widths of the characters of `s`. */
  function StringWidth(s: string): (w: nat)
    ensures w <= 2 * |s|
    ensures s == [] ==> w == 0
  {
    if s == [] then 0 else StringWidth(s[..|s| - 1]) + RuneWidth(s[|s| - 1])
  }

  lemma {:induction false} StringWidthConcat(a: string, b: string)
    decreases |b|
    ensures StringWidth(a + b) == StringWidth(a) + StringWidth(b)
  {
    if b == [] {
      assert a + b == a;
    } else {
      var b' := b[..|b| - 1];
      StringWidthConcat(a, b');
      assert (a + b)[..|a + b| - 1] == a + b';
    }
  }

  /** Widening a prefix never makes it narrower. */
  lemma {:induction false} StringWidthPrefix(s: string, j: nat, k: nat)
    requires j <= k <= |s|
    decreases k - j
    ensures StringWidth(s[..j]) <= StringWidth(s[..k])
  {
    if j < k {
      StringWidthPrefix(s, j, k - 1);
      assert s[..k][..k - 1] == s[..k - 1];
    }
  }

  /** Every character of a string of printable ASCII takes exactly one column. */
  lemma {:induction false} StringWidthAscii(s: string)
    requires forall k :: 0 <= k < |s| ==> ' ' <= s[k] <= '~'
    ensures StringWidth(s) == |s|
  {
    if s != [] {
      StringWidthAscii(s[..|s| - 1]);
    }
  }

  /**
    The scan inside runewidth.Truncate: starting with the first `i` characters,
    which fit, keep taking the next character while the prefix still fits.
  */
  function FitFrom(s: string, budget: int, i: nat): (j: nat)
    requires i <= |s|
    decreases |s| - i
    ensures i <= j <= |s|
  {
    if i < |s| && StringWidth(s[..i + 1]) <= budget then FitFrom(s, budget, i + 1) else i
  }

  /** The scan stops at the first prefix that overflows, and every prefix it took fits. */
  lemma {:induction false} FitFromStops(s: string, budget: int, i: nat)
    requires i <= |s|
    decreases |s| - i
    ensures forall k :: i < k <= FitFrom(s, budget, i) ==> StringWidth(s[..k]) <= budget
    ensures FitFrom(s, budget, i) < |s| ==> StringWidth(s[..FitFrom(s, budget, i) + 1]) > budget
  {
    if i < |s| && StringWidth(s[..i + 1]) <= budget {
      FitFromStops(s, budget, i + 1);
    }
  }

  /**
    runewidth.Truncate(s, w, ""): `s` itself when it fits in `w` columns,
    otherwise its prefix up to the first character that would overflow.
  */
  function Truncate(s: string, w: int): (r: string)
    ensures |r| <= |s| && r == s[..|r|]
  {
    if StringWidth(s) <= w then s else s[..FitFrom(s, w, 0)]
  }

  /**
    What Truncate promises: the result is a prefix of `s`; `s` comes back
    whole when it fits; the result fits whenever the budget is not negative
    and is empty when it is; and when the result is shorter than `s`, one
    more character would not fit.
  */
  lemma TruncateFits(s: string, w: int)
    ensures var r := Truncate(s, w);
      |r| <= |s| && r == s[..|r|] &&
      (StringWidth(s) <= w ==> r == s) &&
      (w >= 0 ==> StringWidth(r) <= w) &&
      (w < 0 ==> r == []) &&
      (|r| < |s| ==> StringWidth(s[..|r| + 1]) > w)
  {
    if StringWidth(s) <= w {
      assert s[..|s|] == s;
    } else {
      var j := FitFrom(s, w, 0);
      FitFromStops(s, w, 0);
      assert j > 0 ==> StringWidth(s[..j]) <= w;
      assert s[..0] == [];
    }
  }

  /** A string of `n` spaces. */
  function Spaces(n: nat): (r: string)
    ensures |r| == n
    ensures forall k :: 0 <= k < n ==> r[k] == ' '
  {
    if n == 0 then [] else Spaces(n - 1) + " "
  }

  lemma {:induction false} StringWidthSpaces(n: nat)
    ensures StringWidth(Spaces(n)) == n
  {
    if n > 0 {
      StringWidthSpaces(n - 1);
      assert Spaces(n)[..n - 1] == Spaces(n - 1);
    }
  }

  /**
    Truncate keeps the longest prefix that fits: no longer prefix of `s` fits
    in the budget, because widening a prefix never narrows it.
  */
  lemma TruncateLongest(s: string, w: int, k: nat)
    requires |Truncate(s, w)| < k <= |s|
    ensures StringWidth(s[..k]) > w
  {
    TruncateFits(s, w);
    var n := |Truncate(s, w)|;
    StringWidthPrefix(s, n + 1, k);
  }

  /** Truncating twice to the same width cuts nothing more. */
  lemma TruncateIdempotent(s: string, w: int)
    ensures Truncate(Truncate(s, w), w) == Truncate(s, w)
  {
    var r := Truncate(s, w);
    TruncateFits(s, w);
    TruncateFits(r, w);
    if w >= 0 {
      assert r[..|r|] == r;
    }
  }
}
