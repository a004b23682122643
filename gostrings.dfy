/**
  The parts of Go's `strings` and `unicode` packages that the aligner relies on,
  over strings as sequences of characters (runes): `strings.Index`, `strings.Split`,
  `strings.Join`, `strings.TrimSpace`, `strings.Fields` and
  `strings.Replace(s, " ", "", -1)`, with `unicode.IsSpace` as the notion of
  white space.
*/
module GoStrings {
  import opened Wrappers

  /**
    unicode.White_Space as Go's range table lists it: inclusive ranges of
    characters, in increasing order.
  */
  const WhiteSpace: seq<(char, char)> := [
    ('\t', '\r'), (' ', ' '), ('\U{85}', '\U{85}'), ('\U{A0}', '\U{A0}'),
    ('\U{1680}', '\U{1680}'), ('\U{2000}', '\U{200A}'), ('\U{2028}', '\U{2029}'),
    ('\U{202F}', '\U{202F}'), ('\U{205F}', '\U{205F}'), ('\U{3000}', '\U{3000}')]

  /** `c` falls in one of the ranges of `table`. */
  predicate InRanges(c: char, table: seq<(char, char)>) {
    table != [] && ((table[0].0 <= c <= table[0].1) || InRanges(c, table[1..]))
  }

  /** unicode.IsSpace: membership in the White_Space table. */
  predicate IsSpace(c: char) {
    InRanges(c, WhiteSpace)
  }

  /** The ASCII white space: tab, line feed, vertical tab, form feed, carriage return and space. */
  lemma AsciiSpaces(c: char)
    requires c in "\t\n\U{0B}\U{0C}\r "
    ensures IsSpace(c)
  {
    if c == ' ' {
      assert WhiteSpace[1..][0] == (' ', ' ');
    }
  }

  /** A character outside every range of the table is not in it. */
  lemma {:induction false} OutsideRanges(c: char, table: seq<(char, char)>)
    requires forall i :: 0 <= i < |table| ==> !(table[i].0 <= c <= table[i].1)
    ensures !InRanges(c, table)
  {
    if table != [] {
      OutsideRanges(c, table[1..]);
    }
  }

  /** ASCII letters and digits are not white space. */
  lemma AsciiAlphanumeric(c: char)
    requires 'a' <= c <= 'z' || 'A' <= c <= 'Z' || '0' <= c <= '9'
    ensures !IsSpace(c)
  {
    OutsideRanges(c, WhiteSpace);
  }

  predicate AllSpace(s: string) {
    forall k :: 0 <= k < |s| ==> IsSpace(s[k])
  }

  /** A field as strings.Fields produces it: non-empty, without white space. */
  predicate IsWord(s: string) {
    s != [] && forall k :: 0 <= k < |s| ==> !IsSpace(s[k])
  }

  predicate OccursAt(s: string, sep: string, k: int) {
    0 <= k && k + |sep| <= |s| && s[k..k + |sep|] == sep
  }

  /** The first occurrence of `sep` in `s` at or after position `k`. */
  function IndexFrom(s: string, sep: string, k: nat): (r: Option<nat>)
    requires k <= |s|
    decreases |s| - k
    ensures r.Some? ==> k <= r.value && OccursAt(s, sep, r.value)
  {
    if OccursAt(s, sep, k) then Some(k)
    else if k == |s| then None
    else IndexFrom(s, sep, k + 1)
  }

  /** The scan finds the first occurrence at or after `k`, and finds none only when there is none. */
  lemma {:induction false} IndexFromFirst(s: string, sep: string, k: nat)
    requires k <= |s|
    decreases |s| - k
    ensures IndexFrom(s, sep, k).Some? ==> forall m :: k <= m < IndexFrom(s, sep, k).value ==> !OccursAt(s, sep, m)
    ensures IndexFrom(s, sep, k).None? ==> forall m :: k <= m ==> !OccursAt(s, sep, m)
  {
    if !OccursAt(s, sep, k) && k < |s| {
      IndexFromFirst(s, sep, k + 1);
    }
  }

  /** strings.Index: the first occurrence of `sep` in `s`, if any. */
  function Index(s: string, sep: string): (r: Option<nat>)
    ensures r.Some? ==> OccursAt(s, sep, r.value)
  {
    IndexFrom(s, sep, 0)
  }

  /** Index finds the first occurrence, and finds none only when `sep` does not occur. */
  lemma IndexFirst(s: string, sep: string)
    ensures Index(s, sep).Some? ==> forall m :: 0 <= m < Index(s, sep).value ==> !OccursAt(s, sep, m)
    ensures Index(s, sep).None? ==> forall m :: !OccursAt(s, sep, m)
  {
    IndexFromFirst(s, sep, 0);
  }

  /**
    strings.Split with a non-empty separator: the pieces of `s` between the
    successive non-overlapping occurrences of `sep`, found left to right.
  */
  function Split(s: string, sep: string): (parts: seq<string>)
    requires sep != []
    decreases |s|
    ensures |parts| >= 1
  {
    match Index(s, sep)
    case None => [s]
    case Some(m) => [s[..m]] + Split(s[m + |sep|..], sep)
  }

  /** No piece of a split contains the separator. */
  lemma {:induction false} SplitPartsLackSeparator(s: string, sep: string)
    requires sep != []
    decreases |s|
    ensures forall i :: 0 <= i < |Split(s, sep)| ==> Index(Split(s, sep)[i], sep).None?
  {
    match Index(s, sep)
    case None =>
    case Some(m) =>
      var tail := s[m + |sep|..];
      IndexFirst(s, sep);
      SplitPartsLackSeparator(tail, sep);
      forall j | OccursAt(s[..m], sep, j) ensures false {
        assert s[..m][j..j + |sep|] == s[j..j + |sep|];
        assert OccursAt(s, sep, j);
      }
      var parts := Split(s, sep);
      assert parts == [s[..m]] + Split(tail, sep);
      forall i | 0 < i < |parts| ensures Index(parts[i], sep).None? {
        assert parts[i] == Split(tail, sep)[i - 1];
      }
  }

  /** strings.Join: the parts with `sep` between consecutive ones, none at the end. */
  function Join(parts: seq<string>, sep: string): string {
    if |parts| == 0 then ""
    else if |parts| == 1 then parts[0]
    else parts[0] + sep + Join(parts[1..], sep)
  }

  /** Joining the pieces of a split with the same separator gives the text back. */
  lemma {:induction false} JoinSplit(s: string, sep: string)
    requires sep != []
    decreases |s|
    ensures Join(Split(s, sep), sep) == s
  {
    match Index(s, sep)
    case None =>
    case Some(m) =>
      var tail := s[m + |sep|..];
      var parts := Split(s, sep);
      assert parts == [s[..m]] + Split(tail, sep);
      assert parts[1..] == Split(tail, sep);
      assert Join(parts, sep) == s[..m] + sep + Join(parts[1..], sep);
      JoinSplit(tail, sep);
      assert s == s[..m] + sep + tail;
  }

  /** With a one-character separator, Index finds the first position holding it. */
  lemma IndexOfChar(s: string, c: char, m: nat)
    requires m < |s| && s[m] == c
    requires forall k :: 0 <= k < m ==> s[k] != c
    ensures Index(s, [c]) == Some(m)
  {
    IndexFirst(s, [c]);
    assert OccursAt(s, [c], m) by { assert s[m..m + 1] == [c]; }
    forall k | 0 <= k < m ensures !OccursAt(s, [c], k) {
      assert s[k..k + 1] == [s[k]];
    }
  }

  lemma NoIndexOfChar(s: string, c: char)
    requires c !in s
    ensures Index(s, [c]) == None
  {
    forall k | 0 <= k < |s| ensures !OccursAt(s, [c], k) {
      assert s[k..k + 1] == [s[k]];
    }
  }

  /** What Index tells about a one-character separator, position by position. */
  lemma IndexOfCharFacts(s: string, c: char)
    ensures Index(s, [c]).None? ==> c !in s
    ensures Index(s, [c]).Some? ==> Index(s, [c]).value < |s| && s[Index(s, [c]).value] == c
    ensures Index(s, [c]).Some? ==> forall k :: 0 <= k < Index(s, [c]).value ==> s[k] != c
  {
    IndexFirst(s, [c]);
    forall k | 0 <= k < |s| && s[k] == c ensures OccursAt(s, [c], k) {
      assert s[k..k + 1] == [c];
    }
    if Index(s, [c]).Some? {
      var m := Index(s, [c]).value;
      assert s[m..m + 1][0] == s[m];
    }
  }

  /**
    With a one-character separator that no part contains, splitting the joined
    text gives the parts back.
  */
  lemma {:induction false} SplitJoin(parts: seq<string>, c: char)
    requires |parts| >= 1
    requires forall i :: 0 <= i < |parts| ==> c !in parts[i]
    ensures Split(Join(parts, [c]), [c]) == parts
  {
    if |parts| == 1 {
      NoIndexOfChar(parts[0], c);
    } else {
      var p, rest := parts[0], Join(parts[1..], [c]);
      var s := p + [c] + rest;
      assert Join(parts, [c]) == s;
      IndexOfChar(s, c, |p|);
      assert s[..|p|] == p && s[|p| + 1..] == rest;
      SplitJoin(parts[1..], c);
      assert parts == [p] + parts[1..];
    }
  }

  /** Joining two non-empty lists of parts puts one separator between the two joins. */
  lemma {:induction false} JoinConcat(p: seq<string>, q: seq<string>, sep: string)
    requires |p| >= 1 && |q| >= 1
    decreases |p|
    ensures Join(p + q, sep) == Join(p, sep) + sep + Join(q, sep)
  {
    if |p| == 1 {
      assert (p + q)[1..] == q;
    } else {
      JoinConcat(p[1..], q, sep);
      assert (p + q)[1..] == p[1..] + q;
    }
  }

  /** No piece of a split at `c` contains `c`. */
  lemma SplitLacksChar(s: string, c: char)
    ensures forall i :: 0 <= i < |Split(s, [c])| ==> c !in Split(s, [c])[i]
  {
    SplitPartsLackSeparator(s, [c]);
    forall i | 0 <= i < |Split(s, [c])|
      ensures c !in Split(s, [c])[i]
    {
      IndexOfCharFacts(Split(s, [c])[i], c);
    }
  }

  /**
    Splitting at a one-character separator distributes over an occurrence of it:
    the text before and the text after split independently.
  */
  lemma SplitConcat(a: string, c: char, b: string)
    ensures Split(a + [c] + b, [c]) == Split(a, [c]) + Split(b, [c])
  {
    var p, q := Split(a, [c]), Split(b, [c]);
    JoinSplit(a, [c]);
    JoinSplit(b, [c]);
    JoinConcat(p, q, [c]);
    SplitLacksChar(a, c);
    SplitLacksChar(b, c);
    forall i | 0 <= i < |p + q|
      ensures c !in (p + q)[i]
    {
      if i >= |p| {
        assert (p + q)[i] == q[i - |p|];
      }
    }
    SplitJoin(p + q, c);
  }

  /** A character absent from every part and from the separator is absent from the join. */
  lemma {:induction false} JoinOmits(parts: seq<string>, sep: string, c: char)
    requires c !in sep
    requires forall i :: 0 <= i < |parts| ==> c !in parts[i]
    ensures c !in Join(parts, sep)
  {
    if |parts| > 1 {
      JoinOmits(parts[1..], sep, c);
    }
  }

  /** The end of the run of white space that starts at position `i`. */
  function SkipSpace(s: string, i: nat): (j: nat)
    requires i <= |s|
    decreases |s| - i
    ensures i <= j <= |s|
    ensures forall k :: i <= k < j ==> IsSpace(s[k])
    ensures j < |s| ==> !IsSpace(s[j])
  {
    if i < |s| && IsSpace(s[i]) then SkipSpace(s, i + 1) else i
  }

  /** The end of the run of non-white-space characters that starts at position `i`. */
  function SkipWord(s: string, i: nat): (j: nat)
    requires i <= |s|
    decreases |s| - i
    ensures i <= j <= |s|
    ensures forall k :: i <= k < j ==> !IsSpace(s[k])
    ensures j < |s| ==> IsSpace(s[j])
  {
    if i < |s| && !IsSpace(s[i]) then SkipWord(s, i + 1) else i
  }

  /** The start of the run of white space that ends at position `j`. */
  function SpaceStart(s: string, j: nat): (i: nat)
    requires j <= |s|
    ensures i <= j
    ensures forall k :: i <= k < j ==> IsSpace(s[k])
    ensures 0 < i ==> !IsSpace(s[i - 1])
  {
    if 0 < j && IsSpace(s[j - 1]) then SpaceStart(s, j - 1) else j
  }

  lemma SkipSpaceAt(s: string, i: nat, j: nat)
    requires i <= j <= |s|
    requires forall k :: i <= k < j ==> IsSpace(s[k])
    requires j < |s| ==> !IsSpace(s[j])
    ensures SkipSpace(s, i) == j
  {
  }

  lemma SkipWordAt(s: string, i: nat, j: nat)
    requires i <= j <= |s|
    requires forall k :: i <= k < j ==> !IsSpace(s[k])
    requires j < |s| ==> IsSpace(s[j])
    ensures SkipWord(s, i) == j
  {
  }

  /** strings.TrimLeftFunc(s, unicode.IsSpace): `s` without its leading white space. */
  function TrimLeft(s: string): (r: string)
    ensures |r| <= |s|
  {
    if s != [] && IsSpace(s[0]) then TrimLeft(s[1..]) else s
  }

  /** strings.TrimRightFunc(s, unicode.IsSpace): `s` without its trailing white space. */
  function TrimRight(s: string): (r: string)
    ensures |r| <= |s|
  {
    if s != [] && IsSpace(s[|s| - 1]) then TrimRight(s[..|s| - 1]) else s
  }

  /** strings.TrimSpace: `s` without its leading and trailing white space. */
  function TrimSpace(s: string): (r: string)
    ensures |r| <= |s|
  {
    TrimRight(TrimLeft(s))
  }

  lemma {:induction false} TrimLeftAt(s: string, i: nat)
    requires i <= |s|
    decreases |s| - i
    ensures TrimLeft(s[i..]) == s[SkipSpace(s, i)..]
  {
    if i < |s| && IsSpace(s[i]) {
      assert s[i..][1..] == s[i + 1..];
      TrimLeftAt(s, i + 1);
    }
  }

  lemma {:induction false} TrimRightAt(s: string, j: nat)
    requires j <= |s|
    decreases j
    ensures TrimRight(s[..j]) == s[..SpaceStart(s, j)]
  {
    if 0 < j && IsSpace(s[j - 1]) {
      assert s[..j][..j - 1] == s[..j - 1];
      TrimRightAt(s, j - 1);
    }
  }

  lemma SpaceStartAt(s: string, i: nat, j: nat)
    requires i <= j <= |s|
    requires forall k :: i <= k < j ==> IsSpace(s[k])
    requires 0 < i ==> !IsSpace(s[i - 1])
    ensures SpaceStart(s, j) == i
  {
  }

  /**
    TrimSpace keeps the piece of `s` between the end of its leading white
    space and the start of its trailing white space, or nothing when `s` is
    all white space.
  */
  lemma TrimSpaceIs(s: string)
    ensures var b, e := SkipSpace(s, 0), SpaceStart(s, |s|);
      TrimSpace(s) == if b == |s| then [] else s[b..e]
  {
    var b, e := SkipSpace(s, 0), SpaceStart(s, |s|);
    var u := s[b..];
    assert TrimLeft(s) == u by {
      TrimLeftAt(s, 0);
      assert s[0..] == s;
    }
    assert TrimRight(u) == u[..SpaceStart(u, |u|)] by {
      TrimRightAt(u, |u|);
      assert u[..|u|] == u;
    }
    if b < |s| {
      SpaceStartOfSuffix(s, b);
      SliceOfSuffix(s, b, e);
    }
  }

  /** Cutting off a prefix that ends before the trailing white space does not move it. */
  lemma SpaceStartOfSuffix(s: string, b: nat)
    requires b < |s| && !IsSpace(s[b])
    ensures b < SpaceStart(s, |s|)
    ensures SpaceStart(s[b..], |s| - b) == SpaceStart(s, |s|) - b
  {
    var u, e := s[b..], SpaceStart(s, |s|);
    forall k | e - b <= k < |u| ensures IsSpace(u[k]) { assert u[k] == s[b + k]; }
    assert u[e - b - 1] == s[e - 1];
    SpaceStartAt(u, e - b, |u|);
  }

  lemma SliceOfSuffix(s: string, b: nat, e: nat)
    requires b <= e <= |s|
    ensures s[b..][..e - b] == s[b..e]
  {
  }

  /** TrimSpace leaves neither leading nor trailing white space. */
  lemma TrimSpaceEnds(s: string)
    ensures var r := TrimSpace(s); r == [] || (!IsSpace(r[0]) && !IsSpace(r[|r| - 1]))
  {
    TrimSpaceIs(s);
  }

  /**
    TrimSpace keeps a piece of `s`, starting where the leading white space
    ends, and cuts only white space on either side of it.
  */
  lemma TrimSpaceCuts(s: string)
    ensures var r, i := TrimSpace(s), SkipSpace(s, 0);
      && i + |r| <= |s|
      && r == s[i..i + |r|]
      && AllSpace(s[..i])
      && AllSpace(s[i + |r|..])
  {
    var b, e := SkipSpace(s, 0), SpaceStart(s, |s|);
    TrimSpaceIs(s);
    assert AllSpace(s[..b]) by {
      forall k | 0 <= k < b ensures IsSpace(s[..b][k]) { assert s[..b][k] == s[k]; }
    }
    if b < |s| {
      assert AllSpace(s[e..]) by {
        forall k | 0 <= k < |s| - e ensures IsSpace(s[e..][k]) { assert s[e..][k] == s[e + k]; }
      }
    }
  }

  /** Trimming twice trims nothing more. */
  lemma TrimSpaceIdempotent(s: string)
    ensures TrimSpace(TrimSpace(s)) == TrimSpace(s)
  {
    var r := TrimSpace(s);
    TrimSpaceEnds(s);
    TrimSpaceIs(r);
    if r != [] {
      SkipSpaceAt(r, 0, 0);
      SpaceStartAt(r, |r|, |r|);
      assert r[0..|r|] == r;
    }
  }

  /**
    strings.Fields: the maximal runs of non-white-space characters of `s`, in
    order; every field is a non-empty word.
  */
  function Fields(s: string): (fs: seq<string>)
    decreases |s|
    ensures forall i :: 0 <= i < |fs| ==> IsWord(fs[i])
  {
    var b := SkipSpace(s, 0);
    if b == |s| then []
    else
      var e := SkipWord(s, b);
      assert IsWord(s[b..e]) by {
        forall k | 0 <= k < e - b ensures !IsSpace(s[b..e][k]) { assert s[b..e][k] == s[b + k]; }
      }
      [s[b..e]] + Fields(s[e..])
  }

  /** A line of white space only has no fields. */
  lemma FieldsOfSpace(s: string)
    requires AllSpace(s)
    ensures Fields(s) == []
  {
    SkipSpaceAt(s, 0, |s|);
  }

  /** Leading white space, of any kind and length, does not change the fields. */
  lemma FieldsSkipLeadingSpace(ws: string, s: string)
    requires AllSpace(ws)
    ensures Fields(ws + s) == Fields(s)
  {
    var t, n := ws + s, |ws|;
    var b := SkipSpace(s, 0);
    SkipSpaceShift(ws, s);
    if b < |s| {
      var e := SkipWord(s, b);
      SkipWordShift(ws, s, b);
      SliceShift(ws, s, b, e);
      FieldsSameFirst(t, n + b, n + e, s, b, e);
    } else {
      FieldsNone(t);
      FieldsNone(s);
    }
  }

  /** Two strings whose first fields and remainders agree have the same fields. */
  lemma FieldsSameFirst(t: string, bt: nat, et: nat, s: string, b: nat, e: nat)
    requires bt < |t| && SkipSpace(t, 0) == bt && SkipWord(t, bt) == et
    requires b < |s| && SkipSpace(s, 0) == b && SkipWord(s, b) == e
    requires t[bt..et] == s[b..e] && t[et..] == s[e..]
    ensures Fields(t) == Fields(s)
  {
    FieldsUnfold(t, bt, et);
    FieldsUnfold(s, b, e);
  }

  lemma FieldsNone(s: string)
    requires SkipSpace(s, 0) == |s|
    ensures Fields(s) == []
  {
  }

  /** One step of strings.Fields: the first field runs from `b` to `e`. */
  lemma FieldsUnfold(s: string, b: nat, e: nat)
    requires b < |s| && SkipSpace(s, 0) == b
    requires b <= |s| && SkipWord(s, b) == e
    ensures Fields(s) == [s[b..e]] + Fields(s[e..])
  {
  }

  lemma SliceShift(ws: string, s: string, i: nat, j: nat)
    requires i <= j <= |s|
    ensures (ws + s)[|ws| + i..|ws| + j] == s[i..j]
    ensures (ws + s)[|ws| + j..] == s[j..]
  {
  }

  lemma SkipSpaceShift(ws: string, s: string)
    requires AllSpace(ws)
    ensures SkipSpace(ws + s, 0) == |ws| + SkipSpace(s, 0)
  {
    var t, n, b := ws + s, |ws|, SkipSpace(s, 0);
    forall k | 0 <= k < n + b ensures IsSpace(t[k]) {
      if k >= n { assert t[k] == s[k - n]; }
    }
    assert n + b < |t| ==> t[n + b] == s[b];
    SkipSpaceAt(t, 0, n + b);
  }

  lemma SkipWordShift(ws: string, s: string, b: nat)
    requires b <= |s|
    ensures SkipWord(ws + s, |ws| + b) == |ws| + SkipWord(s, b)
  {
    var t, n, e := ws + s, |ws|, SkipWord(s, b);
    forall k | n + b <= k < n + e ensures !IsSpace(t[k]) {
      assert t[k] == s[k - n];
    }
    assert n + e < |t| ==> t[n + e] == s[e];
    SkipWordAt(t, n + b, n + e);
  }

  /** A word followed by white space (or nothing) is the first field. */
  lemma FieldsCons(w: string, rest: string)
    requires IsWord(w)
    requires rest == [] || IsSpace(rest[0])
    ensures Fields(w + rest) == [w] + Fields(rest)
  {
    var t := w + rest;
    assert t[0] == w[0];
    SkipSpaceAt(t, 0, 0);
    forall k | 0 <= k < |w| ensures !IsSpace(t[k]) {
      assert t[k] == w[k];
    }
    assert |w| < |t| ==> t[|w|] == rest[0];
    SkipWordAt(t, 0, |w|);
    assert t[0..|w|] == w;
    assert t[|w|..] == rest;
  }

  /** A word, then a non-empty run of white space: the word is the first field. */
  lemma FieldsOfWordThenSpace(w: string, sep: string, rest: string)
    requires IsWord(w)
    requires sep != [] && AllSpace(sep)
    ensures Fields(w + sep + rest) == [w] + Fields(rest)
  {
    assert w + sep + rest == w + (sep + rest);
    assert (sep + rest)[0] == sep[0];
    FieldsCons(w, sep + rest);
    FieldsSkipLeadingSpace(sep, rest);
  }

  /**
    strings.Fields undoes a join with any non-empty run of white space: words
    separated by one space, several spaces or tabs give the same fields.
  */
  lemma {:induction false} FieldsOfJoin(words: seq<string>, sep: string)
    requires sep != [] && AllSpace(sep)
    requires forall i :: 0 <= i < |words| ==> IsWord(words[i])
    ensures Fields(Join(words, sep)) == words
  {
    if |words| == 1 {
      FieldsCons(words[0], []);
      assert words[0] + [] == words[0];
    } else if |words| > 1 {
      var tail := words[1..];
      assert Join(words, sep) == words[0] + sep + Join(tail, sep);
      FieldsOfWordThenSpace(words[0], sep, Join(tail, sep));
      forall i | 0 <= i < |tail| ensures IsWord(tail[i]) {
        assert tail[i] == words[i + 1];
      }
      FieldsOfJoin(tail, sep);
      assert words == [words[0]] + tail;
    }
  }

  /** strings.Replace(s, string(c), "", -1): `s` with every `c` deleted. */
  function Remove(s: string, c: char): (r: string)
    ensures c !in r
    ensures c !in s ==> r == s
  {
    if s == [] then [] else (if s[0] == c then [] else [s[0]]) + Remove(s[1..], c)
  }

  /** Deleting a character distributes over concatenation. */
  lemma {:induction false} RemoveConcat(a: string, b: string, c: char)
    ensures Remove(a + b, c) == Remove(a, c) + Remove(b, c)
  {
    if a != [] {
      var head := if a[0] == c then [] else [a[0]];
      calc {
        Remove(a + b, c);
      == { assert (a + b)[0] == a[0]; assert (a + b)[1..] == a[1..] + b; }
        head + Remove(a[1..] + b, c);
      == { RemoveConcat(a[1..], b, c); }
        head + (Remove(a[1..], c) + Remove(b, c));
      ==
        (head + Remove(a[1..], c)) + Remove(b, c);
      }
    } else {
      assert a + b == b;
    }
  }
}
