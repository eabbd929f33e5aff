/** String operations the column-name resolver uses, stated with Python's
    semantics: `str.find`, `re.sub` over literal alternatives, `str.split`
    with a separator, `str.strip`, `str.split()` with no separator and
    `str.upper` (restricted to ASCII). */
module Text {
  import opened Wrappers

  // ---------------------------------------------------------------- search

  /** `p` occurs in `s` starting at position `i`. */
  predicate OccursAt(s: string, p: string, i: nat)
  {
    i + |p| <= |s| && s[i..i + |p|] == p
  }

  /** `s` contains `p` somewhere. */
  predicate Contains(s: string, p: string)
  {
    exists i :: 0 <= i <= |s| && OccursAt(s, p, i)
  }

  /** Occurrences in `s[1..]` are the occurrences in `s` shifted by one. */
  lemma OccursShift(s: string, p: string, j: nat)
    requires |s| > 0
    ensures OccursAt(s, p, j + 1) <==> OccursAt(s[1..], p, j)
  {
    if j + 1 + |p| <= |s| {
      assert s[1..][j..j + |p|] == s[j + 1..j + 1 + |p|];
    }
  }

  /** Position of the leftmost occurrence of `p` in `s`, like `str.find`. */
  function Find(s: string, p: string): (r: Option<nat>)
    ensures r.Some? ==> OccursAt(s, p, r.value)
    ensures r.Some? ==> forall j :: 0 <= j < r.value ==> !OccursAt(s, p, j)
    ensures r.None? ==> forall j :: 0 <= j <= |s| ==> !OccursAt(s, p, j)
    decreases |s|
  {
    if OccursAt(s, p, 0) then Some(0)
    else if s == [] then None
    else
      var r := Find(s[1..], p);
      assert forall j :: 1 <= j <= |s| ==> (OccursAt(s, p, j) <==> OccursAt(s[1..], p, j - 1)) by {
        forall j | 1 <= j <= |s| ensures OccursAt(s, p, j) <==> OccursAt(s[1..], p, j - 1) {
          OccursShift(s, p, j - 1);
        }
      }
      match r
      case None => None
      case Some(i) => Some(i + 1)
  }

  /** `Find` succeeds exactly when `s` contains `p`. */
  lemma FindContains(s: string, p: string)
    ensures Find(s, p).Some? <==> Contains(s, p)
  {
    if Find(s, p).Some? {
      assert OccursAt(s, p, Find(s, p).value);
    }
  }

  /** `p` cannot occur where one of its characters is missing from `s`. */
  lemma FindMissingChar(s: string, p: string, m: nat)
    requires m < |p| && p[m] !in s
    ensures Find(s, p) == None
  {
    forall i | 0 <= i <= |s| ensures !OccursAt(s, p, i) {
      if i + |p| <= |s| {
        assert s[i..i + |p|][m] == s[i + m];
      }
    }
  }

  /** An occurrence at `i` with no earlier copy of `p`'s first character is
      the leftmost one. */
  lemma FindAt(s: string, p: string, i: nat)
    requires |p| > 0 && OccursAt(s, p, i) && p[0] !in s[..i]
    ensures Find(s, p) == Some(i)
  {
    forall j | 0 <= j < i ensures !OccursAt(s, p, j) {
      assert s[..i][j] == s[j];
      if j + |p| <= |s| {
        assert s[j..j + |p|][0] == s[j];
      }
    }
  }

  // ----------------------------------------------- substitution (re.sub)

  /** Every alternative of a pattern is a non-empty literal. */
  predicate NonEmptyAlternatives(alts: seq<string>)
  {
    forall a <- alts :: |a| > 0
  }

  /** The first alternative (in the listed order) that matches at the start of
      `s`: the choice Python's regex engine makes for `a|b|...` at one position. */
  function MatchIndex(alts: seq<string>, s: string): (k: Option<nat>)
    ensures k.Some? ==> k.value < |alts| && OccursAt(s, alts[k.value], 0)
    ensures k.Some? ==> forall j :: 0 <= j < k.value ==> !OccursAt(s, alts[j], 0)
    ensures k.None? <==> forall j :: 0 <= j < |alts| ==> !OccursAt(s, alts[j], 0)
  {
    if |alts| == 0 then None
    else if OccursAt(s, alts[0], 0) then Some(0)
    else
      match MatchIndex(alts[1..], s)
      case None => None
      case Some(k) => Some(k + 1)
  }

  /** `re.sub(a1|a2|..., repl, s)` for literal alternatives: scan from the
      left, replace every non-overlapping match, never rescan the output. */
  function ReplaceAll(alts: seq<string>, repl: string, s: string): string
    requires NonEmptyAlternatives(alts)
    decreases |s|
  {
    if s == [] then []
    else
      match MatchIndex(alts, s)
      case Some(k) =>
        assert alts[k] in alts;
        repl + ReplaceAll(alts, repl, s[|alts[k]|..])
      case None => [s[0]] + ReplaceAll(alts, repl, s[1..])
  }

  /** No alternative occurs in `s` at a position below `n`. */
  predicate NoneOccurBelow(alts: seq<string>, s: string, n: nat)
  {
    forall j, i :: 0 <= j < |alts| && 0 <= i < n ==> !OccursAt(s, alts[j], i)
  }

  /** Dropping the first character shifts the positions free of matches. */
  lemma NoneOccurShift(alts: seq<string>, s: string, n: nat)
    requires |s| > 0 && n > 0
    requires NoneOccurBelow(alts, s, n)
    ensures NoneOccurBelow(alts, s[1..], n - 1)
  {
    forall j, i | 0 <= j < |alts| && 0 <= i < n - 1 ensures !OccursAt(s[1..], alts[j], i) {
      OccursShift(s, alts[j], i);
    }
  }

  /** Characters before the first match are copied unchanged. */
  lemma {:induction false} ReplaceSkip(alts: seq<string>, repl: string, s: string, n: nat)
    requires NonEmptyAlternatives(alts)
    requires n <= |s|
    requires NoneOccurBelow(alts, s, n)
    ensures ReplaceAll(alts, repl, s) == s[..n] + ReplaceAll(alts, repl, s[n..])
    decreases n
  {
    if n > 0 {
      assert MatchIndex(alts, s).None?;
      NoneOccurShift(alts, s, n);
      ReplaceSkip(alts, repl, s[1..], n - 1);
      assert s[1..][n - 1..] == s[n..];
      assert s[..n] == [s[0]] + s[1..][..n - 1];
    }
  }

  /** A string in which no alternative occurs is left as it is. */
  lemma ReplaceAbsent(alts: seq<string>, repl: string, s: string)
    requires NonEmptyAlternatives(alts)
    requires NoneOccurBelow(alts, s, |s| + 1)
    ensures ReplaceAll(alts, repl, s) == s
  {
    ReplaceSkip(alts, repl, s, |s|);
    assert s[..|s|] == s;
  }

  /** No match below `n` when no alternative's first character occurs in
      the first `n` characters. */
  lemma ClearlyAbsentBelow(alts: seq<string>, s: string, n: nat)
    requires NonEmptyAlternatives(alts) && n <= |s|
    requires forall j :: 0 <= j < |alts| ==> alts[j][0] !in s[..n]
    ensures NoneOccurBelow(alts, s, n)
  {
    forall j, i | 0 <= j < |alts| && 0 <= i < n ensures !OccursAt(s, alts[j], i) {
      assert alts[j] in alts;
      assert s[..n][i] == s[i];
      if i + |alts[j]| <= |s| {
        assert s[i..i + |alts[j]|][0] == s[i];
      }
    }
  }

  /** Cheap sufficient condition for `ReplaceAbsent`: every alternative is
      longer than `s` or starts with a character `s` does not contain. */
  lemma ClearlyAbsent(alts: seq<string>, s: string)
    requires NonEmptyAlternatives(alts)
    requires forall j :: 0 <= j < |alts| ==> |alts[j]| > |s| || alts[j][0] !in s
    ensures NoneOccurBelow(alts, s, |s| + 1)
  {
    forall j, i | 0 <= j < |alts| && 0 <= i <= |s| ensures !OccursAt(s, alts[j], i) {
      assert alts[j] in alts;
      if i + |alts[j]| <= |s| {
        assert s[i..i + |alts[j]|][0] == s[i];
      }
    }
  }

  // ----------------------------------------------------- split and join

  /** `s.split(sep)` for a non-empty separator: the pieces between the
      leftmost non-overlapping occurrences of `sep`. */
  function Split(s: string, sep: string): (parts: seq<string>)
    requires |sep| > 0
    ensures |parts| >= 1
    decreases |s|
  {
    match Find(s, sep)
    case None => [s]
    case Some(i) => [s[..i]] + Split(s[i + |sep|..], sep)
  }

  /** `sep.join(parts)`. */
  function Join(parts: seq<string>, sep: string): string
  {
    if |parts| == 0 then ""
    else if |parts| == 1 then parts[0]
    else parts[0] + sep + Join(parts[1..], sep)
  }

  /** The pieces of a split at the leftmost occurrence `i` of `sep`. */
  lemma SplitAt(s: string, sep: string, i: nat)
    requires |sep| > 0 && Find(s, sep) == Some(i)
    ensures i + |sep| <= |s| && s == s[..i] + sep + s[i + |sep|..]
    ensures Split(s, sep) == [s[..i]] + Split(s[i + |sep|..], sep)
  {
    assert s[i..i + |sep|] == sep;
    Pieces(s, i, i + |sep|);
  }

  lemma Pieces<T>(s: seq<T>, i: nat, j: nat)
    requires i <= j <= |s|
    ensures s == s[..i] + s[i..j] + s[j..]
  {
  }

  /** Splitting and joining with the same separator gives the string back. */
  lemma {:induction false} JoinSplit(s: string, sep: string)
    requires |sep| > 0
    ensures Join(Split(s, sep), sep) == s
    decreases |s|
  {
    match Find(s, sep)
    case None =>
    case Some(i) =>
      var rest := s[i + |sep|..];
      SplitAt(s, sep, i);
      JoinSplit(rest, sep);
      var parts := Split(s, sep);
      assert |parts| >= 2 && parts[0] == s[..i] && parts[1..] == Split(rest, sep);
  }

  /** A string that contains `sep` only at `i` or later: its first `i`
      characters do not contain it at all. */
  lemma PrefixFree(s: string, sep: string, i: nat)
    requires |sep| > 0 && i <= |s|
    requires forall j :: 0 <= j < i ==> !OccursAt(s, sep, j)
    ensures !Contains(s[..i], sep)
  {
    forall j | 0 <= j <= i ensures !OccursAt(s[..i], sep, j) {
      if j + |sep| <= i {
        assert s[..i][j..j + |sep|] == s[j..j + |sep|];
        assert !OccursAt(s, sep, j);
      }
    }
  }

  /** No piece of a split contains the separator. */
  lemma {:induction false} SplitPiecesFree(s: string, sep: string)
    requires |sep| > 0
    ensures forall k :: 0 <= k < |Split(s, sep)| ==> !Contains(Split(s, sep)[k], sep)
    decreases |s|
  {
    match Find(s, sep)
    case None =>
      FindContains(s, sep);
    case Some(i) =>
      var rest := s[i + |sep|..];
      SplitAt(s, sep, i);
      SplitPiecesFree(rest, sep);
      PrefixFree(s, sep, i);
      var parts := Split(s, sep);
      forall k | 0 <= k < |parts| ensures !Contains(parts[k], sep) {
        if k > 0 {
          assert parts[k] == Split(rest, sep)[k - 1];
        }
      }
  }

  /** For a single literal, `re.sub(p, r, s)` is `r.join(s.split(p))`: the
      scanning substitution agrees with this independent definition. */
  lemma {:induction false} ReplaceIsSplitJoin(p: string, r: string, s: string)
    requires |p| > 0
    ensures ReplaceAll([p], r, s) == Join(Split(s, p), r)
    decreases |s|
  {
    assert NonEmptyAlternatives([p]);
    match Find(s, p)
    case None =>
      assert NoneOccurBelow([p], s, |s| + 1);
      ReplaceAbsent([p], r, s);
    case Some(i) =>
      var rest := s[i + |p|..];
      SplitAt(s, p, i);
      ReplaceAtFirst(p, r, s, i);
      ReplaceIsSplitJoin(p, r, rest);
      var parts := Split(s, p);
      assert |parts| >= 2 && parts[0] == s[..i] && parts[1..] == Split(rest, p);
  }

  /** Substituting a single literal whose leftmost occurrence is at `i`. */
  lemma ReplaceAtFirst(p: string, r: string, s: string, i: nat)
    requires |p| > 0 && Find(s, p) == Some(i)
    ensures NonEmptyAlternatives([p]) && i + |p| <= |s|
    ensures ReplaceAll([p], r, s) == s[..i] + r + ReplaceAll([p], r, s[i + |p|..])
  {
    assert NonEmptyAlternatives([p]);
    assert NoneOccurBelow([p], s, i);
    ReplaceSkip([p], r, s, i);
    assert s[i..][..|p|] == p;
    assert MatchIndex([p], s[i..]) == Some(0);
    assert s[i..][|p|..] == s[i + |p|..];
  }

  // ------------------------------------------------------- whitespace

  /** Python's `str.isspace` for one character. */
  predicate IsSpace(c: char)
  {
    c == ' ' || ('\t' <= c <= '\r') || ('\U{001C}' <= c <= '\U{001F}') || c == '\U{0085}'
    || c == '\U{00A0}' || c == '\U{1680}' || ('\U{2000}' <= c <= '\U{200A}') || c == '\U{2028}'
    || c == '\U{2029}' || c == '\U{202F}' || c == '\U{205F}' || c == '\U{3000}'
  }

  predicate AllSpace(s: string)
  {
    forall i :: 0 <= i < |s| ==> IsSpace(s[i])
  }

  predicate NoSpace(s: string)
  {
    forall i :: 0 <= i < |s| ==> !IsSpace(s[i])
  }

  /** `s` without its leading whitespace. */
  function TrimLeft(s: string): (r: string)
    ensures |r| <= |s| && r == s[|s| - |r|..] && AllSpace(s[..|s| - |r|])
    ensures r == [] || !IsSpace(r[0])
    decreases |s|
  {
    if s != [] && IsSpace(s[0]) then
      var r := TrimLeft(s[1..]);
      TrimLeftStep(s, r);
      r
    else s
  }

  lemma TrimLeftStep(s: string, r: string)
    requires s != [] && IsSpace(s[0])
    requires |r| <= |s| - 1 && r == s[1..][|s| - 1 - |r|..] && AllSpace(s[1..][..|s| - 1 - |r|])
    ensures r == s[|s| - |r|..] && AllSpace(s[..|s| - |r|])
  {
    assert s[1..][|s| - 1 - |r|..] == s[|s| - |r|..];
    assert s[..|s| - |r|] == [s[0]] + s[1..][..|s| - 1 - |r|];
  }

  /** `s` without its trailing whitespace. */
  function TrimRight(s: string): (r: string)
    ensures |r| <= |s| && r == s[..|r|] && AllSpace(s[|r|..])
    ensures r == [] || !IsSpace(r[|r| - 1])
    decreases |s|
  {
    if s != [] && IsSpace(s[|s| - 1]) then
      var r := TrimRight(s[..|s| - 1]);
      TrimRightStep(s, r);
      r
    else s
  }

  lemma TrimRightStep(s: string, r: string)
    requires s != [] && IsSpace(s[|s| - 1])
    requires |r| <= |s| - 1 && r == s[..|s| - 1][..|r|] && AllSpace(s[..|s| - 1][|r|..])
    ensures r == s[..|r|] && AllSpace(s[|r|..])
  {
    assert s[..|s| - 1][..|r|] == s[..|r|];
    assert s[|r|..] == s[..|s| - 1][|r|..] + [s[|s| - 1]];
  }

  /** `s.strip()`: a slice of `s` with whitespace only around it, and none at its ends. */
  function Strip(s: string): (r: string)
    ensures exists a, b :: 0 <= a <= b <= |s| && r == s[a..b] && AllSpace(s[..a]) && AllSpace(s[b..])
    ensures r == [] || (!IsSpace(r[0]) && !IsSpace(r[|r| - 1]))
  {
    var t := TrimLeft(s);
    var r := TrimRight(t);
    StripSlice(s, t, r);
    r
  }

  lemma StripSlice(s: string, t: string, r: string)
    requires |t| <= |s| && t == s[|s| - |t|..] && AllSpace(s[..|s| - |t|])
    requires |r| <= |t| && r == t[..|r|] && AllSpace(t[|r|..])
    ensures var a := |s| - |t|;
      a + |r| <= |s| && r == s[a..a + |r|] && AllSpace(s[..a]) && AllSpace(s[a + |r|..])
    ensures r != [] ==> r[0] == t[0]
  {
    var a := |s| - |t|;
    assert s[a..][..|r|] == s[a..a + |r|];
    assert s[a + |r|..] == t[|r|..];
  }

  /** The longest whitespace-free prefix of `s`. */
  function TakeToken(s: string): (r: string)
    ensures |r| <= |s| && r == s[..|r|] && NoSpace(r)
    ensures |r| == |s| || IsSpace(s[|r|])
    decreases |s|
  {
    if s == [] || IsSpace(s[0]) then []
    else
      var r := TakeToken(s[1..]);
      assert s[..1 + |r|] == [s[0]] + s[1..][..|r|];
      [s[0]] + r
  }

  /** `s.split()[0]`: the first whitespace-delimited token, or None (NaN in
      pandas) when `s` is all whitespace. */
  function FirstToken(s: string): (r: Option<string>)
    ensures r.None? <==> AllSpace(s)
    ensures r.Some? ==> |r.value| > 0 && NoSpace(r.value)
    ensures r.Some? ==> exists a :: 0 <= a && a + |r.value| <= |s| && AllSpace(s[..a])
                          && s[a..a + |r.value|] == r.value
                          && (a + |r.value| == |s| || IsSpace(s[a + |r.value|]))
  {
    var t := TrimLeft(s);
    if t == [] then
      assert s[..|s|] == s;
      None
    else
      var tok := TakeToken(t);
      var a := |s| - |t|;
      assert !AllSpace(s) by { assert s[a] == t[0]; }
      assert tok[0] == t[0];
      assert s[a..a + |tok|] == t[..|tok|];
      Some(tok)
  }

  /** A non-empty string without whitespace is its own first token. */
  lemma FirstTokenWhole(s: string)
    requires s != [] && NoSpace(s)
    ensures FirstToken(s) == Some(s)
  {
    assert !IsSpace(s[0]);
    var r := TakeToken(s);
    assert |r| == |s|;
    assert s[..|s|] == s;
  }

  // ------------------------------------------------------------ case

  predicate IsLower(c: char)
  {
    'a' <= c <= 'z'
  }

  function UpperChar(c: char): char
  {
    if IsLower(c) then (c as int - 32) as char else c
  }

  /** `s.upper()` on ASCII letters; every other character is kept. */
  function Upper(s: string): (r: string)
  {
    seq(|s|, i requires 0 <= i < |s| => UpperChar(s[i]))
  }

  predicate NoLower(s: string)
  {
    forall i :: 0 <= i < |s| ==> !IsLower(s[i])
  }

  /** Upper-casing leaves no lower-case letter, keeps the length, changes only
      lower-case letters, and doing it twice is doing it once. */
  lemma UpperProperties(s: string)
    ensures |Upper(s)| == |s| && NoLower(Upper(s))
    ensures forall i :: 0 <= i < |s| && !IsLower(s[i]) ==> Upper(s)[i] == s[i]
    ensures Upper(Upper(s)) == Upper(s)
  {
  }

  /** A string without lower-case letters is its own upper case. */
  lemma UpperKeeps(s: string)
    requires NoLower(s)
    ensures Upper(s) == s
  {
  }

  /** `re.sub('^_', '', s)`: drop one leading underscore, if there is one. */
  function DropLeadingUnderscore(s: string): (r: string)
    ensures s != [] && s[0] == '_' ==> s == "_" + r
    ensures s == [] || s[0] != '_' ==> r == s
  {
    if s != [] && s[0] == '_' then s[1..] else s
  }
}
