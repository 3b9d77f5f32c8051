/** `extract_dimensions_from_full_name`: `re.search` of the pattern
    `" (\d+ ?x ?\d+) (\w+)"` in a product's display name, giving the name
    before the match, group 1 with its spaces removed, and group 2 (the unit).

    `\d` and `\w` are taken as ASCII here: `[0-9]` and `[A-Za-z0-9_]`. */
module Dimensions {
  import opened Wrappers
  import opened Characters

  predicate IsWordChar(c: char) {
    IsDigit(c) || 'a' <= c <= 'z' || 'A' <= c <= 'Z' || c == '_'
  }

  datatype CharClass = Digits | WordChars

  predicate InClass(c: char, cls: CharClass) {
    match cls
    case Digits => IsDigit(c)
    case WordChars => IsWordChar(c)
  }

  /** `s[a..b]` is a non-empty run of characters of class `cls`. */
  predicate Run(s: string, a: nat, b: nat, cls: CharClass) {
    a < b <= |s| && forall k :: a <= k < b ==> InClass(s[k], cls)
  }

  /** Where a match of the pattern lies in the searched string: it starts at
      `start` (the leading space); the first digit run is `start + 1 .. end1`;
      `gap1`/`gap2` say whether the optional spaces around `x` are present;
      the second digit run ends at `end2`, which holds the space before the
      unit; the unit runs from `end2 + 1` to `end`. */
  datatype Span = Span(start: nat, end1: nat, gap1: bool, gap2: bool, end2: nat, end: nat)
  {
    /** Index of the `x`. */
    function X(): nat {
      if gap1 then end1 + 1 else end1
    }

    /** Index where the second digit run begins. */
    function Start2(): nat {
      if gap2 then X() + 2 else X() + 1
    }
  }

  /** `m` is one way the pattern matches `s`: each part of the pattern is
      found at the place `m` gives it. */
  predicate Occurs(s: string, m: Span) {
    && m.start < |s| && s[m.start] == ' '
    && Run(s, m.start + 1, m.end1, Digits)
    && m.X() < |s| && (m.gap1 ==> s[m.end1] == ' ') && s[m.X()] == 'x'
    && Run(s, m.Start2(), m.end2, Digits) && (m.gap2 ==> s[m.X() + 1] == ' ')
    && m.end2 < |s| && s[m.end2] == ' '
    && Run(s, m.end2 + 1, m.end, WordChars)
  }

  /** The greedy `\w+` took every word character it could. */
  predicate UnitIsMaximal(s: string, m: Span)
    requires m.end <= |s|
  {
    m.end == |s| || !IsWordChar(s[m.end])
  }

  /** No match of the pattern starts before `m` does. */
  ghost predicate Leftmost(s: string, m: Span) {
    forall m' :: Occurs(s, m') ==> m.start <= m'.start
  }

  /** End of the longest run of class `cls` that starts at `j`. */
  function RunEnd(s: string, j: nat, cls: CharClass): (e: nat)
    requires j <= |s|
    ensures j <= e <= |s|
    ensures e < |s| ==> !InClass(s[e], cls)
    decreases |s| - j
  {
    if j < |s| && InClass(s[j], cls) then RunEnd(s, j + 1, cls) else j
  }

  /** Every character `RunEnd` passes over is of the class. */
  lemma {:induction false} RunEndSpan(s: string, j: nat, cls: CharClass)
    requires j <= |s|
    ensures forall k :: j <= k < RunEnd(s, j, cls) ==> InClass(s[k], cls)
    decreases |s| - j
  {
    if j < |s| && InClass(s[j], cls) {
      RunEndSpan(s, j + 1, cls);
    }
  }

  /** A run that cannot be extended is the one `RunEnd` finds. */
  lemma RunEndIs(s: string, j: nat, e: nat, cls: CharClass)
    requires j <= e <= |s|
    requires forall k :: j <= k < e ==> InClass(s[k], cls)
    requires e < |s| ==> !InClass(s[e], cls)
    ensures RunEnd(s, j, cls) == e
  {
    RunEndSpan(s, j, cls);
  }

  /** `RunEnd` reaches at least as far as any run from `j`. */
  lemma RunEndCovers(s: string, j: nat, e: nat, cls: CharClass)
    requires j <= e <= |s|
    requires forall k :: j <= k < e ==> InClass(s[k], cls)
    ensures e <= RunEnd(s, j, cls)
  {
    RunEndSpan(s, j, cls);
  }

  /** What the regular-expression engine finds when it tries the pattern at
      index `i` alone. Every part but the last is forced: a shorter digit run
      would be followed by a digit, which neither ` ?x` nor the space after
      group 1 can match, and an optional space left unmatched would have to
      match `x` or a digit. The final `\w+` is greedy and takes the longest run. */
  function MatchAt(s: string, i: nat): (r: Option<Span>)
    requires i <= |s|
    ensures r.Some? ==> r.value.start == i && i < r.value.end1 < r.value.end2 && r.value.end2 + 1 < r.value.end <= |s|
  {
    if i == |s| || s[i] != ' ' then None
    else MatchAfterFirstRun(s, i, RunEnd(s, i + 1, Digits))
  }

  /** The rest of the pattern once `\d+` has taken `i + 1 .. end1`:
      ` ?x ?`, then the second digit run. */
  function MatchAfterFirstRun(s: string, i: nat, end1: nat): (r: Option<Span>)
    requires i < end1 <= |s|
    ensures r.Some? ==> r.value.start == i && r.value.end1 == end1 < r.value.end2 && r.value.end2 + 1 < r.value.end <= |s|
  {
    var gap1 := end1 < |s| && s[end1] == ' ';
    var x := if gap1 then end1 + 1 else end1;
    if end1 == i + 1 || x == |s| || s[x] != 'x' then None
    else
      var gap2 := x + 1 < |s| && s[x + 1] == ' ';
      var start2 := if gap2 then x + 2 else x + 1;
      MatchAfterSecondRun(s, i, end1, gap1, gap2, start2, RunEnd(s, start2, Digits))
  }

  /** The rest of the pattern once the second `\d+` has taken
      `start2 .. end2`: a space, then the greedy `\w+`. */
  function MatchAfterSecondRun(s: string, i: nat, end1: nat, gap1: bool, gap2: bool, start2: nat, end2: nat)
    : (r: Option<Span>)
    requires start2 <= end2 <= |s|
    ensures r.Some? ==> r.value == Span(i, end1, gap1, gap2, end2, r.value.end) && start2 < end2 && end2 + 1 < r.value.end <= |s|
  {
    if end2 == start2 || end2 == |s| || s[end2] != ' ' then None
    else
      var end := RunEnd(s, end2 + 1, WordChars);
      if end == end2 + 1 then None
      else Some(Span(i, end1, gap1, gap2, end2, end))
  }

  /** What the last stage finds: a space after the second digit run, then
      the longest run of word characters. */
  lemma AfterSecondRunSound(s: string, i: nat, end1: nat, gap1: bool, gap2: bool, start2: nat, end2: nat)
    requires start2 <= end2 <= |s|
    requires MatchAfterSecondRun(s, i, end1, gap1, gap2, start2, end2).Some?
    ensures MatchAfterSecondRun(s, i, end1, gap1, gap2, start2, end2).value
              == Span(i, end1, gap1, gap2, end2, RunEnd(s, end2 + 1, WordChars))
    ensures start2 < end2 < |s| && s[end2] == ' '
    ensures Run(s, end2 + 1, RunEnd(s, end2 + 1, WordChars), WordChars)
  {
    RunEndSpan(s, end2 + 1, WordChars);
  }

  /** What the stages after the first digit run find: the `x` with its
      optional spaces, the second digit run, and the unit. */
  lemma AfterFirstRunSound(s: string, i: nat, end1: nat)
    requires i < end1 <= |s|
    requires MatchAfterFirstRun(s, i, end1).Some?
    ensures var m := MatchAfterFirstRun(s, i, end1).value;
      && m.start == i && m.end1 == end1 && i + 1 < end1
      && m.gap1 == (end1 < |s| && s[end1] == ' ')
      && m.X() < |s| && s[m.X()] == 'x'
      && m.gap2 == (m.X() + 1 < |s| && s[m.X() + 1] == ' ')
      && Run(s, m.Start2(), m.end2, Digits) && m.end2 < |s| && s[m.end2] == ' '
      && Run(s, m.end2 + 1, m.end, WordChars) && UnitIsMaximal(s, m)
  {
    var gap1 := end1 < |s| && s[end1] == ' ';
    var x := if gap1 then end1 + 1 else end1;
    var gap2 := x + 1 < |s| && s[x + 1] == ' ';
    var start2 := if gap2 then x + 2 else x + 1;
    RunEndSpan(s, start2, Digits);
    AfterSecondRunSound(s, i, end1, gap1, gap2, start2, RunEnd(s, start2, Digits));
  }

  /** What `MatchAt` finds is a match of the pattern at `i`, with the longest unit. */
  lemma MatchAtSound(s: string, i: nat)
    requires i <= |s|
    ensures MatchAt(s, i).Some? ==>
              && MatchAt(s, i).value.start == i
              && Occurs(s, MatchAt(s, i).value)
              && UnitIsMaximal(s, MatchAt(s, i).value)
  {
    if i < |s| && s[i] == ' ' {
      RunEndSpan(s, i + 1, Digits);
      var end1 := RunEnd(s, i + 1, Digits);
      if MatchAfterFirstRun(s, i, end1).Some? {
        AfterFirstRunSound(s, i, end1);
      }
    }
  }

  /** `MatchAt` succeeds once each stage finds what the pattern asks for. */
  lemma MatchAtStages(s: string, m: Span)
    requires m.start < |s| && s[m.start] == ' '
    requires m.start + 1 < m.end1 == RunEnd(s, m.start + 1, Digits)
    requires m.gap1 == (m.end1 < |s| && s[m.end1] == ' ')
    requires m.X() < |s| && s[m.X()] == 'x'
    requires m.gap2 == (m.X() + 1 < |s| && s[m.X() + 1] == ' ')
    requires m.Start2() < m.end2 == RunEnd(s, m.Start2(), Digits) < |s| && s[m.end2] == ' '
    requires m.end2 + 1 < m.end == RunEnd(s, m.end2 + 1, WordChars)
    ensures MatchAt(s, m.start) == Some(m)
  {
    assert MatchAfterSecondRun(s, m.start, m.end1, m.gap1, m.gap2, m.Start2(), m.end2) == Some(m);
    assert MatchAfterFirstRun(s, m.start, m.end1) == Some(m);
  }

  /** In a match, the digit runs are as long as they can be and each optional
      space is taken exactly when there is one. */
  lemma OccursForced(s: string, m: Span)
    requires Occurs(s, m)
    ensures RunEnd(s, m.start + 1, Digits) == m.end1 && RunEnd(s, m.Start2(), Digits) == m.end2
    ensures m.gap1 == (m.end1 < |s| && s[m.end1] == ' ')
    ensures m.gap2 == (m.X() + 1 < |s| && s[m.X() + 1] == ' ')
  {
    RunEndIs(s, m.start + 1, m.end1, Digits);
    RunEndIs(s, m.Start2(), m.end2, Digits);
  }

  /** Any way the pattern matches at `m.start` is found by `MatchAt`, with the
      same digit runs and optional spaces, and a unit at least as long. */
  lemma MatchAtComplete(s: string, m: Span)
    requires Occurs(s, m)
    ensures MatchAt(s, m.start).Some?
    ensures var f := MatchAt(s, m.start).value;
      f.end1 == m.end1 && f.gap1 == m.gap1 && f.gap2 == m.gap2 && f.end2 == m.end2 && m.end <= f.end
  {
    RunEndCovers(s, m.end2 + 1, m.end, WordChars);
    MatchAtGreedy(s, m);
  }

  /** A match at `m.start` is found with the unit extended as far as it
      goes. */
  lemma MatchAtGreedy(s: string, m: Span)
    requires Occurs(s, m)
    requires m.end <= RunEnd(s, m.end2 + 1, WordChars)
    ensures MatchAt(s, m.start) == Some(m.(end := RunEnd(s, m.end2 + 1, WordChars)))
  {
    OccursForced(s, m);
    var f := m.(end := RunEnd(s, m.end2 + 1, WordChars));
    assert f.X() == m.X() && f.Start2() == m.Start2();
    MatchAtStages(s, f);
  }

  /** `re.search` from index `i`: the first index from `i` on at which the
      pattern matches. */
  function SearchFrom(s: string, i: nat): (r: Option<Span>)
    requires i <= |s|
    ensures r.Some? ==> i <= r.value.start <= |s| && MatchAt(s, r.value.start) == r
    ensures forall j :: i <= j <= |s| && (r.None? || j < r.value.start) ==> MatchAt(s, j).None?
    decreases |s| - i
  {
    if MatchAt(s, i).Some? then MatchAt(s, i)
    else if i == |s| then None
    else SearchFrom(s, i + 1)
  }

  /** `dimensions.replace(" ", "")`. */
  function RemoveSpaces(t: string): (r: string)
    ensures forall k :: 0 <= k < |r| ==> r[k] != ' '
  {
    if t == [] then []
    else (if t[0] == ' ' then [] else [t[0]]) + RemoveSpaces(t[1..])
  }

  /** The three values the function returns; Python's `None` is `None`. */
  datatype Extracted = Extracted(name: Option<string>, dimensions: Option<string>, unit: Option<string>)

  /** `extract_dimensions_from_full_name`: on a match, the name is everything
      before the match (`full_name[:match.start()]`), not the name with the
      match cut out; without a match all three values are `None`. */
  function ExtractDimensionsFromFullName(fullName: string): (r: Extracted)
    ensures r.name.None? <==> r.dimensions.None?
    ensures r.name.None? <==> r.unit.None?
    ensures r.name.Some? ==> |r.name.value| < |fullName| && r.name.value == fullName[..|r.name.value|]
  {
    match SearchFrom(fullName, 0)
    case None => Extracted(None, None, None)
    case Some(m) =>
      Extracted(Some(fullName[..m.start]),
                Some(RemoveSpaces(fullName[m.start + 1..m.end2])),
                Some(fullName[m.end2 + 1..m.end]))
  }

  /** `replace(" ", "")` works piece by piece. */
  lemma {:induction false} RemoveSpacesConcat(a: string, b: string)
    ensures RemoveSpaces(a + b) == RemoveSpaces(a) + RemoveSpaces(b)
  {
    if a == [] {
      assert a + b == b;
    } else {
      assert (a + b)[1..] == a[1..] + b;
      RemoveSpacesConcat(a[1..], b);
    }
  }

  /** A string without spaces is left as it is. */
  lemma {:induction false} RemoveSpacesNone(t: string)
    requires forall k :: 0 <= k < |t| ==> t[k] != ' '
    ensures RemoveSpaces(t) == t
  {
    if t != [] {
      RemoveSpacesNone(t[1..]);
    }
  }

  /** Group 1 with its spaces removed is the two digit runs joined by `x`. */
  lemma DimensionsText(s: string, m: Span)
    requires Occurs(s, m)
    ensures RemoveSpaces(s[m.start + 1..m.end2]) == s[m.start + 1..m.end1] + "x" + s[m.Start2()..m.end2]
  {
    var a, x, b := m.start + 1, m.X(), m.Start2();
    SliceFive(s, a, m.end1, x, b, m.end2);
    MatchPieces(s, m);
    RemoveSpacesAroundX(s[a..m.end1], s[m.end1..x], s[x + 1..b], s[b..m.end2]);
  }

  /** The pieces of group 1: digit runs without spaces, optional single
      spaces, and the `x`. */
  lemma MatchPieces(s: string, m: Span)
    requires Occurs(s, m)
    ensures var a, x, b := m.start + 1, m.X(), m.Start2();
      && (forall k :: 0 <= k < |s[a..m.end1]| ==> s[a..m.end1][k] != ' ')
      && (forall k :: 0 <= k < |s[b..m.end2]| ==> s[b..m.end2][k] != ' ')
      && (s[m.end1..x] == "" || s[m.end1..x] == " ")
      && (s[x + 1..b] == "" || s[x + 1..b] == " ")
      && s[x..x + 1] == "x"
  {
    var a, x, b := m.start + 1, m.X(), m.Start2();
    assert s[m.end1..x] == "" || s[m.end1..x] == " " by {
      if m.gap1 { assert s[m.end1..x] == [s[m.end1]]; }
    }
    assert s[x + 1..b] == "" || s[x + 1..b] == " " by {
      if m.gap2 { assert s[x + 1..b] == [s[x + 1]]; }
    }
    assert s[x..x + 1] == "x" by {
      assert s[x..x + 1] == [s[x]];
    }
  }

  lemma SliceFive(s: string, a: nat, p: nat, q: nat, r: nat, e: nat)
    requires a <= p <= q < r <= e <= |s|
    ensures s[a..e] == s[a..p] + s[p..q] + s[q..q + 1] + s[q + 1..r] + s[r..e]
  {
    SliceSplit(s, a, p, e);
    SliceSplit(s, p, q, e);
    SliceSplit(s, q, q + 1, e);
    SliceSplit(s, q + 1, r, e);
  }

  lemma SliceSplit(s: string, a: nat, p: nat, e: nat)
    requires a <= p <= e <= |s|
    ensures s[a..e] == s[a..p] + s[p..e]
  {
    forall k | 0 <= k < e - a ensures s[a..e][k] == (s[a..p] + s[p..e])[k] {
      if k < p - a {
        assert (s[a..p] + s[p..e])[k] == s[a..p][k];
      } else {
        assert (s[a..p] + s[p..e])[k] == s[p..e][k - (p - a)];
      }
    }
  }

  /** Group 1 is a digit run, an optional space, `x`, an optional space and a
      digit run; removing its spaces leaves the runs around the `x`. */
  lemma RemoveSpacesAroundX(d1: string, g1: string, g2: string, d2: string)
    requires forall k :: 0 <= k < |d1| ==> d1[k] != ' '
    requires forall k :: 0 <= k < |d2| ==> d2[k] != ' '
    requires g1 == "" || g1 == " "
    requires g2 == "" || g2 == " "
    ensures RemoveSpaces(d1 + g1 + "x" + g2 + d2) == d1 + "x" + d2
  {
    RemoveSpacesGap(d1, g1, g2, d2);
    JoinAroundX(d1, g1, g2, d2);
  }

  /** Once the spaces next to each digit run are gone, the `x` joins the
      two runs. */
  lemma JoinAroundX(d1: string, g1: string, g2: string, d2: string)
    requires RemoveSpaces(d1 + g1) == d1 && RemoveSpaces(g2 + d2) == d2
    ensures RemoveSpaces(d1 + g1 + "x" + g2 + d2) == d1 + "x" + d2
  {
    RemoveSpacesX(g2 + d2, d2);
    RemoveSpacesConcat(d1 + g1, "x" + (g2 + d2));
    Regroup(d1, g1, "x", g2, d2);
  }

  /** The `x` between the numbers is kept. */
  lemma RemoveSpacesX(t: string, d: string)
    requires RemoveSpaces(t) == d
    ensures RemoveSpaces("x" + t) == "x" + d
  {
    RemoveSpacesConcat("x", t);
    RemoveSpacesOne('x');
  }

  lemma Regroup(a: string, b: string, c: string, d: string, e: string)
    ensures a + b + c + d + e == (a + b) + (c + (d + e))
  {
  }

  /** An optional space next to a digit run disappears, on either side. */
  lemma RemoveSpacesGap(d1: string, g1: string, g2: string, d2: string)
    requires forall k :: 0 <= k < |d1| ==> d1[k] != ' '
    requires forall k :: 0 <= k < |d2| ==> d2[k] != ' '
    requires g1 == "" || g1 == " "
    requires g2 == "" || g2 == " "
    ensures RemoveSpaces(d1 + g1) == d1 && RemoveSpaces(g2 + d2) == d2
  {
    RemoveSpacesOne(' ');
    assert RemoveSpaces(g1) == [] && RemoveSpaces(g2) == [];
    RemoveSpacesConcat(d1, g1);
    RemoveSpacesConcat(g2, d2);
    RemoveSpacesNone(d1);
    RemoveSpacesNone(d2);
  }

  lemma RemoveSpacesOne(c: char)
    ensures RemoveSpaces([c]) == if c == ' ' then [] else [c]
  {
    assert [c][1..] == [];
  }

  /** The match `SearchFrom(s, 0)` returns starts no later than any match. */
  lemma SearchIsLeftmost(s: string)
    requires SearchFrom(s, 0).Some?
    ensures Leftmost(s, SearchFrom(s, 0).value)
  {
    var m := SearchFrom(s, 0).value;
    forall m' | Occurs(s, m') ensures m.start <= m'.start {
      MatchAtComplete(s, m');
    }
  }

  /** No dimension clause in the name: all three results are `None`, the name
      included, and this happens exactly when the pattern matches nowhere. */
  lemma ExtractWithoutMatch(fullName: string)
    ensures ExtractDimensionsFromFullName(fullName).name.None? <==> forall m :: !Occurs(fullName, m)
    ensures ExtractDimensionsFromFullName(fullName).name.None? ==>
              ExtractDimensionsFromFullName(fullName) == Extracted(None, None, None)
  {
    match SearchFrom(fullName, 0)
    case None =>
      forall m | Occurs(fullName, m) ensures false {
        MatchAtComplete(fullName, m);
      }
    case Some(m) =>
      MatchAtSound(fullName, m.start);
  }

  /** With a match: the name is the text before the leftmost match (its
      leading space excluded), the dimensions are the two digit runs joined
      by `x`, and the unit is the whole word after the space that follows
      them. */
  lemma ExtractWithMatch(fullName: string)
    requires ExtractDimensionsFromFullName(fullName).name.Some?
    ensures exists m ::
              && Occurs(fullName, m)
              && Leftmost(fullName, m)
              && UnitIsMaximal(fullName, m)
              && ExtractDimensionsFromFullName(fullName) ==
                   Extracted(Some(fullName[..m.start]),
                             Some(fullName[m.start + 1..m.end1] + "x" + fullName[m.Start2()..m.end2]),
                             Some(fullName[m.end2 + 1..m.end]))
  {
    var m := SearchFrom(fullName, 0).value;
    MatchAtSound(fullName, m.start);
    SearchIsLeftmost(fullName);
    DimensionsText(fullName, m);
  }

  /** A match inside a prefix of `s` is a match in `s`. */
  lemma OccursInPrefix(s: string, n: nat, m: Span)
    requires n <= |s|
    requires Occurs(s[..n], m)
    ensures Occurs(s, m)
  {
  }

  /** The name returned holds no dimension clause of its own: extracting
      again from it gives three `None`s. */
  lemma NameHasNoDimensions(fullName: string)
    requires ExtractDimensionsFromFullName(fullName).name.Some?
    ensures ExtractDimensionsFromFullName(ExtractDimensionsFromFullName(fullName).name.value) ==
              Extracted(None, None, None)
  {
    var m := SearchFrom(fullName, 0).value;
    var name := fullName[..m.start];
    SearchIsLeftmost(fullName);
    forall m' | Occurs(name, m') ensures false {
      OccursInPrefix(fullName, m.start, m');
    }
    ExtractWithoutMatch(name);
  }

  /** The search returns the first index that matches. */
  lemma SearchFromFinds(s: string, i: nat, m: Span)
    requires i <= m.start <= |s|
    requires MatchAt(s, m.start) == Some(m)
    requires forall j :: i <= j < m.start ==> MatchAt(s, j).None?
    ensures SearchFrom(s, i) == Some(m)
  {
    var r := SearchFrom(s, i);
    assert r.Some? && r.value.start == m.start;
  }

  /** The pattern cannot start at a space that is not followed by a digit. */
  lemma NoMatchAt(s: string, j: nat)
    requires j < |s|
    requires s[j] != ' ' || j + 1 == |s| || !IsDigit(s[j + 1])
    ensures MatchAt(s, j).None?
  {
    if s[j] == ' ' {
      RunEndIs(s, j + 1, j + 1, Digits);
    }
  }

  /** Before index `n`, no space is followed by a digit: the pattern cannot
      start anywhere there. */
  predicate NoSpaceBeforeDigit(s: string, n: nat) {
    forall j :: 0 <= j < n && j + 1 < |s| && s[j] == ' ' ==> !IsDigit(s[j + 1])
  }

  /** Without a space followed by a digit, nothing matches. */
  lemma ExtractWithoutSpaceDigit(s: string)
    requires NoSpaceBeforeDigit(s, |s|)
    ensures ExtractDimensionsFromFullName(s) == Extracted(None, None, None)
  {
    forall j | 0 <= j <= |s| ensures MatchAt(s, j).None? {
      if j < |s| { NoMatchAt(s, j); }
    }
  }

  /** The three results once the first index where the pattern matches is
      known. */
  lemma ExtractAt(s: string, m: Span)
    requires m.start <= |s| && MatchAt(s, m.start) == Some(m)
    requires forall j :: 0 <= j < m.start ==> MatchAt(s, j).None?
    ensures ExtractDimensionsFromFullName(s) ==
              Extracted(Some(s[..m.start]),
                        Some(s[m.start + 1..m.end1] + "x" + s[m.Start2()..m.end2]),
                        Some(s[m.end2 + 1..m.end]))
  {
    SearchFromFinds(s, 0, m);
    MatchAtSound(s, m.start);
    ExtractFound(s, m);
  }

  /** The three results once the search has returned a match. */
  lemma ExtractFound(s: string, m: Span)
    requires SearchFrom(s, 0) == Some(m) && Occurs(s, m)
    ensures ExtractDimensionsFromFullName(s) ==
              Extracted(Some(s[..m.start]),
                        Some(s[m.start + 1..m.end1] + "x" + s[m.Start2()..m.end2]),
                        Some(s[m.end2 + 1..m.end]))
  {
    DimensionsText(s, m);
  }

  /** Without a space-digit pair before index `n`, the pattern matches at
      no index before `n`. */
  lemma NoMatchBefore(s: string, n: nat)
    requires n <= |s| && NoSpaceBeforeDigit(s, n)
    ensures forall j :: 0 <= j < n ==> MatchAt(s, j).None?
  {
    forall j | 0 <= j < n ensures MatchAt(s, j).None? {
      NoMatchAt(s, j);
    }
  }

  /** A name from the catalog, split as the spider splits it. */
  lemma ExtractCrownDeck(s: string)
    requires s == "Crown Deck 22x140 mm"
    ensures ExtractDimensionsFromFullName(s) == Extracted(Some("Crown Deck"), Some("22x140"), Some("mm"))
  {
    var m := Span(10, 13, false, false, 17, 20);
    CrownDeckMatch(s);
    NoMatchBefore(s, 10);
    ExtractAt(s, m);
    CrownDeckPieces(s);
  }

  lemma CrownDeckMatch(s: string)
    requires s == "Crown Deck 22x140 mm"
    ensures MatchAt(s, 10) == Some(Span(10, 13, false, false, 17, 20))
    ensures NoSpaceBeforeDigit(s, 10)
  {
    RunEndIs(s, 11, 13, Digits);
    RunEndIs(s, 14, 17, Digits);
    RunEndIs(s, 18, 20, WordChars);
    MatchAtStages(s, Span(10, 13, false, false, 17, 20));
  }

  lemma CrownDeckPieces(s: string)
    requires s == "Crown Deck 22x140 mm"
    ensures s[..10] == "Crown Deck" && s[11..13] + "x" + s[14..17] == "22x140" && s[18..20] == "mm"
  {
    assert s[11] == '2' && s[12] == '2' && s[14] == '1' && s[15] == '4' && s[16] == '0';
    assert s[11..13] == "22" && s[14..17] == "140";
  }

  /** Only the first two numbers of a clause are taken: the length `3,6 m`
      after them is lost, and the unit is that of the first two. */
  lemma ExtractNordicDeck(t: string)
    requires t == "Nordic Deck Classic 22 x 140 mm x 3,6 m"
    ensures ExtractDimensionsFromFullName(t) == Extracted(Some("Nordic Deck Classic"), Some("22x140"), Some("mm"))
  {
    var n := Span(19, 22, true, true, 28, 31);
    NordicDeckMatch(t);
    NordicDeckPrefix(t);
    NoMatchBefore(t, 19);
    ExtractAt(t, n);
    NordicDeckPieces(t);
  }

  lemma NordicDeckMatch(t: string)
    requires t == "Nordic Deck Classic 22 x 140 mm x 3,6 m"
    ensures MatchAt(t, 19) == Some(Span(19, 22, true, true, 28, 31))
  {
    NordicDeckRuns(t);
    NordicDeckMarks(t);
    MatchAtStages(t, Span(19, 22, true, true, 28, 31));
  }

  lemma NordicDeckRuns(t: string)
    requires t == "Nordic Deck Classic 22 x 140 mm x 3,6 m"
    ensures RunEnd(t, 20, Digits) == 22 && RunEnd(t, 25, Digits) == 28 && RunEnd(t, 29, WordChars) == 31
  {
    RunEndIs(t, 20, 22, Digits);
    RunEndIs(t, 25, 28, Digits);
    RunEndIs(t, 29, 31, WordChars);
  }

  lemma NordicDeckMarks(t: string)
    requires t == "Nordic Deck Classic 22 x 140 mm x 3,6 m"
    ensures |t| == 39 && t[19] == ' ' && t[22] == ' ' && t[23] == 'x' && t[24] == ' ' && t[28] == ' '
  {
  }

  lemma NordicDeckPrefix(t: string)
    requires t == "Nordic Deck Classic 22 x 140 mm x 3,6 m"
    ensures NoSpaceBeforeDigit(t, 19)
  {
  }

  lemma NordicDeckPieces(t: string)
    requires t == "Nordic Deck Classic 22 x 140 mm x 3,6 m"
    ensures t[..19] == "Nordic Deck Classic" && t[20..22] + "x" + t[25..28] == "22x140" && t[29..31] == "mm"
  {
    NordicDeckNumbers(t);
    assert t[29] == 'm' && t[30] == 'm';
  }

  lemma NordicDeckNumbers(t: string)
    requires t == "Nordic Deck Classic 22 x 140 mm x 3,6 m"
    ensures t[20..22] == "22" && t[25..28] == "140"
  {
    assert t[20] == '2' && t[21] == '2' && t[25] == '1' && t[26] == '4' && t[27] == '0';
  }

  /** A name without dimensions gives three `None`s, not the name itself. */
  lemma ExtractNoDimensions(u: string)
    requires u == "Terrassebr\U{E6}t fyr"
    ensures ExtractDimensionsFromFullName(u) == Extracted(None, None, None)
  {
    ExtractWithoutSpaceDigit(u);
  }
}
