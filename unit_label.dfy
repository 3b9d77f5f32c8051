/** The price-unit label of a catalog item: `unit.strip("kr./")`.
    Python's `str.strip(chars)` treats its argument as a SET of characters
    and removes every leading and trailing character in that set. */
module UnitLabel {

  /** The characters `"kr./"` names as a strip set. */
  predicate InStripSet(c: char) {
    c == 'k' || c == 'r' || c == '.' || c == '/'
  }

  predicate AllInStripSet(s: string) {
    forall k :: 0 <= k < |s| ==> InStripSet(s[k])
  }

  /** Number of leading characters of `s` that lie in the strip set. */
  function LeadingStripLen(s: string): (n: nat)
    ensures n <= |s|
    ensures AllInStripSet(s[..n])
    ensures n < |s| ==> !InStripSet(s[n])
  {
    if s == [] || !InStripSet(s[0]) then 0
    else 1 + LeadingStripLen(s[1..])
  }

  /** Number of trailing characters of `s` that lie in the strip set. */
  function TrailingStripLen(s: string): (n: nat)
    ensures n <= |s|
    ensures AllInStripSet(s[|s| - n..])
    ensures n < |s| ==> !InStripSet(s[|s| - 1 - n])
  {
    if s == [] || !InStripSet(s[|s| - 1]) then 0
    else
      var m := TrailingStripLen(s[..|s| - 1]);
      LastSplit(s, m);
      1 + m
  }

  /** A suffix of `s` is a suffix of `s` without its last character,
      followed by that character. */
  lemma LastSplit(s: string, m: nat)
    requires m < |s|
    ensures s[|s| - (1 + m)..] == s[..|s| - 1][|s| - 1 - m..] + [s[|s| - 1]]
  {
  }

  /** `unit.strip("kr./")`, as written in the item-list callback. */
  function StripUnit(unit: string): (r: string)
    ensures |r| <= |unit|
    ensures |r| > 0 ==> !InStripSet(r[0]) && !InStripSet(r[|r| - 1])
  {
    var i := LeadingStripLen(unit);
    var rest := unit[i..];
    rest[..|rest| - TrailingStripLen(rest)]
  }

  /** What `strip` promises: the result is a contiguous piece of the input,
      everything cut away on either side is in the strip set, and the result
      neither starts nor ends with a character of the set. */
  lemma StripUnitSpec(unit: string)
    ensures exists i, j ::
              && 0 <= i <= j <= |unit|
              && StripUnit(unit) == unit[i..j]
              && AllInStripSet(unit[..i])
              && AllInStripSet(unit[j..])
    ensures StripUnit(unit) != [] ==>
              && !InStripSet(StripUnit(unit)[0])
              && !InStripSet(StripUnit(unit)[|StripUnit(unit)| - 1])
  {
    var i := LeadingStripLen(unit);
    var rest := unit[i..];
    var t := TrailingStripLen(rest);
    var j := i + |rest| - t;
    assert StripUnit(unit) == unit[i..j];
    assert unit[j..] == rest[|rest| - t..];
  }

  /** Stripping twice is stripping once. */
  lemma StripUnitIdempotent(unit: string)
    ensures StripUnit(StripUnit(unit)) == StripUnit(unit)
  {
    var r := StripUnit(unit);
    StripUnitSpec(unit);
    if r != [] {
      assert LeadingStripLen(r) == 0;
      assert TrailingStripLen(r) == 0;
    }
  }

  /** The label the callback evidently means: the unit after the currency
      prefix `"kr./"`, as `removeprefix` would give it. */
  function UnitAfterPrefix(unit: string): (r: string)
    ensures |r| <= |unit|
    ensures r == unit[|unit| - |r|..]
  {
    if |unit| >= 4 && unit[..4] == "kr./" then unit[4..] else unit
  }

  /** The intended label gives back exactly the unit written after the prefix,
      whatever letters that unit ends or starts with. */
  lemma UnitAfterPrefixRoundTrip(u: string)
    ensures UnitAfterPrefix("kr./" + u) == u
  {
    assert ("kr./" + u)[..4] == "kr./";
    assert ("kr./" + u)[4..] == u;
  }

  /** As written, the strip also eats the trailing `k` of the Danish piece
      unit "stk" (and the leading `r` of a unit such as "rulle"), with or
      without a closing point. */
  lemma StripUnitEatsUnitLetters(s: string, dotted: string)
    requires s == "kr./stk" && dotted == "kr./stk."
    ensures StripUnit(s) == "st" && StripUnit(dotted) == "st"
    ensures UnitAfterPrefix(s) == "stk"
  {
    assert s == "kr./" + "stk" && dotted == "kr./" + "stk.";
    StripPrefix("stk");
    StripPrefix("stk.");
    StripPieceUnit("stk");
    StripPieceUnitDotted("stk.");
    UnitAfterPrefixRoundTrip("stk");
  }

  /** The strip takes the whole prefix when the unit starts outside the
      strip set. */
  lemma StripPrefix(u: string)
    requires |u| > 0 && !InStripSet(u[0])
    ensures LeadingStripLen("kr./" + u) == 4 && ("kr./" + u)[4..] == u
  {
    var s := "kr./" + u;
    assert s[4..] == u;
    assert s == ['k'] + (['r'] + (['.'] + (['/'] + u)));
    LeadingStripCons('/', u);
    LeadingStripCons('.', ['/'] + u);
    LeadingStripCons('r', ['.'] + (['/'] + u));
    LeadingStripCons('k', ['r'] + (['.'] + (['/'] + u)));
  }

  lemma LeadingStripCons(c: char, t: string)
    requires InStripSet(c)
    ensures LeadingStripLen([c] + t) == 1 + LeadingStripLen(t)
  {
    assert ([c] + t)[1..] == t;
  }

  lemma StripPieceUnit(u: string)
    requires u == "stk"
    ensures TrailingStripLen(u) == 1 && u[..2] == "st"
  {
    assert TrailingStripLen(u[..2]) == 0;
  }

  lemma StripPieceUnitDotted(u: string)
    requires u == "stk."
    ensures TrailingStripLen(u) == 2 && u[..2] == "st"
  {
    assert u[..3] == "stk" && u[..3][..2] == "st";
    assert TrailingStripLen(u[..3][..2]) == 0;
  }
}
