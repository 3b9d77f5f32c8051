/** `try_to_convert_to_float`: a Danish-formatted number (`.` groups
    thousands, `,` marks decimals) is translated character by character,
    `.` to `_` and `,` to `.`, and handed to Python's `float()`, which accepts
    `_` between digits. `"1.234,56"` becomes `"1_234.56"`, that is 1234.56.

    `float()` is modelled by the grammar it accepts for plain decimal
    numbers: surrounding whitespace, an optional sign, digit groups joined by
    single underscores, and an optional point with a fraction. Its value is
    an exact `real`. Exponents (`"1e3"`), `inf` and `nan`, which `float()`
    also accepts, are outside the modelled grammar, and so are non-ASCII
    decimal digits. */
module LocaleNumber {
  import opened Wrappers
  import opened Characters

  /** The whitespace `float()` strips around a number: the ASCII tab, line
      feed, vertical tab, form feed, carriage return and space, and the
      non-ASCII characters of Python's `str.isspace`, which `float()` first
      turns into spaces. The ASCII separators U+001C to U+001F count for
      `str.isspace` but are not stripped, so they make the text fail. */
  predicate IsSpace(c: char) {
    || '\t' <= c <= '\r'
    || c == ' '
    || c == '\U{85}' || c == '\U{A0}' || c == '\U{1680}'
    || '\U{2000}' <= c <= '\U{200A}'
    || c == '\U{2028}' || c == '\U{2029}' || c == '\U{202F}' || c == '\U{205F}' || c == '\U{3000}'
  }

  predicate AllSpace(s: string) {
    forall k :: 0 <= k < |s| ==> IsSpace(s[k])
  }

  // ---------------------------------------------------------------------------
  // The translation `str.maketrans({".": "_", ",": "."})`

  function TranslateChar(c: char): char {
    if c == '.' then '_' else if c == ',' then '.' else c
  }

  /** `inpt.translate(replacer_map)`. */
  function Translate(s: string): (t: string)
    ensures |t| == |s|
    ensures forall k :: 0 <= k < |s| ==>
              && (s[k] == '.' ==> t[k] == '_')
              && (s[k] == ',' ==> t[k] == '.')
              && (s[k] != '.' && s[k] != ',' ==> t[k] == s[k])
  {
    if s == [] then [] else [TranslateChar(s[0])] + Translate(s[1..])
  }

  lemma {:induction false} TranslateConcat(a: string, b: string)
    ensures Translate(a + b) == Translate(a) + Translate(b)
  {
    if a == [] {
      assert a + b == b;
    } else {
      assert (a + b)[1..] == a[1..] + b;
      TranslateConcat(a[1..], b);
    }
  }

  // ---------------------------------------------------------------------------
  // What `float()` accepts

  datatype Sign = NoSign | Plus | Minus

  function SignText(sign: Sign): string {
    match sign
    case NoSign => ""
    case Plus => "+"
    case Minus => "-"
  }

  /** `digitpart ::= digit (["_"] digit)*`: digits, with single underscores
      only between two digits. */
  predicate DigitPart(p: string) {
    && |p| > 0 && IsDigit(p[0]) && IsDigit(p[|p| - 1])
    && (forall k :: 0 <= k < |p| ==> IsDigit(p[k]) || p[k] == '_')
    && (forall k :: 0 <= k < |p| - 1 && p[k] == '_' ==> p[k + 1] != '_')
  }

  /** A decimal literal as `float()` reads it: leading whitespace, a sign, the
      whole part, a point, the fraction and trailing whitespace. */
  datatype Literal = Literal(lead: string, sign: Sign, whole: string, point: bool, fraction: string, trail: string)
  {
    /** `number ::= [digitpart] "." digitpart | digitpart ["."]`, with
        whitespace around and an optional sign. */
    predicate WellFormed() {
      && AllSpace(lead) && AllSpace(trail)
      && (whole == [] || DigitPart(whole))
      && (fraction == [] || DigitPart(fraction))
      && (whole != [] || fraction != [])
      && (fraction != [] ==> point)
    }

    /** The number without its sign and surrounding whitespace. */
    function Body(): string {
      whole + (if point then "." else "") + fraction
    }

    /** The number without its surrounding whitespace. */
    function Core(): string {
      SignText(sign) + Body()
    }

    function Text(): string {
      lead + Core() + trail
    }

    /** The exact value the literal denotes. */
    function Value(): real {
      var magnitude := NatValue(WithoutUnderscores(whole)) as real
                       + NatValue(WithoutUnderscores(fraction)) as real / Pow10(|WithoutUnderscores(fraction)|) as real;
      if sign == Minus then -magnitude else magnitude
    }
  }

  function Pow10(n: nat): (p: nat)
    ensures p >= 1
  {
    if n == 0 then 1 else 10 * Pow10(n - 1)
  }

  /** The value of a string of digits, read in base ten. */
  function NatValue(d: string): nat {
    if d == [] then 0
    else 10 * NatValue(d[..|d| - 1]) + (if IsDigit(d[|d| - 1]) then d[|d| - 1] as nat - '0' as nat else 0)
  }

  function WithoutUnderscores(p: string): (r: string)
    ensures |r| <= |p|
  {
    if p == [] then []
    else (if p[0] == '_' then [] else [p[0]]) + WithoutUnderscores(p[1..])
  }

  // ---------------------------------------------------------------------------
  // The parser

  /** End of the whitespace that begins at index `i`. */
  function SpaceFrom(s: string, i: nat): (e: nat)
    requires i <= |s|
    ensures i <= e <= |s|
    ensures e < |s| ==> !IsSpace(s[e])
    decreases |s| - i
  {
    if i < |s| && IsSpace(s[i]) then SpaceFrom(s, i + 1) else i
  }

  lemma {:induction false} SpaceFromSpan(s: string, i: nat)
    requires i <= |s|
    ensures forall k :: i <= k < SpaceFrom(s, i) ==> IsSpace(s[k])
    decreases |s| - i
  {
    if i < |s| && IsSpace(s[i]) {
      SpaceFromSpan(s, i + 1);
    }
  }

  /** Start of the whitespace that ends at index `e`, going no further back
      than `a`. */
  function SpaceUntil(s: string, a: nat, e: nat): (b: nat)
    requires a <= e <= |s|
    ensures a <= b <= e
    ensures b > a ==> !IsSpace(s[b - 1])
    decreases e
  {
    if e > a && IsSpace(s[e - 1]) then SpaceUntil(s, a, e - 1) else e
  }

  lemma {:induction false} SpaceUntilSpan(s: string, a: nat, e: nat)
    requires a <= e <= |s|
    ensures forall k :: SpaceUntil(s, a, e) <= k < e ==> IsSpace(s[k])
    decreases e
  {
    if e > a && IsSpace(s[e - 1]) {
      SpaceUntilSpan(s, a, e - 1);
    }
  }

  /** Index of the first `c` in `s`, if there is one. */
  function Find(s: string, c: char): (r: Option<nat>)
    ensures r.Some? ==> r.value < |s| && s[r.value] == c
    ensures forall k :: 0 <= k < |s| && (r.None? || k < r.value) ==> s[k] != c
  {
    if s == [] then None
    else if s[0] == c then Some(0)
    else match Find(s[1..], c)
      case None => None
      case Some(k) => Some(k + 1)
  }

  /** The sign a stripped number starts with. */
  function SignOf(core: string): Sign {
    if core != [] && core[0] == '+' then Plus
    else if core != [] && core[0] == '-' then Minus
    else NoSign
  }

  /** The number after its sign. */
  function Unsigned(core: string): (body: string)
    ensures SignText(SignOf(core)) + body == core
  {
    if SignOf(core) == NoSign then core else core[1..]
  }

  /** Splits an unsigned number at its first point. */
  function SplitAtPoint(lead: string, sign: Sign, body: string, trail: string): (lit: Literal)
    ensures lit.lead == lead && lit.sign == sign && lit.trail == trail
    ensures lit.Body() == body
    ensures forall k :: 0 <= k < |lit.whole| ==> lit.whole[k] != '.'
  {
    match Find(body, '.')
    case None => Literal(lead, sign, body, false, [], trail)
    case Some(p) =>
      assert body == body[..p] + "." + body[p + 1..];
      Literal(lead, sign, body[..p], true, body[p + 1..], trail)
  }

  /** `float()`'s reading of a string: strip the whitespace, take the sign,
      split at the first point, and check both parts. */
  function ParseLiteral(t: string): (r: Option<Literal>)
    ensures r.Some? ==> r.value.WellFormed()
  {
    var a := SpaceFrom(t, 0);
    var e := SpaceUntil(t, a, |t|);
    var lit := SplitAtPoint(t[..a], SignOf(t[a..e]), Unsigned(t[a..e]), t[e..]);
    if lit.WellFormed() then Some(lit) else None
  }

  /** What the parser returns is a literal `float()` accepts, and it spells
      exactly the string it was read from. */
  lemma ParseLiteralSound(t: string)
    ensures ParseLiteral(t).Some? ==> ParseLiteral(t).value.WellFormed() && ParseLiteral(t).value.Text() == t
  {
    var a := SpaceFrom(t, 0);
    var e := SpaceUntil(t, a, |t|);
    var lit := SplitAtPoint(t[..a], SignOf(t[a..e]), Unsigned(t[a..e]), t[e..]);
    assert lit.Core() == t[a..e];
    SliceThree(t, a, e);
  }

  lemma SliceThree(t: string, a: nat, e: nat)
    requires a <= e <= |t|
    ensures t[..a] + t[a..e] + t[e..] == t
  {
  }

  /** Whitespace `s[i..n]` followed by a non-space (or the end) is what
      `SpaceFrom` skips. */
  lemma SpaceFromIs(s: string, i: nat, n: nat)
    requires i <= n <= |s|
    requires forall k :: i <= k < n ==> IsSpace(s[k])
    requires n < |s| ==> !IsSpace(s[n])
    ensures SpaceFrom(s, i) == n
  {
    SpaceFromSpan(s, i);
  }

  /** Whitespace `s[n..e]` preceded by a non-space (or by `a`) is what
      `SpaceUntil` skips. */
  lemma SpaceUntilIs(s: string, a: nat, n: nat, e: nat)
    requires a <= n <= e <= |s|
    requires forall k :: n <= k < e ==> IsSpace(s[k])
    requires n > a ==> !IsSpace(s[n - 1])
    ensures SpaceUntil(s, a, e) == n
  {
    SpaceUntilSpan(s, a, e);
  }

  /** A literal's body starts and ends with a digit or a point. */
  lemma BodyShape(lit: Literal)
    requires lit.WellFormed()
    ensures |lit.Body()| > 0
    ensures IsDigit(lit.Body()[0]) || lit.Body()[0] == '.'
    ensures IsDigit(lit.Body()[|lit.Body()| - 1]) || lit.Body()[|lit.Body()| - 1] == '.'
  {
    var body := lit.Body();
    if lit.whole != [] {
      assert body[0] == lit.whole[0];
    } else {
      assert body[0] == '.';
    }
    if lit.fraction != [] {
      assert body[|body| - 1] == lit.fraction[|lit.fraction| - 1];
    } else if lit.point {
      assert body[|body| - 1] == '.';
    } else {
      assert body[|body| - 1] == lit.whole[|lit.whole| - 1];
    }
  }

  /** The number between the whitespace starts and ends with a character
      that is not whitespace. */
  lemma CoreShape(lit: Literal)
    requires lit.WellFormed()
    ensures |lit.Core()| > 0
    ensures !IsSpace(lit.Core()[0]) && !IsSpace(lit.Core()[|lit.Core()| - 1])
  {
    BodyShape(lit);
    var body := lit.Body();
    assert lit.Core()[|lit.Core()| - 1] == body[|body| - 1];
    assert lit.Core()[0] == if lit.sign == NoSign then body[0] else SignText(lit.sign)[0];
  }

  /** Splitting a literal's body at its first point gives the literal back. */
  lemma SplitAtPointIs(lit: Literal)
    requires lit.WellFormed()
    ensures SplitAtPoint(lit.lead, lit.sign, lit.Body(), lit.trail) == lit
  {
    var body := lit.Body();
    if lit.point {
      assert body[|lit.whole|] == '.';
      forall k | 0 <= k < |lit.whole| ensures body[k] != '.' {
        assert body[k] == lit.whole[k];
        assert IsDigit(lit.whole[k]) || lit.whole[k] == '_';
      }
      assert Find(body, '.') == Some(|lit.whole|);
      assert body[..|lit.whole|] == lit.whole;
      assert body[|lit.whole| + 1..] == lit.fraction;
    } else {
      assert body == lit.whole;
      forall k | 0 <= k < |body| ensures body[k] != '.' {
        assert IsDigit(lit.whole[k]) || lit.whole[k] == '_';
      }
    }
  }

  /** The sign is read off the front of the number. */
  lemma SignOfCore(lit: Literal)
    requires lit.WellFormed()
    ensures SignOf(lit.Core()) == lit.sign && Unsigned(lit.Core()) == lit.Body()
  {
    BodyShape(lit);
    var core := lit.Core();
    if lit.sign == NoSign {
      assert core == lit.Body();
    } else {
      assert core[0] == SignText(lit.sign)[0];
      assert core[1..] == lit.Body();
    }
  }

  /** Every literal `float()` accepts is read back as itself: the parser is
      complete for the grammar, and a string has only one reading. */
  lemma ParseLiteralComplete(lit: Literal)
    requires lit.WellFormed()
    ensures ParseLiteral(lit.Text()) == Some(lit)
  {
    var t := lit.Text();
    var core := lit.Core();
    var a, e := |lit.lead|, |lit.lead| + |lit.Core()|;
    CoreShape(lit);
    assert t[..a] == lit.lead && t[a..e] == core && t[e..] == lit.trail;
    forall k | 0 <= k < a ensures IsSpace(t[k]) {
      assert t[k] == lit.lead[k];
    }
    assert t[a] == core[0];
    SpaceFromIs(t, 0, a);
    forall k | e <= k < |t| ensures IsSpace(t[k]) {
      assert t[k] == lit.trail[k - e];
    }
    assert t[e - 1] == core[|core| - 1];
    SpaceUntilIs(t, a, e, |t|);
    SignOfCore(lit);
    SplitAtPointIs(lit);
  }

  /** `try_to_convert_to_float`: the value, or `None` where `float()` raises
      `ValueError`. */
  function TryToConvertToFloat(inpt: string): (r: Option<real>)
    ensures r.Some? ==> |inpt| > 0
  {
    ParseLiteralSound(Translate(inpt));
    match ParseLiteral(Translate(inpt))
    case None => None
    case Some(lit) => Some(lit.Value())
  }

  /** The conversion succeeds exactly when the translated text is a literal
      `float()` accepts, and then gives that literal's value. */
  lemma TryToConvertSpec(s: string)
    ensures TryToConvertToFloat(s).Some? ==>
              exists lit: Literal :: lit.WellFormed() && lit.Text() == Translate(s) && TryToConvertToFloat(s).value == lit.Value()
    ensures forall lit: Literal :: lit.WellFormed() && lit.Text() == Translate(s) ==> TryToConvertToFloat(s) == Some(lit.Value())
  {
    ParseLiteralSound(Translate(s));
    forall lit: Literal | lit.WellFormed() && lit.Text() == Translate(s)
      ensures TryToConvertToFloat(s) == Some(lit.Value())
    {
      ParseLiteralComplete(lit);
    }
  }

  /** The Danish spelling of a number: `_` written as `.` and `.` as `,`. */
  function Danish(t: string): (d: string)
    ensures |d| == |t|
    ensures forall k :: 0 <= k < |t| ==>
              && (t[k] == '_' ==> d[k] == '.')
              && (t[k] == '.' ==> d[k] == ',')
              && (t[k] != '_' && t[k] != '.' ==> d[k] == t[k])
  {
    if t == [] then [] else [if t[0] == '_' then '.' else if t[0] == '.' then ',' else t[0]] + Danish(t[1..])
  }

  /** What a literal's text is made of: whitespace, signs, digits,
      underscores and points. */
  lemma TextChars(lit: Literal)
    requires lit.WellFormed()
    ensures var t := lit.Text();
      forall k :: 0 <= k < |t| ==>
        IsSpace(t[k]) || IsDigit(t[k]) || t[k] == '_' || t[k] == '.' || t[k] == '+' || t[k] == '-'
  {
    var t := lit.Text();
    var dot := if lit.point then "." else "";
    var n0 := |lit.lead|;
    var n1 := n0 + |SignText(lit.sign)|;
    var n2 := n1 + |lit.whole|;
    var n3 := n2 + |dot|;
    var n4 := n3 + |lit.fraction|;
    assert t == lit.lead + SignText(lit.sign) + lit.whole + dot + lit.fraction + lit.trail;
    forall k | 0 <= k < |t|
      ensures IsSpace(t[k]) || IsDigit(t[k]) || t[k] == '_' || t[k] == '.' || t[k] == '+' || t[k] == '-'
    {
      if k < n0 {
        assert t[k] == lit.lead[k];
      } else if k < n1 {
        assert t[k] == SignText(lit.sign)[k - n0];
      } else if k < n2 {
        assert t[k] == lit.whole[k - n1];
      } else if k < n3 {
        assert t[k] == '.';
      } else if k < n4 {
        assert t[k] == lit.fraction[k - n3];
      } else {
        assert t[k] == lit.trail[k - n4];
      }
    }
  }

  /** Every point in a literal's text is the literal's own point. */
  lemma TextPoint(lit: Literal)
    requires lit.WellFormed()
    ensures var t := lit.Text();
      forall k :: 0 <= k < |t| && t[k] == '.' ==> lit.point && k == |lit.lead| + |SignText(lit.sign)| + |lit.whole|
  {
    var t := lit.Text();
    var dot := if lit.point then "." else "";
    var n0 := |lit.lead|;
    var n1 := n0 + |SignText(lit.sign)|;
    var n2 := n1 + |lit.whole|;
    var n3 := n2 + |dot|;
    var n4 := n3 + |lit.fraction|;
    assert t == lit.lead + SignText(lit.sign) + lit.whole + dot + lit.fraction + lit.trail;
    forall k | 0 <= k < |t|
      ensures t[k] == '.' ==> lit.point && k == n2
    {
      if k < n0 {
        assert t[k] == lit.lead[k];
      } else if k < n1 {
        assert t[k] == SignText(lit.sign)[k - n0];
      } else if k < n2 {
        assert t[k] == lit.whole[k - n1];
      } else if k < n3 {
        assert t[k] == '.';
      } else if k < n4 {
        assert t[k] == lit.fraction[k - n3];
      } else {
        assert t[k] == lit.trail[k - n4];
      }
    }
  }

  /** A literal's text has no commas, so the Danish spelling translates back
      to it. */
  lemma TranslateDanish(lit: Literal)
    requires lit.WellFormed()
    ensures Translate(Danish(lit.Text())) == lit.Text()
  {
    TextChars(lit);
    DanishInverse(lit.Text());
  }

  /** `Danish` undoes the translation on any text without a comma. */
  lemma DanishInverse(t: string)
    requires forall k :: 0 <= k < |t| ==> t[k] != ','
    ensures Translate(Danish(t)) == t
  {
    var d := Danish(t);
    forall k | 0 <= k < |t| ensures Translate(d)[k] == t[k] {
      assert t[k] == '_' || t[k] == '.' || d[k] == t[k];
    }
  }

  /** Every number `float()` accepts, written the Danish way, converts to its
      value. */
  lemma DanishRoundTrip(lit: Literal)
    requires lit.WellFormed()
    ensures TryToConvertToFloat(Danish(lit.Text())) == Some(lit.Value())
  {
    TranslateDanish(lit);
    ParseLiteralComplete(lit);
  }

  /** What converts is made of digits, `.`, `,`, `_`, signs and whitespace. */
  lemma ConvertedAlphabet(s: string)
    requires TryToConvertToFloat(s).Some?
    ensures forall k :: 0 <= k < |s| ==>
              IsSpace(s[k]) || IsDigit(s[k]) || s[k] == '_' || s[k] == '.' || s[k] == ',' || s[k] == '+' || s[k] == '-'
  {
    var t := Translate(s);
    TryToConvertSpec(s);
    var lit: Literal :| lit.WellFormed() && lit.Text() == t;
    TextChars(lit);
    forall k | 0 <= k < |s|
      ensures IsSpace(s[k]) || IsDigit(s[k]) || s[k] == '_' || s[k] == '.' || s[k] == ',' || s[k] == '+' || s[k] == '-'
    {
      assert IsSpace(t[k]) || IsDigit(t[k]) || t[k] == '_' || t[k] == '.' || t[k] == '+' || t[k] == '-';
    }
  }

  /** A literal's text has at most one point. */
  lemma OnePoint(lit: Literal, t: string)
    requires lit.WellFormed() && lit.Text() == t
    ensures forall i, j :: 0 <= i < j < |t| && t[i] == '.' ==> t[j] != '.'
  {
    TextPoint(lit);
  }

  /** What converts has at most one decimal comma. */
  lemma ConvertedOneComma(s: string)
    requires TryToConvertToFloat(s).Some?
    ensures forall i, j :: 0 <= i < j < |s| && s[i] == ',' ==> s[j] != ','
  {
    var t := Translate(s);
    TryToConvertSpec(s);
    var lit: Literal :| lit.WellFormed() && lit.Text() == t;
    OnePoint(lit, t);
    forall i, j | 0 <= i < j < |s| && s[i] == ','
      ensures s[j] != ','
    {
      assert t[i] == '.';
      assert t[j] != '.';
    }
  }

  /** The translation is read off character by character. */
  lemma TranslateIs(s: string, t: string)
    requires |t| == |s|
    requires forall k :: 0 <= k < |s| ==> t[k] == TranslateChar(s[k])
    ensures Translate(s) == t
  {
  }

  /** `1_234.56` is a literal `float()` accepts. */
  lemma ThousandsLiteral(lit: Literal)
    requires lit == Literal("", NoSign, "1_234", true, "56", "")
    ensures lit.WellFormed() && lit.Text() == "1_234.56"
  {
  }

  /** `1_234` reads as 1234. */
  lemma ThousandsWhole(w: string)
    requires w == "1_234"
    ensures NatValue(WithoutUnderscores(w)) == 1234
  {
    assert w[1..] == "_234" && w[2..] == "234" && w[3..] == "34" && w[4..] == "4" && w[5..] == [];
    assert WithoutUnderscores(w[4..]) == "4";
    assert WithoutUnderscores(w[3..]) == "34";
    assert WithoutUnderscores(w[2..]) == "234";
    assert WithoutUnderscores(w) == "1234";
    assert "1234"[..3] == "123" && "123"[..2] == "12" && "12"[..1] == "1";
    assert NatValue("1") == 1;
    assert NatValue("12") == 12;
    assert NatValue("123") == 123;
  }

  /** `56` reads as 56 hundredths. */
  lemma ThousandsFraction(f: string)
    requires f == "56"
    ensures NatValue(WithoutUnderscores(f)) == 56 && Pow10(|WithoutUnderscores(f)|) == 100
  {
    assert f[1..] == "6";
    assert WithoutUnderscores(f) == "56";
    assert "56"[..1] == "5";
  }

  /** The value of `1_234.56`. */
  lemma ThousandsValue(lit: Literal)
    requires lit == Literal("", NoSign, "1_234", true, "56", "")
    ensures lit.Value() == 1234.56
  {
    ThousandsWhole(lit.whole);
    ThousandsFraction(lit.fraction);
  }

  /** `"1.234,56"` is 1234.56: the point groups thousands and the comma
      marks decimals. */
  lemma ConvertThousands(s: string)
    requires s == "1.234,56"
    ensures TryToConvertToFloat(s) == Some(1234.56)
  {
    var lit := Literal("", NoSign, "1_234", true, "56", "");
    ThousandsLiteral(lit);
    ThousandsValue(lit);
    TranslateThousands(s);
    ParseLiteralComplete(lit);
  }

  lemma TranslateThousands(s: string)
    requires s == "1.234,56"
    ensures Translate(s) == "1_234.56"
  {
    TranslateIs(s, "1_234.56");
  }

  /** `"12,5"` is 12.5. */
  lemma ConvertDecimalComma(s: string)
    requires s == "12,5"
    ensures TryToConvertToFloat(s) == Some(12.5)
  {
    var lit := Literal("", NoSign, "12", true, "5", "");
    assert lit.WellFormed() && lit.Text() == "12.5";
    assert lit.Value() == 12.5 by {
      assert lit.whole[1..] == "2" && WithoutUnderscores(lit.whole) == "12";
      assert "12"[..1] == "1";
      assert WithoutUnderscores(lit.fraction) == "5";
    }
    TranslateIs(s, "12.5");
    ParseLiteralComplete(lit);
  }

  /** A candidate with a letter in it, such as the unit of `"12,5 kr"`,
      does not convert. */
  lemma ConvertRejectsLetters(s: string, k: nat)
    requires k < |s| && ('a' <= s[k] <= 'z' || 'A' <= s[k] <= 'Z')
    ensures TryToConvertToFloat(s) == None
  {
    assert !(IsSpace(s[k]) || IsDigit(s[k]) || s[k] == '_' || s[k] == '.' || s[k] == ',' || s[k] == '+' || s[k] == '-');
    if TryToConvertToFloat(s).Some? {
      ConvertedAlphabet(s);
      assert false;
    }
  }

  /** A candidate with an ASCII separator U+001C to U+001F in it, such as
      `"\U{1C}1"`, does not convert: `float()` strips only the ASCII blanks
      and non-ASCII whitespace, not these. */
  lemma ConvertRejectsSeparators(s: string, k: nat)
    requires k < |s| && '\U{1C}' <= s[k] <= '\U{1F}'
    ensures TryToConvertToFloat(s) == None
  {
    assert !(IsSpace(s[k]) || IsDigit(s[k]) || s[k] == '_' || s[k] == '.' || s[k] == ',' || s[k] == '+' || s[k] == '-');
    if TryToConvertToFloat(s).Some? {
      ConvertedAlphabet(s);
      assert false;
    }
  }

  /** A candidate with two commas, such as `"1,2,3"`, does not convert. */
  lemma ConvertRejectsTwoCommas(s: string, i: nat, j: nat)
    requires i < j < |s| && s[i] == ',' && s[j] == ','
    ensures TryToConvertToFloat(s) == None
  {
    if TryToConvertToFloat(s).Some? {
      ConvertedOneComma(s);
    }
  }
}
