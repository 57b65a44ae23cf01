/** The metric parser of the analytics userscript
    (`parseMetricFromTitleOrText`, `getPrimaryMetricFromCell`): it turns a
    table cell's exact-value `title` attribute or its rendered text
    ("8.51K", "$53", "1,234", "–") into a number, or into "not available"
    (NaN in the script, `None` here). Numbers are exact reals. */
module Metric {
  import opened Options
  import opened Text

  /** What the parser reads from an element: its `title` attribute (absent
      or a string) and its `textContent`. */
  datatype Element = Element(title: Option<string>, text: string)

  /** What `getPrimaryMetricFromCell` reads from a `td`: the cell itself,
      its first `p[title]` descendant and its first `a` descendant. */
  datatype MetricCell = MetricCell(own: Element, pTitle: Option<Element>, link: Option<Element>)

  predicate IsDigit(c: char) {
    '0' <= c <= '9'
  }

  /** The language of `\d+`. */
  predicate IsDigits(s: string) {
    |s| > 0 && forall i :: 0 <= i < |s| ==> IsDigit(s[i])
  }

  /** The value of a string of decimal digits, most significant first. */
  function DigitsValue(s: string): nat
    requires forall i :: 0 <= i < |s| ==> IsDigit(s[i])
  {
    if s == [] then 0 else DigitsValue(s[..|s| - 1]) * 10 + DigitValue(s[|s| - 1])
  }

  function DigitValue(c: char): nat
    requires IsDigit(c)
  {
    c as int - '0' as int
  }

  function Pow10(n: nat): (p: nat)
    ensures p >= 1
  {
    if n == 0 then 1 else 10 * Pow10(n - 1)
  }

  /** `s` without one leading minus sign. */
  function Unsigned(s: string): string {
    if |s| > 0 && s[0] == '-' then s[1..] else s
  }

  /** The language of the regular expression `^-?\d+(\.\d+)?$`. */
  predicate IsDecimal(s: string) {
    var u := Unsigned(s);
    IsDigits(u) || exists k :: 0 < k < |u| && u[k] == '.' && IsDigits(u[..k]) && IsDigits(u[k + 1..])
  }

  /** The position of the first `c` in `s`, or `|s|` when there is none. */
  function IndexOf(s: string, c: char): (k: nat)
    ensures k <= |s|
    ensures forall j :: 0 <= j < k ==> s[j] != c
    ensures k < |s| ==> s[k] == c
  {
    if s == [] then 0 else if s[0] == c then 0 else 1 + IndexOf(s[1..], c)
  }

  function Signed(negative: bool, x: real): real {
    if negative then -x else x
  }

  /** The value of the literal `i.f`. */
  function PointValue(i: string, f: string): real
    requires IsDigits(i) && IsDigits(f)
  {
    DigitsValue(i) as real + DigitsValue(f) as real / Pow10(|f|) as real
  }

  /** `Number(u)` for a string of the form `\d+(\.\d+)?`, evaluated
      exactly; `None` for any other string. */
  function ParseUnsigned(u: string): Option<real> {
    var k := IndexOf(u, '.');
    if k == |u| then
      if IsDigits(u) then Some(DigitsValue(u) as real) else None
    else if IsDigits(u[..k]) && IsDigits(u[k + 1..]) then
      Some(PointValue(u[..k], u[k + 1..]))
    else
      None
  }

  /** `Number(s)` for a string of the form `-?\d+(\.\d+)?`. */
  function ParseDecimal(s: string): Option<real> {
    match ParseUnsigned(Unsigned(s))
    case Some(v) => Some(Signed(|s| > 0 && s[0] == '-', v))
    case None => None
  }

  /** `s.split(/\s+/)[0] || s`. */
  function FirstToken(s: string): string {
    var p := TakeUntilSpace(s);
    if p == [] then s else p
  }

  /** The suffix multipliers K, M and B. */
  function Multiplier(c: char): Option<real> {
    if c == 'K' then Some(1000.0)
    else if c == 'M' then Some(1000000.0)
    else if c == 'B' then Some(1000000000.0)
    else None
  }

  /** The match of `^(-?\d+(\.\d+)?)([KMB])?$` followed by the scaling by
      the suffix. */
  function ParseSuffixed(s: string): Option<real> {
    if |s| > 0 && Multiplier(s[|s| - 1]).Some? then
      match ParseDecimal(s[..|s| - 1])
      case Some(n) => Some(n * Multiplier(s[|s| - 1]).value)
      case None => None
    else
      ParseDecimal(s)
  }

  /** One token of rendered text with `$` and `,` removed, trimmed and
      upper-cased. */
  function Clean(first: string): string {
    Upper(Trim(Strip(Strip(first, '$'), ',')))
  }

  /** One token of rendered text, cleaned; a bare dash (ASCII or en dash)
      is not available. */
  function ParseToken(first: string): Option<real> {
    var cleaned := Clean(first);
    if cleaned == "-" || cleaned == "\U{2013}" then None
    else ParseSuffixed(cleaned)
  }

  /** The textual path of `parseMetricFromTitleOrText`: blank text is not
      available, otherwise the first token of the trimmed text is read. */
  function ParseText(text: string): Option<real> {
    var t := Trim(text);
    if t == [] then None else ParseToken(FirstToken(t))
  }

  function TitleOf(e: Element): string {
    match e.title
    case Some(t) => t
    case None => ""
  }

  /** `parseMetricFromTitleOrText(el)`: an exact-value title wins over
      the rendered text. */
  function ParseTitleOrText(el: Option<Element>): Option<real> {
    match el
    case None => None
    case Some(e) =>
      var title := Trim(TitleOf(e));
      if title != [] && IsDecimal(title) then ParseDecimal(title) else ParseText(e.text)
  }

  /** `getPrimaryMetricFromCell(td)`: the first `p[title]`, else the first
      link, else the cell itself. */
  function PrimaryMetric(td: Option<MetricCell>): Option<real> {
    match td
    case None => None
    case Some(c) =>
      if c.pTitle.Some? then ParseTitleOrText(c.pTitle)
      else if c.link.Some? then ParseTitleOrText(c.link)
      else ParseTitleOrText(Some(c.own))
  }

  // ---------------------------------------------------------------------
  // Properties

  /** The suffix letters the pattern `[KMB]` accepts. */
  predicate IsSuffix(c: char) {
    c == 'K' || c == 'M' || c == 'B'
  }

  /** The language of the regular expression `^(-?\d+(\.\d+)?)([KMB])?$`. */
  predicate IsSuffixedDecimal(s: string) {
    IsDecimal(s) || (|s| > 0 && IsSuffix(s[|s| - 1]) && IsDecimal(s[..|s| - 1]))
  }

  /** The characters of `-?\d+(\.\d+)?`. */
  predicate DecimalChars(s: string) {
    forall k :: 0 <= k < |s| ==> IsDigit(s[k]) || s[k] == '-' || s[k] == '.'
  }

  /** A decimal literal is made of digits, `-` and `.`, and it starts with
      a digit or `-` and ends with a digit. */
  lemma DecimalShape(s: string)
    requires IsDecimal(s)
    ensures |s| > 0 && IsDigit(s[|s| - 1]) && (IsDigit(s[0]) || s[0] == '-')
    ensures DecimalChars(s)
  {
    var u := Unsigned(s);
    UnsignedShape(u);
    if u != s {
      assert s[|s| - 1] == u[|u| - 1];
      forall k | 0 < k < |s| ensures IsDigit(s[k]) || s[k] == '.' {
        assert s[k] == u[k - 1];
      }
    }
  }

  /** The unsigned part of a decimal literal. */
  lemma UnsignedShape(u: string)
    requires IsDigits(u) || exists k :: 0 < k < |u| && u[k] == '.' && IsDigits(u[..k]) && IsDigits(u[k + 1..])
    ensures |u| > 0 && IsDigit(u[0]) && IsDigit(u[|u| - 1])
    ensures forall k :: 0 <= k < |u| ==> IsDigit(u[k]) || u[k] == '.'
  {
    if !IsDigits(u) {
      var j :| 0 < j < |u| && u[j] == '.' && IsDigits(u[..j]) && IsDigits(u[j + 1..]);
      PointShape(u, j);
    }
  }

  lemma PointShape(u: string, j: nat)
    requires 0 < j < |u| && u[j] == '.' && IsDigits(u[..j]) && IsDigits(u[j + 1..])
    ensures IsDigit(u[0]) && IsDigit(u[|u| - 1])
    ensures forall k :: 0 <= k < |u| ==> IsDigit(u[k]) || u[k] == '.'
  {
    assert u[0] == u[..j][0];
    assert u[|u| - 1] == u[j + 1..][|u| - j - 2];
    forall k | 0 <= k < |u| ensures IsDigit(u[k]) || u[k] == '.' {
      if k < j {
        assert u[k] == u[..j][k];
      } else if k > j {
        assert u[k] == u[j + 1..][k - j - 1];
      }
    }
  }

  /** A string ending in a suffix letter is not a plain decimal literal. */
  lemma SuffixNotDecimal(s: string)
    requires |s| > 0 && IsSuffix(s[|s| - 1])
    ensures !IsDecimal(s)
  {
    if IsDecimal(s) {
      DecimalShape(s);
    }
  }

  /** The decimal parser succeeds exactly on the strings the regular
      expression `^-?\d+(\.\d+)?$` accepts. */
  lemma ParseDecimalAccepts(s: string)
    ensures ParseDecimal(s).Some? <==> IsDecimal(s)
  {
    var u := Unsigned(s);
    if j :| 0 < j < |u| && u[j] == '.' && IsDigits(u[..j]) && IsDigits(u[j + 1..]) {
      FirstDot(u, j);
    }
  }

  /** A dot preceded only by digits is the first dot. */
  lemma FirstDot(u: string, j: nat)
    requires j < |u| && u[j] == '.' && IsDigits(u[..j])
    ensures IndexOf(u, '.') == j
  {
    var k := IndexOf(u, '.');
    assert forall m :: 0 <= m < j ==> u[m] == u[..j][m];
  }

  /** A decimal integer with its digits written out, as the exact-value
      titles carry them. */
  function Show(n: nat): (r: string)
    ensures |r| > 0 && forall i :: 0 <= i < |r| ==> IsDigit(r[i])
  {
    var d := ['0' + (n % 10) as char];
    if n < 10 then d else Show(n / 10) + d
  }

  lemma {:induction false} DigitsValueOfShow(n: nat)
    ensures DigitsValue(Show(n)) == n
  {
    if n >= 10 {
      DigitsValueOfShow(n / 10);
      assert Show(n)[..|Show(n)| - 1] == Show(n / 10);
    }
  }

  /** Round trip: every non-negative integer written in decimal is read
      back as itself. */
  lemma ParseShow(n: nat)
    ensures ParseDecimal(Show(n)) == Some(n as real)
  {
    var s := Show(n);
    DigitsValueOfShow(n);
    assert Unsigned(s) == s;
  }

  /** The value of a literal with a fractional part: integer part plus the
      fraction digits over a power of ten. */
  lemma ParseFraction(i: string, f: string)
    requires IsDigits(i) && IsDigits(f)
    ensures ParseDecimal(i + "." + f) == Some(PointValue(i, f))
  {
    var s := i + "." + f;
    assert s[..|i|] == i;
    assert s[|i| + 1..] == f;
    FirstDot(s, |i|);
    assert Unsigned(s) == s;
  }

  /** A leading minus sign negates the value and does not change
      acceptance. */
  lemma ParseNegative(s: string)
    requires s == [] || s[0] != '-'
    ensures ParseDecimal("-" + s) == match ParseDecimal(s)
                                     case Some(v) => Some(-v)
                                     case None => None
  {
    assert Unsigned("-" + s) == s;
    assert Unsigned(s) == s;
  }

  /** The suffixed-number reader succeeds exactly on the strings the
      regular expression `^(-?\d+(\.\d+)?)([KMB])?$` accepts, and a literal
      without a suffix reads as the decimal literal. */
  lemma ParseSuffixedAccepts(s: string)
    ensures ParseSuffixed(s).Some? <==> IsSuffixedDecimal(s)
    ensures IsDecimal(s) ==> ParseSuffixed(s) == ParseDecimal(s)
  {
    ParseDecimalAccepts(s);
    if |s| > 0 && IsSuffix(s[|s| - 1]) {
      SuffixNotDecimal(s);
      ParseDecimalAccepts(s[..|s| - 1]);
    }
  }

  /** A suffix scales the literal before it: K by a thousand, M by a
      million, B by a billion. */
  lemma SuffixedValue(m: string, c: char)
    requires IsDecimal(m) && IsSuffix(c)
    ensures ParseDecimal(m).Some? && Multiplier(c).Some?
    ensures IsSuffixedDecimal(m + [c])
    ensures ParseSuffixed(m + [c]) == Some(ParseDecimal(m).value * Multiplier(c).value)
    ensures Multiplier(c).value == (if c == 'K' then 1000.0 else if c == 'M' then 1000000.0 else 1000000000.0)
  {
    var s := m + [c];
    assert s[..|s| - 1] == m && s[|s| - 1] == c;
    ParseDecimalAccepts(m);
    var n := ParseDecimal(m).value;
    assert ParseDecimal(s[..|s| - 1]) == Some(n);
    assert Multiplier(s[|s| - 1]) == Multiplier(c);
    assert ParseSuffixed(s) == Some(n * Multiplier(c).value);
  }

  /** Neither bare dash matches the suffixed-number pattern. */
  lemma DashNotSuffixed()
    ensures !IsSuffixedDecimal("-") && !IsSuffixedDecimal("\U{2013}")
  {
    ParseDecimalAccepts("-");
    ParseDecimalAccepts("\U{2013}");
    ParseDecimalAccepts("");
    assert "-"[..0] == "";
    assert "\U{2013}"[..0] == "";
  }

  /** A token is available exactly when its cleaned form matches the
      suffixed-number pattern; the dash test only names two strings the
      pattern rejects anyway. */
  lemma TokenMeaning(first: string)
    ensures ParseToken(first).Some? <==> IsSuffixedDecimal(Clean(first))
    ensures ParseToken(first) == ParseSuffixed(Clean(first))
  {
    var c := Clean(first);
    ParseSuffixedAccepts(c);
    if c == "-" || c == "\U{2013}" {
      DashNotSuffixed();
    }
  }

  /** The rendered text is available exactly when it is not blank and the
      cleaned first token of its trimmed form matches the suffixed-number
      pattern; any other text is not available. */
  lemma TextMeaning(text: string)
    ensures ParseText(text).Some? <==>
      Trim(text) != [] && IsSuffixedDecimal(Clean(FirstToken(Trim(text))))
    ensures Trim(text) != [] ==> ParseText(text) == ParseSuffixed(Clean(FirstToken(Trim(text))))
  {
    if Trim(text) != [] {
      TokenMeaning(FirstToken(Trim(text)));
    }
  }

  /** `parseMetricFromTitleOrText` is available exactly when the trimmed
      title is a decimal literal or the text path reads a number. */
  lemma TitleOrTextMeaning(e: Element)
    ensures ParseTitleOrText(Some(e)).Some? <==>
      IsDecimal(Trim(TitleOf(e))) || ParseText(e.text).Some?
  {
    ParseDecimalAccepts(Trim(TitleOf(e)));
  }

  /** An exact-value title wins: when the trimmed title is a plain decimal
      literal the result is its value, whatever the rendered text says. */
  lemma TitlePrecedence(e: Element, otherText: string)
    requires IsDecimal(Trim(TitleOf(e)))
    ensures ParseTitleOrText(Some(e)) == ParseDecimal(Trim(TitleOf(e)))
    ensures ParseTitleOrText(Some(e)).Some?
    ensures ParseTitleOrText(Some(e.(text := otherText))) == ParseTitleOrText(Some(e))
  {
    ParseDecimalAccepts(Trim(TitleOf(e)));
  }

  /** A missing, empty or malformed title falls through to the text. */
  lemma TitleFallsThrough(e: Element)
    requires !IsDecimal(Trim(TitleOf(e)))
    ensures ParseTitleOrText(Some(e)) == ParseText(e.text)
  {
  }

  /** The cell's `p[title]` decides its value when present, whatever its
      link and own text hold; without one the link decides, whatever the
      cell's own text; and a missing cell is not available. */
  lemma PrimaryMetricOrder(c: MetricCell, link: Option<Element>, own: Element)
    ensures PrimaryMetric(None) == None
    ensures c.pTitle.Some? ==>
      PrimaryMetric(Some(c.(link := link, own := own))) == ParseTitleOrText(c.pTitle)
    ensures c.pTitle.None? && c.link.Some? ==>
      PrimaryMetric(Some(c.(own := own))) == ParseTitleOrText(c.link)
    ensures c.pTitle.None? && c.link.None? ==> PrimaryMetric(Some(c)) == ParseTitleOrText(Some(c.own))
  {
  }

  /** Empty (or all-blank) rendered text is not available. */
  lemma BlankTextUnavailable(text: string)
    requires Trim(text) == []
    ensures ParseText(text) == None
  {
  }

  /** `tok` is the white-space-free prefix of `t` that ends at white
      space or at the end of `t`. */
  lemma {:induction false} TakeUntilSpaceIs(t: string, tok: string)
    requires |tok| <= |t| && t[..|tok|] == tok && NoSpace(tok)
    requires |tok| < |t| ==> IsSpace(t[|tok|])
    ensures TakeUntilSpace(t) == tok
  {
    if tok != [] {
      assert t[0] == tok[0];
      assert t[1..][..|tok| - 1] == tok[1..];
      TakeUntilSpaceIs(t[1..], tok[1..]);
    }
  }

  /** The first token of `tok + [sp] + rest`, once trimmed, is `tok`. */
  lemma FirstTokenOf(tok: string, sp: char, rest: string)
    requires tok != [] && NoSpace(tok) && IsSpace(sp)
    ensures Trim(tok + [sp] + rest) != []
    ensures FirstToken(Trim(tok + [sp] + rest)) == tok
  {
    var s := tok + [sp] + rest;
    assert s[0] == tok[0];
    assert TrimStart(s) == s;
    var t := TrimEnd(s);
    assert s[|tok| - 1] == tok[|tok| - 1];
    assert |tok| <= |t|;
    assert t[..|tok|] == s[..|tok|] == tok;
    assert |tok| < |t| ==> t[|tok|] == sp;
    TakeUntilSpaceIs(t, tok);
  }

  /** Only the first white-space-delimited token of the text is read: the
      text after it (e.g. a percentage-change annotation) is ignored. */
  lemma OnlyFirstTokenCounts(tok: string, sp: char, rest: string)
    requires tok != [] && NoSpace(tok) && IsSpace(sp)
    ensures ParseText(tok + [sp] + rest) == ParseText(tok)
  {
    FirstTokenOf(tok, sp, rest);
    TrimOfTrimmed(tok);
    TakeUntilSpaceIs(tok, tok);
  }

  /** A token that is already clean (no white space, no `$`, no `,`, no
      lower-case letter, not a bare dash) is matched as it stands. */
  lemma CleanToken(t: string)
    requires t != [] && NoSpace(t)
    requires Lacks(t, '$') && Lacks(t, ',') && NoLowerCase(t)
    requires t != "-" && t != "\U{2013}"
    ensures ParseText(t) == ParseSuffixed(t)
    ensures ParseText(t).Some? <==> IsSuffixedDecimal(t)
  {
    TrimOfTrimmed(t);
    TakeUntilSpaceIs(t, t);
    StripAbsent(t, '$');
    StripAbsent(t, ',');
    UpperFixed(t);
    ParseSuffixedAccepts(t);
  }
}
