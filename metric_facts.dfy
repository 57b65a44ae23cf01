/** Consequences of the metric parser's definition: how blank text,
    currency signs, thousands separators and K/M/B suffixes are read, and
    the worked examples "451", "8.51K", "$53", "1,234", "-" and an exact
    title "8508" beside "8.51K". */
module MetricFacts {
  import opened Options
  import opened Text
  import opened Metric

  /** Steps of `ParseText`, each stated on its own. */
  lemma ReadText(text: string, tok: string)
    requires Trim(text) == tok && tok != [] && FirstToken(tok) == tok
    ensures ParseText(text) == ParseToken(tok)
  {
  }

  /** A token free of white space is its own first token and its own trim. */
  lemma WholeToken(tok: string)
    requires tok != [] && NoSpace(tok)
    ensures Trim(tok) == tok && FirstToken(tok) == tok
  {
    TrimOfTrimmed(tok);
    TakeUntilSpaceIs(tok, tok);
  }

  /** A digit string is a decimal literal with its digit value. */
  lemma ParseDigits(t: string)
    requires IsDigits(t)
    ensures IsDecimal(t)
    ensures ParseSuffixed(t) == ParseDecimal(t) == Some(DigitsValue(t) as real)
  {
    assert IsDigit(t[|t| - 1]);
    assert Unsigned(t) == t;
    ParseDecimalAccepts(t);
  }

  /** A decimal literal holds no white space and no lower-case letter. */
  lemma DecimalPlain(d: string)
    requires IsDecimal(d)
    ensures NoSpace(d) && NoLowerCase(d)
    ensures !IsSpace(d[0]) && !IsSpace(d[|d| - 1])
  {
    DecimalShape(d);
  }

  /** A decimal literal is already clean: trimming and upper-casing leave
      it alone. */
  lemma CleanDecimal(d: string)
    requires IsDecimal(d)
    ensures Upper(Trim(d)) == d
  {
    DecimalPlain(d);
    TrimOfTrimmed(d);
    UpperFixed(d);
  }

  /** Currency signs and thousands separators inside a token are ignored:
      a token that becomes a decimal literal once they are removed reads
      as that literal. */
  lemma SymbolsIgnored(tok: string, m: string)
    requires tok != [] && NoSpace(tok)
    requires Strip(Strip(tok, '$'), ',') == m && IsDecimal(m)
    ensures ParseText(tok) == ParseDecimal(m)
    ensures ParseText(tok).Some?
  {
    WholeToken(tok);
    ReadText(tok, tok);
    CleanDecimal(m);
    TokenMeaning(tok);
    ParseSuffixedAccepts(m);
  }

  /** The suffix letters, in either case. */
  lemma SuffixLetter(c: char)
    requires Multiplier(UpperChar(c)).Some?
    ensures c == 'K' || c == 'M' || c == 'B' || c == 'k' || c == 'm' || c == 'b'
    ensures IsSuffix(UpperChar(c))
  {
  }

  /** Cleaning a literal followed by a suffix letter only upper-cases the
      letter. */
  lemma CleanSuffixed(m: string, c: char)
    requires IsDecimal(m) && Multiplier(UpperChar(c)).Some?
    ensures Upper(Trim(m + [c])) == m + [UpperChar(c)]
  {
    var s := m + [c];
    DecimalPlain(m);
    SuffixLetter(c);
    assert s[0] == m[0] && s[|s| - 1] == c;
    TrimOfTrimmed(s);
    UpperAppend(m, [c]);
    UpperFixed(m);
  }

  /** A suffix K, M or B (either case) scales the decimal literal before it
      by a thousand, a million or a billion; `$` and `,` anywhere in the
      token are ignored. */
  lemma SuffixScales(tok: string, m: string, c: char)
    requires tok != [] && NoSpace(tok)
    requires Strip(Strip(tok, '$'), ',') == m + [c]
    requires IsDecimal(m) && Multiplier(UpperChar(c)).Some?
    ensures ParseDecimal(m).Some?
    ensures ParseText(tok) == Some(ParseDecimal(m).value * Multiplier(UpperChar(c)).value)
  {
    ParseDecimalAccepts(m);
    var up := m + [UpperChar(c)];
    var v := ParseDecimal(m).value * Multiplier(UpperChar(c)).value;
    assert ParseSuffixed(up) == Some(v) by {
      SuffixLetter(c);
      SuffixedValue(m, UpperChar(c));
    }
    assert Clean(tok) == up by {
      CleanSuffixed(m, c);
      CleanIs(tok, m + [c]);
    }
    ReadScaled(tok, up, v);
  }

  /** A token free of white space whose cleaned form reads as `v` reads as
      `v`. */
  lemma ReadScaled(tok: string, cleaned: string, v: real)
    requires tok != [] && NoSpace(tok) && Clean(tok) == cleaned
    requires ParseSuffixed(cleaned) == Some(v)
    ensures ParseText(tok) == Some(v)
  {
    TokenText(tok, cleaned);
  }

  /** The cleaned token, once `$` and `,` are gone. */
  lemma CleanIs(tok: string, stripped: string)
    requires Strip(Strip(tok, '$'), ',') == stripped
    ensures Clean(tok) == Upper(Trim(stripped))
  {
  }

  /** A token free of white space reads as its cleaned form. */
  lemma TokenText(tok: string, cleaned: string)
    requires tok != [] && NoSpace(tok) && Clean(tok) == cleaned
    ensures ParseText(tok) == ParseSuffixed(cleaned)
  {
    WholeToken(tok);
    ReadText(tok, tok);
    TokenMeaning(tok);
  }

  // ---------------------------------------------------------------------
  // The worked examples of the parser: "451", "8.51K", "$53", "1,234",
  // "-", and an exact title "8508" beside the rendered "8.51K".

  /** A token of digits alone reads as their value. */
  lemma DigitsRead(tok: string, n: nat)
    requires IsDigits(tok) && DigitsValue(tok) == n
    ensures ParseText(tok) == Some(n as real)
  {
    assert NoSpace(tok) && Lacks(tok, '$') && Lacks(tok, ',') by {
      forall k | 0 <= k < |tok| ensures !IsSpace(tok[k]) && tok[k] != '$' && tok[k] != ',' {
        assert IsDigit(tok[k]);
      }
    }
    StripAbsent(tok, '$');
    StripAbsent(tok, ',');
    ParseDigits(tok);
    SymbolsIgnored(tok, tok);
  }

  lemma Digits451()
    ensures IsDigits("451") && DigitsValue("451") == 451
  {
    assert "451"[..2] == "45" && "45"[..1] == "4";
  }

  lemma ExamplePlain()
    ensures ParseText("451") == Some(451.0)
  {
    Digits451();
    DigitsRead("451", 451);
  }

  lemma Point851()
    ensures IsDigits("8") && IsDigits("51") && PointValue("8", "51") * 1000.0 == 8510.0
  {
    assert "51"[..1] == "5";
    assert DigitsValue("8") == 8 && DigitsValue("51") == 51 && Pow10(2) == 100;
    assert PointValue("8", "51") == 8.0 + 51.0 / 100.0;
  }

  lemma ExampleThousands()
    ensures ParseText("8.51K") == Some(8510.0)
  {
    Decimal851();
    Plain851K();
    SuffixScales("8.51K", "8.51", 'K');
  }

  lemma Decimal851()
    ensures IsDecimal("8.51") && ParseDecimal("8.51").value * 1000.0 == 8510.0
  {
    Point851();
    ParseFraction("8", "51");
    assert "8" + "." + "51" == "8.51";
    ParseDecimalAccepts("8.51");
  }

  lemma Plain851K()
    ensures NoSpace("8.51K") && Strip(Strip("8.51K", '$'), ',') == "8.51" + ['K']
  {
    Chars851K();
    StripAbsent("8.51K", '$');
    StripAbsent("8.51K", ',');
    assert "8.51K" == "8.51" + ['K'];
  }

  lemma Chars851K()
    ensures NoSpace("8.51K") && Lacks("8.51K", '$') && Lacks("8.51K", ',')
  {
    var t := "8.51K";
    assert t[0] == '8' && t[1] == '.' && t[2] == '5' && t[3] == '1' && t[4] == 'K';
  }

  lemma Strip53()
    ensures Strip("$53", '$') == "53" && Strip("53", ',') == "53"
    ensures IsDigits("53") && DigitsValue("53") == 53
  {
    assert "53"[..1] == "5";
    StripAbsent("53", ',');
  }

  lemma ExampleCurrency()
    ensures ParseText("$53") == Some(53.0)
  {
    Strip53();
    ParseDigits("53");
    SymbolsIgnored("$53", "53");
  }

  lemma Strip1234()
    ensures Strip("1,234", '$') == "1,234" && Strip("1,234", ',') == "1234"
    ensures IsDigits("1234") && DigitsValue("1234") == 1234
  {
    NoDollar1234();
    Comma1234();
    Digits1234();
  }

  lemma NoDollar1234()
    ensures Strip("1,234", '$') == "1,234"
  {
    var t := "1,234";
    assert t[0] == '1' && t[1] == ',' && t[2] == '2' && t[3] == '3' && t[4] == '4';
    StripAbsent(t, '$');
  }

  lemma Comma1234()
    ensures Strip("1,234", ',') == "1234"
  {
    assert "1,234" == "1," + "234";
    assert Strip("234", ',') == "234";
  }

  lemma Digits1234()
    ensures IsDigits("1234") && DigitsValue("1234") == 1234
  {
    assert "1234"[..3] == "123" && "123"[..2] == "12" && "12"[..1] == "1";
  }

  lemma SeparatorToken()
    ensures NoSpace("1,234")
  {
    var t := "1,234";
    assert t[0] == '1' && t[1] == ',' && t[2] == '2' && t[3] == '3' && t[4] == '4';
  }

  lemma ExampleSeparator()
    ensures ParseText("1,234") == Some(1234.0)
  {
    Strip1234();
    SeparatorToken();
    ParseDigits("1234");
    SymbolsIgnored("1,234", "1234");
  }

  lemma ExampleDash()
    ensures ParseText("-") == None
    ensures ParseText("\U{2013}") == None
  {
    CleanDash("-");
    CleanDash("\U{2013}");
  }

  lemma CleanDash(d: string)
    requires d == "-" || d == "\U{2013}"
    ensures ParseText(d) == None
  {
    TrimOfTrimmed(d);
    TakeUntilSpaceIs(d, d);
    StripAbsent(d, '$');
    StripAbsent(d, ',');
    assert Upper(d) == d;
  }

  lemma Digits8508()
    ensures IsDigits("8508") && DigitsValue("8508") == 8508
  {
    assert "8508"[..3] == "850" && "850"[..2] == "85" && "85"[..1] == "8";
  }

  lemma Title8508()
    ensures Trim("8508") == "8508" && IsDecimal("8508") && ParseDecimal("8508") == Some(8508.0)
  {
    Digits8508();
    ParseDigits("8508");
    DecimalPlain("8508");
    TrimOfTrimmed("8508");
    ParseDecimalAccepts("8508");
  }

  lemma ExampleExactTitle()
    ensures ParseTitleOrText(Some(Element(Some("8508"), "8.51K"))) == Some(8508.0)
  {
    Title8508();
    TitlePrecedence(Element(Some("8508"), "8.51K"), "8.51K");
  }
}
