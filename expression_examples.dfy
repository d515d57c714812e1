/**
 * Worked cases of the expression normaliser. Each lemma takes the input as a
 * parameter fixed by its precondition.
 */
module ExpressionExamples {
  import opened Types
  import opened Expression

  /** None of the constants' first characters occurs. */
  predicate NoConstantInitial(s: string) {
    'e' !in s && 'p' !in s && 'π' !in s && 'φ' !in s
  }

  lemma TrimFixes(s: string)
    requires s != [] && !IsJsWhitespace(s[0]) && !IsJsWhitespace(s[|s| - 1])
    ensures Trim(s) == s
  {
    assert TrimStart(s) == s;
    assert TrimEnd(s) == s;
  }

  lemma LowerFixes(s: string)
    requires NoUpper(s)
    ensures ToLowerAscii(s) == s
  {
    var lowered := ToLowerAscii(s);
    forall i | 0 <= i < |s| ensures lowered[i] == s[i] { assert s[i] in s; }
  }

  lemma SubstituteFixes(s: string, rule: WordRule)
    requires NoConstantInitial(s)
    ensures SubstituteConstants(s, Constants(), rule) == s
  {
    forall k, i | 0 <= k < |Constants()| && 0 <= i < |s|
      ensures !MatchAt(s, Constants()[k].0, i, rule)
    {
      AbsentNameNeverMatches(s, Constants()[k].0, rule);
    }
    SubstituteFixesClean(s, Constants(), rule);
  }

  lemma NormalizeAfterTrimAndLower(s: string, rule: WordRule)
    requires s != [] && !IsJsWhitespace(s[0]) && !IsJsWhitespace(s[|s| - 1]) && NoUpper(s)
    ensures Normalize(s, rule) == Some(ImplicitMultiplication(ExpandSuperscripts(SubstituteConstants(s, Constants(), rule))))
  {
    TrimFixes(s);
    LowerFixes(s);
  }

  lemma NormalizeNoConstants(s: string, rule: WordRule)
    requires s != [] && !IsJsWhitespace(s[0]) && !IsJsWhitespace(s[|s| - 1])
    requires NoUpper(s) && NoConstantInitial(s)
    ensures Normalize(s, rule) == Some(ImplicitMultiplication(ExpandSuperscripts(s)))
  {
    NormalizeAfterTrimAndLower(s, rule);
    SubstituteFixes(s, rule);
  }

  lemma FinalStepsFix(t: string)
    requires NoImplicit(t, AfterDigit) && NoImplicit(t, AfterParen) && NoSuperscript(t)
    ensures ImplicitMultiplication(ExpandSuperscripts(t)) == t
  {
    ExpandSuperscriptsIdentity(t);
    MulPassIdentity(t, AfterDigit);
    MulPassIdentity(t, AfterParen);
  }

  // "2x" -> "2*x"

  lemma TwoXProducts(s: string)
    requires s == "2x"
    ensures ImplicitMultiplication(ExpandSuperscripts(s)) == "2*x"
  {
    ExpandSuperscriptsIdentity(s);
    assert MulPass(s, AfterDigit) == "2*x";
    MulPassIdentity("2*x", AfterParen);
  }

  lemma NormalizeTwoX(s: string, rule: WordRule)
    requires s == "2x"
    ensures Normalize(s, rule) == Some("2*x")
  {
    NormalizeNoConstants(s, rule);
    TwoXProducts(s);
  }

  // "x²" -> "x^2"

  lemma SquareSteps(s: string)
    requires s == "x²"
    ensures ImplicitMultiplication(ExpandSuperscripts(s)) == "x^2"
  {
    assert s[1..] == "²" && s[1..][1..] == [];
    assert ExpandChar(s[1]) == "^2";
    assert ExpandSuperscripts(s[1..]) == "^2" + ExpandSuperscripts([]);
    assert ExpandSuperscripts(s) == "x" + ExpandSuperscripts(s[1..]);
    assert ExpandSuperscripts(s) == "x^2";
    MulPassIdentity("x^2", AfterDigit);
    MulPassIdentity("x^2", AfterParen);
  }

  lemma NormalizeSquare(s: string, rule: WordRule)
    requires s == "x²"
    ensures Normalize(s, rule) == Some("x^2")
  {
    NormalizeNoConstants(s, rule);
    SquareSteps(s);
  }

  // "3(x+1)" -> "3*(x+1)"

  lemma ThreeParenProducts(s: string)
    requires s == "3(x+1)"
    ensures ImplicitMultiplication(ExpandSuperscripts(s)) == "3*(x+1)"
  {
    ExpandSuperscriptsIdentity(s);
    ThreeParenDigitPass(s);
    MulPassIdentity("3*(x+1)", AfterParen);
  }

  lemma ThreeParenDigitPass(s: string)
    requires s == "3(x+1)"
    ensures MulPass(s, AfterDigit) == "3*(x+1)"
  {
    assert s[2..] == "x+1)";
    MulPassIdentity(s[2..], AfterDigit);
  }

  lemma NormalizeThreeParen(s: string, rule: WordRule)
    requires s == "3(x+1)"
    ensures Normalize(s, rule) == Some("3*(x+1)")
  {
    NormalizeNoConstants(s, rule);
    ThreeParenProducts(s);
  }

  // "sin(pi*x)" -> "sin((" + PiLiteral + ")*x)"

  lemma SinPiPrefix(s: string, rep: string, rule: WordRule)
    requires s == "sin(pi*x)"
    ensures ReplaceFrom(s, "pi", rep, 0, rule) == "sin(" + ReplaceFrom(s, "pi", rep, 4, rule)
  {
    assert forall k :: 0 <= k < 4 ==> !MatchAt(s, "pi", k, rule);
    ReplaceCopiesBetweenMatches(s, "pi", rep, 0, 4, rule);
  }

  lemma SinPiMatch(s: string, rep: string, rule: WordRule)
    requires s == "sin(pi*x)"
    ensures ReplaceFrom(s, "pi", rep, 4, rule) == rep + ReplaceFrom(s, "pi", rep, 6, rule)
  {
    assert s[4..6] == "pi";
    assert MatchAt(s, "pi", 4, rule);
  }

  lemma SinPiSuffix(s: string, rep: string, rule: WordRule)
    requires s == "sin(pi*x)"
    ensures ReplaceFrom(s, "pi", rep, 6, rule) == "*x)"
  {
    assert forall k :: 6 <= k < 9 ==> !MatchAt(s, "pi", k, rule);
    ReplaceCopiesBetweenMatches(s, "pi", rep, 6, 9, rule);
  }

  /** Under either rule the one whole-word `pi` is replaced by `rep`; the text around it is kept. */
  lemma SinPiReplaced(s: string, rep: string, rule: WordRule)
    requires s == "sin(pi*x)"
    ensures ReplaceFrom(s, "pi", rep, 0, rule) == "sin(" + (rep + "*x)")
  {
    SinPiPrefix(s, rep, rule);
    SinPiMatch(s, rep, rule);
    SinPiSuffix(s, rep, rule);
  }

  lemma SinPiFirstTwo(s: string, t: string, rule: WordRule)
    requires s == "sin(pi*x)" && t == "sin(" + ("(" + PiLiteral + ")" + "*x)")
    ensures SubstituteConstants(s, Constants()[..2], rule) == t
  {
    assert Constants()[..2][..1] == Constants()[..1] && Constants()[..2][1] == ("pi", PiLiteral);
    assert Constants()[..1][..0] == [] && Constants()[..1][0] == ("e", ELiteral);
    AbsentNameNeverMatches(s, "e", rule);
    ReplaceWithoutMatch(s, "e", "(" + ELiteral + ")", rule);
    assert SubstituteConstants(s, Constants()[..1], rule) == s;
    SinPiReplaced(s, "(" + PiLiteral + ")", rule);
  }

  /** A later constant that does not occur in `t` leaves the substitution at `t`. */
  lemma SubstituteNextAbsent(s: string, t: string, k: nat, rule: WordRule)
    requires 0 < k < |Constants()| && SubstituteConstants(s, Constants()[..k], rule) == t
    requires Constants()[k].0[0] !in t
    ensures SubstituteConstants(s, Constants()[..k + 1], rule) == t
  {
    assert Constants()[..k + 1][..k] == Constants()[..k];
    AbsentNameNeverMatches(t, Constants()[k].0, rule);
    ReplaceWithoutMatch(t, Constants()[k].0, "(" + Constants()[k].1 + ")", rule);
  }

  /** The decimal text of a constant: digits and one point. */
  predicate Numeral(v: string) {
    forall c | c in v :: '0' <= c <= '9' || c == '.'
  }

  lemma PiIsNumeral()
    ensures Numeral(PiLiteral) && |PiLiteral| > 0 && '0' <= PiLiteral[|PiLiteral| - 1] <= '9'
  {
  }

  /** No later constant's first character occurs once `pi` has been replaced by a numeral. */
  lemma LaterInitialsAbsent(v: string, t: string)
    requires Numeral(v) && t == "sin(" + ("(" + v + ")" + "*x)")
    ensures 'π' !in t && 'p' !in t && 'φ' !in t
  {
  }

  lemma SinPiSubstituted(s: string, t: string, rule: WordRule)
    requires s == "sin(pi*x)" && t == "sin(" + ("(" + PiLiteral + ")" + "*x)")
    ensures SubstituteConstants(s, Constants(), rule) == t
  {
    PiIsNumeral();
    LaterInitialsAbsent(PiLiteral, t);
    SinPiFirstTwo(s, t, rule);
    SubstituteNextAbsent(s, t, 2, rule);
    SubstituteNextAbsent(s, t, 3, rule);
    SubstituteNextAbsent(s, t, 4, rule);
    assert Constants()[..5] == Constants();
  }

  /** Where two strings meet no new pair forms, each keeps its own. */
  lemma NoImplicitAppend(a: string, b: string, p: Pass)
    requires NoImplicit(a, p) && NoImplicit(b, p)
    requires a != [] && b != [] ==> !(IsLeft(p, a[|a| - 1]) && IsRight(b[0]))
    ensures NoImplicit(a + b, p)
  {
    var ab := a + b;
    forall i | 0 <= i < |ab| - 1 ensures !(IsLeft(p, ab[i]) && IsRight(ab[i + 1])) {
      if i + 1 < |a| {
        assert ab[i] == a[i] && ab[i + 1] == a[i + 1];
      } else if i >= |a| {
        assert ab[i] == b[i - |a|] && ab[i + 1] == b[i - |a| + 1];
      }
    }
  }

  /** A numeral holds no letter and no parenthesis, so neither pass finds a pair in it. */
  lemma NumeralHasNoPairs(v: string, p: Pass)
    requires Numeral(v)
    ensures NoImplicit(v, p)
  {
    forall i | 0 <= i < |v| - 1 ensures !(IsLeft(p, v[i]) && IsRight(v[i + 1])) {
      assert v[i + 1] in v;
    }
  }

  lemma SinPiFinalSteps(v: string, t: string)
    requires Numeral(v) && |v| > 0 && '0' <= v[|v| - 1] <= '9'
    requires t == "sin(" + ("(" + v + ")" + "*x)")
    ensures NoSuperscript(t) && NoImplicit(t, AfterDigit) && NoImplicit(t, AfterParen)
  {
    var rep := "(" + v + ")";
    forall p: Pass ensures NoImplicit(t, p) {
      NumeralHasNoPairs(v, p);
      NoImplicitAppend("(", v, p);
      NoImplicitAppend("(" + v, ")", p);
      assert ("(" + v)[|"(" + v| - 1] == v[|v| - 1];
      NoImplicitAppend(rep, "*x)", p);
      assert (rep + "*x)")[0] == '(';
      NoImplicitAppend("sin(", rep + "*x)", p);
    }
    forall c | c in t ensures !IsSuperscriptDigit(c) {
      assert c in "sin(" || c in "(" || c in v || c in ")" || c in "*x)";
    }
  }

  lemma NormalizeSinPi(s: string, rule: WordRule)
    requires s == "sin(pi*x)"
    ensures Normalize(s, rule) == Some("sin(" + ("(" + PiLiteral + ")" + "*x)"))
  {
    var t := "sin(" + ("(" + PiLiteral + ")" + "*x)");
    NormalizeAfterTrimAndLower(s, rule);
    SinPiSubstituted(s, t, rule);
    PiIsNumeral();
    SinPiFinalSteps(PiLiteral, t);
    FinalStepsFix(t);
  }

  // "sin(π*x)" as written: `\b` finds no π to replace, so the π is drawn as is

  /** Under `\b` no constant of the table matches anywhere in "sin(π*x)". */
  lemma SinPiSymbolHasNoRegexMatch(s: string)
    requires s == "sin(π*x)"
    ensures forall k, i :: 0 <= k < |Constants()| && 0 <= i < |s| ==> !MatchAt(s, Constants()[k].0, i, RegexBoundary)
  {
    forall k, i | 0 <= k < |Constants()| && 0 <= i < |s|
      ensures !MatchAt(s, Constants()[k].0, i, RegexBoundary)
    {
      if k == 2 {
        if MatchAt(s, "π", i, RegexBoundary) {
          NonWordEdgesNeedWordNeighbours(s, "π", i);
          assert false;
        }
      } else {
        assert Constants()[k].0[0] in "epφ";
        AbsentNameNeverMatches(s, Constants()[k].0, RegexBoundary);
      }
    }
  }

  lemma SinPiSymbolIsClean(s: string)
    requires s == "sin(π*x)"
    ensures NoUpper(s) && NoSuperscript(s) && NoImplicit(s, AfterDigit) && NoImplicit(s, AfterParen)
  {
    forall p: Pass, i | 0 <= i < |s| - 1 ensures !(IsLeft(p, s[i]) && IsRight(s[i + 1])) {
      assert s[i] in "sin(π*x" && s[i + 1] in "in(π*x)";
    }
  }

  /** As written, plotFunction hands "sin(π*x)" to the plotter with its π untouched. */
  lemma NormalizeSinPiSymbolAsWritten(s: string)
    requires s == "sin(π*x)"
    ensures Normalize(s, RegexBoundary) == Some(s)
  {
    SinPiSymbolHasNoRegexMatch(s);
    SinPiSymbolIsClean(s);
    NormalizeFixesCleanInput(s, RegexBoundary);
  }
}
