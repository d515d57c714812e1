/**
 * The expression normaliser of the board's plotFunction
 * (components/JSXGraphBoard.tsx): trim, ASCII lowercase, whole-word constant
 * substitution, superscript digits to `^d`, and two implicit-multiplication
 * passes. Each step is modelled as the string function the JavaScript built-in
 * (`trim`, `toLowerCase`, a global regular-expression `replace`) computes.
 * The constant substitution takes its whole-word rule as a parameter:
 * `RegexBoundary` is the `\b` the code writes, which never matches a lone π
 * or φ (see PiSymbolIsKeptBetweenOperators); `Standalone` is the rule the
 * code means. The two agree on every input without π and φ
 * (NormalizeRulesAgree).
 */
module Expression {
  import opened Types

  // ---------------------------------------------------------------------------
  // Step 1: String.prototype.trim

  /** The WhiteSpace and LineTerminator characters `trim` strips. */
  predicate IsJsWhitespace(c: char) {
    c == '\t' || c == '\n' || c == '\U{000B}' || c == '\U{000C}' || c == '\r' || c == ' '
    || c == '\U{00A0}' || c == '\U{1680}' || ('\U{2000}' <= c <= '\U{200A}')
    || c == '\U{2028}' || c == '\U{2029}' || c == '\U{202F}' || c == '\U{205F}'
    || c == '\U{3000}' || c == '\U{FEFF}'
  }

  function TrimStart(s: string): (r: string)
    ensures |r| <= |s| && r == s[|s| - |r|..]
    ensures r == [] || !IsJsWhitespace(r[0])
    ensures forall i :: 0 <= i < |s| - |r| ==> IsJsWhitespace(s[i])
  {
    if |s| > 0 && IsJsWhitespace(s[0]) then TrimStart(s[1..]) else s
  }

  function TrimEnd(s: string): (r: string)
    ensures |r| <= |s| && r == s[..|r|]
    ensures r == [] || !IsJsWhitespace(r[|r| - 1])
    ensures forall i :: |r| <= i < |s| ==> IsJsWhitespace(s[i])
  {
    if |s| > 0 && IsJsWhitespace(s[|s| - 1]) then TrimEnd(s[..|s| - 1]) else s
  }

  /** `s.trim()`: leading whitespace, then trailing whitespace, removed. */
  function Trim(s: string): string {
    TrimEnd(TrimStart(s))
  }

  /**
   * Trim(s) neither starts nor ends with whitespace, and it is empty exactly
   * when `s` is all whitespace.
   */
  lemma TrimStrips(s: string)
    ensures |Trim(s)| <= |s|
    ensures Trim(s) != [] ==> !IsJsWhitespace(Trim(s)[0]) && !IsJsWhitespace(Trim(s)[|Trim(s)| - 1])
    ensures Trim(s) == [] <==> forall i :: 0 <= i < |s| ==> IsJsWhitespace(s[i])
  {
    var t := TrimStart(s);
    var r := TrimEnd(t);
    assert r != [] ==> r[0] == t[0];
    assert r == [] ==> t == [];
  }

  // ---------------------------------------------------------------------------
  // Step 2: toLowerCase, on the ASCII letters

  predicate IsUpperAscii(c: char) { 'A' <= c <= 'Z' }

  function LowerChar(c: char): char {
    if IsUpperAscii(c) then (c as int + 32) as char else c
  }

  predicate NoUpper(s: string) { forall c | c in s :: !IsUpperAscii(c) }

  function ToLowerAscii(s: string): (r: string)
    ensures |r| == |s| && NoUpper(r)
    ensures forall i :: 0 <= i < |s| && !IsUpperAscii(s[i]) ==> r[i] == s[i]
    ensures forall i :: 0 <= i < |s| && IsUpperAscii(s[i]) ==> r[i] as int == s[i] as int + 32
  {
    seq(|s|, i requires 0 <= i < |s| => LowerChar(s[i]))
  }

  // ---------------------------------------------------------------------------
  // Step 3: replace(new RegExp(`\\b${name}\\b`, 'g'), `(${value})`)

  /** A regular-expression word character: `[A-Za-z0-9_]`. */
  predicate IsWordChar(c: char) {
    ('A' <= c <= 'Z') || ('a' <= c <= 'z') || ('0' <= c <= '9') || c == '_'
  }

  /** Position i holds a word character; outside the string counts as non-word. */
  predicate WordAt(s: string, i: int) {
    0 <= i < |s| && IsWordChar(s[i])
  }

  /** `\b` at position i: exactly one of the characters around it is a word character. */
  predicate Boundary(s: string, i: int) {
    WordAt(s, i - 1) != WordAt(s, i)
  }

  predicate OccursAt(s: string, name: string, i: int) {
    0 <= i && i + |name| <= |s| && s[i..i + |name|] == name
  }

  /**
   * How a constant's name must be delimited. `RegexBoundary` is what `\bname\b`
   * requires; `Standalone` only forbids a word character next to an edge of
   * the name that is itself a word character.
   */
  datatype WordRule = RegexBoundary | Standalone

  predicate MatchAt(s: string, name: string, i: int, rule: WordRule)
    requires |name| > 0
  {
    OccursAt(s, name, i) &&
    match rule
    case RegexBoundary => Boundary(s, i) && Boundary(s, i + |name|)
    case Standalone =>
      (IsWordChar(name[0]) ==> !WordAt(s, i - 1)) &&
      (IsWordChar(name[|name| - 1]) ==> !WordAt(s, i + |name|))
  }

  /**
   * A global replace scanning `s` from position i: a match is replaced and
   * the scan resumes after it; otherwise one character is copied.
   */
  function ReplaceFrom(s: string, name: string, rep: string, i: nat, rule: WordRule): string
    requires |name| > 0 && i <= |s|
    decreases |s| - i
  {
    if i == |s| then []
    else if MatchAt(s, name, i, rule) then rep + ReplaceFrom(s, name, rep, i + |name|, rule)
    else [s[i]] + ReplaceFrom(s, name, rep, i + 1, rule)
  }

  /** `s.replace(/\bname\b/g, rep)`, as the source writes it. */
  function ReplaceWord(s: string, name: string, rep: string): string
    requires |name| > 0
  {
    ReplaceFrom(s, name, rep, 0, RegexBoundary)
  }

  /** Between two matches the string is copied unchanged. */
  lemma {:induction false} ReplaceCopiesBetweenMatches(s: string, name: string, rep: string, i: nat, j: nat, rule: WordRule)
    requires |name| > 0 && i <= j <= |s|
    requires forall k :: i <= k < j ==> !MatchAt(s, name, k, rule)
    ensures ReplaceFrom(s, name, rep, i, rule) == s[i..j] + ReplaceFrom(s, name, rep, j, rule)
    decreases j - i
  {
    if i < j {
      assert !MatchAt(s, name, i, rule);
      var rest := ReplaceFrom(s, name, rep, i + 1, rule);
      assert ReplaceFrom(s, name, rep, i, rule) == [s[i]] + rest;
      ReplaceCopiesBetweenMatches(s, name, rep, i + 1, j, rule);
      assert s[i..j] == [s[i]] + s[i + 1..j];
      assert [s[i]] + (s[i + 1..j] + ReplaceFrom(s, name, rep, j, rule))
          == ([s[i]] + s[i + 1..j]) + ReplaceFrom(s, name, rep, j, rule);
    }
  }

  /** Without a whole-word match the replace leaves the string as it is. */
  lemma ReplaceWithoutMatch(s: string, name: string, rep: string, rule: WordRule)
    requires |name| > 0
    requires forall k :: 0 <= k < |s| ==> !MatchAt(s, name, k, rule)
    ensures ReplaceFrom(s, name, rep, 0, rule) == s
  {
    ReplaceCopiesBetweenMatches(s, name, rep, 0, |s|, rule);
  }

  /** Every character of the result comes from `s` or from the replacement. */
  lemma {:induction false} ReplaceCharsFrom(s: string, name: string, rep: string, i: nat, rule: WordRule)
    requires |name| > 0 && i <= |s|
    ensures forall c | c in ReplaceFrom(s, name, rep, i, rule) :: c in s || c in rep
    decreases |s| - i
  {
    if i < |s| {
      if MatchAt(s, name, i, rule) {
        ReplaceCharsFrom(s, name, rep, i + |name|, rule);
      } else {
        ReplaceCharsFrom(s, name, rep, i + 1, rule);
      }
    }
  }

  /**
   * Under `\b`, a name that starts with a non-word character (π, φ) can only
   * match right after a word character, and one that ends with one only
   * right before a word character.
   */
  lemma NonWordEdgesNeedWordNeighbours(s: string, name: string, i: int)
    requires |name| > 0 && MatchAt(s, name, i, RegexBoundary)
    ensures !IsWordChar(name[0]) ==> WordAt(s, i - 1)
    ensures !IsWordChar(name[|name| - 1]) ==> WordAt(s, i + |name|)
  {
    assert s[i] == name[0];
    assert s[i + |name| - 1] == name[|name| - 1];
  }

  /** For names that begin and end with word characters both rules agree. */
  lemma {:induction false} RulesAgreeOnWordNames(s: string, name: string, rep: string, i: nat)
    requires |name| > 0 && IsWordChar(name[0]) && IsWordChar(name[|name| - 1]) && i <= |s|
    ensures ReplaceFrom(s, name, rep, i, Standalone) == ReplaceFrom(s, name, rep, i, RegexBoundary)
    decreases |s| - i
  {
    if i < |s| {
      if OccursAt(s, name, i) {
        assert s[i] == name[0];
        assert s[i + |name| - 1] == name[|name| - 1];
      }
      assert MatchAt(s, name, i, Standalone) == MatchAt(s, name, i, RegexBoundary);
      if MatchAt(s, name, i, RegexBoundary) {
        RulesAgreeOnWordNames(s, name, rep, i + |name|);
      } else {
        RulesAgreeOnWordNames(s, name, rep, i + 1);
      }
    }
  }

  /** Under the standalone rule a one-character non-word name is always replaced. */
  lemma {:induction false} StandaloneRemovesSymbol(s: string, c: char, rep: string, i: nat)
    requires !IsWordChar(c) && c !in rep && i <= |s|
    ensures c !in ReplaceFrom(s, [c], rep, i, Standalone)
    decreases |s| - i
  {
    if i < |s| {
      if MatchAt(s, [c], i, Standalone) {
        StandaloneRemovesSymbol(s, c, rep, i + 1);
      } else {
        assert s[i..i + 1] == [s[i]];
        StandaloneRemovesSymbol(s, c, rep, i + 1);
      }
    }
  }

  const ELiteral: string := "2.718281828459045"
  const PiLiteral: string := "3.141592653589793"
  const PhiLiteral: string := "1.618033988749895"

  /** A constant's name; the regular expression built from it is never empty. */
  type Name = s: string | s != [] witness "e"

  /** The constants table in its iteration order: name and the value's decimal text. */
  function Constants(): seq<(Name, string)> {
    [("e", ELiteral), ("pi", PiLiteral), ("π", PiLiteral), ("phi", PhiLiteral), ("φ", PhiLiteral)]
  }

  /**
   * What one pass of the loop does with entry `(name, value)` under `rule`;
   * with `RegexBoundary` it is the source's `\b` replace.
   */
  function SubstituteOne(s: string, entry: (Name, string), rule: WordRule): string {
    ReplaceFrom(s, entry.0, "(" + entry.1 + ")", 0, rule)
  }

  /** The effect of the loop over the first |table| constants, in order. */
  function SubstituteConstants(s: string, table: seq<(Name, string)>, rule: WordRule): string
    decreases |table|
  {
    if table == [] then s
    else SubstituteOne(SubstituteConstants(s, table[..|table| - 1], rule), table[|table| - 1], rule)
  }

  // ---------------------------------------------------------------------------
  // Step 4: superscript digits to `^d`

  predicate IsSuperscriptDigit(c: char) {
    c == '\U{2070}' || c == '\U{00B9}' || c == '\U{00B2}' || c == '\U{00B3}'
    || ('\U{2074}' <= c <= '\U{2079}')
  }

  /** The ASCII digit a superscript digit stands for. */
  function SuperscriptValue(c: char): (d: char)
    requires IsSuperscriptDigit(c)
    ensures '0' <= d <= '9'
  {
    if c == '\U{2070}' then '0'
    else if c == '\U{00B9}' then '1'
    else if c == '\U{00B2}' then '2'
    else if c == '\U{00B3}' then '3'
    else (c as int - 0x2074 + '4' as int) as char
  }

  predicate NoSuperscript(s: string) { forall c | c in s :: !IsSuperscriptDigit(c) }

  function ExpandChar(c: char): string {
    if IsSuperscriptDigit(c) then ['^', SuperscriptValue(c)] else [c]
  }

  /** `s.replace(/[⁰¹²³⁴⁵⁶⁷⁸⁹]/g, match => superMap[match])`. */
  function ExpandSuperscripts(s: string): (r: string)
    ensures NoSuperscript(r)
    ensures forall c | c in r :: c in s || c == '^' || '0' <= c <= '9'
  {
    if s == [] then [] else ExpandChar(s[0]) + ExpandSuperscripts(s[1..])
  }

  /** The rewrite works character by character. */
  lemma {:induction false} ExpandSuperscriptsAppend(a: string, b: string)
    ensures ExpandSuperscripts(a + b) == ExpandSuperscripts(a) + ExpandSuperscripts(b)
    decreases |a|
  {
    if a == [] {
      assert a + b == b;
    } else {
      assert (a + b)[0] == a[0];
      assert (a + b)[1..] == a[1..] + b;
      ExpandSuperscriptsAppend(a[1..], b);
    }
  }

  /** A string without superscript digits is left unchanged. */
  lemma {:induction false} ExpandSuperscriptsIdentity(s: string)
    requires NoSuperscript(s)
    ensures ExpandSuperscripts(s) == s
    decreases |s|
  {
    if s != [] {
      assert s[0] in s;
      assert forall c | c in s[1..] :: c in s;
      ExpandSuperscriptsIdentity(s[1..]);
    }
  }

  /** The superscript table: each of ⁰ … ⁹ stands for the ASCII digit of the same value. */
  lemma SuperscriptTable()
    ensures SuperscriptValue('⁰') == '0' && SuperscriptValue('¹') == '1' && SuperscriptValue('²') == '2'
    ensures SuperscriptValue('³') == '3' && SuperscriptValue('⁴') == '4' && SuperscriptValue('⁵') == '5'
    ensures SuperscriptValue('⁶') == '6' && SuperscriptValue('⁷') == '7' && SuperscriptValue('⁸') == '8'
    ensures SuperscriptValue('⁹') == '9'
  {
  }

  /** A superscript digit anywhere becomes `^` and its digit; the text around it is rewritten on its own. */
  lemma SuperscriptBecomesPower(a: string, c: char, b: string)
    requires IsSuperscriptDigit(c)
    ensures ExpandSuperscripts(a + [c] + b) == ExpandSuperscripts(a) + ['^', SuperscriptValue(c)] + ExpandSuperscripts(b)
  {
    var tail := [c] + b;
    assert tail[0] == c && tail[1..] == b;
    assert ExpandSuperscripts(tail) == ['^', SuperscriptValue(c)] + ExpandSuperscripts(b);
    assert a + [c] + b == a + tail;
    ExpandSuperscriptsAppend(a, tail);
  }

  // ---------------------------------------------------------------------------
  // Step 5: replace(/(\d)([a-zA-Z(])/g, '$1*$2') and replace(/(\))([a-zA-Z(])/g, '$1*$2')

  /** Which of the two passes: a digit, or a closing parenthesis, on the left. */
  datatype Pass = AfterDigit | AfterParen

  predicate IsLeft(p: Pass, c: char) {
    match p
    case AfterDigit => '0' <= c <= '9'
    case AfterParen => c == ')'
  }

  /** `[a-zA-Z(]`. */
  predicate IsRight(c: char) {
    ('a' <= c <= 'z') || ('A' <= c <= 'Z') || c == '('
  }

  /** No left character of pass p is immediately followed by `[a-zA-Z(]`. */
  predicate NoImplicit(s: string, p: Pass) {
    forall i :: 0 <= i < |s| - 1 ==> !(IsLeft(p, s[i]) && IsRight(s[i + 1]))
  }

  /** One global replace: each non-overlapping left-right pair gets a `*` between. */
  function MulPass(s: string, p: Pass): (r: string)
    ensures |s| > 0 ==> |r| > 0 && r[0] == s[0]
    ensures forall c | c in r :: c in s || c == '*'
    decreases |s|
  {
    if |s| < 2 then s
    else if IsLeft(p, s[0]) && IsRight(s[1]) then [s[0], '*', s[1]] + MulPass(s[2..], p)
    else [s[0]] + MulPass(s[1..], p)
  }

  /** The two passes in the order plotFunction applies them. */
  function ImplicitMultiplication(s: string): string {
    MulPass(MulPass(s, AfterDigit), AfterParen)
  }

  lemma {:induction false} MulPassRemovesPairs(s: string, p: Pass)
    ensures NoImplicit(MulPass(s, p), p)
    decreases |s|
  {
    if |s| >= 2 {
      if IsLeft(p, s[0]) && IsRight(s[1]) {
        MulPassRemovesPairs(s[2..], p);
        var t := MulPass(s[2..], p);
        var r := [s[0], '*', s[1]] + t;
        assert !IsLeft(p, s[1]);
        forall i | 0 <= i < |r| - 1 ensures !(IsLeft(p, r[i]) && IsRight(r[i + 1])) {
          if i >= 3 { assert r[i] == t[i - 3] && r[i + 1] == t[i - 2]; }
        }
      } else {
        MulPassRemovesPairs(s[1..], p);
        var t := MulPass(s[1..], p);
        var r := [s[0]] + t;
        forall i | 0 <= i < |r| - 1 ensures !(IsLeft(p, r[i]) && IsRight(r[i + 1])) {
          if i >= 1 { assert r[i] == t[i - 1] && r[i + 1] == t[i]; }
        }
      }
    }
  }

  /** A pass keeps any pair-freedom its input had, for either pass. */
  lemma {:induction false} MulPassKeepsNoImplicit(s: string, p: Pass, q: Pass)
    requires NoImplicit(s, q)
    ensures NoImplicit(MulPass(s, p), q)
    decreases |s|
  {
    if |s| >= 2 {
      if IsLeft(p, s[0]) && IsRight(s[1]) {
        assert NoImplicit(s[2..], q) by {
          forall i | 0 <= i < |s[2..]| - 1 ensures !(IsLeft(q, s[2..][i]) && IsRight(s[2..][i + 1])) {
            assert s[2..][i] == s[i + 2] && s[2..][i + 1] == s[i + 3];
          }
        }
        MulPassKeepsNoImplicit(s[2..], p, q);
        var t := MulPass(s[2..], p);
        var r := [s[0], '*', s[1]] + t;
        forall i | 0 <= i < |r| - 1 ensures !(IsLeft(q, r[i]) && IsRight(r[i + 1])) {
          if i == 2 { assert r[2] == s[1]; if |s| > 2 { assert r[3] == s[2]; } }
          if i >= 3 { assert r[i] == t[i - 3] && r[i + 1] == t[i - 2]; }
        }
      } else {
        assert NoImplicit(s[1..], q) by {
          forall i | 0 <= i < |s[1..]| - 1 ensures !(IsLeft(q, s[1..][i]) && IsRight(s[1..][i + 1])) {
            assert s[1..][i] == s[i + 1] && s[1..][i + 1] == s[i + 2];
          }
        }
        MulPassKeepsNoImplicit(s[1..], p, q);
        var t := MulPass(s[1..], p);
        var r := [s[0]] + t;
        forall i | 0 <= i < |r| - 1 ensures !(IsLeft(q, r[i]) && IsRight(r[i + 1])) {
          if i == 0 { assert r[1] == s[1]; }
          if i >= 1 { assert r[i] == t[i - 1] && r[i + 1] == t[i]; }
        }
      }
    }
  }

  /** A pass leaves a string without left-right pairs unchanged. */
  lemma {:induction false} MulPassIdentity(s: string, p: Pass)
    requires NoImplicit(s, p)
    ensures MulPass(s, p) == s
    decreases |s|
  {
    if |s| >= 2 {
      assert !(IsLeft(p, s[0]) && IsRight(s[1]));
      assert NoImplicit(s[1..], p) by {
        forall i | 0 <= i < |s[1..]| - 1 ensures !(IsLeft(p, s[1..][i]) && IsRight(s[1..][i + 1])) {
          assert s[1..][i] == s[i + 1] && s[1..][i + 1] == s[i + 2];
        }
      }
      MulPassIdentity(s[1..], p);
      assert s == [s[0]] + s[1..];
    }
  }

  /** After both passes no digit and no `)` is directly followed by `[a-zA-Z(]`. */
  lemma ImplicitMultiplicationComplete(s: string)
    ensures NoImplicit(ImplicitMultiplication(s), AfterDigit)
    ensures NoImplicit(ImplicitMultiplication(s), AfterParen)
  {
    MulPassRemovesPairs(s, AfterDigit);
    MulPassKeepsNoImplicit(MulPass(s, AfterDigit), AfterParen, AfterDigit);
    MulPassRemovesPairs(MulPass(s, AfterDigit), AfterParen);
  }

  /** Running the two passes a second time changes nothing. */
  lemma ImplicitMultiplicationIdempotent(s: string)
    ensures ImplicitMultiplication(ImplicitMultiplication(s)) == ImplicitMultiplication(s)
  {
    var t := ImplicitMultiplication(s);
    ImplicitMultiplicationComplete(s);
    MulPassIdentity(t, AfterDigit);
    MulPassIdentity(t, AfterParen);
  }

  /** `dst` is `src` with zero or more `*` characters inserted. */
  predicate StarsInserted(src: string, dst: string)
    decreases |dst|
  {
    if dst == [] then src == []
    else if src != [] && src[0] == dst[0] then StarsInserted(src[1..], dst[1..])
    else dst[0] == '*' && StarsInserted(src, dst[1..])
  }

  lemma {:induction false} StarsInsertedRefl(s: string)
    ensures StarsInserted(s, s)
    decreases |s|
  {
    if s != [] { StarsInsertedRefl(s[1..]); }
  }

  /** A pass only inserts `*`: deleting the inserted stars gives back its input. */
  lemma {:induction false} MulPassInsertsStars(s: string, p: Pass)
    ensures StarsInserted(s, MulPass(s, p))
    decreases |s|
  {
    if |s| < 2 {
      StarsInsertedRefl(s);
    } else if IsLeft(p, s[0]) && IsRight(s[1]) {
      MulPassInsertsStars(s[2..], p);
      var t := MulPass(s[2..], p);
      var r := [s[0], '*', s[1]] + t;
      assert r[1..] == ['*', s[1]] + t;
      assert r[1..][1..] == [s[1]] + t;
      assert ([s[1]] + t)[1..] == t;
      assert s[1..][1..] == s[2..];
      assert StarsInserted(s[1..], [s[1]] + t);
      assert s[1..][0] != '*';
      assert StarsInserted(s[1..], r[1..]);
    } else {
      MulPassInsertsStars(s[1..], p);
      var r := [s[0]] + MulPass(s[1..], p);
      assert r[1..] == MulPass(s[1..], p);
    }
  }

  lemma {:induction false} StarsInsertedTrans(a: string, b: string, c: string)
    requires StarsInserted(a, b) && StarsInserted(b, c)
    ensures StarsInserted(a, c)
    decreases |c|
  {
    if c != [] {
      if b != [] && b[0] == c[0] {
        if a != [] && a[0] == b[0] {
          StarsInsertedTrans(a[1..], b[1..], c[1..]);
        } else {
          StarsInsertedTrans(a, b[1..], c[1..]);
        }
      } else {
        StarsInsertedTrans(a, b, c[1..]);
      }
    }
  }

  lemma ImplicitMultiplicationInsertsStars(s: string)
    ensures StarsInserted(s, ImplicitMultiplication(s))
  {
    MulPassInsertsStars(s, AfterDigit);
    MulPassInsertsStars(MulPass(s, AfterDigit), AfterParen);
    StarsInsertedTrans(s, MulPass(s, AfterDigit), ImplicitMultiplication(s));
  }

  // ---------------------------------------------------------------------------
  // The whole pipeline

  /**
   * The string plotFunction hands to the function-graph primitive, or None
   * when the trimmed expression is empty and nothing is plotted.
   */
  function Normalize(expression: string, rule: WordRule): Option<string> {
    var t := Trim(expression);
    if t == [] then None else Some(Rewritten(t, rule))
  }

  /** The steps after the emptiness guard, on the trimmed text. */
  function Rewritten(t: string, rule: WordRule): string {
    ImplicitMultiplication(ExpandSuperscripts(SubstituteConstants(ToLowerAscii(t), Constants(), rule)))
  }

  /** Constant substitution introduces no capital letter. */
  lemma {:induction false} SubstituteKeepsNoUpper(s: string, table: seq<(Name, string)>, rule: WordRule)
    requires NoUpper(s)
    requires forall k :: 0 <= k < |table| ==> NoUpper(table[k].1)
    ensures NoUpper(SubstituteConstants(s, table, rule))
    decreases |table|
  {
    if table != [] {
      var front := table[..|table| - 1];
      var last := table[|table| - 1];
      assert forall k :: 0 <= k < |front| ==> front[k] == table[k];
      SubstituteKeepsNoUpper(s, front, rule);
      var before := SubstituteConstants(s, front, rule);
      var rep := "(" + last.1 + ")";
      assert NoUpper(rep) by {
        forall c | c in rep ensures !IsUpperAscii(c) {
          if c != '(' && c != ')' { assert c in last.1; }
        }
      }
      ReplaceCharsFrom(before, last.0, rep, 0, rule);
    }
  }

  lemma ConstantValuesHaveNoUpper()
    ensures forall k :: 0 <= k < |Constants()| ==> NoUpper(Constants()[k].1)
  {
    assert NoUpper(ELiteral) && NoUpper(PiLiteral) && NoUpper(PhiLiteral);
  }

  /** The last three steps introduce no capital letter and leave no superscript digit. */
  lemma FinalStepsKeepNoUpper(t: string)
    requires NoUpper(t)
    ensures NoUpper(ImplicitMultiplication(ExpandSuperscripts(t)))
    ensures NoSuperscript(ImplicitMultiplication(ExpandSuperscripts(t)))
  {
    var expanded := ExpandSuperscripts(t);
    forall c | c in expanded ensures !IsUpperAscii(c) {
      assert c in t || c == '^' || '0' <= c <= '9';
    }
    var once := MulPass(expanded, AfterDigit);
    forall c | c in once ensures !IsUpperAscii(c) && !IsSuperscriptDigit(c) {
      assert c in expanded || c == '*';
    }
    var twice := MulPass(once, AfterParen);
    forall c | c in twice ensures !IsUpperAscii(c) && !IsSuperscriptDigit(c) {
      assert c in once || c == '*';
    }
  }

  /** The steps after the emptiness guard leave no capital and no superscript digit. */
  lemma RewrittenHasNoUpperOrSuperscript(t: string, rule: WordRule)
    ensures NoUpper(Rewritten(t, rule)) && NoSuperscript(Rewritten(t, rule))
  {
    var lowered := ToLowerAscii(t);
    ConstantValuesHaveNoUpper();
    SubstituteKeepsNoUpper(lowered, Constants(), rule);
    FinalStepsKeepNoUpper(SubstituteConstants(lowered, Constants(), rule));
  }

  /** What plotFunction produces has no ASCII capitals and no superscript digits. */
  lemma NormalizedHasNoUpperOrSuperscript(expression: string, rule: WordRule)
    requires Normalize(expression, rule).Some?
    ensures NoUpper(Normalize(expression, rule).value)
    ensures NoSuperscript(Normalize(expression, rule).value)
  {
    RewrittenHasNoUpperOrSuperscript(Trim(expression), rule);
  }

  /** What plotFunction produces has no digit or `)` directly before `[a-zA-Z(]`. */
  lemma NormalizedHasExplicitProducts(expression: string, rule: WordRule)
    requires Normalize(expression, rule).Some?
    ensures NoImplicit(Normalize(expression, rule).value, AfterDigit)
    ensures NoImplicit(Normalize(expression, rule).value, AfterParen)
  {
    var t := Trim(expression);
    ImplicitMultiplicationComplete(ExpandSuperscripts(SubstituteConstants(ToLowerAscii(t), Constants(), rule)));
  }

  /** For a table of five entries, the loop ends with the passes for the last three. */
  lemma LastThreePasses(s: string, table: seq<(Name, string)>, rule: WordRule)
    requires |table| == 5
    ensures SubstituteConstants(s, table, rule)
         == SubstituteOne(SubstituteOne(SubstituteOne(SubstituteConstants(s, table[..2], rule), table[2], rule), table[3], rule), table[4], rule)
  {
    var three, four := table[..3], table[..4];
    assert three[..2] == table[..2] && three[2] == table[2];
    assert four[..3] == three && four[3] == table[3];
    assert table[..4] == four;
    assert SubstituteConstants(s, three, rule) == SubstituteOne(SubstituteConstants(s, table[..2], rule), table[2], rule);
    assert SubstituteConstants(s, four, rule) == SubstituteOne(SubstituteConstants(s, three, rule), table[3], rule);
  }

  /** A pass whose value holds neither symbol leaves an absent one absent. */
  lemma SubstituteKeepsAbsent(s: string, entry: (Name, string), c: char, rule: WordRule)
    requires c !in s && c !in entry.1 && c != '(' && c != ')'
    ensures c !in SubstituteOne(s, entry, rule)
  {
    ReplaceCharsFrom(s, entry.0, "(" + entry.1 + ")", 0, rule);
  }

  /** Under the standalone rule a one-character symbol is gone after its own pass of the loop. */
  lemma SubstituteRemovesSymbol(s: string, entry: (Name, string), c: char)
    requires entry.0 == [c] && !IsWordChar(c) && c !in entry.1 && c != '(' && c != ')'
    ensures c !in SubstituteOne(s, entry, Standalone)
  {
    StandaloneRemovesSymbol(s, c, "(" + entry.1 + ")", 0);
  }

  /** Under the standalone rule the passes for π, phi and φ, in that order, leave neither symbol. */
  lemma SymbolPassesClear(two: string, pi: (Name, string), phi: (Name, string), phiSymbol: (Name, string))
    requires pi.0 == ['π'] && phiSymbol.0 == ['φ']
    requires 'π' !in pi.1 && 'π' !in phi.1 && 'π' !in phiSymbol.1 && 'φ' !in phiSymbol.1
    ensures var r := SubstituteOne(SubstituteOne(SubstituteOne(two, pi, Standalone), phi, Standalone), phiSymbol, Standalone);
      'π' !in r && 'φ' !in r
  {
    var three := SubstituteOne(two, pi, Standalone);
    SubstituteRemovesSymbol(two, pi, 'π');
    var four := SubstituteOne(three, phi, Standalone);
    SubstituteKeepsAbsent(three, phi, 'π', Standalone);
    SubstituteRemovesSymbol(four, phiSymbol, 'φ');
    SubstituteKeepsAbsent(four, phiSymbol, 'π', Standalone);
  }

  /** The last three entries of the table are π, phi and φ, and no value holds either symbol. */
  lemma SymbolEntries()
    ensures Constants()[2].0 == ['π'] && Constants()[4].0 == ['φ']
    ensures 'π' !in Constants()[2].1 && 'π' !in Constants()[3].1 && 'π' !in Constants()[4].1 && 'φ' !in Constants()[4].1
  {
  }

  /**
   * Under the standalone rule the constants loop leaves no π and no φ: each
   * is replaced, and no later value brings one back.
   */
  lemma SubstitutedHasNoSymbols(s: string)
    ensures 'π' !in SubstituteConstants(s, Constants(), Standalone) && 'φ' !in SubstituteConstants(s, Constants(), Standalone)
  {
    LastThreePasses(s, Constants(), Standalone);
    SymbolEntries();
    SymbolPassesClear(SubstituteConstants(s, Constants()[..2], Standalone), Constants()[2], Constants()[3], Constants()[4]);
  }

  /** The last three steps bring in no character other than `^`, digits and `*`. */
  lemma FinalStepsKeepAbsent(t: string, c: char)
    requires c !in t && c != '^' && c != '*' && !('0' <= c <= '9')
    ensures c !in ImplicitMultiplication(ExpandSuperscripts(t))
  {
    var once := MulPass(ExpandSuperscripts(t), AfterDigit);
    assert c !in once;
  }

  /** With the corrected word rule, no π or φ reaches the function-graph primitive. */
  lemma NormalizedHasNoSymbolConstants(expression: string)
    requires Normalize(expression, Standalone).Some?
    ensures 'π' !in Normalize(expression, Standalone).value && 'φ' !in Normalize(expression, Standalone).value
  {
    var substituted := SubstituteConstants(ToLowerAscii(Trim(expression)), Constants(), Standalone);
    SubstitutedHasNoSymbols(ToLowerAscii(Trim(expression)));
    FinalStepsKeepAbsent(substituted, 'π');
    FinalStepsKeepAbsent(substituted, 'φ');
  }

  // ---------------------------------------------------------------------------
  // Where the two word rules agree

  /** A name whose first character does not occur in `s` has no match in it. */
  lemma AbsentNameNeverMatches(s: string, name: string, rule: WordRule)
    requires |name| > 0 && name[0] !in s
    ensures forall i :: 0 <= i < |s| ==> !MatchAt(s, name, i, rule)
  {
  }

  /**
   * A table entry the two rules can only treat differently on a π or φ:
   * its name begins and ends with word characters or begins with π or φ,
   * and its value holds neither symbol.
   */
  predicate WordOrSymbolEntry(entry: (Name, string)) {
    ((IsWordChar(entry.0[0]) && IsWordChar(entry.0[|entry.0| - 1])) || entry.0[0] == 'π' || entry.0[0] == 'φ')
    && 'π' !in entry.1 && 'φ' !in entry.1
  }

  /** Numerals hold neither symbol. */
  lemma NumeralEntry(name: Name, value: string)
    requires forall c | c in value :: '0' <= c <= '9' || c == '.'
    requires (IsWordChar(name[0]) && IsWordChar(name[|name| - 1])) || name == "π" || name == "φ"
    ensures WordOrSymbolEntry((name, value))
  {
  }

  lemma ConstantsAreWordOrSymbol()
    ensures forall k :: 0 <= k < |Constants()| ==> WordOrSymbolEntry(Constants()[k])
  {
    NumeralEntry("e", ELiteral);
    NumeralEntry("pi", PiLiteral);
    NumeralEntry("π", PiLiteral);
    NumeralEntry("phi", PhiLiteral);
    NumeralEntry("φ", PhiLiteral);
  }

  /**
   * On a string without π and φ both rules substitute alike, and the result
   * still holds neither symbol.
   */
  lemma {:induction false} SubstituteRulesAgree(s: string, table: seq<(Name, string)>)
    requires 'π' !in s && 'φ' !in s
    requires forall k :: 0 <= k < |table| ==> WordOrSymbolEntry(table[k])
    ensures SubstituteConstants(s, table, RegexBoundary) == SubstituteConstants(s, table, Standalone)
    ensures 'π' !in SubstituteConstants(s, table, Standalone) && 'φ' !in SubstituteConstants(s, table, Standalone)
    decreases |table|
  {
    if table != [] {
      var front := table[..|table| - 1];
      assert forall k :: 0 <= k < |front| ==> front[k] == table[k];
      SubstituteRulesAgree(s, front);
      var before := SubstituteConstants(s, front, Standalone);
      var last := table[|table| - 1];
      assert WordOrSymbolEntry(last);
      var rep := "(" + last.1 + ")";
      if IsWordChar(last.0[0]) && IsWordChar(last.0[|last.0| - 1]) {
        RulesAgreeOnWordNames(before, last.0, rep, 0);
      } else {
        AbsentNameNeverMatches(before, last.0, RegexBoundary);
        AbsentNameNeverMatches(before, last.0, Standalone);
        ReplaceWithoutMatch(before, last.0, rep, RegexBoundary);
        ReplaceWithoutMatch(before, last.0, rep, Standalone);
      }
      SubstituteKeepsAbsent(before, last, 'π', Standalone);
      SubstituteKeepsAbsent(before, last, 'φ', Standalone);
    }
  }

  /** Trimming and ASCII lower-casing bring in no character other than a lower-case letter. */
  lemma TrimAndLowerKeepAbsent(expression: string, c: char)
    requires c !in expression && !('a' <= c <= 'z')
    ensures c !in ToLowerAscii(Trim(expression))
  {
    var start := TrimStart(expression);
    var t := TrimEnd(start);
    forall i | 0 <= i < |t| ensures t[i] != c {
      assert t[i] == start[i] == expression[|expression| - |start| + i];
    }
    var lowered := ToLowerAscii(t);
    forall i | 0 <= i < |t| ensures lowered[i] != c {
      if IsUpperAscii(t[i]) {
        assert lowered[i] as int == t[i] as int + 32;
      }
    }
  }

  /**
   * The substitution as written and as corrected differ only on π and φ:
   * on an expression holding neither, plotFunction draws the same string.
   */
  lemma NormalizeRulesAgree(expression: string)
    requires 'π' !in expression && 'φ' !in expression
    ensures Normalize(expression, RegexBoundary) == Normalize(expression, Standalone)
  {
    var lowered := ToLowerAscii(Trim(expression));
    TrimAndLowerKeepAbsent(expression, 'π');
    TrimAndLowerKeepAbsent(expression, 'φ');
    ConstantsAreWordOrSymbol();
    SubstituteRulesAgree(lowered, Constants());
  }

  /** An expression that is already in the plotter's syntax passes through unchanged. */
  lemma NormalizeFixesCleanInput(s: string, rule: WordRule)
    requires s != [] && !IsJsWhitespace(s[0]) && !IsJsWhitespace(s[|s| - 1])
    requires NoUpper(s) && NoSuperscript(s)
    requires forall k, i :: 0 <= k < |Constants()| && 0 <= i < |s| ==> !MatchAt(s, Constants()[k].0, i, rule)
    requires NoImplicit(s, AfterDigit) && NoImplicit(s, AfterParen)
    ensures Normalize(s, rule) == Some(s)
  {
    assert TrimStart(s) == s;
    assert TrimEnd(s) == s;
    var lowered := ToLowerAscii(s);
    assert lowered == s by {
      forall i | 0 <= i < |s| ensures lowered[i] == s[i] { assert s[i] in s; }
    }
    SubstituteFixesClean(s, Constants(), rule);
    ExpandSuperscriptsIdentity(s);
    MulPassIdentity(s, AfterDigit);
    MulPassIdentity(s, AfterParen);
  }

  lemma {:induction false} SubstituteFixesClean(s: string, table: seq<(Name, string)>, rule: WordRule)
    requires forall k, i :: 0 <= k < |table| && 0 <= i < |s| ==> !MatchAt(s, table[k].0, i, rule)
    ensures SubstituteConstants(s, table, rule) == s
    decreases |table|
  {
    if table != [] {
      var front := table[..|table| - 1];
      assert forall k :: 0 <= k < |front| ==> front[k] == table[k];
      SubstituteFixesClean(s, front, rule);
      var last := table[|table| - 1];
      ReplaceWithoutMatch(s, last.0, "(" + last.1 + ")", rule);
    }
  }

  // ---------------------------------------------------------------------------
  // Worked cases

  /** Under either rule, the `e` inside `exp` and the one after a digit in `2e` are not whole words. */
  lemma EInsideWordsIsKept(rule: WordRule)
    ensures SubstituteOne("exp(2e)", Constants()[0], rule) == "exp(2e)"
  {
    var s := "exp(2e)";
    forall i | 0 <= i < |s| ensures !MatchAt(s, "e", i, rule) {
      if OccursAt(s, "e", i) {
        assert s[i..i + 1][0] == 'e';
        assert i == 0 || i == 5;
        assert WordAt(s, i + 1) || WordAt(s, i - 1);
      }
    }
    ReplaceWithoutMatch(s, "e", "(" + ELiteral + ")", rule);
  }

  /** Under `\b`, π between two operators is not a match: as written, "sin(π*x)" keeps its π. */
  lemma PiSymbolIsKeptBetweenOperators()
    ensures ReplaceWord("sin(π*x)", "π", "(" + PiLiteral + ")") == "sin(π*x)"
  {
    var s := "sin(π*x)";
    forall i | 0 <= i < |s| ensures !MatchAt(s, "π", i, RegexBoundary) {
      if MatchAt(s, "π", i, RegexBoundary) {
        NonWordEdgesNeedWordNeighbours(s, "π", i);
        assert false;
      }
    }
    ReplaceWithoutMatch(s, "π", "(" + PiLiteral + ")", RegexBoundary);
  }

  /** With the corrected rule the same π is replaced. */
  lemma PiSymbolIsReplacedWhenStandalone()
    ensures 'π' !in SubstituteOne("sin(π*x)", Constants()[2], Standalone)
  {
    StandaloneRemovesSymbol("sin(π*x)", 'π', "(" + PiLiteral + ")", 0);
  }
}
