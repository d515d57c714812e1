/** The two JavaScript number-to-text conversions the core relies on. */
module Format {

  predicate IsDigit(c: char) { '0' <= c <= '9' }

  function DigitChar(d: nat): (c: char)
    requires d < 10
    ensures IsDigit(c) && c as int - '0' as int == d
  {
    ('0' as int + d) as char
  }

  /** `String(n)` for a non-negative integer: its shortest decimal numeral. */
  function NatToString(n: nat): (r: string)
    ensures |r| > 0
    ensures forall c | c in r :: IsDigit(c)
    ensures r[0] == '0' ==> n == 0 && r == "0"
    decreases n
  {
    if n < 10 then [DigitChar(n)] else NatToString(n / 10) + [DigitChar(n % 10)]
  }

  /** The number a string of decimal digits denotes. */
  function DecimalValue(s: string): nat
    requires forall c | c in s :: IsDigit(c)
  {
    if s == [] then 0
    else
      var last := s[|s| - 1];
      assert last in s;
      assert IsDigit(last);
      var d: nat := last as int - '0' as int;
      DecimalValue(s[..|s| - 1]) * 10 + d
  }

  lemma {:induction false} NatToStringRoundTrip(n: nat)
    ensures DecimalValue(NatToString(n)) == n
    decreases n
  {
    if n >= 10 {
      var r := NatToString(n);
      assert r[..|r| - 1] == NatToString(n / 10);
      NatToStringRoundTrip(n / 10);
    }
  }

  /** The non-negative integer nearest to `v * 100`, ties going to the larger one. */
  function Hundredths(v: real): (n: nat)
    requires v >= 0.0
    ensures -0.5 < n as real - v * 100.0 <= 0.5
  {
    (v * 100.0 + 0.5).Floor
  }

  /** A number of hundredths written with a point before its last two digits. */
  function Fixed2(n: nat): string {
    NatToString(n / 100) + "." + [DigitChar(n / 10 % 10), DigitChar(n % 10)]
  }

  /**
   * `x.toFixed(2)`: a minus sign for negative x, then the magnitude rounded to
   * hundredths, written with exactly two digits after the point.
   */
  function ToFixed2(x: real): string {
    var n := Hundredths(if x < 0.0 then -x else x);
    if x < 0.0 then "-" + Fixed2(n) else Fixed2(n)
  }

  lemma DecimalValueAppend2(q: string, a: nat, b: nat)
    requires forall c | c in q :: IsDigit(c)
    requires a < 10 && b < 10
    ensures forall c | c in q + [DigitChar(a), DigitChar(b)] :: IsDigit(c)
    ensures DecimalValue(q + [DigitChar(a), DigitChar(b)]) == DecimalValue(q) * 100 + a * 10 + b
  {
    var s := q + [DigitChar(a), DigitChar(b)];
    assert s[..|s| - 1] == q + [DigitChar(a)];
    assert (q + [DigitChar(a)])[..|q|] == q;
  }

  /** Fixed2(n) is digits, a point and two digits; without the point the digits denote n. */
  lemma Fixed2Denotes(n: nat)
    ensures var u := Fixed2(n);
            |u| >= 4 && u[0] != '-' && u[|u| - 3] == '.' && IsDigit(u[|u| - 2]) && IsDigit(u[|u| - 1])
    ensures var u := Fixed2(n);
            var digits := u[..|u| - 3] + u[|u| - 2..];
            (forall c | c in digits :: IsDigit(c)) && DecimalValue(digits) == n
  {
    var q := NatToString(n / 100);
    var a, b := n / 10 % 10, n % 10;
    var u := Fixed2(n);
    assert q[0] in q;
    var digits := u[..|u| - 3] + u[|u| - 2..];
    assert digits == q + [DigitChar(a), DigitChar(b)];
    DecimalValueAppend2(q, a, b);
    NatToStringRoundTrip(n / 100);
    SplitHundredths(n);
  }

  /**
   * ToFixed2(x) is a sign exactly when x is negative, then digits, a point and
   * two more digits; the digits, without sign and point, denote |x| rounded
   * to hundredths.
   */
  lemma ToFixed2Rounds(x: real)
    ensures var r := ToFixed2(x);
            |r| >= 4 && r[|r| - 3] == '.' && IsDigit(r[|r| - 2]) && IsDigit(r[|r| - 1])
    ensures ToFixed2(x)[0] == '-' <==> x < 0.0
    ensures var r := ToFixed2(x);
            var u := if x < 0.0 then r[1..] else r;
            var digits := u[..|u| - 3] + u[|u| - 2..];
            (forall c | c in digits :: IsDigit(c)) &&
            DecimalValue(digits) == Hundredths(if x < 0.0 then -x else x)
  {
    var n := Hundredths(if x < 0.0 then -x else x);
    Fixed2Denotes(n);
    if x < 0.0 {
      assert ToFixed2(x)[1..] == Fixed2(n);
    }
  }

  lemma SplitHundredths(n: nat)
    ensures (n / 100) * 100 + (n / 10 % 10) * 10 + n % 10 == n
  {
    assert n / 10 == (n / 100) * 10 + n / 10 % 10;
  }
}
