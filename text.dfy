/**
 * Text helpers: decimal rendering and parsing of naturals (Python's `str(n)` and
 * `int(s)` on digit strings) and joining a list of strings with ", ".
 */
module Text {
  import opened Wrappers

  predicate IsDigit(c: char) {
    '0' <= c <= '9'
  }

  predicate AllDigits(s: string) {
    forall i :: 0 <= i < |s| ==> IsDigit(s[i])
  }

  /** The character of the decimal digit `d`. */
  function DigitChar(d: nat): (c: char)
    requires d < 10
    ensures IsDigit(c) && c as int - '0' as int == d
  {
    ('0' as int + d) as char
  }

  /** The value of a decimal digit character. */
  function DigitValue(c: char): (d: nat)
    requires IsDigit(c)
    ensures d < 10
  {
    c as int - '0' as int
  }

  /** The decimal rendering of `n`, without sign or leading zeros (Python's `str(n)`). */
  function NatToString(n: nat): (s: string)
    ensures |s| > 0 && AllDigits(s)
    ensures |s| > 1 ==> s[0] != '0'
    decreases n
  {
    if n < 10 then [DigitChar(n)] else NatToString(n / 10) + [DigitChar(n % 10)]
  }

  /** The value of a string of decimal digits, most significant first. */
  function DigitsValue(s: string): nat
    requires AllDigits(s)
  {
    if |s| == 0 then 0 else 10 * DigitsValue(s[..|s| - 1]) + DigitValue(s[|s| - 1])
  }

  /**
   * Python's `int(s)` restricted to ASCII decimal digits: the value of a non-empty
   * digit string, and `None` (a `ValueError`) for anything else.
   */
  function ParseNat(s: string): (r: Option<nat>)
    ensures r.Some? <==> |s| > 0 && AllDigits(s)
  {
    if |s| > 0 && AllDigits(s) then Some(DigitsValue(s)) else None
  }

  /** Reading back the rendering of a natural gives that natural. */
  lemma {:induction false} ParseNatToString(n: nat)
    ensures ParseNat(NatToString(n)) == Some(n)
  {
    DigitsOfNat(n);
  }

  lemma {:induction false} DigitsOfNat(n: nat)
    ensures AllDigits(NatToString(n)) && DigitsValue(NatToString(n)) == n
    decreases n
  {
    var s := NatToString(n);
    if n >= 10 {
      DigitsOfNat(n / 10);
      assert s[..|s| - 1] == NatToString(n / 10);
    }
  }

  /** Two naturals render alike only when they are equal. */
  lemma NatToStringInjective(m: nat, n: nat)
    requires NatToString(m) == NatToString(n)
    ensures m == n
  {
    ParseNatToString(m);
    ParseNatToString(n);
  }

  /** Python's `", ".join(xs)`. */
  function Join(xs: seq<string>): string
  {
    if |xs| == 0 then "" else if |xs| == 1 then xs[0] else xs[0] + ", " + Join(xs[1..])
  }

  /** The index of the first occurrence of `c` in `s`. */
  function IndexOf(s: string, c: char): (i: nat)
    requires c in s
    ensures i < |s| && s[i] == c && c !in s[..i]
  {
    if s[0] == c then 0 else 1 + IndexOf(s[1..], c)
  }

  /**
   * Cuts `s` at every comma, dropping the one blank that follows it: the reading a
   * consumer of the report applies to the "Datos comprometidos" column.
   */
  function Split(s: string): (parts: seq<string>)
    ensures |parts| > 0
    decreases |s|
  {
    if ',' !in s then [s]
    else
      var i := IndexOf(s, ',');
      var rest := s[i + 1..];
      [s[..i]] + Split(if |rest| > 0 && rest[0] == ' ' then rest[1..] else rest)
  }

  /**
   * Splitting a join gives the list back, provided the list is non-empty and no
   * element contains a comma.
   */
  lemma {:induction false} SplitJoin(xs: seq<string>)
    requires |xs| > 0
    requires forall k :: 0 <= k < |xs| ==> ',' !in xs[k]
    ensures Split(Join(xs)) == xs
  {
    if |xs| > 1 {
      assert Join(xs) == xs[0] + ", " + Join(xs[1..]);
      SplitAfterFirst(xs[0], Join(xs[1..]));
      SplitJoin(xs[1..]);
      assert xs == [xs[0]] + xs[1..];
    }
  }

  /** Splitting `a + ", " + b` with a comma-free `a` cuts off `a` and goes on with `b`. */
  lemma SplitAfterFirst(a: string, b: string)
    requires ',' !in a
    ensures Split(a + ", " + b) == [a] + Split(b)
  {
    var s := a + ", " + b;
    assert s == a + (", " + b);
    IndexOfAfter(a, ", " + b);
    var i := IndexOf(s, ',');
    assert i == |a|;
    assert s[..i] == a;
    var rest := s[i + 1..];
    assert rest == " " + b;
    assert rest[1..] == b;
  }

  lemma {:induction false} IndexOfAfter(a: string, b: string)
    requires ',' !in a && |b| > 0 && b[0] == ','
    ensures ',' in a + b && IndexOf(a + b, ',') == |a|
    decreases |a|
  {
    assert (a + b)[|a|] == ',';
    if |a| > 0 {
      assert (a + b)[1..] == a[1..] + b;
      IndexOfAfter(a[1..], b);
    }
  }
}
