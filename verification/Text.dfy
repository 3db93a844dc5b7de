/** Strings as the tools use them: decimal rendering of numbers inside identifiers and
    the code-point order that sorting by text relies on. */
module Text {

  /** The decimal digits of `n`, as Python renders a non-negative int inside an f-string. */
  function Decimal(n: nat): (s: string)
    ensures |s| > 0
    ensures forall i :: 0 <= i < |s| ==> '0' <= s[i] <= '9'
  {
    var digit := [('0' as int + n % 10) as char];
    if n < 10 then digit else Decimal(n / 10) + digit
  }

  /** Two numbers with the same digits are the same number. */
  lemma {:induction false} DecimalInjective(m: nat, n: nat)
    requires Decimal(m) == Decimal(n)
    ensures m == n
  {
    var a, b := Decimal(m), Decimal(n);
    assert a[|a| - 1] as int - '0' as int == m % 10;
    assert b[|b| - 1] as int - '0' as int == n % 10;
    if m >= 10 && n >= 10 {
      assert a[..|a| - 1] == Decimal(m / 10);
      assert b[..|b| - 1] == Decimal(n / 10);
      DecimalInjective(m / 10, n / 10);
    }
  }

  ghost predicate Lacks(a: string, sep: char) { forall i | 0 <= i < |a| :: a[i] != sep }

  /** The separator cannot stand earlier on one side than on the other. */
  lemma SeparatorNotEarlier(p: string, a: string, q: string, b: string, sep: char)
    requires p + [sep] + a == q + [sep] + b && Lacks(a, sep)
    ensures |p| >= |q|
  {
    var left, right := p + [sep] + a, q + [sep] + b;
    assert right[|q|] == sep;
    assert forall i | |p| < i < |left| :: left[i] == a[i - |p| - 1];
  }

  lemma SplitAtLast(p: string, a: string, q: string, b: string, sep: char)
    requires p + [sep] + a == q + [sep] + b && Lacks(a, sep) && Lacks(b, sep)
    ensures p == q && a == b
  {
    SeparatorNotEarlier(p, a, q, b, sep);
    SeparatorNotEarlier(q, b, p, a, sep);
    assert p == (p + [sep] + a)[..|p|] && q == (q + [sep] + b)[..|q|];
    assert a == (p + [sep] + a)[|p| + 1..] && b == (q + [sep] + b)[|q| + 1..];
  }

  /** `prefix + separator + digits` can be taken apart again: the digits hold no separator,
      so the last separator of the text is the one that was inserted. */
  lemma JoinInjective(p: string, m: nat, q: string, n: nat, sep: char)
    requires !('0' <= sep <= '9')
    requires p + [sep] + Decimal(m) == q + [sep] + Decimal(n)
    ensures p == q && m == n
  {
    SplitAtLast(p, Decimal(m), q, Decimal(n), sep);
    DecimalInjective(m, n);
  }

  /** Code-point order on text: the order Python's `sorted` uses for str keys. */
  predicate LexLe(a: string, b: string) {
    a == [] || (b != [] && (a[0] < b[0] || (a[0] == b[0] && LexLe(a[1..], b[1..]))))
  }

  lemma {:induction false} LexTotal(a: string, b: string)
    ensures LexLe(a, b) || LexLe(b, a)
  {
    if a != [] && b != [] { LexTotal(a[1..], b[1..]); }
  }

  lemma {:induction false} LexAntisymmetric(a: string, b: string)
    requires LexLe(a, b) && LexLe(b, a)
    ensures a == b
  {
    if a != [] && b != [] {
      LexAntisymmetric(a[1..], b[1..]);
      assert a == [a[0]] + a[1..] && b == [b[0]] + b[1..];
    }
  }

  lemma {:induction false} LexTransitive(a: string, b: string, c: string)
    requires LexLe(a, b) && LexLe(b, c)
    ensures LexLe(a, c)
  {
    if a != [] && a[0] == b[0] && b[0] == c[0] { LexTransitive(a[1..], b[1..], c[1..]); }
  }

  /** The order is decided at the first difference, and a text goes after its beginnings. */
  lemma {:induction false} LexLeAtDifference(a: string, b: string)
    ensures LexLe(a, b) <==> exists n :: DecidedAt(a, b, n)
  {
    if a == [] {
      assert DecidedAt(a, b, 0);
    } else if b != [] && a[0] == b[0] {
      LexLeAtDifference(a[1..], b[1..]);
      if n :| DecidedAt(a[1..], b[1..], n) {
        assert a[..n + 1] == [a[0]] + a[1..][..n] && b[..n + 1] == [b[0]] + b[1..][..n];
        assert DecidedAt(a, b, n + 1);
      }
      if n :| DecidedAt(a, b, n) {
        assert n > 0;
        assert a[1..][..n - 1] == a[..n][1..] && b[1..][..n - 1] == b[..n][1..];
        assert DecidedAt(a[1..], b[1..], n - 1);
      }
    } else if b != [] && a[0] < b[0] {
      assert DecidedAt(a, b, 0);
    }
  }

  /** The texts agree up to `n`, where the first one ends or has the smaller character. */
  ghost predicate DecidedAt(a: string, b: string, n: int) {
    0 <= n <= |a| && n <= |b| && a[..n] == b[..n] && (n == |a| || (n < |b| && a[n] < b[n]))
  }
}
