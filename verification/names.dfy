/** Container names: a panel's prefix and an instance's id in decimal. */
module Names {
  const DIGITS: string := "0123456789"

  function Decimal(n: nat): (s: string)
    ensures s != "" && forall c | c in s :: c in DIGITS
  {
    if n < 10 then [DIGITS[n]] else Decimal(n / 10) + [DIGITS[n % 10]]
  }

  lemma {:induction false} DecimalInjective(a: nat, b: nat)
    requires Decimal(a) == Decimal(b)
    ensures a == b
  {
    var s, t := Decimal(a), Decimal(b);
    assert s[|s| - 1] == DIGITS[a % 10] && t[|t| - 1] == DIGITS[b % 10];
    if a >= 10 && b >= 10 {
      assert s[..|s| - 1] == Decimal(a / 10) && t[..|t| - 1] == Decimal(b / 10);
      DecimalInjective(a / 10, b / 10);
    } else {
      assert |Decimal(a / 10)| > 0 && |Decimal(b / 10)| > 0;
    }
  }

  /** What panels that share a Docker daemon must have in common to stay out of each other's way. */
  predicate IsPrefix(p: string) {
    p != "" && p[|p| - 1] == '-'
  }

  /** No two pairs of a prefix and an id make the same name. */
  lemma NamesSplit(p: string, a: nat, q: string, b: nat)
    requires IsPrefix(p) && IsPrefix(q) && p + Decimal(a) == q + Decimal(b)
    ensures p == q && a == b
  {
    NotLonger(p, a, q, b);
    NotLonger(q, b, p, a);
    assert p == (p + Decimal(a))[..|p|] == (q + Decimal(b))[..|q|] == q;
    assert Decimal(a) == (p + Decimal(a))[|p|..] == (q + Decimal(b))[|q|..] == Decimal(b);
    DecimalInjective(a, b);
  }

  /** The last dash of a name ends its prefix. */
  lemma NotLonger(p: string, a: nat, q: string, b: nat)
    requires IsPrefix(p) && IsPrefix(q) && p + Decimal(a) == q + Decimal(b)
    ensures |q| <= |p|
  {
    var name := p + Decimal(a);
    assert forall i | |p| <= i < |name| :: name[i] == Decimal(a)[i - |p|] && name[i] in DIGITS;
    assert name[|q| - 1] == (q + Decimal(b))[|q| - 1] == '-';
  }
}
