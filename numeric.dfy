/**
 * Numbers as the service handles them: the range of Rust's `u64`, and the
 * decimal text that `format!("{}", n)` produces for an unsigned integer,
 * together with the digit reading that inverts it.
 */
module Numeric {

  /** One past the largest `u64`; every raw counter the service formats lies below it. */
  const U64_LIMIT: nat := 0x1_0000_0000_0000_0000

  predicate IsDigit(c: char) {
    '0' <= c <= '9'
  }

  predicate AllDigits(s: string) {
    forall i :: 0 <= i < |s| ==> IsDigit(s[i])
  }

  /** The canonical decimal form: at least one digit, and no leading zero unless it is "0". */
  predicate Canonical(s: string) {
    1 <= |s| && AllDigits(s) && (s[0] == '0' ==> |s| == 1)
  }

  function DigitValue(c: char): (d: nat)
    requires IsDigit(c)
    ensures d < 10
  {
    c as int - '0' as int
  }

  function DigitChar(d: nat): (c: char)
    requires d < 10
    ensures IsDigit(c) && DigitValue(c) == d
  {
    ('0' as int + d) as char
  }

  /** What `format!("{}", n)` prints for an unsigned integer `n`. */
  function NatToString(n: nat): (s: string)
    ensures Canonical(s)
    ensures s[0] == '0' <==> n == 0
    ensures |s| == 1 <==> n < 10
    decreases n
  {
    if n < 10 then [DigitChar(n)] else NatToString(n / 10) + [DigitChar(n % 10)]
  }

  /** The number denoted by a string of decimal digits, most significant first. */
  function DigitsValue(s: string): nat
    requires AllDigits(s)
  {
    if s == [] then 0
    else
      var p := s[..|s| - 1];
      assert AllDigits(p) by {
        forall i | 0 <= i < |p| ensures IsDigit(p[i]) { assert p[i] == s[i]; }
      }
      DigitsValue(p) * 10 + DigitValue(s[|s| - 1])
  }

  /** Reading back the printed digits gives the number that was printed. */
  lemma {:induction false} DigitsValueOfNatToString(n: nat)
    ensures DigitsValue(NatToString(n)) == n
    decreases n
  {
    if n >= 10 {
      var s := NatToString(n);
      assert s[..|s| - 1] == NatToString(n / 10);
      DigitsValueOfNatToString(n / 10);
    }
  }

  /** A digit string whose first digit is not '0' denotes at least 1. */
  lemma {:induction false} DigitsValuePositive(s: string)
    requires AllDigits(s) && 1 <= |s| && s[0] != '0'
    ensures DigitsValue(s) >= 1
    decreases |s|
  {
    if |s| > 1 {
      var p := s[..|s| - 1];
      assert p[0] == s[0];
      assert AllDigits(p) by {
        forall i | 0 <= i < |p| ensures IsDigit(p[i]) { assert p[i] == s[i]; }
      }
      DigitsValuePositive(p);
    }
  }

  /** Printing the value of a canonical digit string gives back that string. */
  lemma {:induction false} NatToStringOfDigitsValue(s: string)
    requires Canonical(s)
    ensures NatToString(DigitsValue(s)) == s
    decreases |s|
  {
    if |s| > 1 {
      var p := s[..|s| - 1];
      assert p[0] == s[0];
      assert AllDigits(p) by {
        forall i | 0 <= i < |p| ensures IsDigit(p[i]) { assert p[i] == s[i]; }
      }
      DigitsValuePositive(p);
      NatToStringOfDigitsValue(p);
      var n := DigitsValue(s);
      assert n == DigitsValue(p) * 10 + DigitValue(s[|s| - 1]);
      assert n / 10 == DigitsValue(p) && n % 10 == DigitValue(s[|s| - 1]);
      assert DigitChar(n % 10) == s[|s| - 1];
      assert s == p + [s[|s| - 1]];
    } else {
      assert DigitChar(DigitValue(s[0])) == s[0];
    }
  }

  /** Distinct numbers print differently. */
  lemma NatToStringInjective(a: nat, b: nat)
    ensures NatToString(a) == NatToString(b) ==> a == b
  {
    DigitsValueOfNatToString(a);
    DigitsValueOfNatToString(b);
  }

  /** Multiplying by a positive count of at least one unit gives at least one unit. */
  lemma {:induction false} MulAtLeast(t: nat, k: nat)
    requires 1 <= t
    ensures k <= t * k
    decreases t
  {
    if t > 1 {
      MulAtLeast(t - 1, k);
      assert t * k == (t - 1) * k + k;
    }
  }

  /** Euclidean division by `k` has exactly one quotient and remainder. */
  lemma DivModUnique(v: nat, k: nat, q: nat, r: nat)
    requires 0 <= r < k && v == q * k + r
    ensures v / k == q && v % k == r
  {
    var q', r' := v / k, v % k;
    assert v == q' * k + r';
    if q' > q {
      MulAtLeast(q' - q, k);
    } else if q' < q {
      MulAtLeast(q - q', k);
    }
  }
}
