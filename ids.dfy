/** Identifiers: the order in which the database returns rows for `First`
    (its primary-key order) and the oracle that stands for `uuid_generate_v4()`. */
module Ids {

  /** Lexicographic "not after" on identifiers: the ORDER BY on a primary key. */
  predicate LexLe(a: string, b: string)
    decreases |a|
  {
    |a| == 0 || (|b| > 0 && (a[0] < b[0] || (a[0] == b[0] && LexLe(a[1..], b[1..]))))
  }

  lemma {:induction false} LexLeReflexive(a: string)
    ensures LexLe(a, a)
    decreases |a|
  {
    if |a| > 0 {
      LexLeReflexive(a[1..]);
    }
  }

  lemma {:induction false} LexLeTotal(a: string, b: string)
    ensures LexLe(a, b) || LexLe(b, a)
    decreases |a|
  {
    if |a| > 0 && |b| > 0 && a[0] == b[0] {
      LexLeTotal(a[1..], b[1..]);
    }
  }

  lemma {:induction false} LexLeTransitive(a: string, b: string, c: string)
    requires LexLe(a, b) && LexLe(b, c)
    ensures LexLe(a, c)
    decreases |a|
  {
    if |a| > 0 && a[0] == b[0] && b[0] == c[0] {
      LexLeTransitive(a[1..], b[1..], c[1..]);
    }
  }

  function DigitChar(d: nat): (c: char)
    requires d < 10
    ensures '0' <= c <= '9'
  {
    (('0' as int) + d) as char
  }

  /** The decimal digits of n, most significant first. */
  function Decimal(n: nat): (s: string)
    ensures 1 <= |s|
    ensures n >= 10 ==> 2 <= |s|
    decreases n
  {
    if n < 10 then [DigitChar(n)] else Decimal(n / 10) + [DigitChar(n % 10)]
  }

  lemma {:induction false} DecimalInjective(a: nat, b: nat)
    requires Decimal(a) == Decimal(b)
    ensures a == b
    decreases a
  {
    if a >= 10 && b >= 10 {
      var s := Decimal(a);
      assert s == Decimal(a / 10) + [DigitChar(a % 10)];
      assert s == Decimal(b / 10) + [DigitChar(b % 10)];
      assert Decimal(a / 10) == s[..|s| - 1] == Decimal(b / 10);
      assert DigitChar(a % 10) == s[|s| - 1] == DigitChar(b % 10);
      DecimalInjective(a / 10, b / 10);
    }
  }

  /** The k-th identifier the oracle hands out. */
  function IdOf(k: nat): (id: string)
    ensures id != ""
  {
    "id-" + Decimal(k)
  }

  /** Distinct draws of the oracle are distinct identifiers. */
  lemma IdOfInjective(a: nat, b: nat)
    ensures IdOf(a) == IdOf(b) <==> a == b
  {
    if IdOf(a) == IdOf(b) {
      assert Decimal(a) == IdOf(a)[3..];
      assert Decimal(b) == IdOf(b)[3..];
      DecimalInjective(a, b);
    }
  }
}
