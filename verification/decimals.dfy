/** Decimal numerals and the composed keys of the source: "%d:%s" and its relatives can be taken
    apart again, because a numeral contains no separator. */
module Decimals {
  function Digit(d: nat): char
    requires d < 10
  {
    '0' + d as char
  }

  /** Digits only, and none to spare: a numeral does not begin with a zero, except 0 itself. */
  function Numeral(n: nat): (s: string)
    ensures s != [] && (forall i | 0 <= i < |s| :: '0' <= s[i] <= '9')
    ensures s[0] == '0' <==> n == 0
    ensures n == 0 ==> |s| == 1
  {
    if n < 10 then [Digit(n)] else Numeral(n / 10) + [Digit(n % 10)]
  }

  function Value(s: string): int {
    if s == [] then 0 else 10 * Value(s[..|s| - 1]) + (s[|s| - 1] as int - '0' as int)
  }

  lemma {:induction false} ValueOfNumeral(n: nat)
    ensures Value(Numeral(n)) == n
  {
    if n < 10 {
      assert Numeral(n)[..0] == [];
    } else {
      ValueOfNumeral(n / 10);
      assert Numeral(n)[..|Numeral(n)| - 1] == Numeral(n / 10);
    }
  }

  predicate Free(s: string, sep: char) {
    forall i | 0 <= i < |s| :: s[i] != sep
  }

  lemma {:induction false} NumeralFree(n: nat, sep: char)
    requires sep < '0' || '9' < sep
    ensures Free(Numeral(n), sep)
  {
    if 10 <= n {
      NumeralFree(n / 10, sep);
    }
  }

  /** The text before the first separator is determined by the whole. */
  lemma SplitUnique(a: string, x: string, b: string, y: string, sep: char)
    requires Free(a, sep) && Free(b, sep) && a + [sep] + x == b + [sep] + y
    ensures a == b && x == y
  {
    var s := a + [sep] + x;
    assert s[|a|] == sep && s[|b|] == sep;
    assert forall i | 0 <= i < |a| :: s[i] == a[i];
    assert forall i | 0 <= i < |b| :: s[i] == b[i];
    assert |a| == |b|;
    assert a == s[..|a|] && b == s[..|b|];
    assert x == s[|a| + 1..] && y == s[|b| + 1..];
  }

  lemma SamePrefix(p: string, x: string, y: string)
    requires p + x == p + y
    ensures x == y
  {
    assert x == (p + x)[|p|..] && y == (p + y)[|p|..];
  }

  /** n:x determines both n and x. */
  lemma NumeralThen(m: nat, x: string, n: nat, y: string)
    requires Numeral(m) + ":" + x == Numeral(n) + ":" + y
    ensures m == n && x == y
  {
    NumeralFree(m, ':');
    NumeralFree(n, ':');
    SplitUnique(Numeral(m), x, Numeral(n), y, ':');
    ValueOfNumeral(m);
    ValueOfNumeral(n);
  }

  /** What stands where in prefix, number, separator and rest. */
  lemma Parts(head: string, n: nat, rest: string)
    ensures var s := head + Numeral(n) + rest;
            var end := |s| - |rest|;
            && |head| < end && s[..|head|] == head && s[end..] == rest && Value(s[|head|..end]) == n
  {
    var s := head + Numeral(n) + rest;
    var end := |s| - |rest|;
    assert s[|head|..end] == Numeral(n);
    ValueOfNumeral(n);
  }

  /** A numeral behind a fixed prefix determines the number. */
  lemma PrefixThenNumeral(p: string, m: nat, n: nat)
    requires p + Numeral(m) == p + Numeral(n)
    ensures m == n
  {
    SamePrefix(p, Numeral(m), Numeral(n));
    ValueOfNumeral(m);
    ValueOfNumeral(n);
  }
}
