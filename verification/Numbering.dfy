/** Numbered names: decimal numerals, and why trying one after another must find a free name. */
module Numbering {

  function Digit(d: nat): (c: char)
    requires d < 10
  {
    "0123456789"[d]
  }

  function DigitValue(c: char): (d: nat) {
    if '0' <= c <= '9' then c as int - '0' as int else 0
  }

  /** The numeral Python writes for a non-negative number. */
  function Numeral(n: nat): (s: string)
    ensures s != []
  {
    if n < 10 then [Digit(n)] else Numeral(n / 10) + [Digit(n % 10)]
  }

  function Value(s: string): (n: nat) {
    if s == [] then 0 else Value(s[..|s| - 1]) * 10 + DigitValue(s[|s| - 1])
  }

  lemma {:induction false} NumeralRoundTrip(n: nat)
    ensures Value(Numeral(n)) == n
  {
    if n < 10 {
      assert Numeral(n)[..0] == [];
    } else {
      NumeralRoundTrip(n / 10);
      assert Numeral(n)[..|Numeral(n)| - 1] == Numeral(n / 10);
    }
  }

  /** It is a decimal numeral: the last digit is the remainder by ten, and the rest is the quotient's numeral. */
  lemma NumeralIsDecimal(n: nat)
    ensures var s := Numeral(n);
      && s[|s| - 1] as int == '0' as int + n % 10
      && s[..|s| - 1] == if n < 10 then "" else Numeral(n / 10)
  {
    assert Digit(n % 10) as int == '0' as int + n % 10;
    if n >= 10 {
      assert Numeral(n) == Numeral(n / 10) + [Digit(n % 10)];
    }
  }

  lemma {:induction false} NumeralHasOnlyDigits(n: nat)
    ensures forall c :: c in Numeral(n) ==> '0' <= c <= '9'
  {
    if n >= 10 {
      NumeralHasOnlyDigits(n / 10);
    }
  }

  /** `prefix` alone for 0, otherwise `prefix`, a separator, the number, and a closing string. */
  function Numbered(prefix: string, open: string, close: string, suffix: string, n: nat): string {
    if n == 0 then prefix + suffix else prefix + open + Numeral(n) + close + suffix
  }

  /** Different numbers give different names, whatever the name they decorate looks like. */
  lemma NumberedInjective(prefix: string, open: string, close: string, suffix: string, m: nat, n: nat)
    requires open != [] && Numbered(prefix, open, close, suffix, m) == Numbered(prefix, open, close, suffix, n)
    ensures m == n
  {
    if m > 0 && n > 0 {
      var front, back := prefix + open, close + suffix;
      assert Numbered(prefix, open, close, suffix, m) == front + Numeral(m) + back;
      assert Numbered(prefix, open, close, suffix, n) == front + Numeral(n) + back;
      MiddleDetermined(front, Numeral(m), Numeral(n), back);
      NumeralRoundTrip(m);
      NumeralRoundTrip(n);
    }
  }

  lemma MiddleDetermined(front: string, a: string, b: string, back: string)
    requires front + a + back == front + b + back
    ensures a == b
  {
    var whole := front + a + back;
    assert |a| == |b|;
    assert a == whole[|front|..|front| + |a|] == b;
  }

  lemma {:induction false} SubsetNotLarger<T>(a: set<T>, b: set<T>)
    requires a <= b
    ensures |a| <= |b|
    decreases a
  {
    if a != {} {
      var x :| x in a;
      SubsetNotLarger(a - {x}, b - {x});
    }
  }

  /** The names numbered below `n`. */
  function TriedNames(prefix: string, open: string, close: string, suffix: string, n: nat): (r: set<string>) {
    if n == 0 then {} else TriedNames(prefix, open, close, suffix, n - 1) + {Numbered(prefix, open, close, suffix,
      n - 1)}
  }

  lemma {:induction false} TriedNamesCount(prefix: string, open: string, close: string, suffix: string, n: nat)
    requires open != []
    ensures |TriedNames(prefix, open, close, suffix, n)| == n
    ensures forall name :: name in TriedNames(prefix, open, close, suffix, n) <==>
      exists k: nat :: k < n && name == Numbered(prefix, open, close, suffix, k)
  {
    hide Numbered;
    if n > 0 {
      TriedNamesCount(prefix, open, close, suffix, n - 1);
      var before, last := TriedNames(prefix, open, close, suffix, n - 1), Numbered(prefix, open, close, suffix, n - 1);
      if last in before {
        var k: nat :| k < n - 1 && last == Numbered(prefix, open, close, suffix, k);
        NumberedInjective(prefix, open, close, suffix, k, n - 1);
      }
      assert TriedNames(prefix, open, close, suffix, n) == before + {last};
      forall name | name in before + {last}
        ensures exists k: nat :: k < n && name == Numbered(prefix, open, close, suffix, k) {
        if name == last {
          assert name == Numbered(prefix, open, close, suffix, n - 1);
        }
      }
    }
  }

  /** When the first `n` numbered names are all taken, at least `n` names are. */
  lemma TakenNamesBound(prefix: string, open: string, close: string, suffix: string, n: nat, taken: set<string>)
    requires open != []
    requires forall k: nat :: k < n ==> Numbered(prefix, open, close, suffix, k) in taken
    ensures n <= |taken|
  {
    TriedNamesCount(prefix, open, close, suffix, n);
    SubsetNotLarger(TriedNames(prefix, open, close, suffix, n), taken);
  }
}
