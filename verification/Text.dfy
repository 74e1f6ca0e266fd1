/** Strings as the program uses them: their order, decimal numbers and separators. */
module Text {

  /** The byte order of Go's string comparison. */
  predicate Before(a: string, b: string) {
    b != "" && (a == "" || a[0] < b[0] || (a[0] == b[0] && Before(a[1..], b[1..])))
  }

  /** One string is before another when it is a proper prefix, or smaller at the first difference. */
  lemma {:induction false} BeforeIff(a: string, b: string)
    ensures Before(a, b) <==>
              exists k :: 0 <= k <= |a| && k < |b| && a[..k] == b[..k] && (k == |a| || a[k] < b[k])
  {
    if b == "" {
    } else if a == "" || a[0] < b[0] {
      assert a[..0] == b[..0];
    } else if a[0] == b[0] {
      BeforeIff(a[1..], b[1..]);
      if k :| 0 <= k <= |a[1..]| && k < |b[1..]| && a[1..][..k] == b[1..][..k] && (k == |a[1..]| || a[1..][k] < b[1..][k]) {
        assert a[..k + 1] == [a[0]] + a[1..][..k] && b[..k + 1] == [b[0]] + b[1..][..k];
        assert k + 1 == |a| || a[k + 1] < b[k + 1];
      }
      if k :| 0 <= k <= |a| && k < |b| && a[..k] == b[..k] && (k == |a| || a[k] < b[k]) {
        assert k > 0;
        assert a[1..][..k - 1] == a[..k][1..] && b[1..][..k - 1] == b[..k][1..];
        assert k - 1 == |a[1..]| || a[1..][k - 1] < b[1..][k - 1];
      }
    } else {
      assert forall k :: 0 < k <= |a| && k < |b| && a[..k] == b[..k] ==> a[..k][0] == b[..k][0];
    }
  }

  lemma {:induction false} BeforeIsTransitive(a: string, b: string, c: string)
    requires Before(a, b) && Before(b, c)
    ensures Before(a, c)
  {
    if a != "" && a[0] == b[0] == c[0] {
      BeforeIsTransitive(a[1..], b[1..], c[1..]);
    }
  }

  lemma {:induction false} BeforeIsTotal(a: string, b: string)
    ensures !(Before(a, b) && Before(b, a))
    ensures Before(a, b) || Before(b, a) <==> a != b
  {
    if a != "" && b != "" {
      BeforeIsTotal(a[1..], b[1..]);
      if a[0] == b[0] {
        assert a == [a[0]] + a[1..] && b == [b[0]] + b[1..];
      }
    }
  }

  function Digit(d: nat): char
    requires d < 10
  {
    '0' + d as char
  }

  function Digits(n: nat): string {
    if n < 10 then [Digit(n)] else Digits(n / 10) + [Digit(n % 10)]
  }

  /** fmt's %d. */
  function Decimal(n: int): string {
    if n < 0 then "-" + Digits(-n) else Digits(n)
  }

  predicate AllDigits(s: string) {
    s != "" && forall c :: c in s ==> '0' <= c <= '9'
  }

  lemma {:induction false} DigitsAreDigits(n: nat)
    ensures AllDigits(Digits(n))
  {
    if n >= 10 {
      DigitsAreDigits(n / 10);
    }
  }

  lemma {:induction false} DigitsAreInjective(m: nat, n: nat)
    requires Digits(m) == Digits(n)
    ensures m == n
  {
    var (a, b) := (Digits(m), Digits(n));
    DigitsAreDigits(m / 10);
    DigitsAreDigits(n / 10);
    assert a[|a| - 1] == Digit(m % 10) && b[|b| - 1] == Digit(n % 10);
    if m >= 10 && n >= 10 {
      assert a[..|a| - 1] == Digits(m / 10) && b[..|b| - 1] == Digits(n / 10);
      DigitsAreInjective(m / 10, n / 10);
    }
  }

  lemma SignShows(n: int)
    ensures Decimal(n) != "" && (Decimal(n)[0] == '-' <==> n < 0)
  {
    if n >= 0 {
      DigitsAreDigits(n);
      assert Digits(n)[0] in Digits(n);
    }
  }

  lemma DecimalsAreInjective(m: int, n: int)
    requires Decimal(m) == Decimal(n)
    ensures m == n
  {
    SignShows(m);
    SignShows(n);
    if m < 0 {
      assert Decimal(m)[1..] == Digits(-m) && Decimal(n)[1..] == Digits(-n);
      DigitsAreInjective(-m, -n);
    } else {
      DigitsAreInjective(m, n);
    }
  }

  lemma DecimalHasNo(n: int, bar: char)
    requires bar != '-' && !('0' <= bar <= '9')
    ensures bar !in Decimal(n)
  {
    DigitsAreDigits(if n < 0 then -n else n);
  }

  /** A separator between two strings, and where the rest of them is. */
  lemma Joined(bar: char, a: string, b: string)
    ensures var s := a + [bar] + b;
            |s| == |a| + 1 + |b| && s[|a|] == bar && s[..|a|] == a && s[|a| + 1..] == b
    ensures bar !in a ==> forall k :: 0 <= k < |a| ==> (a + [bar] + b)[k] != bar
    ensures bar !in b ==> forall k :: |a| < k < |a| + 1 + |b| ==> (a + [bar] + b)[k] != bar
  {
    var s := a + [bar] + b;
    assert forall k :: |a| < k < |s| ==> s[k] == b[k - |a| - 1];
  }

  /** The first separator splits a string in one way only. */
  lemma SplitAtFirst(bar: char, a: string, b: string, a': string, b': string)
    requires bar !in a && bar !in a' && a + [bar] + b == a' + [bar] + b'
    ensures a == a' && b == b'
  {
    Joined(bar, a, b);
    Joined(bar, a', b');
    assert |a| == |a'|;
  }

  /** The last separator splits a string in one way only. */
  lemma SplitAtLast(bar: char, a: string, b: string, a': string, b': string)
    requires bar !in b && bar !in b' && a + [bar] + b == a' + [bar] + b'
    ensures a == a' && b == b'
  {
    Joined(bar, a, b);
    Joined(bar, a', b');
    assert |a| == |a'|;
  }
}
