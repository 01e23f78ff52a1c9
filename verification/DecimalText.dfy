/** The four-place text of an amount, as `str(normalize_amount(...))` writes it, and the key text the
  duplicate query counts (src/capital_os/domain/ledger/repository.py). */
module DecimalText {
  import opened Money

  function Digit(d: nat): char
    requires d < 10
  {
    "0123456789"[d]
  }

  function Digits(n: nat): string {
    if n < 10 then [Digit(n)] else Digits(n / 10) + [Digit(n % 10)]
  }

  function Fraction(n: nat): string
    requires n < 10000
  {
    [Digit(n / 10 / 10 / 10), Digit(n / 10 / 10 % 10), Digit(n / 10 % 10), Digit(n % 10)]
  }

  function Magnitude(n: nat): string {
    Digits(n / 10000) + "." + Fraction(n % 10000)
  }

  function AmountText(units: int): string {
    (if units < 0 then "-" else "") + Magnitude(Abs(units))
  }

  function KeyText(accountId: string, units: int): string {
    accountId + "|" + AmountText(units)
  }

  lemma DigitInjective(d: nat, e: nat)
    requires d < 10 && e < 10 && Digit(d) == Digit(e)
    ensures d == e
  {
  }

  lemma {:induction false} DigitsInjective(m: nat, n: nat)
    requires Digits(m) == Digits(n)
    ensures m == n
  {
    var a, b := Digits(m), Digits(n);
    assert a[|a| - 1] == Digit(m % 10) && b[|b| - 1] == Digit(n % 10);
    DigitInjective(m % 10, n % 10);
    DigitsNonEmpty(m / 10);
    DigitsNonEmpty(n / 10);
    if 10 <= m && 10 <= n {
      assert a[..|a| - 1] == Digits(m / 10) && b[..|b| - 1] == Digits(n / 10);
      DigitsInjective(m / 10, n / 10);
    }
  }

  lemma DigitsNonEmpty(n: nat)
    ensures |Digits(n)| >= 1 && (10 <= n ==> |Digits(n)| >= 2)
  {
  }

  lemma {:induction false} DigitsPlain(n: nat, i: nat)
    requires i < |Digits(n)|
    ensures Digits(n)[i] != '-' && Digits(n)[i] != '|'
  {
    if 10 <= n && i < |Digits(n / 10)| {
      DigitsPlain(n / 10, i);
    }
  }

  lemma FractionInjective(m: nat, n: nat)
    requires m < 10000 && n < 10000 && Fraction(m) == Fraction(n)
    ensures m == n
  {
    assert Fraction(m)[0] == Fraction(n)[0] && Fraction(m)[1] == Fraction(n)[1];
    assert Fraction(m)[2] == Fraction(n)[2] && Fraction(m)[3] == Fraction(n)[3];
    DigitInjective(m / 10 / 10 / 10, n / 10 / 10 / 10);
    DigitInjective(m / 10 / 10 % 10, n / 10 / 10 % 10);
    DigitInjective(m / 10 % 10, n / 10 % 10);
    DigitInjective(m % 10, n % 10);
  }

  lemma MagnitudePlain(n: nat, i: nat)
    requires i < |Magnitude(n)|
    ensures Magnitude(n)[i] != '-' && Magnitude(n)[i] != '|'
  {
    hide Digits;
    if i < |Digits(n / 10000)| {
      DigitsPlain(n / 10000, i);
    }
  }

  lemma MagnitudeInjective(m: nat, n: nat)
    requires Magnitude(m) == Magnitude(n)
    ensures m == n
  {
    hide Digits;
    var a, b := Magnitude(m), Magnitude(n);
    assert a[|a| - 4..] == Fraction(m % 10000) && b[|b| - 4..] == Fraction(n % 10000);
    assert a[..|a| - 5] == Digits(m / 10000) && b[..|b| - 5] == Digits(n / 10000);
    DigitsInjective(m / 10000, n / 10000);
    FractionInjective(m % 10000, n % 10000);
  }

  /** The text starts with '-' exactly for a negative amount, and holds no separator. */
  lemma AmountTextShape(units: int)
    ensures |AmountText(units)| > 0
    ensures AmountText(units)[0] == '-' <==> units < 0
    ensures forall i :: 0 <= i < |AmountText(units)| ==> AmountText(units)[i] != '|'
  {
    assert |Magnitude(Abs(units))| >= 5;
    MagnitudePlain(Abs(units), 0);
    hide Magnitude;
    forall i | 0 <= i < |AmountText(units)|
      ensures AmountText(units)[i] != '|'
    {
      var offset := if units < 0 then 1 else 0;
      if offset <= i {
        MagnitudePlain(Abs(units), i - offset);
      }
    }
  }

  lemma AmountTextInjective(m: int, n: int)
    requires AmountText(m) == AmountText(n)
    ensures m == n
  {
    hide Magnitude;
    AmountTextShape(m);
    AmountTextShape(n);
    var offset := if m < 0 then 1 else 0;
    assert AmountText(m)[offset..] == Magnitude(Abs(m)) && AmountText(n)[offset..] == Magnitude(Abs(n));
    MagnitudeInjective(Abs(m), Abs(n));
  }

  lemma LastSeparator(a: string, units: int, i: nat)
    requires |a| < i < |KeyText(a, units)|
    ensures KeyText(a, units)[i] != '|'
  {
    AmountTextShape(units);
    assert KeyText(a, units)[i] == AmountText(units)[i - |a| - 1];
  }

  /** Joining account and amount with '|' loses nothing, even when the account contains '|'. */
  lemma KeyTextInjective(a: string, m: int, b: string, n: int)
    requires KeyText(a, m) == KeyText(b, n)
    ensures a == b && m == n
  {
    var s, t := AmountText(m), AmountText(n);
    var k := KeyText(a, m);
    assert k[|a|] == '|' && k[|b|] == '|';
    if |a| < |b| {
      LastSeparator(a, m, |b|);
    } else if |b| < |a| {
      LastSeparator(b, n, |a|);
    }
    assert k[..|a|] == a && k[..|b|] == b;
    assert k[|a| + 1..] == s && k[|b| + 1..] == t;
    AmountTextInjective(m, n);
  }

  // ------------------------------------------------------------------ reading a text back

  predicate AllDigits(s: string) {
    forall i :: 0 <= i < |s| ==> '0' <= s[i] <= '9'
  }

  /** The number a run of digits stands for. */
  function ReadDigits(s: string): int {
    if s == "" then 0 else 10 * ReadDigits(s[..|s| - 1]) + (s[|s| - 1] as int - '0' as int)
  }

  lemma {:induction false} DigitsRead(n: nat)
    ensures AllDigits(Digits(n)) && Digits(n) != "" && ReadDigits(Digits(n)) == n
    ensures |Digits(n)| > 1 ==> Digits(n)[0] != '0'
    ensures n > 0 ==> Digits(n)[0] != '0'
    decreases n
  {
    var s := Digits(n);
    if 10 <= n {
      DigitsRead(n / 10);
      assert s[..|s| - 1] == Digits(n / 10);
    } else {
      assert s[..|s| - 1] == "";
    }
  }

  lemma {:induction false} OneMoreDigit(s: string, d: nat)
    requires d < 10 && AllDigits(s)
    ensures AllDigits(s + [Digit(d)]) && ReadDigits(s + [Digit(d)]) == 10 * ReadDigits(s) + d
  {
    assert (s + [Digit(d)])[..|s|] == s;
  }

  lemma FourDigits(a: nat, b: nat, c: nat, d: nat)
    requires a < 10 && b < 10 && c < 10 && d < 10
    ensures var s := [Digit(a), Digit(b), Digit(c), Digit(d)];
            AllDigits(s) && ReadDigits(s) == 1000 * a + 100 * b + 10 * c + d
  {
    hide Digit;
    OneMoreDigit("", a);
    OneMoreDigit([Digit(a)], b);
    OneMoreDigit([Digit(a), Digit(b)], c);
    OneMoreDigit([Digit(a), Digit(b), Digit(c)], d);
    assert "" + [Digit(a)] == [Digit(a)];
    assert [Digit(a)] + [Digit(b)] == [Digit(a), Digit(b)];
    assert [Digit(a), Digit(b)] + [Digit(c)] == [Digit(a), Digit(b), Digit(c)];
    assert [Digit(a), Digit(b), Digit(c)] + [Digit(d)] == [Digit(a), Digit(b), Digit(c), Digit(d)];
  }

  lemma FractionRead(n: nat)
    requires n < 10000
    ensures |Fraction(n)| == 4 && AllDigits(Fraction(n)) && ReadDigits(Fraction(n)) == n
  {
    hide AllDigits, ReadDigits;
    FourDigits(n / 10 / 10 / 10, n / 10 / 10 % 10, n / 10 % 10, n % 10);
  }

  /** The text is the amount in decimal: a minus sign exactly when it is negative, digits without a superfluous zero, a
    point, and four more digits. */
  lemma AmountReadBack(units: int)
    ensures var text := AmountText(units);
            var digits := if units < 0 then text[1..] else text;
            && text != "" && (text[0] == '-' <==> units < 0)
            && |digits| >= 6
            && var whole, fraction := digits[..|digits| - 5], digits[|digits| - 4..];
            && digits[|digits| - 5] == '.' && AllDigits(whole) && AllDigits(fraction)
            && (|whole| > 1 ==> whole[0] != '0')
            && 10000 * ReadDigits(whole) + ReadDigits(fraction) == if units < 0 then -units else units
  {
    hide Digits, Fraction;
    AmountTextShape(units);
    var n := Abs(units);
    DigitsRead(n / 10000);
    FractionRead(n % 10000);
    var digits := Magnitude(n);
    assert digits == if units < 0 then AmountText(units)[1..] else AmountText(units);
    assert digits[..|digits| - 5] == Digits(n / 10000) && digits[|digits| - 4..] == Fraction(n % 10000);
  }
}
