/** Amounts, in units of 0.0001, and the rounding that produces them
  (src/capital_os/domain/ledger/invariants.py). A raw decimal is an exact `real`. */
module Money {
  import opened Ordering

  /** Half-even rounding to an integer, by the cases on the fractional part. */
  function RoundHalfEven(x: real): (r: int)
    ensures IsNearestEven(x, r)
  {
    var low := x.Floor;
    var fraction := x - low as real;
    if fraction < 0.5 || (fraction == 0.5 && low % 2 == 0) then low else low + 1
  }

  /** What half-even rounding promises: a nearest integer, the even one on a tie. */
  ghost predicate IsNearestEven(x: real, r: int) {
    && -0.5 <= x - r as real <= 0.5
    && (x - r as real == 0.5 || x - r as real == -0.5 ==> r % 2 == 0)
  }

  lemma NearestEvenUnique(x: real, r: int, s: int)
    requires IsNearestEven(x, r) && IsNearestEven(x, s)
    ensures r == s
  {
    assert -1.0 <= (r - s) as real <= 1.0;
  }

  lemma RoundMonotone(x: real, y: real)
    requires x <= y
    ensures RoundHalfEven(x) <= RoundHalfEven(y)
  {
    assert x.Floor <= y.Floor;
  }

  lemma RoundOdd(x: real)
    ensures RoundHalfEven(-x) == -RoundHalfEven(x)
  {
    NearestEvenUnique(-x, RoundHalfEven(-x), -RoundHalfEven(x));
  }

  lemma RoundInteger(n: int)
    ensures RoundHalfEven(n as real) == n
  {
  }

  // ------------------------------------------------------------------ amounts

  /** normalize_amount: quantize to four places, as a count of 0.0001 units. */
  function Normalize(value: real): int {
    RoundHalfEven(value * 10000.0)
  }

  /** The decimal a count of units stands for. */
  function Value(units: int): real {
    units as real / 10000.0
  }

  /** Quantizing a quantized amount changes nothing, so re-normalising a stored payload is harmless. */
  lemma NormalizeIdempotent(units: int)
    ensures Normalize(Value(units)) == units
  {
    assert Value(units) * 10000.0 == units as real;
    RoundInteger(units);
  }

  /** Normalisation is odd, monotone and moves a value by at most half a unit. */
  lemma NormalizeLaws(x: real, y: real)
    ensures Normalize(-x) == -Normalize(x)
    ensures x <= y ==> Normalize(x) <= Normalize(y)
    ensures -0.00005 <= Value(Normalize(x)) - x <= 0.00005
  {
    assert (-x) * 10000.0 == -(x * 10000.0);
    RoundOdd(x * 10000.0);
    if x <= y {
      RoundMonotone(x * 10000.0, y * 10000.0);
    }
  }

  function Abs(n: int): nat {
    if n < 0 then -n else n
  }

  // ------------------------------------------------------------------ totals

  /** The total of `f` over a sequence. */
  function SumBy<T>(f: T -> int, s: seq<T>): int {
    if s == [] then 0 else f(s[0]) + SumBy(f, s[1..])
  }

  lemma {:induction false} SumByConcat<T>(f: T -> int, a: seq<T>, b: seq<T>)
    ensures SumBy(f, a + b) == SumBy(f, a) + SumBy(f, b)
  {
    if a == [] {
      assert a + b == b;
    } else {
      assert (a + b)[1..] == a[1..] + b;
      SumByConcat(f, a[1..], b);
    }
  }

  lemma SumByAppend<T>(f: T -> int, a: seq<T>, x: T)
    ensures SumBy(f, a + [x]) == SumBy(f, a) + f(x)
  {
    SumByConcat(f, a, [x]);
    assert SumBy(f, [x]) == f(x) + SumBy(f, []);
  }

  lemma SumByRemove<T>(f: T -> int, s: seq<T>, i: nat)
    requires i < |s|
    ensures SumBy(f, s) == f(s[i]) + SumBy(f, s[..i] + s[i + 1..])
  {
    SumByConcat(f, s[..i], s[i + 1..]);
    SumByConcat(f, s[..i], s[i..]);
    assert s == s[..i] + s[i..];
    assert s[i..][1..] == s[i + 1..];
  }

  /** A total only depends on the multiset of its terms. */
  lemma {:induction false} SumByPermutation<T>(f: T -> int, a: seq<T>, b: seq<T>)
    requires multiset(a) == multiset(b)
    ensures SumBy(f, a) == SumBy(f, b)
  {
    if a == [] {
      assert |multiset(b)| == 0;
    } else {
      assert a[0] in multiset(b);
      var i :| 0 <= i < |b| && b[i] == a[0];
      var rest := b[..i] + b[i + 1..];
      assert a == [a[0]] + a[1..];
      RemoveAt(b, i);
      assert multiset(a[1..]) == multiset(a) - multiset([a[0]]);
      assert multiset(rest) == multiset(b) - multiset([b[i]]);
      SumByPermutation(f, a[1..], rest);
      SumByRemove(f, b, i);
    }
  }

  lemma {:induction false} SumByAgree<T>(f: T -> int, g: T -> int, s: seq<T>)
    requires forall x :: x in s ==> f(x) == g(x)
    ensures SumBy(f, s) == SumBy(g, s)
  {
    if s != [] {
      SumByAgree(f, g, s[1..]);
    }
  }

  lemma {:induction false} SumByZero<T>(f: T -> int, s: seq<T>)
    requires forall x :: x in s ==> f(x) == 0
    ensures SumBy(f, s) == 0
  {
    if s != [] {
      SumByZero(f, s[1..]);
    }
  }

  lemma {:induction false} SumByAdds<T>(f: T -> int, g: T -> int, h: T -> int, s: seq<T>)
    requires forall x :: x in s ==> f(x) == g(x) + h(x)
    ensures SumBy(f, s) == SumBy(g, s) + SumBy(h, s)
  {
    if s != [] {
      SumByAdds(f, g, h, s[1..]);
    }
  }

  // ------------------------------------------------------------------ totals by key

  /** The terms of the items with one key. */
  function Keyed<T>(key: T -> string, f: T -> int, name: string): T -> int {
    (x: T) => if key(x) == name then f(x) else 0
  }

  function TotalAt<T>(key: T -> string, f: T -> int, items: seq<T>): string -> int {
    (name: string) => SumBy(Keyed(key, f, name), items)
  }

  function Share(amount: int, owner: string): string -> int {
    (name: string) => if name == owner then amount else 0
  }

  lemma {:induction false} ShareTotal(names: seq<string>, amount: int, owner: string)
    ensures SumBy(Share(amount, owner), names) == amount * multiset(names)[owner]
  {
    if names != [] {
      ShareTotal(names[1..], amount, owner);
      CountHead(names, owner, amount);
    }
  }

  lemma CountHead<T>(s: seq<T>, x: T, amount: int)
    requires s != []
    ensures amount * multiset(s)[x] == amount * multiset(s[1..])[x] + if s[0] == x then amount else 0
  {
    HeadCount(s, x);
    Distribute(amount, multiset(s[1..])[x]);
  }

  lemma HeadCount<T>(s: seq<T>, x: T)
    requires s != []
    ensures multiset(s)[x] == multiset(s[1..])[x] + if s[0] == x then 1 else 0
  {
    assert s == [s[0]] + s[1..];
  }

  lemma Distribute(amount: int, n: int)
    ensures amount * (n + 1) == amount * n + amount
  {
  }

  /** Totalling by key and then over the keys is totalling, when each item's key is listed once. */
  lemma {:induction false} SumByKey<T>(key: T -> string, f: T -> int, items: seq<T>, names: seq<string>)
    requires forall x :: x in items ==> multiset(names)[key(x)] == 1
    ensures SumBy(TotalAt(key, f, items), names) == SumBy(f, items)
  {
    if items == [] {
      SumByZero(TotalAt(key, f, items), names);
    } else {
      SumByKey(key, f, items[1..], names);
      ShareTotal(names, f(items[0]), key(items[0]));
      SumByAdds(TotalAt(key, f, items), Share(f(items[0]), key(items[0])), TotalAt(key, f, items[1..]), names);
    }
  }
}
