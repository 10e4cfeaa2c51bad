/** Mixed-radix numbers: the flat index of a combination of rows, first digit varying fastest. */
module MixedRadix {

  // Quotient and remainder by repeated subtraction; QuotientIsDivision equates them with the operators.

  function Quotient(x: nat, n: nat): nat
    requires n > 0
  {
    if x < n then 0 else 1 + Quotient(x - n, n)
  }

  function Remainder(x: nat, n: nat): (r: nat)
    requires n > 0
    ensures r < n
  {
    if x < n then x else Remainder(x - n, n)
  }

  lemma {:induction false} DivisionIdentity(x: nat, n: nat)
    requires n > 0
    ensures x == n * Quotient(x, n) + Remainder(x, n)
  {
    if x >= n { DivisionIdentity(x - n, n); }
  }

  lemma {:induction false} Unique(x: nat, n: nat, q: nat, r: nat)
    requires r < n && x == n * q + r
    ensures Quotient(x, n) == q && Remainder(x, n) == r
    decreases q
  {
    if q > 0 {
      assert n * q == n * (q - 1) + n;
      Unique(x - n, n, q - 1, r);
    }
  }

  lemma QuotientIsDivision(x: nat, n: nat)
    requires n > 0
    ensures Quotient(x, n) == x / n && Remainder(x, n) == x % n
  {
    var q, r := x / n, x % n;
    assert x == n * q + r;
    Unique(x, n, q, r);
  }

  lemma QuotientOfProduct(x: nat, a: nat, b: nat)
    requires a > 0 && b > 0
    ensures a * b > 0 && Quotient(x, a * b) == Quotient(Quotient(x, a), b)
  {
    var q, r := Quotient(x, a), Remainder(x, a);
    DivisionIdentity(x, a);
    DivisionIdentity(q, b);
    Compose(x, a, b, q, r, Quotient(q, b), Remainder(q, b));
  }

  lemma Compose(x: nat, a: nat, b: nat, q: nat, r: nat, p: nat, s: nat)
    requires r < a && s < b && x == a * q + r && q == b * p + s
    ensures a * b > 0 && Quotient(x, a * b) == p
  {
    Regroup(a, b, p, s);
    var n, m := a * b, a * s + r;
    Unique(x, n, p, m);
  }

  lemma Regroup(a: nat, b: nat, p: nat, s: nat)
    requires a > 0 && s < b
    ensures a * (b * p + s) == (a * b) * p + a * s
    ensures a * s + a <= a * b
  {
    assert a * (b * p + s) == a * (b * p) + a * s;
    assert a * (b * p) == (a * b) * p;
    Monotone(a, s + 1, b);
    assert a * (s + 1) == a * s + a;
  }

  lemma Monotone(b: nat, p: nat, q: nat)
    requires p <= q
    ensures b * p <= b * q
  {
  }

  // ---------------------------------------------------------------- digits

  ghost predicate Radices(lens: seq<nat>) {
    forall j | 0 <= j < |lens| :: lens[j] > 0
  }

  /** One digit below each radix. */
  ghost predicate InRange(d: seq<nat>, lens: seq<nat>) {
    |d| == |lens| && forall j | 0 <= j < |d| :: d[j] < lens[j]
  }

  function Product(lens: seq<nat>): nat {
    if lens == [] then 1 else lens[0] * Product(lens[1..])
  }

  function Index(d: seq<nat>, lens: seq<nat>): nat
    requires |d| == |lens|
  {
    if d == [] then 0 else d[0] + lens[0] * Index(d[1..], lens[1..])
  }

  function Digits(i: nat, lens: seq<nat>): (d: seq<nat>)
    requires Radices(lens)
    ensures InRange(d, lens)
    decreases |lens|
  {
    if lens == [] then [] else [Remainder(i, lens[0])] + Digits(Quotient(i, lens[0]), lens[1..])
  }

  /** Every combination has an index below the product of the radices, and no other combination has that index. */
  lemma {:induction false} DigitsOfIndex(d: seq<nat>, lens: seq<nat>)
    requires Radices(lens) && InRange(d, lens)
    ensures Index(d, lens) < Product(lens)
    ensures Digits(Index(d, lens), lens) == d
  {
    if d != [] {
      DigitsOfIndex(d[1..], lens[1..]);
      var rest, p := Index(d[1..], lens[1..]), Product(lens[1..]);
      LowestDigit(d[0], lens[0], rest, p);
      assert Index(d, lens) == d[0] + lens[0] * rest && Product(lens) == lens[0] * p;
      assert Digits(Index(d, lens), lens) == [d[0]] + d[1..];
    }
  }

  lemma LowestDigit(low: nat, n: nat, rest: nat, p: nat)
    requires low < n && rest < p
    ensures var x := low + n * rest; x < n * p && Quotient(x, n) == rest && Remainder(x, n) == low
  {
    Unique(low + n * rest, n, rest, low);
    Monotone(n, rest + 1, p);
    assert n * (rest + 1) == n * rest + n;
  }

  /** Every index below the product belongs to a combination. */
  lemma {:induction false} IndexOfDigits(i: nat, lens: seq<nat>)
    requires Radices(lens) && i < Product(lens)
    ensures Index(Digits(i, lens), lens) == i
    decreases |lens|
  {
    if lens != [] {
      var n, p := lens[0], Product(lens[1..]);
      DivisionIdentity(i, n);
      if Quotient(i, n) >= p { Monotone(n, p, Quotient(i, n)); }
      IndexOfDigits(Quotient(i, n), lens[1..]);
      assert Digits(i, lens)[1..] == Digits(Quotient(i, n), lens[1..]);
    }
  }

  lemma {:induction false} ProductPositive(lens: seq<nat>)
    requires Radices(lens)
    ensures Product(lens) > 0
  {
    if lens != [] { ProductPositive(lens[1..]); Monotone(lens[0], 1, Product(lens[1..])); }
  }

  /** The digit in terms of the divider of its dimension: the product of the lengths before it. */
  lemma {:induction false} DigitByDivider(i: nat, lens: seq<nat>, j: nat)
    requires Radices(lens) && j < |lens|
    ensures Product(lens[..j]) > 0
    ensures Digits(i, lens)[j] == Remainder(Quotient(i, Product(lens[..j])), lens[j])
    decreases j
  {
    if j == 0 {
      Unique(i, 1, i, 0);
    } else {
      var rest := lens[1..];
      DigitByDivider(Quotient(i, lens[0]), rest, j - 1);
      assert lens[..j][1..] == rest[..j - 1];
      QuotientOfProduct(i, lens[0], Product(rest[..j - 1]));
    }
  }

  lemma {:induction false} ProductGrows(lens: seq<nat>, n: nat)
    ensures Product(lens + [n]) == Product(lens) * n
  {
    if lens == [] {
      assert Product([n]) == n * Product([n][1..]);
    } else {
      ProductGrows(lens[1..], n);
      assert (lens + [n])[1..] == lens[1..] + [n];
      assert lens[0] * (Product(lens[1..]) * n) == (lens[0] * Product(lens[1..])) * n;
    }
  }
}
