/** exp of gguf.c: the first twenty terms of the exponential series, over the reals, and where it is negative. */
module ExpSeries {

  const TERMS: nat := 20

  function Term(x: real, i: nat): real { if i == 0 then 1.0 else Term(x, i - 1) * (x / i as real) }

  function Terms(x: real): nat -> real { (i: nat) => Term(x, i) }

  function Exp(x: real): real { Sum(Terms(x), TERMS) }

  method ComputeExp(x: real) returns (sum: real)
    ensures sum == Exp(x)
  {
    sum := 1.0;
    var term := 1.0;
    for i := 1 to TERMS
      invariant term == Term(x, i - 1) && sum == Sum(Terms(x), i)
    {
      term := term * (x / i as real);
      sum := sum + term;
    }
  }

  // ---------------------------------------------------------------------
  // Finite sums
  // ---------------------------------------------------------------------

  /** f(0) + ... + f(n - 1) */
  function Sum(f: nat -> real, n: nat): real { if n == 0 then 0.0 else Sum(f, n - 1) + f(n - 1) }

  lemma {:induction false} SumAdd(f: nat -> real, g: nat -> real, h: nat -> real, n: nat)
    requires forall i: nat :: i < n ==> h(i) == f(i) + g(i)
    ensures Sum(h, n) == Sum(f, n) + Sum(g, n)
  {
    if n > 0 { SumAdd(f, g, h, n - 1); }
  }

  lemma {:induction false} SumZero(f: nat -> real, n: nat)
    requires forall i: nat :: i < n ==> f(i) == 0.0
    ensures Sum(f, n) == 0.0
  {
    if n > 0 { SumZero(f, n - 1); }
  }

  lemma {:induction false} SumSame(f: nat -> real, g: nat -> real, n: nat)
    requires forall i: nat :: i < n ==> f(i) == g(i)
    ensures Sum(f, n) == Sum(g, n)
  {
    if n > 0 { SumSame(f, g, n - 1); }
  }

  lemma {:induction false} SumAtMost(f: nat -> real, g: nat -> real, n: nat)
    requires forall i: nat :: i < n ==> f(i) <= g(i)
    ensures Sum(f, n) <= Sum(g, n)
  {
    if n > 0 { SumAtMost(f, g, n - 1); }
  }

  type Operation = (real, real) -> real

  ghost predicate Distributes(mul: Operation, c: real, x: real, y: real) { mul(c, x + y) == mul(c, x) + mul(c, y) }

  ghost predicate Commutes(mul: Operation, x: real, y: real) { mul(x, y) == mul(y, x) }

  ghost predicate Annihilates(mul: Operation, x: real) { mul(x, 0.0) == 0.0 }

  /** What the product of two sums needs of multiplication. */
  ghost predicate Multiplies(mul: Operation) {
    && (forall c, x, y :: Distributes(mul, c, x, y))
    && (forall x, y :: Commutes(mul, x, y))
    && (forall x :: Annihilates(mul, x))
  }

  lemma {:induction false} SumTimes(mul: Operation, f: nat -> real, g: nat -> real, c: real, n: nat)
    requires Multiplies(mul) && forall m: nat :: m < n ==> f(m) == mul(c, g(m))
    ensures Sum(f, n) == mul(c, Sum(g, n))
  {
    if n == 0 {
      assert Annihilates(mul, c);
    } else {
      SumTimes(mul, f, g, c, n - 1);
      assert Distributes(mul, c, Sum(g, n - 1), g(n - 1));
    }
  }

  /** Between from and from + n, f is c times g; below that it is zero. */
  lemma {:induction false} SumScaled(mul: Operation, f: nat -> real, g: nat -> real, from: nat, c: real, n: nat)
    requires Multiplies(mul)
    requires forall m: nat :: m < from ==> f(m) == 0.0
    requires forall m: nat :: from <= m < from + n ==> f(m) == mul(c, g(m - from))
    ensures Sum(f, from + n) == mul(c, Sum(g, n))
  {
    if n == 0 {
      SumZero(f, from);
      assert Annihilates(mul, c);
    } else {
      SumScaled(mul, f, g, from, c, n - 1);
      assert Distributes(mul, c, Sum(g, n - 1), g(n - 1));
    }
  }

  lemma {:induction false} SumEnds(f: nat -> real, m: nat, n: nat)
    requires m <= n && forall i: nat :: m <= i < n ==> f(i) == 0.0
    ensures Sum(f, n) == Sum(f, m)
  {
    if m < n { SumEnds(f, m, n - 1); }
  }

  /** The sum of each row. */
  function Sums(row: nat -> nat -> real, m: nat): nat -> real { (i: nat) => Sum(row(i), m) }

  /** Row sums and column sums have the same total. */
  lemma {:induction false} SumSwap(row: nat -> nat -> real, col: nat -> nat -> real, n: nat, m: nat)
    requires forall i: nat, j: nat :: row(i)(j) == col(j)(i)
    ensures Sum(Sums(row, m), n) == Sum(Sums(col, n), m)
  {
    if n == 0 {
      forall j: nat ensures Sums(col, 0)(j) == 0.0 { assert Sum(col(j), 0) == 0.0; }
      SumZero(Sums(col, 0), m);
    } else {
      SumSwap(row, col, n - 1, m);
      SumAdd(Sums(col, n - 1), row(n - 1), Sums(col, n), m);
    }
  }

  // ---------------------------------------------------------------------
  // The product of two sums
  // ---------------------------------------------------------------------

  /** c(k) times d(m - k), where there is such a d. */
  function Cell(mul: Operation, c: nat -> real, d: nat -> real, k: nat, m: nat): real {
    if k <= m < k + TERMS then mul(c(k), d(m - k)) else 0.0
  }

  function Row(mul: Operation, c: nat -> real, d: nat -> real): nat -> nat -> real {
    (k: nat) => (m: nat) => Cell(mul, c, d, k, m)
  }

  function Column(mul: Operation, c: nat -> real, d: nat -> real): nat -> nat -> real {
    (m: nat) => (k: nat) => Cell(mul, c, d, k, m)
  }

  /** Number of columns. */
  const COLUMNS: nat := 39

  lemma RowSum(mul: Operation, c: nat -> real, d: nat -> real, k: nat)
    requires Multiplies(mul) && k < TERMS
    ensures Sum(Row(mul, c, d)(k), COLUMNS) == mul(c(k), Sum(d, TERMS))
  {
    SumScaled(mul, Row(mul, c, d)(k), d, k, c(k), TERMS);
    SumEnds(Row(mul, c, d)(k), k + TERMS, COLUMNS);
  }

  lemma ProductIsRows(mul: Operation, c: nat -> real, d: nat -> real)
    requires Multiplies(mul)
    ensures Sum(Sums(Row(mul, c, d), COLUMNS), TERMS) == mul(Sum(d, TERMS), Sum(c, TERMS))
  {
    var r, e := Sums(Row(mul, c, d), COLUMNS), Sum(d, TERMS);
    forall k: nat | k < TERMS ensures r(k) == mul(e, c(k)) {
      RowSum(mul, c, d, k);
      assert Commutes(mul, e, c(k));
    }
    SumTimes(mul, r, c, e, TERMS);
  }

  function Scaled(mul: Operation, p: nat -> real, e: nat -> real): nat -> real { (m: nat) => mul(p(m), e(m)) }

  lemma ColumnSum(mul: Operation, column: nat -> real, p: real, e: nat -> real)
    requires Multiplies(mul) && forall k: nat :: column(k) == mul(p, e(k))
    ensures Sum(column, TERMS) == mul(p, Sum(e, TERMS))
  {
    SumTimes(mul, column, e, p, TERMS);
  }

  /** When each column is a power times fixed entries, the product is a polynomial. */
  lemma ProductIsColumns(mul: Operation, c: nat -> real, d: nat -> real, p: nat -> real, e: nat -> nat -> real)
    requires Multiplies(mul)
    requires forall m: nat, k: nat :: Column(mul, c, d)(m)(k) == mul(p(m), e(m)(k))
    ensures Sum(Scaled(mul, p, Sums(e, TERMS)), COLUMNS) == mul(Sum(d, TERMS), Sum(c, TERMS))
  {
    forall m: nat ensures Sums(Column(mul, c, d), TERMS)(m) == Scaled(mul, p, Sums(e, TERMS))(m) {
      ColumnSum(mul, Column(mul, c, d)(m), p(m), e(m));
    }
    SumSame(Sums(Column(mul, c, d), TERMS), Scaled(mul, p, Sums(e, TERMS)), COLUMNS);
    SumSwap(Row(mul, c, d), Column(mul, c, d), TERMS, COLUMNS);
    ProductIsRows(mul, c, d);
  }

  // ---------------------------------------------------------------------
  // Terms as powers over factorials
  // ---------------------------------------------------------------------

  function Power(t: real, n: nat): real { if n == 0 then 1.0 else t * Power(t, n - 1) }

  function Factorial(n: nat): (f: real)
    ensures f > 0.0
  {
    if n == 0 then 1.0 else n as real * Factorial(n - 1)
  }

  lemma Cancel(q: real, a: real, b: real)
    requires b > 0.0 && q * b == a
    ensures q == a / b
  {
  }

  /** A fraction q = p / f times x / n. */
  lemma NextQuotient(q: real, x: real, p: real, f: real, n: real, p': real, f': real)
    requires f > 0.0 && n > 0.0 && q == p / f && p' == x * p && f' == n * f
    ensures q * (x / n) == p' / f'
  {
    var y := x / n;
    assert q * f == p && y * n == x;
    assert q * y * f' == (q * f) * (y * n);
    assert f' > 0.0;
    Cancel(q * y, p', f');
  }

  lemma {:induction false} TermIs(x: real, i: nat)
    ensures Term(x, i) == Power(x, i) / Factorial(i)
  {
    if i > 0 {
      TermIs(x, i - 1);
      NextQuotient(Term(x, i - 1), x, Power(x, i - 1), Factorial(i - 1), i as real, Power(x, i), Factorial(i));
    }
  }

  function Sign(n: nat): real { if n % 2 == 0 then 1.0 else -1.0 }

  lemma {:induction false} NegatedPower(t: real, i: nat)
    ensures Power(-t, i) == Sign(i) * Power(t, i)
  {
    if i > 0 { NegatedPower(t, i - 1); }
  }

  lemma {:induction false} PowerSum(t: real, i: nat, n: nat)
    ensures Power(t, i + n) == Power(t, i) * Power(t, n)
  {
    if i > 0 { PowerSum(t, i - 1, n); }
  }

  // ---------------------------------------------------------------------
  // The series at t times the series at -t
  // ---------------------------------------------------------------------

  function Fraction(sign: real, f: real, g: real): real { if f * g == 0.0 then 0.0 else sign / (f * g) }

  /** Coefficient of t^m in the product of term k at t and term m - k at -t. */
  function Entry(fact: nat -> real, m: nat, k: nat): real {
    if k <= m < k + TERMS then Fraction(Sign(m - k), fact(k), fact(m - k)) else 0.0
  }

  function Entries(fact: nat -> real): nat -> nat -> real { (m: nat) => (k: nat) => Entry(fact, m, k) }

  function Factorials(): nat -> real { (n: nat) => Factorial(n) }

  function Powers(t: real): nat -> real { (m: nat) => Power(t, m) }

  lemma CellIs(t: real, k: nat, m: nat)
    ensures Cell(Times(), Terms(t), Terms(-t), k, m) == Times()(Power(t, m), Entry(Factorials(), m, k))
  {
    if k <= m < k + TERMS {
      TermProduct(t, k, m - k);
    } else {
      TimesMultiplies();
      assert Annihilates(Times(), Power(t, m));
    }
  }

  lemma TermProduct(t: real, k: nat, j: nat)
    ensures Times()(Term(t, k), Term(-t, j)) == Times()(Power(t, k + j), Fraction(Sign(j), Factorial(k), Factorial(j)))
  {
    TermIs(t, k);
    TermIs(-t, j);
    NegatedPower(t, j);
    PowerSum(t, k, j);
    Fractions(Power(t, k), Power(t, j), Factorial(k), Factorial(j), Sign(j), Power(t, k + j), Term(t, k), Term(-t, j),
      Power(-t, j), Fraction(Sign(j), Factorial(k), Factorial(j)));
  }

  lemma Fractions(p: real, q: real, f: real, g: real, sign: real, pq: real, x: real, y: real, q': real, entry: real)
    requires f > 0.0 && g > 0.0 && pq == p * q && q' == sign * q && x == p / f && y == q' / g && entry == Fraction(sign, f, g)
    ensures Times()(x, y) == Times()(pq, entry)
  {
    assert f * g > 0.0;
    assert x * f == p && y * g == q' && entry * (f * g) == sign;
    assert (x * y) * (f * g) == (x * f) * (y * g);
    assert (pq * entry) * (f * g) == pq * sign;
    assert p * q' == pq * sign;
    SameQuotient(x * y, pq * entry, f * g);
  }

  lemma SameQuotient(a: real, b: real, c: real)
    requires c > 0.0 && a * c == b * c
    ensures a == b
  {
  }

  function Times(): Operation { (a: real, b: real) => a * b }

  lemma TimesMultiplies()
    ensures Multiplies(Times())
  {
  }

  /** The series at t times the series at -t, as a polynomial in t. */
  lemma ProductIs(t: real, mul: Operation)
    requires mul == Times()
    ensures Sum(Scaled(mul, Powers(t), Sums(Entries(Factorials()), TERMS)), COLUMNS) == mul(Exp(-t), Exp(t))
  {
    forall m: nat, k: nat ensures Column(mul, Terms(t), Terms(-t))(m)(k) == mul(Powers(t)(m), Entries(Factorials())(m)(k)) {
      CellIs(t, k, m);
    }
    TimesMultiplies();
    ProductIsColumns(mul, Terms(t), Terms(-t), Powers(t), Entries(Factorials()));
  }

  // ---------------------------------------------------------------------
  // No coefficient but the first is positive
  // ---------------------------------------------------------------------

  ghost predicate FactorialAt(fact: nat -> real, n: nat) { fact(n) > 0.0 && fact(n + 1) == (n + 1) as real * fact(n) }

  ghost predicate IsFactorial(fact: nat -> real) { fact(0) == 1.0 && forall n: nat :: FactorialAt(fact, n) }

  /** The entries of a column if the series did not end. */
  function Whole(fact: nat -> real, m: nat): nat -> real {
    (k: nat) => if k <= m then Fraction(Sign(m - k), fact(k), fact(m - k)) else 0.0
  }

  /** The sum of the first k of them. */
  function Front(fact: nat -> real, m: nat, k: nat): real
    requires 1 <= k <= m
  {
    Fraction(Sign(m - k + 1), m as real * fact(k - 1), fact(m - k))
  }

  lemma FirstOfWhole(fact: nat -> real, m: nat)
    requires fact(0) == 1.0
    ensures Sum(Whole(fact, m), 1) == Fraction(Sign(m), 1.0, fact(m))
  {
    assert Sum(Whole(fact, m), 0) == 0.0;
  }

  lemma WholeFirst(fact: nat -> real, m: nat)
    requires IsFactorial(fact) && m >= 1
    ensures Sum(Whole(fact, m), 1) == Front(fact, m, 1)
  {
    var r := m as real;
    FactorialStep(fact, m, r);
    FirstOfWhole(fact, m);
    FrontAtOne(fact, m, r);
    OneFactor(Sign(m), r, fact(m - 1), fact(m));
  }

  lemma FrontAtOne(fact: nat -> real, m: nat, r: real)
    requires m >= 1 && r == m as real && fact(0) == 1.0
    ensures Front(fact, m, 1) == Fraction(Sign(m), r, fact(m - 1))
  {
  }

  lemma OneFactor(s: real, r: real, a: real, ma: real)
    requires r > 0.0 && a > 0.0 && ma == r * a
    ensures Fraction(s, 1.0, ma) == Fraction(s, r, a)
  {
  }

  /** Alternating sums of reciprocal factorials telescope. */
  lemma {:induction false} WholeSum(fact: nat -> real, m: nat, k: nat)
    requires IsFactorial(fact) && 1 <= k <= m
    ensures Sum(Whole(fact, m), k) == Front(fact, m, k)
  {
    if k == 1 {
      WholeFirst(fact, m);
    } else {
      WholeSum(fact, m, k - 1);
      FrontNext(fact, m, k - 1);
    }
  }

  lemma FactorialStep(fact: nat -> real, n: nat, r: real)
    requires IsFactorial(fact) && n >= 1 && r == n as real
    ensures fact(n - 1) > 0.0 && fact(n) == r * fact(n - 1)
  {
    assert FactorialAt(fact, n - 1);
  }

  lemma FrontNext(fact: nat -> real, m: nat, k: nat)
    requires IsFactorial(fact) && 1 <= k < m
    ensures Front(fact, m, k) + Whole(fact, m)(k) == Front(fact, m, k + 1)
  {
    var r, q := m as real, k as real;
    FactorialStep(fact, k, q);
    FactorialStep(fact, m - k, r - q);
    NextFront(fact, m, k, r, q, fact(k - 1), fact(m - k - 1), fact(k), fact(m - k), r * fact(k - 1), r * fact(k));
  }

  lemma NextFront(fact: nat -> real, m: nat, k: nat, r: real, q: real, a: real, b: real, ka: real, nb: real, ma: real, mka: real)
    requires 1 <= k < m && r == m as real && r > q > 0.0 && a > 0.0 && b > 0.0
    requires a == fact(k - 1) && b == fact(m - k - 1) && ka == fact(k) && nb == fact(m - k)
    requires ka == q * a && nb == (r - q) * b && ma == r * a && mka == r * ka
    ensures Front(fact, m, k) + Whole(fact, m)(k) == Front(fact, m, k + 1)
  {
    var s := Sign(m - k);
    FrontIs(fact, m, k, -s, ma, nb);
    FrontIs(fact, m, k + 1, s, mka, b);
    Telescope(s, r, q, a, b, ka, nb, ma, mka);
  }

  lemma FrontIs(fact: nat -> real, m: nat, k: nat, s: real, f: real, g: real)
    requires 1 <= k <= m && s == Sign(m - k + 1) && f == m as real * fact(k - 1) && g == fact(m - k)
    ensures Front(fact, m, k) == Fraction(s, f, g)
  {
  }

  lemma Telescope(s: real, m: real, k: real, a: real, b: real, ka: real, nb: real, ma: real, mka: real)
    requires m > k > 0.0 && a > 0.0 && b > 0.0 && ka == k * a && nb == (m - k) * b && ma == m * a && mka == m * ka
    ensures Fraction(-s, ma, nb) + Fraction(s, ka, nb) == Fraction(s, mka, b)
  {
    var x, y, z, d := Fraction(-s, ma, nb), Fraction(s, ka, nb), Fraction(s, mka, b), k * (ma * nb);
    assert d == m * (ka * nb) && d == (m - k) * (mka * b) && d > 0.0 && ma > 0.0 && ka > 0.0 && mka > 0.0 && nb > 0.0 by {
      SameDenominator(m, k, a, b, ka, nb, ma, mka);
    }
    assert x * d == -s * k by { Multiplied(-s, ma, nb, k, d); }
    assert y * d == s * m by { Multiplied(s, ka, nb, m, d); }
    assert z * d == s * (m - k) by { Multiplied(s, mka, b, m - k, d); }
    SameQuotient(x + y, z, d);
  }

  lemma SameDenominator(m: real, k: real, a: real, b: real, ka: real, nb: real, ma: real, mka: real)
    requires m > k > 0.0 && a > 0.0 && b > 0.0 && ka == k * a && nb == (m - k) * b && ma == m * a && mka == m * ka
    ensures ma > 0.0 && ka > 0.0 && mka > 0.0 && nb > 0.0 && k * (ma * nb) > 0.0
    ensures k * (ma * nb) == m * (ka * nb) && k * (ma * nb) == (m - k) * (mka * b)
  {
    Positive(k, a, ka);
    Positive(m, a, ma);
    Positive(m, ka, mka);
    Positive(m - k, b, nb);
    Positive(ma, nb, ma * nb);
    Positive(k, ma * nb, k * (ma * nb));
    assert k * ma == m * ka == mka;
    assert k * (ma * nb) == (k * ma) * nb;
    assert m * (ka * nb) == (m * ka) * nb;
    assert (m - k) * (mka * b) == mka * nb;
  }

  lemma Positive(a: real, b: real, c: real)
    requires a > 0.0 && b > 0.0 && c == a * b
    ensures c > 0.0
  {
  }

  lemma Multiplied(s: real, f: real, g: real, c: real, d: real)
    requires f > 0.0 && g > 0.0 && d == c * (f * g)
    ensures Fraction(s, f, g) * d == s * c
  {
    assert f * g > 0.0;
    assert Fraction(s, f, g) * (f * g) == s;
  }

  lemma {:induction false} SumWindow(f: nat -> real, g: nat -> real, from: nat, n: nat)
    requires from <= n && forall i: nat :: i < n ==> g(i) == if i < from then 0.0 else f(i)
    ensures Sum(g, n) == Sum(f, n) - Sum(f, from)
  {
    if n == from { SumZero(g, n); } else { SumWindow(f, g, from, n - 1); }
  }

  /** Coefficient of t^m. */
  function Coefficient(fact: nat -> real, m: nat): real { Sum(Entries(fact)(m), TERMS) }

  lemma EntryIsWhole(fact: nat -> real, m: nat, k: nat)
    requires m < k + TERMS
    ensures Entry(fact, m, k) == Whole(fact, m)(k)
  {
  }

  lemma VanishingCoefficient(fact: nat -> real, m: nat)
    requires IsFactorial(fact) && 1 <= m < TERMS
    ensures Coefficient(fact, m) == 0.0
  {
    var w := Whole(fact, m);
    forall k: nat | k < TERMS ensures Entries(fact)(m)(k) == w(k) { EntryIsWhole(fact, m, k); }
    SumSame(Entries(fact)(m), w, TERMS);
    SumEnds(w, m + 1, TERMS);
    WholeSum(fact, m, m);
    LastCancels(fact, m);
  }

  lemma LastCancels(fact: nat -> real, m: nat)
    requires IsFactorial(fact) && m >= 1
    ensures Front(fact, m, m) + Whole(fact, m)(m) == 0.0
  {
    FactorialStep(fact, m, m as real);
    FrontIs(fact, m, m, -1.0, fact(m), 1.0);
    assert Whole(fact, m)(m) == Fraction(1.0, fact(m), 1.0);
    Opposite(fact(m));
  }

  lemma Opposite(f: real)
    ensures Fraction(-1.0, f, 1.0) + Fraction(1.0, f, 1.0) == 0.0
  {
  }

  lemma LaterCoefficient(fact: nat -> real, m: nat)
    requires IsFactorial(fact) && TERMS <= m < COLUMNS
    ensures Coefficient(fact, m) <= 0.0
  {
    var w, from := Whole(fact, m), m - TERMS + 1;
    SumWindow(w, Entries(fact)(m), from, TERMS);
    WholeSum(fact, m, TERMS);
    WholeSum(fact, m, from);
    FrontsFall(fact, m, from);
  }

  lemma FrontsFall(fact: nat -> real, m: nat, from: nat)
    requires IsFactorial(fact) && TERMS <= m < COLUMNS && from == m - TERMS + 1
    ensures Front(fact, m, TERMS) <= Front(fact, m, from)
  {
    FactorialStep(fact, TERMS, TERMS as real);
    FactorialStep(fact, from, from as real);
    var a, b, r := fact(TERMS - 1), fact(from - 1), m as real;
    FrontIs(fact, m, TERMS, Sign(from), r * a, b);
    FrontIs(fact, m, from, 1.0, r * b, a);
    NotAbove(Sign(from), r, a, b);
  }

  lemma NotAbove(s: real, r: real, a: real, b: real)
    requires s <= 1.0 && r > 0.0 && a > 0.0 && b > 0.0
    ensures Fraction(s, r * a, b) <= Fraction(1.0, r * b, a)
  {
    var d := r * a * b;
    Positive(r, a, r * a);
    Positive(r * a, b, d);
    assert (r * b) * a == d;
    Quotients(s, d);
  }

  lemma Quotients(s: real, d: real)
    requires s <= 1.0 && d > 0.0
    ensures s / d <= 1.0 / d
  {
    assert s / d == s * (1.0 / d);
    Positive(1.0, 1.0 / d, 1.0 / d);
  }

  lemma FactorialsAre()
    ensures IsFactorial(Factorials())
  {
  }

  // ---------------------------------------------------------------------
  // Where the series is negative
  // ---------------------------------------------------------------------

  lemma {:induction false} PowersGrow(s: real, t: real, m: nat)
    requires 0.0 <= s <= t
    ensures 0.0 <= Power(s, m) <= Power(t, m)
  {
    if m > 0 {
      PowersGrow(s, t, m - 1);
      ProductGrows(s, t, Power(s, m - 1), Power(t, m - 1));
    }
  }

  lemma ProductGrows(s: real, t: real, p: real, q: real)
    requires 0.0 <= s <= t && 0.0 <= p <= q
    ensures 0.0 <= s * p <= t * q
  {
    assert s * p <= t * p <= t * q;
  }

  lemma ProductFalls(s: real, t: real, c: real)
    requires s <= t && c <= 0.0
    ensures Times()(t, c) <= Times()(s, c)
  {
  }

  /** The product of the series at t and -t falls as t grows. */
  lemma ProductsFall(s: real, t: real)
    requires 0.0 <= s <= t
    ensures Times()(Exp(-t), Exp(t)) <= Times()(Exp(-s), Exp(s))
  {
    var mul, c := Times(), Sums(Entries(Factorials()), TERMS);
    FactorialsAre();
    forall m: nat | m < COLUMNS ensures Scaled(mul, Powers(t), c)(m) <= Scaled(mul, Powers(s), c)(m) {
      if m == 0 {
        assert Power(t, 0) == Power(s, 0);
      } else {
        if m < TERMS { VanishingCoefficient(Factorials(), m); } else { LaterCoefficient(Factorials(), m); }
        PowersGrow(s, t, m);
        ProductFalls(Power(s, m), Power(t, m), Coefficient(Factorials(), m));
      }
    }
    SumAtMost(Scaled(mul, Powers(t), c), Scaled(mul, Powers(s), c), COLUMNS);
    ProductIs(s, mul);
    ProductIs(t, mul);
  }

  lemma {:induction false} PositiveTerms(t: real, n: nat)
    requires t >= 0.0
    ensures Term(t, n) >= 0.0 && (n > 0 ==> Sum(Terms(t), n) >= 1.0)
  {
    if n == 1 {
      PositiveTerms(t, 0);
      assert Sum(Terms(t), 0) == 0.0;
    } else if n > 1 {
      PositiveTerms(t, n - 1);
    }
    if n > 0 {
      PositiveTerms(t, n - 1);
      QuotientNonNegative(t, n as real);
    }
  }

  lemma QuotientNonNegative(a: real, b: real)
    requires a >= 0.0 && b > 0.0
    ensures a / b >= 0.0
  {
  }

  /** Where the series is negative it stays so further left. */
  lemma NegativeFurtherLeft(s: real, t: real)
    requires 0.0 <= s <= t && Exp(-s) < 0.0
    ensures Exp(-t) < 0.0
  {
    PositiveTerms(s, TERMS);
    PositiveTerms(t, TERMS);
    ProductsFall(s, t);
    SignsOf(Exp(-s), Exp(s), Exp(-t), Exp(t));
  }

  lemma SignsOf(a: real, b: real, c: real, d: real)
    requires a < 0.0 && b > 0.0 && d > 0.0 && Times()(c, d) <= Times()(a, b)
    ensures c < 0.0
  {
    assert a * b < 0.0;
  }

  // ---------------------------------------------------------------------
  // Two values
  // ---------------------------------------------------------------------

  lemma NextTerm(x: real, i: nat, term: real, sum: real) returns (term': real, sum': real)
    requires i > 0 && term == Term(x, i - 1) && sum == Sum(Terms(x), i)
    ensures term' == term * (x / i as real) && sum' == sum + term'
    ensures term' == Term(x, i) && sum' == Sum(Terms(x), i + 1)
  {
    term' := Term(x, i);
    sum' := Sum(Terms(x), i + 1);
  }

  lemma FirstTerm(x: real) returns (term: real, sum: real)
    ensures term == 1.0 == Term(x, 0) && sum == 1.0 == Sum(Terms(x), 1)
  {
    assert Sum(Terms(x), 0) == 0.0;
    term, sum := 1.0, 1.0;
  }

  lemma AtZero()
    ensures Exp(0.0) == 1.0
  {
    forall i: nat | 0 < i ensures Terms(0.0)(i) == 0.0 { ZeroTerm(i); }
    SumEnds(Terms(0.0), 1, TERMS);
    var t, s := FirstTerm(0.0);
  }

  lemma {:induction false} ZeroTerm(i: nat)
    requires i > 0
    ensures Term(0.0, i) == 0.0
  {
    if i > 1 { ZeroTerm(i - 1); }
  }

  lemma AtTenTo10() returns (t: real, s: real)
    ensures t == Term(-10.0, 9) == -1562500.0 / 567.0
    ensures s == Sum(Terms(-10.0), 10) == -801253.0 / 567.0
  {
    t, s := FirstTerm(-10.0);
    t, s := NextTerm(-10.0, 1, t, s);
    t, s := NextTerm(-10.0, 2, t, s);
    t, s := NextTerm(-10.0, 3, t, s);
    t, s := NextTerm(-10.0, 4, t, s);
    t, s := NextTerm(-10.0, 5, t, s);
    t, s := NextTerm(-10.0, 6, t, s);
    t, s := NextTerm(-10.0, 7, t, s);
    t, s := NextTerm(-10.0, 8, t, s);
    t, s := NextTerm(-10.0, 9, t, s);
  }

  lemma AtTen()
    ensures Exp(-10.0) < -1.0
  {
    var t, s := AtTenTo10();
    t, s := NextTerm(-10.0, 10, t, s);
    t, s := NextTerm(-10.0, 11, t, s);
    t, s := NextTerm(-10.0, 12, t, s);
    t, s := NextTerm(-10.0, 13, t, s);
    t, s := NextTerm(-10.0, 14, t, s);
    t, s := NextTerm(-10.0, 15, t, s);
    t, s := NextTerm(-10.0, 16, t, s);
    t, s := NextTerm(-10.0, 17, t, s);
    t, s := NextTerm(-10.0, 18, t, s);
    t, s := NextTerm(-10.0, 19, t, s);
  }

  lemma AtSixTo10() returns (t: real, s: real)
    ensures t == Term(-6.0, 9) == -972.0 / 35.0
    ensures s == Sum(Terms(-6.0), 10) == -373.0 / 35.0
  {
    t, s := FirstTerm(-6.0);
    t, s := NextTerm(-6.0, 1, t, s);
    t, s := NextTerm(-6.0, 2, t, s);
    t, s := NextTerm(-6.0, 3, t, s);
    t, s := NextTerm(-6.0, 4, t, s);
    t, s := NextTerm(-6.0, 5, t, s);
    t, s := NextTerm(-6.0, 6, t, s);
    t, s := NextTerm(-6.0, 7, t, s);
    t, s := NextTerm(-6.0, 8, t, s);
    t, s := NextTerm(-6.0, 9, t, s);
  }

  lemma AtSix()
    ensures Exp(-6.0) >= 0.0
  {
    var t, s := AtSixTo10();
    t, s := NextTerm(-6.0, 10, t, s);
    t, s := NextTerm(-6.0, 11, t, s);
    t, s := NextTerm(-6.0, 12, t, s);
    t, s := NextTerm(-6.0, 13, t, s);
    t, s := NextTerm(-6.0, 14, t, s);
    t, s := NextTerm(-6.0, 15, t, s);
    t, s := NextTerm(-6.0, 16, t, s);
    t, s := NextTerm(-6.0, 17, t, s);
    t, s := NextTerm(-6.0, 18, t, s);
    t, s := NextTerm(-6.0, 19, t, s);
  }

  lemma AtSixAndAHalfTo10() returns (t: real, s: real)
    ensures t == Term(-6.5, 9) == -10604499373.0 / 185794560.0
    ensures s == Sum(Terms(-6.5), 10) == -855568703.0 / 37158912.0
  {
    t, s := FirstTerm(-6.5);
    t, s := NextTerm(-6.5, 1, t, s);
    t, s := NextTerm(-6.5, 2, t, s);
    t, s := NextTerm(-6.5, 3, t, s);
    t, s := NextTerm(-6.5, 4, t, s);
    t, s := NextTerm(-6.5, 5, t, s);
    t, s := NextTerm(-6.5, 6, t, s);
    t, s := NextTerm(-6.5, 7, t, s);
    t, s := NextTerm(-6.5, 8, t, s);
    t, s := NextTerm(-6.5, 9, t, s);
  }

  lemma AtSixAndAHalf()
    ensures Exp(-6.5) < 0.0
  {
    var t, s := AtSixAndAHalfTo10();
    t, s := NextTerm(-6.5, 10, t, s);
    t, s := NextTerm(-6.5, 11, t, s);
    t, s := NextTerm(-6.5, 12, t, s);
    t, s := NextTerm(-6.5, 13, t, s);
    t, s := NextTerm(-6.5, 14, t, s);
    t, s := NextTerm(-6.5, 15, t, s);
    t, s := NextTerm(-6.5, 16, t, s);
    t, s := NextTerm(-6.5, 17, t, s);
    t, s := NextTerm(-6.5, 18, t, s);
    t, s := NextTerm(-6.5, 19, t, s);
  }

  /** On [-6, 0] the series is not negative. */
  lemma NonNegativeToSix(x: real)
    requires -6.0 <= x <= 0.0
    ensures Exp(x) >= 0.0
  {
    AtSix();
    if Exp(x) < 0.0 { NegativeFurtherLeft(-x, 6.0); }
  }

  /** From -6.5 on it is negative. */
  lemma NegativeFromSixAndAHalf(x: real)
    requires x <= -6.5
    ensures Exp(x) < 0.0
  {
    AtSixAndAHalf();
    NegativeFurtherLeft(6.5, -x);
  }

  // ---------------------------------------------------------------------
  // Left of zero the series is below one
  // ---------------------------------------------------------------------

  lemma {:induction false} BeyondOne(t: real, n: nat)
    requires t > 0.0 && n >= 2
    ensures Sum(Terms(t), n) >= 1.0 + t
  {
    if n == 2 {
      var s, term := FirstTerm(t);
      s, term := NextTerm(t, 1, s, term);
    } else {
      BeyondOne(t, n - 1);
      PositiveTerms(t, n - 1);
    }
  }

  lemma BelowOne(t: real)
    requires t > 0.0
    ensures Exp(-t) < 1.0
  {
    BeyondOne(t, TERMS);
    ProductAtMostOne(t);
    FactorBelowOne(Exp(-t), Exp(t));
  }

  lemma ProductAtMostOne(t: real)
    requires t >= 0.0
    ensures Times()(Exp(-t), Exp(t)) <= 1.0
  {
    ProductsFall(0.0, t);
    ProductAtZero();
  }

  lemma ProductAtZero()
    ensures Times()(Exp(-0.0), Exp(0.0)) == 1.0
  {
    AtZero();
    assert -0.0 == 0.0 && Times()(1.0, 1.0) == 1.0;
  }

  lemma FactorBelowOne(a: real, b: real)
    requires b > 1.0 && Times()(a, b) <= 1.0
    ensures a < 1.0
  {
    TimesBeyond(a, b);
  }

  lemma TimesBeyond(a: real, b: real)
    requires b > 0.0
    ensures a >= 1.0 ==> a * b >= b
  {
  }
}
