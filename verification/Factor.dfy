/** Factoring the 64-bit pq by Pollard's rho with Floyd's cycle finding. */
module Factor {
  import opened Bytes

  // ---- Arithmetic: divisors, gcd, primes ----

  ghost predicate Divides(d: int, n: int) { exists k: int :: k * d == n }

  /** Euclid's algorithm, with Gcd(0, b) == b as in math/big. */
  function Gcd(a: nat, b: nat): (g: nat)
    ensures a + b > 0 ==> g > 0
    decreases a
  {
    if a == 0 then b else Gcd(b % a, a)
  }

  lemma DividesMul(d: int, n: int, m: int)
    requires Divides(d, n)
    ensures Divides(d, n * m)
  {
    var k :| k * d == n;
    assert (k * m) * d == n * m;
  }

  lemma DividesAdd(d: int, n: int, m: int)
    requires Divides(d, n) && Divides(d, m)
    ensures Divides(d, n + m)
  {
    var j :| j * d == n;
    var k :| k * d == m;
    assert (j + k) * d == n + m;
  }

  lemma CombineSteps(a: int, b: int, q: int, r: int, s: int, t: int)
    requires b == q * a + r
    ensures (t - s * q) * a + s * b == s * r + t * a
  {
    assert s * b == s * (q * a) + s * r;
    assert (t - s * q) * a == t * a - (s * q) * a;
  }

  /** Bezout: the gcd is an integer combination of its arguments, and divides both. */
  lemma {:induction false} GcdBezout(a: nat, b: nat) returns (s: int, t: int)
    ensures s * a + t * b == Gcd(a, b)
    ensures Divides(Gcd(a, b), a) && Divides(Gcd(a, b), b)
    decreases a
  {
    hide Divides;
    if a == 0 {
      s, t := 0, 1;
      DividesZeroAndSelf(b);
    } else {
      var q, r := b / a, b % a;
      var s', t' := GcdBezout(r, a);
      s, t := t' - s' * q, s';
      CombineSteps(a, b, q, r, s', t');
      DividesCombination(Gcd(r, a), a, q, r);
    }
  }

  lemma DividesZeroAndSelf(b: nat)
    ensures Divides(b, 0) && Divides(b, b)
  {
    assert 0 * b == 0 && 1 * b == b;
  }

  lemma DividesCombination(g: int, a: int, q: int, r: int)
    requires Divides(g, a) && Divides(g, r)
    ensures Divides(g, q * a + r)
  {
    DividesMul(g, a, q);
    DividesAdd(g, a * q, r);
  }

  ghost predicate Prime(p: nat) { p > 1 && forall d: nat :: 1 < d < p ==> !Divides(d, p) }

  lemma DivisorBound(d: nat, n: nat)
    requires n > 0 && Divides(d, n)
    ensures 1 <= d <= n && (n / d) * d == n
  {
    var k :| k * d == n;
    assert k >= 1;
    DivModUnique(n, d, k, 0);
  }

  /** Euclid's lemma: a prime dividing a product divides one of the factors. */
  lemma EuclidsLemma(p: nat, x: nat, y: nat)
    requires Prime(p) && Divides(p, x * y)
    ensures Divides(p, x) || Divides(p, y)
  {
    var g := Gcd(x, p);
    var s, t := GcdBezout(x, p);
    DivisorBound(g, p);
    if g == p {
    } else {
      assert g == 1;
      DividesMul(p, x * y, s);
      assert Divides(p, p * (t * y)) by { assert (t * y) * p == p * (t * y); }
      DividesAdd(p, x * y * s, p * (t * y));
      assert x * y * s + p * (t * y) == y by {
        assert x * y * s + p * (t * y) == (s * x + t * p) * y;
      }
    }
  }

  // ---- The orbit of 2 under a map of the residues ----

  /** The polynomial map v -> v*v + c modulo n. */
  function F(c: nat, n: nat, v: nat): (r: nat)
    requires n > 0
    ensures r < n
  {
    (v * v + c) % n
  }

  function Poly(c: nat, n: nat): (f: nat -> nat)
    requires n > 0
  {
    v => F(c, n, v)
  }

  lemma PolyBelow(c: nat, n: nat)
    requires n > 0
    ensures Below(Poly(c, n), n)
  {
  }

  ghost predicate Below(f: nat -> nat, n: nat) { forall v :: f(v) < n }

  ghost function Orbit(f: nat -> nat, k: nat): (x: nat)
  {
    if k == 0 then 2 else f(Orbit(f, k - 1))
  }

  function Dist(x: nat, y: nat): nat { if x > y then x - y else y - x }

  /** The gcd taken in iteration k of a pass. */
  ghost function StepGcd(f: nat -> nat, n: nat, k: nat): (d: nat)
    requires n > 0
    ensures d > 0
  {
    Gcd(Dist(Orbit(f, k), Orbit(f, 2 * k)), n)
  }

  /** Iteration k ends the pass: the loop exits, or it restarts with the next constant. */
  ghost predicate Stops(f: nat -> nat, n: nat, k: nat)
    requires n > 0
  {
    StepGcd(f, n, k) != 1 || StepGcd(f, n, k) == n
  }

  lemma {:induction false} OrbitShift(f: nat -> nat, i: nat, j: nat, k: nat)
    requires Orbit(f, i) == Orbit(f, j)
    ensures Orbit(f, i + k) == Orbit(f, j + k)
  {
    if k > 0 {
      OrbitShift(f, i, j, k - 1);
    }
  }

  lemma MulStep(m: int, len: nat)
    requires m > 0
    ensures m * len == (m - 1) * len + len && (m - 1) * len >= 0
  {
  }

  /** Advancing by m whole cycle lengths from inside the cycle changes nothing. */
  lemma {:induction false} OrbitCycle(f: nat -> nat, i: nat, len: nat, k: nat, m: nat)
    requires Orbit(f, i) == Orbit(f, i + len) && i <= k
    ensures m * len >= 0 && Orbit(f, k) == Orbit(f, k + m * len)
    decreases m
  {
    if m > 0 {
      var prev := (m - 1) * len;
      MulStep(m, len);
      OrbitCycle(f, i, len, k, m - 1);
      OrbitShift(f, i, i + len, k + prev - i);
    }
  }

  /** Among more than n numbers below n, two are equal. */
  lemma {:induction false} Pigeonhole(s: seq<nat>, n: nat) returns (i: nat, j: nat)
    requires |s| > n && forall k :: 0 <= k < |s| ==> s[k] < n
    ensures i < j < |s| && s[i] == s[j]
    decreases n
  {
    assert s[0] < n;
    var top := n - 1;
    if a :| 0 <= a < |s| && s[a] == top {
      if b :| 0 <= b < |s| && b != a && s[b] == top {
        i, j := if a < b then a else b, if a < b then b else a;
      } else {
        var rest := s[..a] + s[a + 1..];
        var i', j' := Pigeonhole(rest, top);
        i := if i' < a then i' else i' + 1;
        j := if j' < a then j' else j' + 1;
      }
    } else {
      i, j := Pigeonhole(s, top);
    }
  }

  /**
   * Floyd: within n iterations the slow and the fast walker meet. Two of the first n + 1
   * orbit points coincide, at i < j; some k in (i, j] is a multiple of the cycle length
   * j - i, and there the walker at k and the walker at 2k stand on the same point.
   */
  lemma WalkersMeet(f: nat -> nat, n: nat) returns (k: nat)
    requires n >= 3 && Below(f, n)
    ensures 1 <= k <= n && Orbit(f, k) == Orbit(f, 2 * k)
  {
    var pts := seq(n + 1, i requires i >= 0 => Orbit(f, i));
    var i, j := Pigeonhole(pts, n);
    var len := j - i;
    k := (j / len) * len;
    assert j == (j / len) * len + j % len;
    OrbitCycle(f, i, len, k, j / len);
  }

  lemma PassStops(f: nat -> nat, n: nat) returns (k: nat)
    requires n % 2 == 1 && Below(f, n)
    ensures 1 <= k <= n && Stops(f, n, k)
  {
    if n == 1 {
      k := 1;
      var d := StepGcd(f, n, k);
      var s, t := GcdBezout(Dist(Orbit(f, 1), Orbit(f, 2)), n);
      DivisorBound(d, n);
    } else {
      k := WalkersMeet(f, n);
    }
  }

  lemma PassEnds(c: nat, n: nat)
    requires n % 2 == 1
    ensures exists k :: 1 <= k <= n && Stops(Poly(c, n), n, k)
  {
    PolyBelow(c, n);
    var k := PassStops(Poly(c, n), n);
  }

  // ---- The specification of the whole search ----

  /** The first iteration at or after k that ends the pass. */
  ghost function FirstStop(f: nat -> nat, n: nat, k: nat): (r: nat)
    requires n > 0 && exists m :: k <= m <= n && Stops(f, n, m)
    ensures k <= r <= n && Stops(f, n, r)
    ensures forall m :: k <= m < r ==> !Stops(f, n, m)
    decreases n - k
  {
    if Stops(f, n, k) then k else FirstStop(f, n, k + 1)
  }

  /** The gcd with which the pass for constant c ends. */
  ghost function PassDivisor(c: nat, n: nat): (d: nat)
    requires n % 2 == 1
    ensures d > 0 && (d != 1 || d == n)
  {
    PassEnds(c, n);
    StepGcd(Poly(c, n), n, FirstStop(Poly(c, n), n, 1))
  }

  /** The divisor d and its cofactor, the smaller first. */
  function Split(n: nat, d: nat): (nat, nat)
    requires d > 0
  {
    var q := n / d;
    if d > q then (q, d) else (d, q)
  }

  /**
   * What FactorPQ returns if it needs at most `passes` passes starting at constant c, and None
   * if it is still searching then. FactorPQ returns exactly when some number of passes suffices.
   */
  ghost function Search(n: nat, c: nat, passes: nat): (r: Option<(nat, nat)>)
    requires n % 2 == 1
    decreases passes
  {
    if passes == 0 then None
    else
      var d := PassDivisor(c, n);
      if d == n then Search(n, (c + 1) % TWO_64, passes - 1)
      else Some(Split(n, d))
  }

  ghost function FactorSpec(pq: nat, passes: nat): (r: Option<(nat, nat)>)
  {
    if pq % 2 == 0 then Some((2, pq / 2)) else Search(pq, 1, passes)
  }

  /** Once the search has returned, a larger number of passes returns the same. */
  lemma {:induction false} SearchMonotone(n: nat, c: nat, passes: nat, more: nat)
    requires n % 2 == 1 && passes <= more && Search(n, c, passes).Some?
    ensures Search(n, c, more) == Search(n, c, passes)
    decreases passes
  {
    if PassDivisor(c, n) == n {
      SearchMonotone(n, (c + 1) % TWO_64, passes - 1, more - 1);
    }
  }

  lemma PassDivisorDivides(c: nat, n: nat)
    requires n % 2 == 1
    ensures Divides(PassDivisor(c, n), n)
  {
    PassEnds(c, n);
    var f := Poly(c, n);
    var k := FirstStop(f, n, 1);
    var s, t := GcdBezout(Dist(Orbit(f, k), Orbit(f, 2 * k)), n);
  }

  lemma CofactorBounds(n: nat, d: nat, q: nat)
    requires q * d == n && 1 < d < n
    ensures 1 < q < n
  {
    assert n == q + q * (d - 1);
    assert q >= 1;
  }

  lemma SplitProper(n: nat, d: nat)
    requires n > 0 && Divides(d, n) && d != 1 && d != n
    ensures d > 0
    ensures var (p, q) := Split(n, d); p * q == n && 1 < p <= q < n && Divides(p, n)
  {
    DivisorBound(d, n);
    var q := n / d;
    CofactorBounds(n, d, q);
    if d > q {
      assert d * q == n;
    }
  }

  /** A returned pair is a proper factorisation in order. */
  lemma {:induction false} SearchResult(n: nat, c: nat, passes: nat)
    requires n % 2 == 1 && Search(n, c, passes).Some?
    ensures var (p, q) := Search(n, c, passes).value;
            p * q == n && 1 < p <= q < n && Divides(p, n)
    decreases passes
  {
    var d := PassDivisor(c, n);
    if d == n {
      SearchResult(n, (c + 1) % TWO_64, passes - 1);
    } else {
      PassDivisorDivides(c, n);
      SplitProper(n, d);
    }
  }

  /** On an odd prime, and on 1, no number of passes is enough: FactorPQ does not return. */
  lemma {:induction false} PrimeNeverReturns(n: nat, c: nat, passes: nat)
    requires n % 2 == 1 && (n == 1 || Prime(n))
    ensures Search(n, c, passes) == None
  {
    if r :| Search(n, c, passes) == Some(r) {
      SearchResult(n, c, passes);
    }
  }

  lemma FactorsOfSemiprime(a: nat, b: nat, p: nat, q: nat)
    requires Prime(a) && Prime(b) && p * q == a * b && 1 < p && 1 < q && Divides(a, p)
    ensures p == a && q == b
  {
    var e :| e * a == p;
    assert e > 0;
    assert a * (e * q) == a * b;
    assert e * q == b;
    assert q * e == b;
    assert Divides(e, b);
    assert e < b;
  }

  lemma OnlyPair(a: nat, b: nat, passes: nat)
    requires Prime(a) && Prime(b) && a <= b && (a * b) % 2 == 1
    requires FactorSpec(a * b, passes).Some?
    ensures FactorSpec(a * b, passes).value == (a, b)
  {
    var n := a * b;
    SearchResult(n, 1, passes);
    var (p, q) := Search(n, 1, passes).value;
    assert Divides(a, p * q) by { assert b * a == p * q; }
    EuclidsLemma(a, p, q);
    if Divides(a, p) {
      FactorsOfSemiprime(a, b, p, q);
    } else {
      assert q * p == a * b;
      FactorsOfSemiprime(a, b, q, p);
    }
  }

  /**
   * On the product of two odd primes a <= b FactorPQ returns, within 2a - 2 passes, and returns
   * (a, b): so it keeps the promised p < q if and only if the primes differ.
   */
  lemma SemiprimeResult(a: nat, b: nat, passes: nat)
    requires Prime(a) && Prime(b) && a <= b && (a * b) % 2 == 1 && a * b < TWO_64
    ensures passes >= 2 * a - 2 ==> FactorSpec(a * b, passes).Some?
    ensures FactorSpec(a * b, passes).Some? ==>
      var (p, q) := FactorSpec(a * b, passes).value; (p, q) == (a, b) && (p < q <==> a != b)
  {
    hide Search;
    if passes >= 2 * a - 2 {
      CompositeReturns(a, b, passes);
    }
    if FactorSpec(a * b, passes).Some? {
      OnlyPair(a, b, passes);
    }
  }

  /** 9, the square of 3: p < q does not hold. */
  lemma NineIsASquare()
    ensures FactorSpec(9, 1) == Some((3, 3))
  {
    hide Search, PassDivisor;
    assert Divides(3, 9) by { assert 3 * 3 == 9; }
    assert Divides(3, (1 + 2) * (1 + 6)) by { assert 7 * 3 == 21; }
    NineNotTwentyOne();
    FirstIterationReturns(1, 9, 3);
    SearchReaches(9, 1, 1);
    SearchResult(9, 1, 1);
    var (p, q) := Search(9, 1, 1).value;
    PairOfNine(p, q);
  }

  lemma PairOfNine(p: nat, q: nat)
    requires p * q == 9 && 1 < p <= q < 9
    ensures p == 3 && q == 3
  {
    if p >= 4 {
      MulGrows(4, 4, p, q);
    }
  }

  lemma NineNotTwentyOne()
    ensures !Divides(9, 21)
  {
  }

  /** The even case: the product holds always, the order p <= q exactly from 4 on. */
  lemma EvenResult(pq: nat, passes: nat)
    requires pq % 2 == 0
    ensures FactorSpec(pq, passes).Some?
    ensures var (p, q) := FactorSpec(pq, passes).value;
            p * q == pq && (p <= q <==> pq >= 4)
  {
  }

  // ---- When the search returns ----

  /** Congruent distances: the walkers of the first iteration are (c + 2)(c + 6) apart modulo n. */
  lemma FirstDistance(c: nat, n: nat)
    requires n > 0
    ensures var f := Poly(c, n);
      var d := Dist(Orbit(f, 1), Orbit(f, 2));
      Divides(n, (c + 2) * (c + 6) - d) || Divides(n, (c + 2) * (c + 6) + d)
  {
    var f := Poly(c, n);
    assert Orbit(f, 1) == f(Orbit(f, 0)) == F(c, n, 2);
    assert Orbit(f, 2) == f(Orbit(f, 1)) == F(c, n, F(c, n, 2));
    var v := 4 + c;
    var x, q := v % n, v / n;
    var y := (x * x + c) % n;
    var r := (x * x + c) / n;
    assert v == q * n + x;
    assert x * x + c == r * n + y;
    FirstDifference(c, n, q, x, r, y);
  }

  lemma FirstDifference(c: int, n: int, q: int, x: int, r: int, y: int)
    requires 4 + c == q * n + x && x * x + c == r * n + y
    ensures Divides(n, (c + 2) * (c + 6) - (y - x))
  {
    var v, a := 4 + c, q * n;
    DividesSelfMul(n, q);
    DividesSelfMul(n, r);
    DividesMul(n, a, a + 2 * x);
    DividesAdd(n, a * (a + 2 * x), r * n);
    DividesDifference(n, a * (a + 2 * x) + r * n, a);
    SquareOfSum(a, x);
    ShiftedSquare(c);
  }

  lemma DividesSelfMul(n: int, q: int)
    ensures Divides(n, q * n)
  {
  }

  lemma SquareOfSum(a: int, x: int)
    ensures (a + x) * (a + x) == a * (a + 2 * x) + x * x
  {
  }

  lemma ShiftedSquare(c: int)
    ensures (c + 2) * (c + 6) == (4 + c) * (4 + c) + c - (4 + c)
  {
  }

  /** A proper common divisor of n and the first distance ends the pass for c with a result. */
  lemma FirstIterationReturns(c: nat, n: nat, p: nat)
    requires n % 2 == 1 && 1 < p && Divides(p, n)
    requires Divides(p, (c + 2) * (c + 6)) && !Divides(n, (c + 2) * (c + 6))
    ensures PassDivisor(c, n) != n
  {
    hide Orbit;
    var f := Poly(c, n);
    var d := Dist(Orbit(f, 1), Orbit(f, 2));
    var e := (c + 2) * (c + 6);
    FirstDistance(c, n);
    var g := StepGcd(f, n, 1);
    assert g == Gcd(d, n);
    GcdProper(d, n, p, e);
    PassDivisorIs(c, n, 1);
  }

  lemma GcdProper(d: nat, n: nat, p: nat, e: nat)
    requires n > 0 && 1 < p && Divides(p, n) && Divides(p, e) && !Divides(n, e)
    requires Divides(n, e - d) || Divides(n, e + d)
    ensures Gcd(d, n) != 1 && Gcd(d, n) != n
  {
    hide Divides;
    var sign := if Divides(n, e - d) then 1 else -1;
    var diff := e - sign * d;
    assert Divides(n, diff);
    DividesTrans(p, n, diff);
    DividesDifference(p, e, diff);
    assert Divides(p, sign * d);
    DividesMul(p, sign * d, sign);
    assert sign * d * sign == d;
    var s, t := GcdBezout(d, n);
    var g := Gcd(d, n);
    DividesMul(p, d, s);
    DividesMul(p, n, t);
    DividesAdd(p, d * s, n * t);
    assert Divides(p, g);
    if g == 1 {
      DivisorBound(p, 1);
    }
    assert diff + d * sign == e;
    if g == n {
      DividesMul(n, d, sign);
      DividesAdd(n, diff, d * sign);
    }
  }

  lemma DividesTrans(a: int, b: int, c: int)
    requires Divides(a, b) && Divides(b, c)
    ensures Divides(a, c)
  {
    var k :| k * b == c;
    DividesMul(a, b, k);
    assert b * k == c;
  }

  lemma DividesDifference(d: int, n: int, m: int)
    requires Divides(d, n) && Divides(d, m)
    ensures Divides(d, n - m)
  {
    DividesMul(d, m, -1);
    DividesAdd(d, n, m * -1);
  }

  lemma CancelFactor(p: nat, m: int, x: int)
    requires p > 0 && Divides(p * m, p * x)
    ensures Divides(m, x)
  {
    var k :| k * (p * m) == p * x;
    assert p * (k * m) == p * x;
    assert k * m == x;
  }

  /** For n = p * m with 1 < p <= m, one of the constants p - 2 and 2p - 2 ends in a result. */
  lemma GoodConstant(p: nat, m: nat) returns (c: nat)
    requires 1 < p <= m && (p * m) % 2 == 1
    ensures 1 <= c <= 2 * p - 2 && PassDivisor(c, p * m) != p * m
  {
    hide PassDivisor;
    var n := p * m;
    OddFactors(p, m);
    assert Divides(p, n) by { assert m * p == n; }
    if m != p + 4 {
      c := p - 2;
      var e := (c + 2) * (c + 6);
      assert e == p * (p + 4);
      assert Divides(p, e) by { assert (p + 4) * p == e; }
      if Divides(n, e) {
        CancelFactor(p, m, p + 4);
        SmallMultiple(p, m);
      }
      FirstIterationReturns(c, n, p);
    } else {
      c := 2 * p - 2;
      var e := (c + 2) * (c + 6);
      assert e == p * (4 * (p + 2));
      assert Divides(p, e) by { assert (4 * (p + 2)) * p == e; }
      if Divides(n, e) {
        CancelFactor(p, m, 4 * (p + 2));
        OnlyEight(m);
      }
      FirstIterationReturns(c, n, p);
    }
  }

  lemma OddFactors(p: nat, m: nat)
    requires (p * m) % 2 == 1
    ensures p % 2 == 1 && m % 2 == 1
  {
    if p % 2 == 0 {
      EvenProduct(p, m);
    }
    if m % 2 == 0 {
      EvenProduct(m, p);
    }
  }

  lemma EvenProduct(x: nat, y: nat)
    requires x % 2 == 0
    ensures (x * y) % 2 == 0 && (y * x) % 2 == 0
  {
    assert x * y == 2 * ((x / 2) * y);
  }

  lemma SmallMultiple(p: nat, m: nat)
    requires p % 2 == 1 && m % 2 == 1 && 1 < p <= m && Divides(m, p + 4)
    ensures m == p + 4
  {
    var k :| k * m == p + 4;
    assert k > 0;
    if k >= 2 {
      MulGrows(2, m, k, m);
    }
  }

  lemma MulGrows(a: nat, b: nat, x: nat, y: nat)
    requires a <= x && b <= y
    ensures a * b <= x * y
  {
    assert a * b <= a * y <= x * y;
  }

  lemma OnlyEight(m: nat)
    requires m >= 7 && Divides(m, 4 * (m - 2))
    ensures m == 8
  {
    var k :| k * m == 4 * (m - 2);
    var j := 4 - k;
    assert j * m == 8;
    assert 0 < j < 2;
  }

  /** The search comes to any constant it does not return before. */
  lemma {:induction false} SearchReaches(n: nat, c: nat, good: nat)
    requires n % 2 == 1 && c <= good < TWO_64 && PassDivisor(good, n) != n
    ensures Search(n, c, good - c + 1).Some?
    decreases good - c
  {
    hide PassDivisor;
    if c < good && PassDivisor(c, n) == n {
      SearchReaches(n, c + 1, good);
      assert (c + 1) % TWO_64 == c + 1;
    }
  }

  /** On an odd composite the search returns within 2p - 2 passes, p being any factor up to the root. */
  lemma CompositeReturns(p: nat, m: nat, passes: nat)
    requires 1 < p <= m && (p * m) % 2 == 1 && p * m < TWO_64 && passes >= 2 * p - 2
    ensures Search(p * m, 1, passes).Some?
  {
    hide PassDivisor, Search;
    var c := GoodConstant(p, m);
    MulGrows(p, 2, p, m);
    ReturnsBy(p * m, c, passes);
  }

  lemma ReturnsBy(n: nat, c: nat, passes: nat)
    requires n % 2 == 1 && 1 <= c <= passes && c < TWO_64 && PassDivisor(c, n) != n
    ensures Search(n, 1, passes).Some?
  {
    hide PassDivisor, Search;
    SearchReaches(n, 1, c);
    SearchMonotone(n, 1, c, passes);
  }

  lemma CompositeFactors(n: nat) returns (p: nat, m: nat)
    requires n > 1 && !Prime(n)
    ensures p * m == n && 1 < p <= m < n
  {
    var d: nat :| 1 < d < n && Divides(d, n);
    DivisorBound(d, n);
    CofactorBounds(n, d, n / d);
    p, m := if d <= n / d then d else n / d, if d <= n / d then n / d else d;
    assert p * m == n;
  }

  /**
   * FactorPQ returns on a 64-bit pq if and only if pq is even, or neither 1 nor a prime; and then
   * pq passes are enough.
   */
  lemma ReturnsIff(pq: nat)
    requires pq < TWO_64
    ensures (exists k :: FactorSpec(pq, k).Some?) <==> pq % 2 == 0 || (pq != 1 && !Prime(pq))
    ensures forall k :: k >= pq ==> (FactorSpec(pq, k).Some? <==> pq % 2 == 0 || (pq != 1 && !Prime(pq)))
  {
    hide Prime, Search;
    if pq % 2 == 0 {
      assert FactorSpec(pq, 0).Some?;
    } else if pq == 1 || Prime(pq) {
      forall k ensures FactorSpec(pq, k) == None {
        PrimeNeverReturns(pq, 1, k);
      }
    } else {
      var p, m := CompositeFactors(pq);
      assert 2 * p <= pq by { assert pq >= p * 2; }
      forall k | k >= pq ensures FactorSpec(pq, k).Some? {
        CompositeReturns(p, m, k);
      }
      assert FactorSpec(pq, pq).Some?;
    }
  }

  lemma PassDivisorIs(c: nat, n: nat, k: nat)
    requires n % 2 == 1 && 1 <= k <= n && Stops(Poly(c, n), n, k)
    requires forall m :: 1 <= m < k ==> !Stops(Poly(c, n), n, m)
    ensures PassDivisor(c, n) == StepGcd(Poly(c, n), n, k)
  {
    PassEnds(c, n);
    assert FirstStop(Poly(c, n), n, 1) == k;
  }

  /** The pass for f is in iteration k, with the walkers in place and no stop so far. */
  ghost predicate Walking(n: nat, f: nat -> nat, k: nat, x: nat, y: nat)
    requires n > 0
  {
    && x == Orbit(f, k) && y == Orbit(f, 2 * k)
    && forall m :: 1 <= m < k ==> !Stops(f, n, m)
  }

  lemma SearchRestarts(n: nat, c: nat, k: nat, left: nat)
    requires n % 2 == 1 && left > 0 && 1 <= k <= n && StepGcd(Poly(c, n), n, k) == n
    requires forall m :: 1 <= m < k ==> !Stops(Poly(c, n), n, m)
    ensures Search(n, c, left) == Search(n, (c + 1) % TWO_64, left - 1)
  {
    PassDivisorIs(c, n, k);
  }

  lemma SearchReturns(n: nat, c: nat, k: nat, left: nat)
    requires n % 2 == 1 && left > 0 && 1 <= k <= n
    requires StepGcd(Poly(c, n), n, k) != n && StepGcd(Poly(c, n), n, k) != 1
    requires forall m :: 1 <= m < k ==> !Stops(Poly(c, n), n, m)
    ensures Search(n, c, left) == Some(Split(n, StepGcd(Poly(c, n), n, k)))
  {
    PassDivisorIs(c, n, k);
  }

  /** At the start of a pass the walkers stand on 2, and some iteration is sure to end it. */
  lemma NewPass(c: nat, n: nat) returns (bound: nat)
    requires n % 2 == 1
    ensures Walking(n, Poly(c, n), 0, 2, 2) && 1 <= bound <= n && Stops(Poly(c, n), n, bound)
  {
    PolyBelow(c, n);
    bound := PassStops(Poly(c, n), n);
  }

  /** One iteration's walk: x one step, y two steps, and the gcd of their distance with pq. */
  method Walk(c: nat, pq: nat, x: nat, y: nat, ghost k: nat) returns (x': nat, y': nat, d: nat)
    requires pq > 0 && Walking(pq, Poly(c, pq), k, x, y)
    requires k >= 1 ==> !Stops(Poly(c, pq), pq, k)
    ensures Walking(pq, Poly(c, pq), k + 1, x', y') && d == StepGcd(Poly(c, pq), pq, k + 1)
  {
    x' := F(c, pq, x);
    y' := F(c, pq, F(c, pq, y));
    ghost var f := Poly(c, pq);
    assert Orbit(f, 2 * (k + 1)) == f(Orbit(f, 2 * k + 1));
    d := Gcd(Dist(x', y'), pq);
  }

  /**
   * The loop of FactorPQ for odd pq: x and y walk the orbit at single and double speed, and a
   * gcd equal to pq restarts the walk with the next 64-bit constant.
   */
  method Rho(pq: nat, passes: nat) returns (r: Option<(nat, nat)>)
    requires pq % 2 == 1
    ensures r == Search(pq, 1, passes)
  {
    hide Orbit;
    if passes == 0 {
      return None;
    }
    var x: nat, y: nat, c: nat, d: nat := 2, 2, 1, 1;
    var left := passes;
    ghost var goal := Search(pq, c, left);
    ghost var k: nat := 0;
    ghost var bound := NewPass(c, pq);
    while d == 1
      invariant left > 0 && goal == Search(pq, c, left)
      invariant Walking(pq, Poly(c, pq), k, x, y)
      invariant k <= bound <= pq && Stops(Poly(c, pq), pq, bound)
      invariant d == 1 ==> k < bound && (k >= 1 ==> !Stops(Poly(c, pq), pq, k))
      invariant d != 1 ==> k >= 1 && d == StepGcd(Poly(c, pq), pq, k) && d != pq
      decreases left, if d == 1 then 1 else 0, bound - k
    {
      x, y, d := Walk(c, pq, x, y, k);
      k := k + 1;
      if d == pq {
        SearchRestarts(pq, c, k, left);
        c, left := (c + 1) % TWO_64, left - 1;
        if left == 0 {
          return None;
        }
        x, y, d, k := 2, 2, 1, 0;
        bound := NewPass(c, pq);
      }
    }
    SearchReturns(pq, c, k, left);
    r := Some(Split(pq, d));
  }

  /**
   * FactorPQ, allowed `passes` passes: the original has no bound. With pq passes the answer None
   * means exactly that it never returns.
   */
  method FactorPQ(pq: nat, passes: nat) returns (r: Option<(nat, nat)>)
    ensures r == FactorSpec(pq, passes)
    ensures pq < TWO_64 && passes >= pq ==> (r == None <==> pq % 2 == 1 && (pq == 1 || Prime(pq)))
  {
    hide Prime, Search;
    if pq < TWO_64 {
      ReturnsIff(pq);
    }
    if pq % 2 == 0 {
      r := Some((2, pq / 2));
    } else {
      r := Rho(pq, passes);
    }
  }
}
