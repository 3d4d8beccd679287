/** Statistics on the number of bytes written or read, kept in unsigned 64-bit counters. */
module IOStats {
  import opened Arithmetic

  const LIMIT: nat := 0x1_0000_0000_0000_0000  // 2^64

  function Wrap64(x: int): (r: nat)
    ensures r < LIMIT && (r - x) % LIMIT == 0
  {
    x % LIMIT
  }

  function Square(x: int): nat {
    SquareNonNegative(x);
    x * x
  }

  lemma SquareNonNegative(x: int)
    ensures x * x >= 0
  {
  }

  function SumSquares(xs: seq<nat>): nat {
    if xs == [] then 0 else SumSquares(xs[..|xs| - 1]) + Square(xs[|xs| - 1])
  }

  /** The squared distances of `x` from all entries. */
  function Distances(xs: seq<nat>, x: nat): nat {
    if xs == [] then 0 else Distances(xs[..|xs| - 1], x) + Square(x - xs[|xs| - 1])
  }

  /** The squared distances of all pairs of entries. */
  function Spread(xs: seq<nat>): nat {
    if xs == [] then 0 else Spread(xs[..|xs| - 1]) + Distances(xs[..|xs| - 1], xs[|xs| - 1])
  }

  lemma TimesStep(n: int, q: int, s: int, x: int)
    ensures Product(n + 1, q + Square(x)) - Square(s + x)
            == Product(n, q) - Square(s) + (q + Product(n, Square(x)) - 2 * Product(s, x))
  {
    var xx := Square(x);
    assert (n + 1) * (q + xx) == n * q + n * xx + q + xx;
    assert (s + x) * (s + x) == s * s + 2 * (s * x) + xx;
  }

  lemma {:induction false} DistancesAre(xs: seq<nat>, x: nat)
    ensures Distances(xs, x) == SumSquares(xs) + Product(|xs|, Square(x)) - 2 * Product(Sum(xs), x)
    decreases |xs|
  {
    if xs != [] {
      var init, y := xs[..|xs| - 1], xs[|xs| - 1];
      DistancesAre(init, x);
      DistanceStep(|init|, Sum(init), x, y);
    }
  }

  lemma DistanceStep(n: int, s: int, x: int, y: int)
    ensures Product(n + 1, Square(x)) - 2 * Product(s + y, x) + Square(y)
            == Product(n, Square(x)) - 2 * Product(s, x) + Square(x - y)
  {
    assert (n + 1) * Square(x) == n * Square(x) + Square(x);
    assert (s + y) * x == s * x + y * x;
    assert (x - y) * (x - y) == x * x - 2 * (y * x) + y * y;
  }

  /** Count times the sum of squares exceeds the squared sum by the squared distances of all pairs. */
  lemma {:induction false} VarianceIsSpread(xs: seq<nat>)
    ensures Product(|xs|, SumSquares(xs)) - Square(Sum(xs)) == Spread(xs)
    decreases |xs|
  {
    if xs == [] {
      assert Product(0, 0) == 0 && Square(0) == 0;
    } else {
      var init, x := xs[..|xs| - 1], xs[|xs| - 1];
      VarianceIsSpread(init);
      DistancesAre(init, x);
      TimesStep(|init|, SumSquares(init), Sum(init), x);
    }
  }

  // ---- the counters

  datatype State = State(num: nat, sum: nat, sumSquares: nat)

  /** The counters after these sizes have been logged. */
  function Counted(xs: seq<nat>): State {
    State(Wrap64(|xs|), Wrap64(Sum(xs)), Wrap64(SumSquares(xs)))
  }

  class Counters {
    var num: nat
    var sum: nat
    var sumSquares: nat

    function Contents(): State
      reads this
    {
      State(num, sum, sumSquares)
    }

    constructor ()
      ensures Contents() == Counted([])
    {
      num, sum, sumSquares := 0, 0, 0;
    }

    /** `logWrite` and `logRead`; `logged` are the sizes so far. */
    method Log(size: nat, ghost logged: seq<nat>)
      requires Contents() == Counted(logged)
      modifies this
      ensures Contents() == Counted(logged + [size])
    {
      assert (logged + [size])[..|logged|] == logged;
      WrapAdd(|logged|, 1);
      WrapAdd(Sum(logged), size);
      WrapAdd(SumSquares(logged), Square(size));
      num := Wrap64(num + 1);
      sum := Wrap64(sum + size);
      sumSquares := Wrap64(sumSquares + Square(size));
    }

    /** The number under the square root in `reportBytes`, for the sizes logged so far. */
    method ScaledVariance(ghost logged: seq<nat>) returns (v: nat)
      requires Contents() == Counted(logged)
      ensures v == Wrap64(Spread(logged))
    {
      v := Wrap64(Wrap64(Product(num, sumSquares)) - Wrap64(Product(sum, sum)));
      WrapProduct(|logged|, SumSquares(logged));
      WrapProduct(Sum(logged), Sum(logged));
      WrapSubtract(Product(|logged|, SumSquares(logged)), Product(Sum(logged), Sum(logged)));
      VarianceIsSpread(logged);
    }
  }

  lemma WrapAdd(a: int, b: int)
    ensures Wrap64(Wrap64(a) + b) == Wrap64(a + b)
  {
  }

  lemma WrapSubtract(a: int, b: int)
    ensures Wrap64(Wrap64(a) - Wrap64(b)) == Wrap64(a - b)
  {
  }

  lemma WrapMultiple(x: int, k: int)
    ensures Wrap64(x + Product(k, LIMIT)) == Wrap64(x)
  {
  }

  lemma WrapProduct(a: int, b: int)
    ensures Wrap64(Product(Wrap64(a), Wrap64(b))) == Wrap64(Product(a, b))
  {
    var p, q := a / LIMIT, b / LIMIT;
    var x, y := Wrap64(a), Wrap64(b);
    assert a == x + p * LIMIT && b == y + q * LIMIT;
    ProductExpands(x, y, p, q);
    WrapMultiple(Product(x, y), x * q + p * y + p * LIMIT * q);
  }

  lemma ProductExpands(x: int, y: int, p: int, q: int)
    ensures Product(x + p * LIMIT, y + q * LIMIT) == Product(x, y) + Product(x * q + p * y + p * LIMIT * q, LIMIT)
  {
  }

  /** Even if counters and products overflow, the reported number is the true one exactly when that
      fits 64 bits; in particular the subtraction never turns a small spread into a large one. */
  lemma TrueWhenItFits(xs: seq<nat>)
    ensures Wrap64(Spread(xs)) == Product(|xs|, SumSquares(xs)) - Square(Sum(xs)) <==> Spread(xs) < LIMIT
    ensures Product(|xs|, SumSquares(xs)) >= Square(Sum(xs))
  {
    VarianceIsSpread(xs);
    hide Spread, SumSquares, Sum;
    WrapFits(Spread(xs));
  }

  lemma WrapFits(v: nat)
    ensures Wrap64(v) == v <==> v < LIMIT
  {
  }
}
