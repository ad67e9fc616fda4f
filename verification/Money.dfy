/** Prices, and the $0.001 grid every emitted bid is rounded to.

    Prices are exact reals in dollars per hour. `Round3` is Python's `round(x, 3)`
    (nearest grid point, ties to even), so the 1e-9 slack the source adds to
    absorb binary noise has nothing to absorb here. */
module Money {

  datatype Option<+T> = None | Some(value: T)

  function Min(a: real, b: real): real { if a <= b then a else b }

  function Max(a: real, b: real): real { if a >= b then a else b }

  function Abs(a: real): real { if a < 0.0 then -a else a }

  /** `min(a, b)` where an absent `b` means "no such rail". */
  function MinOpt(a: real, b: Option<real>): real {
    match b
    case None => a
    case Some(x) => Min(a, x)
  }

  /** True when `b` is an absent bound or lies at or above `a`. */
  predicate AtMost(a: real, b: Option<real>) {
    b.Some? ==> a <= b.value
  }

  /** A non-positive on-demand read is treated by every caller as no read. */
  function Known(x: Option<real>): Option<real> {
    if x.Some? && x.value > 0.0 then x else None
  }

  function RoundInt(y: real): int {
    var f := y.Floor;
    var d := y - f as real;
    if d < 0.5 then f
    else if d > 0.5 then f + 1
    else if f % 2 == 0 then f else f + 1
  }

  function Round3(x: real): real { RoundInt(x * 1000.0) as real / 1000.0 }

  function Round4(x: real): real { RoundInt(x * 10000.0) as real / 10000.0 }

  /** The grid point at or above `x` (`math.ceil(x * 1000) / 1000`). */
  function Ceil3(x: real): real { -((-(x * 1000.0)).Floor) as real / 1000.0 }

  predicate OnGrid(x: real) { (x * 1000.0).Floor as real == x * 1000.0 }

  /** No grid point lies nearer than the rounded one. */
  lemma RoundIntNearest(y: real, k: int)
    ensures -0.5 <= RoundInt(y) as real - y <= 0.5
    ensures Abs(RoundInt(y) as real - y) <= Abs(k as real - y)
  {
    var f := y.Floor;
    assert k <= f || k >= f + 1;
  }

  /** A tie goes to the even neighbour. */
  lemma TiesGoToEven(k: int)
    ensures RoundInt(k as real + 0.5) == if k % 2 == 0 then k else k + 1
    ensures RoundInt(k as real) == k
  {
    assert (k as real + 0.5).Floor == k;
  }

  lemma RoundIntMonotone(x: real, y: real)
    requires x <= y
    ensures RoundInt(x) <= RoundInt(y)
  {
    assert x.Floor <= y.Floor;
  }

  lemma Round3Near(x: real)
    ensures -0.0005 <= Round3(x) - x <= 0.0005
  {
    RoundIntNearest(x * 1000.0, 0);
  }

  lemma Round3Monotone(x: real, y: real)
    requires x <= y
    ensures Round3(x) <= Round3(y)
  {
    RoundIntMonotone(x * 1000.0, y * 1000.0);
  }

  lemma Round3Fixes(x: real)
    requires OnGrid(x)
    ensures Round3(x) == x
  {
    assert RoundInt(x * 1000.0) == (x * 1000.0).Floor;
  }

  lemma Round3OnGrid(x: real)
    ensures OnGrid(Round3(x))
  {
    hide RoundInt;
    GridPoint(RoundInt(x * 1000.0));
  }

  lemma GridPoint(k: int)
    ensures OnGrid(k as real / 1000.0)
  {
    assert (k as real / 1000.0) * 1000.0 == k as real;
  }

  lemma Ceil3Bounds(x: real)
    ensures x <= Ceil3(x) < x + 0.001
    ensures OnGrid(Ceil3(x))
  {
    GridPoint(-((-(x * 1000.0)).Floor));
  }

  lemma Ceil3Least(x: real, p: real)
    requires OnGrid(p) && x <= p
    ensures Ceil3(x) <= p
  {
    var k, y := (p * 1000.0).Floor, -(x * 1000.0);
    FloorAbove(y, -k);
    DivideThousand(-(y.Floor), k, p);
  }

  lemma FloorAbove(y: real, n: int)
    requires y >= n as real
    ensures y.Floor >= n
  {
  }

  lemma DivideThousand(c: int, k: int, p: real)
    requires c <= k && k as real == p * 1000.0
    ensures c as real / 1000.0 <= p
  {
  }
}
