/** Integer grid positions and the four cardinal directions. */
module Geometry {

  /** A grid position or an offset between positions, as `(x, y)`. */
  type Pos = (int, int)

  function Add(a: Pos, b: Pos): Pos { (a.0 + b.0, a.1 + b.1) }

  function Sub(a: Pos, b: Pos): Pos { (a.0 - b.0, a.1 - b.1) }

  function Square(n: int): (r: int)
    ensures r >= 0
    ensures r == 0 <==> n == 0
  {
    if n < 0 then SquarePositive(-n); n * n
    else if n > 0 then SquarePositive(n); n * n
    else 0
  }

  lemma SquarePositive(n: int)
    requires n > 0
    ensures n * n >= n
  {
    if n > 1 {
      SquarePositive(n - 1);
      assert n * n == (n - 1) * (n - 1) + 2 * n - 1;
    }
  }

  /** Squared Euclidean distance; it orders pairs of positions as the distance does. */
  function DistSq(a: Pos, b: Pos): (r: int)
    ensures r >= 0
    ensures r == 0 <==> a == b
  {
    Square(a.0 - b.0) + Square(a.1 - b.1)
  }

  /** One of (0,-1), (0,1), (-1,0), (1,0). */
  predicate IsCardinal(v: Pos) {
    v == (0, -1) || v == (0, 1) || v == (-1, 0) || v == (1, 0)
  }
}
