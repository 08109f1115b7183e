/** Integer arithmetic as the JavaScript sources compute it. */
module JsMath {

  function Min(a: int, b: int): int {
    if a <= b then a else b
  }

  function Max(a: int, b: int): int {
    if a >= b then a else b
  }

  /** `Math.ceil(a / b)` for a non-zero integer divisor (Dafny's `/` is Euclidean). */
  function CeilDiv(a: int, b: int): int
    requires b != 0
  {
    if b > 0 then -((-a) / b) else -(a / (-b))
  }

  /** For a positive divisor, CeilDiv(a, b) is the least q with a <= q * b. */
  lemma CeilDivIsCeiling(a: int, b: int)
    requires b > 0
    ensures (CeilDiv(a, b) - 1) * b < a <= CeilDiv(a, b) * b
  {
    var k := (-a) / b;
    var r := (-a) % b;
    assert -a == k * b + r && 0 <= r < b;
    assert CeilDiv(a, b) == -k;
    assert -k * b == a + r;
    assert (-k - 1) * b == a + r - b;
  }

  /** Multiplying by a positive factor keeps order. */
  lemma MulMonotone(x: int, y: int, b: int)
    requires b > 0 && x <= y
    ensures x * b <= y * b
  {
    assert y * b - x * b == (y - x) * b;
  }

  /** And reflects strict order. */
  lemma MulStrictReflect(x: int, y: int, b: int)
    requires b > 0 && x * b < y * b
    ensures x < y
  {
    if x >= y {
      MulMonotone(y, x, b);
    }
  }
}
