/** `Math.random()` as an input: a real in [0, 1), and the index expressions built on it. */
module JsRandom {

  /** The range of `Math.random()`. Floating-point rounding is not modelled. */
  type Unit = u: real | 0.0 <= u < 1.0

  /**
   * `Math.floor(Math.random() * n)`: an index into a range of `n` values.
   * Whatever `Math.random()` returned, the index lies in [0, n).
   */
  function FloorTimes(u: Unit, n: nat): (k: int)
    requires n > 0
    ensures 0 <= k < n
  {
    var x := u * n as real;
    assert 0.0 <= x < n as real by {
      assert u * n as real < 1.0 * n as real;
    }
    x.Floor
  }
}
