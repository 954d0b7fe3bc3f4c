/** Small things that several modules share. */
module Basics {

  datatype Option<+T> = None | Some(value: T)

  /**
   * A trigger that no statement mentions by accident. A predicate whose body stands under
   * `forall x :: Unfold(x) ==> ..` is unfolded only where `assert Unfold(0)` asks for it.
   */
  predicate Unfold(x: int) {
    true
  }

  lemma DivModUnique(v: int, m: nat, q: int, r: nat)
    requires m > 0 && v == m * q + r && r < m
    ensures v / m == q && v % m == r
  {
    var d := v / m - q;
    assert m * d == r - v % m by { assert m * d == m * (v / m) - m * q; }
    SmallMultiple(m, d);
  }

  lemma SmallMultiple(m: nat, d: int)
    requires m * d < m && m * d + m > 0
    ensures d == 0
  {}

  lemma SmallMod(x: nat, m: nat)
    requires x < m
    ensures x % m == x
  {}

  /** Reduction of a number at most one modulus away from the range. */
  lemma ModNear(x: int, m: nat)
    requires m > 0 && 0 <= x + 2 * m && x < 2 * m
    ensures x % m == if x + m < 0 then x + 2 * m else if x < 0 then x + m else if x < m then x else x - m
  {
    var d := if x + m < 0 then -2 else if x < 0 then -1 else if x < m then 0 else 1;
    var y := x - m * d;
    assert x == m * d + y;
    SmallMultiple(m, x / m - d) by {
      assert m * (x / m - d) == m * (x / m) - m * d;
      assert x == m * (x / m) + x % m;
    }
  }

  /** Reducing a summand first makes no difference. */
  lemma ModSum(x: int, y: int, m: nat)
    requires m > 0
    ensures (x % m + y) % m == (x + y) % m
  {
    var q, z := x / m, x % m + y;
    assert m * (q + z / m) == m * q + m * (z / m);
    assert x == m * q + x % m && z == m * (z / m) + z % m;
    DivModUnique(x + y, m, q + z / m, z % m);
  }

  lemma ModAtMost(x: nat, m: nat)
    requires m > 0
    ensures x % m <= x && x % m < m && (x % m == x <==> x < m)
  {
    assert x == m * (x / m) + x % m;
    if x / m > 0 {
      assert m * (x / m) >= m;
    }
  }

  lemma MulMonotone(b: nat, m: nat, n: nat)
    ensures m <= n ==> b * m <= b * n
  {
    if m <= n {
      assert b * n == b * m + b * (n - m);
    }
  }
}
