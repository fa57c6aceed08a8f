/** Small datatypes and facts shared by every module of the model. */
module Common {

  datatype Option<+T> = None | Some(value: T)

  datatype Result<+T, +E> = Ok(value: T) | Err(error: E)

  const U16: nat := 0x1_0000
  const U32: nat := 0x1_0000_0000
  const U64: nat := 0x1_0000_0000_0000_0000

  /** A timestamp in microseconds. */
  type Time = t: nat | t < U64

  /** Elapsed time, zero when the clock reads earlier. */
  function Since(now: Time, earlier: Time): Time {
    if now < earlier then 0 else now - earlier
  }

  /** Two numbers closer than the modulus that share a residue are equal: the fact
      every ring indexed by `x % capacity` relies on. */
  lemma ResiduesDistinct(a: int, b: int, m: int)
    requires 0 < m
    requires -m < a - b < m
    requires a % m == b % m
    ensures a == b
  {
    var k := a / m - b / m;
    assert a - b == m * k by {
      assert a == m * (a / m) + a % m;
      assert b == m * (b / m) + b % m;
    }
    if k >= 1 {
      MulAtLeast(m, k);
    } else if k <= -1 {
      MulAtLeast(m, -k);
    }
  }

  lemma MulAtLeast(m: int, k: int)
    requires 0 < m && 1 <= k
    ensures m <= m * k
  {
  }

  lemma DivAtMost(num: nat, d: nat, k: nat)
    requires 0 < d && num < d * (k + 1)
    ensures 0 <= num / d <= k
  {
    var v := num / d;
    assert num == d * v + num % d;
    if v > k {
      MulLess(d, k + 1, v);
    } else if v < 0 {
      MulAtLeast(d, -v);
    }
  }

  lemma MulLess(d: nat, a: int, b: int)
    requires a <= b
    ensures d * a <= d * b
  {
    assert d * b == d * a + d * (b - a);
    assert d * (b - a) >= 0;
  }

  lemma QuotientNonNegative(n: nat, d: int)
    requires d > 0
    ensures n / d >= 0
  {
  }

  lemma QuotientOrder(a: nat, b: nat, d: int)
    requires d > 0 && a <= b
    ensures a / d <= b / d
  {
    var u, v := a / d, b / d;
    assert a == d * u + a % d && b == d * v + b % d;
    assert d * (v + 1) == d * v + d;
    if u > v {
      MulLess(d, v + 1, u);
    }
  }

  lemma FactorBound(d: nat, x: int, k: int)
    requires d > 0 && d * x < d * (k + 1)
    ensures x <= k
  {
    if x > k {
      MulLess(d, k + 1, x);
    }
  }

  lemma ModShrinks(n: nat, m: nat)
    requires m > 0
    ensures 0 <= n % m <= n && n % m < m
  {
    if n < m {
      assert n % m == n;
    }
  }

  predicate IsLeast(m: nat, s: set<nat>) {
    m in s && forall x :: x in s ==> m <= x
  }

  lemma {:induction false} LeastExists(s: set<nat>)
    requires s != {}
    ensures exists m :: IsLeast(m, s)
  {
    var x :| x in s;
    if s == {x} {
      assert IsLeast(x, s);
    } else {
      var rest := s - {x};
      LeastExists(rest);
      var m :| IsLeast(m, rest);
      var low := if x < m then x else m;
      forall y | y in s
        ensures low <= y
      {
        assert y == x || y in rest;
      }
      assert IsLeast(low, s);
    }
  }

  /** The first key of an ordered map's iteration. */
  function Least(s: set<nat>): (m: nat)
    requires s != {}
    ensures IsLeast(m, s)
  {
    LeastExists(s);
    var m :| IsLeast(m, s);
    m
  }
}
