// Alignment arithmetic of src/utils.c.  The C code masks bits, which for a
// power of two is the arithmetic below.
module Rounding {

  // The largest multiple of a that is not above n.
  function RoundDown(n: nat, a: nat): (r: nat)
    requires a > 0
    ensures r % a == 0 && r <= n < r + a
  {
    ModSub(n, a);
    n - n % a
  }

  // The smallest multiple of a that is not below n.
  function RoundUp(n: nat, a: nat): (r: nat)
    requires a > 0
    ensures r % a == 0 && n <= r < n + a
  {
    RoundDown(n + a - 1, a)
  }

  lemma ModSub(n: nat, a: nat)
    requires a > 0
    ensures (n - n % a) % a == 0
  {
    ModIsZero(n / a, a);
  }

  lemma Scaled(k: int, a: nat)
    ensures k >= 1 ==> a * k >= a
    ensures k <= -1 ==> a * k + a <= 0
  {
    assert a * (k - 1) == a * k - a && a * (k + 1) == a * k + a;
  }

  lemma ModIsZero(k: int, a: nat)
    requires a > 0
    ensures (a * k) % a == 0
  {
    var q, r := (a * k) / a, (a * k) % a;
    assert a * (k - q) == r;
    Scaled(k - q, a);
  }

  lemma ModSum(x: int, y: int, a: nat)
    requires a > 0 && x % a == 0 && y % a == 0
    ensures (x + y) % a == 0 && (x - y) % a == 0
  {
    var p, q := x / a, y / a;
    assert x == a * p && y == a * q;
    assert x + y == a * (p + q) && x - y == a * (p - q);
    ModIsZero(p + q, a);
    ModIsZero(p - q, a);
  }

  lemma ModTrans(x: int, b: nat, a: nat)
    requires a > 0 && b > 0 && x % b == 0 && b % a == 0
    ensures x % a == 0
  {
    var p, q := x / b, b / a;
    assert x == b * p && b == a * q;
    assert x == a * (q * p);
    ModIsZero(q * p, a);
  }

  // Two multiples of a closer than a are equal.
  lemma MultiplesApart(x: int, y: int, a: nat)
    requires a > 0 && x % a == 0 && y % a == 0
    requires -(a as int) < x - y < a
    ensures x == y
  {
    ModSum(x, y, a);
    var k := (x - y) / a;
    assert x - y == a * k;
    Scaled(k, a);
  }

  lemma RoundDownIs(n: nat, a: nat, m: nat)
    requires a > 0 && m % a == 0 && m <= n < m + a
    ensures RoundDown(n, a) == m
  {
    MultiplesApart(RoundDown(n, a), m, a);
  }

  lemma RoundUpIs(n: nat, a: nat, m: nat)
    requires a > 0 && m % a == 0 && n <= m < n + a
    ensures RoundUp(n, a) == m
  {
    MultiplesApart(RoundUp(n, a), m, a);
  }

  // A multiple of a that is at least n is at least n rounded up.
  lemma RoundUpLeast(n: nat, a: nat, m: nat)
    requires a > 0 && m % a == 0 && n <= m
    ensures RoundUp(n, a) <= m
  {
    if m < RoundUp(n, a) {
      MultiplesApart(RoundUp(n, a), m, a);
    }
  }

  predicate IsPowerOfTwo(n: nat) {
    n == 1 || (n > 0 && n % 2 == 0 && IsPowerOfTwo(n / 2))
  }

  lemma {:induction false} PowersDivide(a: nat, b: nat)
    requires IsPowerOfTwo(a) && IsPowerOfTwo(b) && a <= b
    ensures b % a == 0
  {
    if a > 1 {
      PowersDivide(a / 2, b / 2);
      var k := (b / 2) / (a / 2);
      assert b / 2 == (a / 2) * k;
      assert b == a * k;
      ModIsZero(k, a);
    }
  }

  // src/utils.c:47-55: the position of the highest set bit.
  function LogTwo(n: nat): (l: nat) {
    if n <= 1 then 0 else 1 + LogTwo(n / 2)
  }

  function Exp2(k: nat): (r: nat)
    ensures r > 0 && IsPowerOfTwo(r)
  {
    if k == 0 then 1 else 2 * Exp2(k - 1)
  }

  // src/utils.c:87-93.
  function PowerOfTwo(n: nat): (r: nat) {
    if n == 0 || IsPowerOfTwo(n) then n else 2 * Exp2(LogTwo(n))
  }

  lemma {:induction false} LogTwoBounds(n: nat)
    requires n > 0
    ensures Exp2(LogTwo(n)) <= n < 2 * Exp2(LogTwo(n))
  {
    if n > 1 {
      LogTwoBounds(n / 2);
    }
  }

  lemma {:induction false} PowersOrder(p: nat, q: nat)
    requires IsPowerOfTwo(p) && IsPowerOfTwo(q) && p < 2 * q
    ensures p <= q
  {
    if p > 1 && q > 1 {
      PowersOrder(p / 2, q / 2);
    }
  }

  // The result is the least power of two that is not below n.
  lemma PowerOfTwoIsLeast(n: nat, m: nat)
    requires n > 0
    ensures IsPowerOfTwo(PowerOfTwo(n)) && n <= PowerOfTwo(n) < 2 * n
    ensures IsPowerOfTwo(m) && n <= m ==> PowerOfTwo(n) <= m
  {
    LogTwoBounds(n);
    var r := PowerOfTwo(n);
    assert Exp2(LogTwo(n) + 1) == 2 * Exp2(LogTwo(n));
    if !IsPowerOfTwo(n) {
      assert r == Exp2(LogTwo(n) + 1);
    }
    if IsPowerOfTwo(m) && n <= m {
      PowersOrder(r, m);
    }
  }
}
