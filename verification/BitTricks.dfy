// The bit masks by which src/utils.c rounds and recognises powers of two, and
// that they are the arithmetic of the rest of the model.
module BitTricks {
  import opened Memory
  import opened Rounding

  // n & m
  function And(n: nat, m: nat): nat {
    if n == 0 || m == 0 then 0 else 2 * And(n / 2, m / 2) + (n % 2) * (m % 2)
  }

  // n & ~m
  function AndNot(n: nat, m: nat): (r: nat)
    ensures r <= n
  {
    if n == 0 then 0 else 2 * AndNot(n / 2, m / 2) + (n % 2) * (1 - m % 2)
  }

  lemma {:induction false} AndNotNone(n: nat)
    ensures AndNot(n, 0) == n
  {
    if n > 0 {
      AndNotNone(n / 2);
    }
  }

  // The low bits of n are those of n / 2 and the last one.
  lemma HalfMod(n: nat, a: nat)
    requires a > 1 && a % 2 == 0
    ensures n % a == 2 * ((n / 2) % (a / 2)) + n % 2
  {
    var h := a / 2;
    var q := (n / 2) / h;
    assert n / 2 == h * q + (n / 2) % h;
    var r := 2 * ((n / 2) % h) + n % 2;
    assert n - r == 2 * (h * q) == a * q;
    ModIsZero(q, a);
    RoundDownIs(n, a, n - r);
  }

  // src/utils.c:104-107
  lemma {:induction false} MaskDown(n: nat, a: nat)
    requires IsPowerOfTwo(a)
    ensures AndNot(n, a - 1) == RoundDown(n, a)
  {
    if a == 1 {
      AndNotNone(n);
    } else if n > 0 {
      MaskDown(n / 2, a / 2);
      HalfMod(n, a);
      assert (a - 1) / 2 == a / 2 - 1 && (a - 1) % 2 == 1;
    }
  }

  // src/utils.c:117-120 with words of any size, where w is one more than the
  // greatest: the subtraction for 0 and the sum for a size that cannot be
  // rounded up wrap around.
  lemma MaskUp(n: nat, a: nat, w: nat)
    requires IsPowerOfTwo(a) && IsPowerOfTwo(w) && a < w && n < w
    ensures Wrapped(AndNot(Wrapped(n - 1, w), a - 1) + a, w) == Wrapped(RoundUp(n, a), w)
  {
    if n == 0 {
      MaskUpZero(a, w);
      WrapsToZero(w);
    } else {
      MaskUpPositive(n, a);
      SmallMod(n - 1, w);
    }
  }

  function Wrapped(x: int, w: nat): (r: nat)
    requires w > 0
    ensures r < w
  {
    x % w
  }

  lemma SmallMod(x: nat, w: nat)
    requires x < w
    ensures Wrapped(x, w) == x && Wrapped(x - w, w) == x
  {
    ModIs(x, x, 0, w);
    ModIs(x - w, x, -1, w);
  }

  lemma ModIs(y: int, x: nat, k: int, w: nat)
    requires x < w && y == w * k + x
    ensures y % w == x
  {
    var q, r := y / w, y % w;
    assert w * (q - k) == x - r;
    Scaled(q - k, w);
  }

  lemma WrapsToZero(w: nat)
    requires w > 0
    ensures Wrapped(w, w) == 0 == Wrapped(0, w)
  {
    ModIsZero(1, w);
    SmallMod(0, w);
  }

  lemma MaskUpZero(a: nat, w: nat)
    requires IsPowerOfTwo(a) && IsPowerOfTwo(w) && a < w
    ensures Wrapped(-1, w) == w - 1 && AndNot(w - 1, a - 1) + a == w && RoundUp(0, a) == 0
  {
    SmallMod(w - 1, w);
    MaskDown(w - 1, a);
    PowersDivide(a, w);
    ModIsZero(1, a);
    ModSum(w, a, a);
    RoundDownIs(w - 1, a, w - a);
    RoundUpIs(0, a, 0);
  }

  lemma MaskUpPositive(n: nat, a: nat)
    requires IsPowerOfTwo(a) && n > 0
    ensures AndNot(n - 1, a - 1) + a == RoundUp(n, a)
  {
    MaskDown(n - 1, a);
    ModIsZero(1, a);
    ModSum(RoundDown(n - 1, a), a, a);
    RoundUpIs(n, a, RoundDown(n - 1, a) + a);
  }

  // src/utils.c:78-81
  lemma {:induction false} OneBit(n: nat)
    ensures n > 0 && And(n, n - 1) == 0 <==> IsPowerOfTwo(n)
  {
    if n > 1 {
      if n % 2 == 0 {
        OneBit(n / 2);
        assert (n - 1) / 2 == n / 2 - 1;
      } else {
        assert (n - 1) / 2 == n / 2;
        AndSelf(n / 2);
      }
    }
  }

  lemma {:induction false} AndSelf(n: nat)
    ensures And(n, n) == n
  {
    if n > 0 {
      AndSelf(n / 2);
    }
  }

  // ---- The shift of an int ----

  // The bits of an int, and one more than the greatest unsigned long.
  datatype Machine = Machine(bits: nat, words: nat)
  {
    predicate Valid() {
      bits >= 2 && IsPowerOfTwo(words) && Exp2(bits) <= words
    }
  }

  // A number of an int's width in two's complement, where full is one more
  // than the greatest, converted to unsigned long.
  function Widened(v: nat, full: nat, words: nat): nat
    requires 0 < full <= words
  {
    var u := v % full;
    if 2 * u < full then u else words - (full - u)
  }

  lemma WidenedIs(v: nat, full: nat, words: nat)
    requires 0 < full <= words
    ensures 2 * v < full ==> Widened(v, full, words) == v
    ensures 2 * v == full ==> Widened(v, full, words) == words - v
    ensures v == full ==> Widened(v, full, words) == 0
  {
    if v < full {
      SmallMod(v, full);
    } else if v == full {
      ModIsZero(1, full);
    }
  }

  // 2 << l.  A shift by all the bits of an int is not defined.
  function Shifted(l: nat, k: Machine): Option<nat>
    requires k.Valid()
  {
    if l >= k.bits then None else Some(Widened(2 * Exp2(l), Exp2(k.bits), k.words))
  }

  // src/utils.c:87-95
  function RoundedPower(n: nat, k: Machine): Option<nat>
    requires k.Valid()
  {
    if n == 0 || IsPowerOfTwo(n) then Some(n) else Shifted(LogTwo(n), k)
  }

  // Small enough to be rounded up by a shift.
  predicate Shiftable(n: nat, k: Machine)
    requires k.Valid()
  {
    n == 0 || IsPowerOfTwo(n) || n < Exp2(k.bits - 2) || (k.words == Exp2(k.bits) && n < Exp2(k.bits - 1))
  }

  lemma {:induction false} Exp2Grows(i: nat, j: nat)
    requires i < j
    ensures 2 * Exp2(i) <= Exp2(j)
    decreases j
  {
    if i < j - 1 {
      Exp2Grows(i, j - 1);
    }
  }

  // A number that is no power of two lies between two of them.
  lemma LogBetween(n: nat, j: nat)
    requires n > 0 && !IsPowerOfTwo(n)
    ensures n < Exp2(j) <==> LogTwo(n) < j
    ensures Exp2(LogTwo(n)) < n < 2 * Exp2(LogTwo(n))
  {
    var l := LogTwo(n);
    LogTwoBounds(n);
    if l < j {
      Exp2Grows(l, j);
    } else if j < l {
      Exp2Grows(j, l);
    }
  }

  lemma ShiftedIs(l: nat, k: Machine)
    requires k.Valid()
    ensures l + 2 < k.bits ==> Shifted(l, k) == Some(2 * Exp2(l))
    ensures l + 2 == k.bits ==> Shifted(l, k) == Some(k.words - 2 * Exp2(l))
    ensures l + 1 == k.bits ==> Shifted(l, k) == Some(0)
    ensures l >= k.bits ==> Shifted(l, k) == None
  {
    WidenedIs(2 * Exp2(l), Exp2(k.bits), k.words);
    Exp2Next(l);
    Exp2Next(l + 1);
    if l + 2 < k.bits {
      Exp2Grows(l + 2, k.bits);
    }
  }

  lemma Exp2Next(l: nat)
    ensures Exp2(l + 1) == 2 * Exp2(l)
  {
  }

  // Between half of a power of two and itself there is no other.
  lemma NoPower(v: nat, w: nat)
    requires IsPowerOfTwo(w) && w < 2 * v && v < w
    ensures !IsPowerOfTwo(v)
  {
    if IsPowerOfTwo(v) {
      PowersOrder(w, v);
    }
  }

  // The shift rounds up to the least power of two that is not below n if and
  // only if n is small enough.  Otherwise it is not defined, 0, or no power of
  // two.
  lemma ShiftRoundsIff(n: nat, k: Machine)
    requires k.Valid() && n < k.words
    ensures var r := RoundedPower(n, k);
      && (Shiftable(n, k) ==> r == Some(PowerOfTwo(n)))
      && (!Shiftable(n, k) ==>
            || r == None || r == Some(0)
            || (r == Some(k.words - Exp2(k.bits - 1)) && !IsPowerOfTwo(r.value)))
  {
    if n > 0 && !IsPowerOfTwo(n) {
      ShiftableIs(n, k);
      ShiftedWrong(LogTwo(n), k);
    }
  }

  lemma ShiftableIs(n: nat, k: Machine)
    requires k.Valid() && n > 0 && !IsPowerOfTwo(n)
    ensures Shiftable(n, k) <==>
      LogTwo(n) + 2 < k.bits || (k.words == Exp2(k.bits) && LogTwo(n) + 1 < k.bits)
  {
    LogBetween(n, k.bits - 2);
    LogBetween(n, k.bits - 1);
  }

  lemma ShiftedWrong(l: nat, k: Machine)
    requires k.Valid()
    ensures var r := Shifted(l, k);
      if l + 2 < k.bits || (k.words == Exp2(k.bits) && l + 1 < k.bits) then r == Some(2 * Exp2(l))
      else
        || r == None || r == Some(0)
        || (r == Some(k.words - Exp2(k.bits - 1)) && !IsPowerOfTwo(r.value))
  {
    ShiftedIs(l, k);
    if l + 2 == k.bits {
      Exp2Next(l);
      Exp2Grows(l + 1, k.bits);
      HalfTooLarge(l, k);
    }
  }

  lemma HalfTooLarge(l: nat, k: Machine)
    requires k.Valid() && l + 2 == k.bits && 2 * Exp2(l) <= k.words
    ensures k.words == Exp2(k.bits) ==> k.words - 2 * Exp2(l) == 2 * Exp2(l)
    ensures k.words != Exp2(k.bits) ==> !IsPowerOfTwo(k.words - 2 * Exp2(l))
  {
    Exp2Next(l);
    Exp2Next(l + 1);
    if k.words != Exp2(k.bits) {
      if k.words < 2 * Exp2(k.bits) {
        PowersOrder(k.words, Exp2(k.bits));
      }
      NoPower(k.words - 2 * Exp2(l), k.words);
    }
  }

  // For instance 3 / 4 of the sign bit, where an unsigned long is longer than
  // an int: with 32 bits 1.5 times 2 to the power of 30.
  lemma ShiftExample(n: nat, l: nat, k: Machine)
    requires k.Valid() && k.words > Exp2(k.bits) && l + 2 == k.bits && 2 * n == 3 * Exp2(l)
    ensures !Shiftable(n, k) && RoundedPower(n, k) == Some(k.words - 2 * Exp2(l))
  {
    if IsPowerOfTwo(n) {
      PowersOrder(n, Exp2(l));
    }
    LogBetween(n, l);
    LogBetween(n, l + 1);
    Exp2Next(l);
    ShiftedIs(l, k);
  }
}
