/** Machine-word arithmetic of the allocator: 64-bit wrap-around, the bitwise
    `and` with a mask, and the two helpers built on it. Words are natural
    numbers below `WORD`; `And` is defined bit by bit. */
module BitArithmetic {

  const WORD: nat := 0x1_0000_0000_0000_0000

  function Pow2(k: nat): (r: nat)
    ensures r >= 1
  {
    if k == 0 then 1 else 2 * Pow2(k - 1)
  }

  /** Bitwise conjunction. */
  function And(x: nat, y: nat): (r: nat)
    ensures r <= x
    decreases x
  {
    if x == 0 || y == 0 then 0
    else (if x % 2 == 1 && y % 2 == 1 then 1 else 0) + 2 * And(x / 2, y / 2)
  }

  /** Wrapping 64-bit addition and subtraction. */
  function WrapAdd(x: nat, y: nat): (r: nat)
    requires x < WORD && y < WORD
    ensures r < WORD
  {
    if x + y < WORD then x + y else x + y - WORD
  }

  function WrapSub(x: nat, y: nat): (r: nat)
    requires x < WORD && y < WORD
    ensures r < WORD
  {
    if y <= x then x - y else x + WORD - y
  }

  /** `value != 0 && (value & (value - 1)) == 0` on 64-bit words. */
  predicate IsPowerOfTwo(value: nat)
    requires value < WORD
  {
    value != 0 && And(value, WrapSub(value, 1)) == 0
  }

  /** `(value + alignment - 1) & ~(alignment - 1)` on 64-bit words. */
  function AlignUp(value: nat, alignment: nat): (r: nat)
    requires value < WORD && 0 < alignment < WORD
    ensures r < WORD
  {
    And(WrapAdd(value, alignment - 1), WORD - 1 - (alignment - 1))
  }

  lemma {:induction false} Pow2Doubles(j: nat, k: nat)
    ensures Pow2(j + k) == Pow2(j) * Pow2(k)
  {
    if j > 0 {
      Pow2Doubles(j - 1, k);
      Regroup(Pow2(j - 1), Pow2(k));
    }
  }

  lemma Regroup(x: nat, y: nat)
    ensures 2 * (x * y) == (2 * x) * y
  {}

  lemma WordWidth() returns (n: nat)
    ensures n == 64 && Pow2(n) == WORD
  {
    n := 64;
    assert Pow2(2) == 4;
    Pow2Doubles(2, 2);
    Pow2Doubles(4, 4);
    Pow2Doubles(8, 8);
    Pow2Doubles(16, 16);
    Pow2Doubles(32, 32);
  }

  lemma {:induction false} Pow2Monotone(j: nat, k: nat)
    requires j <= k
    ensures Pow2(j) <= Pow2(k)
    ensures j < k ==> 2 * Pow2(j) <= Pow2(k)
    decreases k - j
  {
    if j < k { Pow2Monotone(j + 1, k); }
  }

  lemma {:induction false} AndSelf(x: nat)
    ensures And(x, x) == x
  {
    if x > 0 { AndSelf(x / 2); }
  }

  lemma MulStep(m: nat, a: int, b: int)
    requires a < b
    ensures m * a + m <= m * b
  {
    assert m * (b - a - 1) >= 0;
    assert m * (b - a - 1) == m * b - m * a - m;
  }

  lemma MulOrder(x: int, y: int, n: nat)
    requires x <= y
    ensures x * n <= y * n && (0 <= x ==> 0 <= x * n)
  {
    if x < y { MulStep(n, x, y); }
  }

  /** A number has one quotient and one remainder in any base. */
  lemma DigitEqual(base: nat, x: nat, d: nat, y: nat, e: nat)
    requires d < base && e < base && base * x + d == base * y + e
    ensures x == y && d == e
  {
    if x < y { MulStep(base, x, y); } else if y < x { MulStep(base, y, x); }
  }

  /** The quotient and remainder of a division are unique. */
  lemma ModUnique(x: int, m: int, q: int, r: int)
    requires 0 <= r < m
    requires x == m * q + r
    ensures x % m == r && x / m == q
  {
    Division(x, m);
    Quotients(m, q, r, x / m, x % m);
  }

  lemma Division(x: int, m: int)
    requires m > 0
    ensures x == m * (x / m) + x % m && 0 <= x % m < m
  {}

  lemma Quotients(m: int, q: int, r: int, s: int, t: int)
    requires 0 <= r < m && 0 <= t < m && m * q + r == m * s + t
    ensures q == s && r == t
  {
    if q > s { MulStep(m, s, q); } else if q < s { MulStep(m, q, s); }
  }

  lemma ModHalves(v: nat, m: nat)
    requires m > 0
    ensures v % (2 * m) == v % 2 + 2 * ((v / 2) % m)
  {
    var q, r := (v / 2) / m, (v / 2) % m;
    assert v / 2 == m * q + r;
    assert v == (2 * m) * q + (v % 2 + 2 * r) by {
      assert v == 2 * (v / 2) + v % 2;
      assert 2 * (m * q) == (2 * m) * q;
    }
    ModUnique(v, 2 * m, q, v % 2 + 2 * r);
  }

  lemma {:induction false} AndAll(v: nat, n: nat)
    requires v < Pow2(n)
    ensures And(v, Pow2(n) - 1) == v
  {
    if n > 0 {
      AndAll(v / 2, n - 1);
      assert (Pow2(n) - 1) / 2 == Pow2(n - 1) - 1;
    }
  }

  /** Masking with `2^n - 2^k` clears the low `k` bits. */
  lemma {:induction false} AndMask(v: nat, n: nat, k: nat)
    requires k <= n && v < Pow2(n)
    ensures Pow2(k) <= Pow2(n)
    ensures And(v, Pow2(n) - Pow2(k)) == v - v % Pow2(k)
    decreases n
  {
    hide And;
    Pow2Monotone(k, n);
    if k == 0 {
      AndAll(v, n);
      ModUnique(v, 1, v, 0);
    } else {
      AndMask(v / 2, n - 1, k - 1);
      MaskStep(v, Pow2(n - 1) - Pow2(k - 1), Pow2(k - 1));
    }
  }

  lemma MaskStep(v: nat, half: nat, low: nat)
    requires 0 < low && And(v / 2, half) == v / 2 - v / 2 % low
    ensures And(v, 2 * half) == v - v % (2 * low)
  {
    AndDoubled(v, half);
    Halve(v, low);
  }

  /** Clearing low bits commutes with halving. */
  lemma Halve(v: nat, m: nat)
    requires m > 0
    ensures 2 * (v / 2 - v / 2 % m) == v - v % (2 * m)
  {
    ModHalves(v, m);
  }

  lemma Digits(x: nat, d: nat) returns (q: nat, r: nat)
    requires d > 0
    ensures x == d * q + r && r < d && q == x / d && r == x % d
  {
    q, r := x / d, x % d;
    Division(x, d);
  }

  lemma AndDoubled(v: nat, half: nat)
    ensures And(v, 2 * half) == 2 * And(v / 2, half)
  {
    assert (2 * half) / 2 == half && (2 * half) % 2 == 0;
  }

  /** The alignment test accepts exactly the powers of two. */
  lemma {:induction false} IsPowerOfTwoMeaning(value: nat)
    requires value < WORD
    ensures IsPowerOfTwo(value) <==> exists k: nat :: k < 64 && value == Pow2(k)
  {
    if IsPowerOfTwo(value) {
      var k := SingleBit(value);
      if k >= 64 {
        var n := WordWidth();
        Pow2Monotone(n, k);
      }
    }
    if exists k: nat :: k < 64 && value == Pow2(k) {
      var k: nat :| k < 64 && value == Pow2(k);
      PowerHasSingleBit(k);
    }
  }

  lemma {:induction false} PowerHasSingleBit(k: nat)
    ensures And(Pow2(k), Pow2(k) - 1) == 0
  {
    if k > 0 {
      PowerHasSingleBit(k - 1);
      assert (Pow2(k) - 1) / 2 == Pow2(k - 1) - 1;
    }
  }

  lemma OddHasMoreBits(value: nat)
    requires value > 1 && value % 2 == 1
    ensures And(value, value - 1) > 0
  {
    AndSelf(value / 2);
    assert (value - 1) / 2 == value / 2;
  }

  lemma {:induction false} SingleBit(value: nat) returns (k: nat)
    requires value > 0 && And(value, value - 1) == 0
    ensures value == Pow2(k)
  {
    if value == 1 {
      k := 0;
    } else {
      if value % 2 == 1 { OddHasMoreBits(value); }
      assert (value - 1) / 2 == value / 2 - 1;
      k := SingleBit(value / 2);
      k := k + 1;
    }
  }

  /** `r` is the smallest multiple of `m` that is at least `v`. */
  ghost predicate LeastMultipleFrom(r: nat, v: nat, m: nat)
    requires m > 0
  {
    r >= v && r % m == 0 && forall x: nat :: x >= v && x % m == 0 ==> r <= x
  }

  lemma MultiplesApart(x: nat, r: nat, m: nat)
    requires m > 0 && r % m == 0 && x % m == 0 && x < r
    ensures x + m <= r
  {
    assert r == m * (r / m) && x == m * (x / m);
    if x / m < r / m { MulStep(m, x / m, r / m); } else if r / m < x / m { MulStep(m, r / m, x / m); }
  }

  lemma NearMultipleIsLeast(r: nat, v: nat, m: nat)
    requires m > 0 && r % m == 0 && v <= r < v + m
    ensures LeastMultipleFrom(r, v, m)
  {
    forall x: nat | x >= v && x % m == 0 ensures r <= x {
      if x + m <= r || r <= x {} else { MultiplesApart(x, r, m); }
    }
  }

  lemma RoundDown(x: nat, m: nat)
    requires m > 0
    ensures (x - x % m) % m == 0
  {
    assert x == m * (x / m) + x % m;
    ModUnique(x - x % m, m, x / m, 0);
  }

  lemma MaskWord(x: nat, k: nat)
    requires x < WORD && k < 64
    ensures 0 < Pow2(k) < WORD
    ensures And(x, WORD - Pow2(k)) == x - x % Pow2(k)
  {
    var n := WordWidth();
    Pow2Monotone(k, n);
    AndMask(x, n, k);
  }

  lemma AlignUpValue(value: nat, k: nat, m: nat)
    requires value < WORD && k < 64 && m == Pow2(k)
    ensures 0 < m < WORD
    ensures var raised := WrapAdd(value, m - 1);
            AlignUp(value, m) == raised - raised % m
    ensures AlignUp(value, m) % m == 0
  {
    MaskWord(0, k);
    MaskWord(WrapAdd(value, m - 1), k);
    RoundDown(WrapAdd(value, m - 1), m);
  }

  lemma AlignUpInRange(value: nat, k: nat, m: nat)
    requires k < 64 && m == Pow2(k) < WORD && value <= WORD - m
    ensures LeastMultipleFrom(AlignUp(value, m), value, m)
    ensures AlignUp(value, m) < value + m
  {
    AlignUpValue(value, k, m);
    NearMultipleIsLeast(AlignUp(value, m), value, m);
  }

  lemma AlignUpWraps(value: nat, k: nat, m: nat)
    requires k < 64 && m == Pow2(k) < WORD && WORD - m < value < WORD
    ensures AlignUp(value, m) == 0
    ensures LeastMultipleFrom(WORD, value, m)
  {
    AlignUpValue(value, k, m);
    var raised := value + m - 1 - WORD;
    ModUnique(raised, m, 0, raised);
    WordIsMultiple(k);
    NearMultipleIsLeast(WORD, value, m);
  }

  /** `align_up` is the least multiple at or above its argument, for every power
      of two, exactly when that multiple is below 2^64; otherwise it is zero. */
  lemma AlignUpMeaning(value: nat, k: nat)
    requires value < WORD && k < 64
    ensures 0 < Pow2(k) < WORD
    ensures LeastMultipleFrom(AlignUp(value, Pow2(k)), value, Pow2(k)) <==> value <= WORD - Pow2(k)
    ensures value > WORD - Pow2(k) ==> AlignUp(value, Pow2(k)) == 0 && LeastMultipleFrom(WORD, value, Pow2(k))
  {
    var m := Pow2(k);
    MaskWord(0, k);
    if value <= WORD - m { AlignUpInRange(value, k, m); } else { AlignUpWraps(value, k, m); }
  }

  lemma {:induction false} WordIsMultiple(k: nat)
    requires k <= 64
    ensures WORD % Pow2(k) == 0
  {
    var n := WordWidth();
    PowDivides(k, n);
  }

  lemma {:induction false} PowDivides(k: nat, n: nat)
    requires k <= n
    ensures Pow2(n) % Pow2(k) == 0
    decreases n - k
  {
    if k < n {
      PowDivides(k, n - 1);
      var q := Pow2(n - 1) / Pow2(k);
      assert Pow2(n - 1) == Pow2(k) * q;
      assert Pow2(n) == Pow2(k) * (2 * q);
      ModUnique(Pow2(n), Pow2(k), 2 * q, 0);
    } else {
      ModUnique(Pow2(n), Pow2(n), 1, 0);
    }
  }
}
