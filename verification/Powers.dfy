/** Powers of two, bit lengths and alignment. */
module Powers {

  function Pow2(n: nat): (p: nat)
    ensures p > 0
  {
    if n == 0 then 1 else 2 * Pow2(n - 1)
  }

  lemma {:induction false} Pow2Add(a: nat, b: nat)
    ensures Pow2(a + b) == Pow2(a) * Pow2(b)
  {
    if b == 0 {
      assert Pow2(a + 0) == Pow2(a) * 1;
    } else {
      Pow2Add(a, b - 1);
      assert Pow2(a + b) == 2 * Pow2(a + (b - 1));
      Associate(Pow2(a), Pow2(b - 1));
    }
  }

  lemma Associate(x: int, y: int)
    ensures 2 * (x * y) == x * (2 * y)
  {
  }

  lemma {:induction false} Pow2Monotone(a: nat, b: nat)
    requires a <= b
    ensures Pow2(a) <= Pow2(b)
  {
    if a < b { Pow2Monotone(a, b - 1); }
  }

  /** The number of bits of `n`: `32 - leading_zeros` of a 32-bit `n`. */
  function BitLength(n: nat): nat {
    if n == 0 then 0 else 1 + BitLength(n / 2)
  }

  lemma {:induction false} BitLengthBounds(n: nat)
    ensures n < Pow2(BitLength(n))
    ensures n > 0 ==> BitLength(n) > 0 && Pow2(BitLength(n) - 1) <= n
  {
    if n > 0 {
      BitLengthBounds(n / 2);
    }
  }

  /** `BitLength(n)` is the least exponent whose power exceeds `n`. */
  lemma BitLengthLeast(n: nat, e: nat)
    ensures n < Pow2(e) <==> BitLength(n) <= e
  {
    BitLengthBounds(n);
    if BitLength(n) <= e {
      Pow2Monotone(BitLength(n), e);
    } else {
      Pow2Monotone(e, BitLength(n) - 1);
    }
  }

  /** `r` is `v` rounded up to a multiple of `a`. */
  ghost predicate RoundedUp(v: nat, a: nat, r: nat)
    requires a > 0
  {
    r % a == 0 && v <= r < v + a
  }

  lemma RoundUp(v: nat, a: nat)
    requires a > 0
    ensures RoundedUp(v, a, (v + a - 1) / a * a)
  {
    var q := (v + a - 1) / a;
    assert v + a - 1 == q * a + (v + a - 1) % a;
    MultipleMod(q, a);
  }

  lemma MultipleMod(q: nat, a: nat)
    requires a > 0
    ensures q * a % a == 0 && q * a / a == q
  {
    Divide(q, 0, a);
  }

  lemma Distribute(x: int, y: int, z: int)
    ensures (x - y) * z == x * z - y * z
  {
  }

  lemma AtLeastOne(k: int, z: nat)
    ensures k >= 1 ==> k * z >= z
    ensures k <= -1 ==> k * z + z <= 0
  {
  }

  /** Division recovers the two digits of a number. */
  lemma Divide(hi: nat, lo: nat, base: nat)
    requires lo < base
    ensures (hi * base + lo) / base == hi && (hi * base + lo) % base == lo
  {
    var n := hi * base + lo;
    QuotientUnique(n, base, hi, lo, n / base, n % base);
  }

  lemma QuotientUnique(n: int, base: nat, hi: int, lo: nat, hi': int, lo': nat)
    requires lo < base && lo' < base && n == hi * base + lo && n == hi' * base + lo'
    ensures hi == hi' && lo == lo'
  {
    Distribute(hi, hi', base);
    AtLeastOne(hi - hi', base);
  }

  /** A multiple of `a` at or above `v` is at or above `v` rounded up. */
  lemma RoundedUpLeast(v: nat, a: nat, r: nat, bound: nat)
    requires a > 0 && RoundedUp(v, a, r) && bound % a == 0 && v <= bound
    ensures r <= bound
  {
    var p, q := r / a, bound / a;
    assert r == p * a && bound == q * a;
    Distribute(p, q, a);
    AtLeastOne(p - q, a);
  }

  lemma ModMod(x: nat, k: nat, a: nat, m: nat)
    requires a > 0 && k > 0 && m == k * a
    ensures x % m % a == x % a
  {
    var q, u := x / m, x % m;
    var b, r := u / a, u % a;
    assert x == q * m + u && u == b * a + r;
    Factor(q, k, b, a);
    Divide(q * k + b, r, a);
  }

  lemma Factor(q: int, k: int, b: int, a: int)
    ensures q * (k * a) + b * a == (q * k + b) * a
  {
  }

  /** A quotient of a quotient. */
  lemma DivDiv(a: int, b: nat, c: nat)
    requires b > 0 && c > 0
    ensures b * c > 0 && a / b / c == a / (b * c)
  {
    var q, r := a / b, a % b;
    var q2, r2 := q / c, q % c;
    assert a == q * b + r && q == q2 * c + r2;
    RegroupDigits(q2, c, r2, b);
    TwoDigits(r2, c, r, b);
    assert a == q2 * (b * c) + (r2 * b + r);
    QuotientUnique(a, b * c, q2, r2 * b + r, a / (b * c), a % (b * c));
  }

  lemma RegroupDigits(q: int, c: int, r: int, b: int)
    ensures (q * c + r) * b == q * (b * c) + r * b
  {
  }

  lemma TwoDigits(r2: nat, c: nat, r: nat, b: nat)
    requires r2 < c && r < b
    ensures 0 <= r2 * b + r < b * c && b * c > 0
  {
    assert (r2 + 1) * b <= c * b;
  }

  /** `v & !m`, bit by bit. */
  function AndNot(v: nat, m: nat): nat {
    if v == 0 then 0 else (if m % 2 == 1 then 0 else v % 2) + 2 * AndNot(v / 2, m / 2)
  }

  lemma {:induction false} AndNotNone(v: nat)
    ensures AndNot(v, 0) == v
  {
    if v > 0 { AndNotNone(v / 2); }
  }

  lemma AndNotOdd(v: nat, half: nat)
    requires half > 0
    ensures AndNot(v, 2 * half - 1) == 2 * AndNot(v / 2, half - 1)
  {
    assert (2 * half - 1) % 2 == 1 && (2 * half - 1) / 2 == half - 1;
  }

  /** Clearing the low bits rounds down to a multiple of a power of two. */
  lemma {:induction false} AndNotLow(v: nat, e: nat)
    ensures AndNot(v, Pow2(e) - 1) == v / Pow2(e) * Pow2(e)
  {
    hide AndNot;
    if e == 0 {
      AndNotNone(v);
    } else {
      var half := Pow2(e - 1);
      AndNotLow(v / 2, e - 1);
      AndNotOdd(v, half);
      DivDiv(v, 2, half);
      Associate(v / 2 / half, half);
    }
  }
}
