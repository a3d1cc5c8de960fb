/** Bitwise `and` on unsigned words, powers of two, and reduction modulo a capacity. */
module BitMask {
  function Pow2(k: nat): (r: nat)
    ensures r >= 1
  {
    if k == 0 then 1 else 2 * Pow2(k - 1)
  }

  /** Bit by bit, least significant bit first. */
  function And(x: nat, y: nat): nat {
    if x == 0 || y == 0 then 0
    else 2 * And(x / 2, y / 2) + if x % 2 == 1 && y % 2 == 1 then 1 else 0
  }

  /** Subtraction of `std::size_t` values: 64-bit and wrapping. */
  function Sub64(a: nat, b: nat): nat {
    (a - b) % 0x1_0000_0000_0000_0000
  }

  /** A capacity that fits the 64-bit index type. */
  ghost predicate PowerOfTwo(c: nat) {
    exists k: nat :: k <= 63 && c == Pow2(k)
  }

  // ------------------------------------------------------------------ remainders

  lemma MulNonNegative(a: nat, n: nat)
    ensures a * n >= 0
  {
  }

  lemma MulDistinct(q: int, p: int, n: nat)
    requires q > p
    ensures q * n >= p * n + n
  {
    MulNonNegative(q - p - 1, n);
    assert (q - p - 1) * n == q * n - p * n - n;
  }

  lemma ModIs(a: int, n: nat, q: int, r: int)
    requires n > 0 && 0 <= r < n && a == q * n + r
    ensures a % n == r
  {
    assert a == (a / n) * n + a % n;
    if q > a / n { MulDistinct(q, a / n, n); }
    if q < a / n { MulDistinct(a / n, q, n); }
  }

  lemma ModShift(a: int, d: int, n: nat)
    requires n > 0
    ensures (a % n + d) % n == (a + d) % n
  {
    var q, r := (a % n + d) / n, (a % n + d) % n;
    assert a == (a / n) * n + a % n;
    assert a + d == (a / n + q) * n + r by {
      assert (a / n + q) * n == (a / n) * n + q * n;
    }
    ModIs(a + d, n, a / n + q, r);
  }

  /** Two numbers at most `n` apart fall into the same slot only when they are equal or a full turn apart. */
  lemma SameSlot(a: nat, d: nat, n: nat)
    requires n > 0 && d <= n
    ensures (a + d) % n == a % n <==> d == 0 || d == n
  {
    var q, r := a / n, a % n;
    assert a == q * n + r;
    if d == n {
      assert a + d == (q + 1) * n + r;
      ModIs(a + d, n, q + 1, r);
    } else if r + d < n {
      ModIs(a + d, n, q, r + d);
    } else {
      assert a + d == (q + 1) * n + (r + d - n);
      ModIs(a + d, n, q + 1, r + d - n);
    }
  }

  // ------------------------------------------------------------------ masks

  /** Peels the lowest bit off a remainder. */
  lemma ModPeel(x: nat, m: nat)
    requires m > 0
    ensures x % (2 * m) == 2 * ((x / 2) % m) + x % 2
  {
    var q, r := (x / 2) / m, (x / 2) % m;
    assert x / 2 == q * m + r;
    assert q * (2 * m) == 2 * (q * m);
    ModIs(x, 2 * m, q, 2 * r + x % 2);
  }

  /** Masking with `2^k - 1` is reduction modulo `2^k`. */
  lemma {:induction false} MaskIsMod(x: nat, k: nat)
    ensures And(x, Pow2(k) - 1) == x % Pow2(k)
  {
    if k == 0 {
      assert And(x, 0) == 0;
    } else if x != 0 {
      var m := Pow2(k - 1);
      MaskIsMod(x / 2, k - 1);
      ModPeel(x, m);
      var y := 2 * m - 1;
      assert y / 2 == m - 1 && y % 2 == 1;
    }
  }

  lemma CapacityMask(x: nat, c: nat)
    requires PowerOfTwo(c)
    ensures And(x, c - 1) == x % c
  {
    var k: nat :| k <= 63 && c == Pow2(k);
    MaskIsMod(x, k);
  }

  lemma {:induction false} AndSelf(m: nat)
    ensures And(m, m) == m
  {
    if m != 0 { AndSelf(m / 2); }
  }

  lemma {:induction false} Pow2Adds(j: nat, k: nat)
    ensures Pow2(j + k) == Pow2(j) * Pow2(k)
  {
    if j != 0 {
      Pow2Adds(j - 1, k);
      assert Pow2(j + k) == 2 * Pow2(j - 1 + k);
      assert 2 * (Pow2(j - 1) * Pow2(k)) == (2 * Pow2(j - 1)) * Pow2(k);
    }
  }

  lemma WordSize()
    ensures Pow2(64) == 0x1_0000_0000_0000_0000
  {
    assert Pow2(4) == 16;
    Pow2Adds(4, 4);
    Pow2Adds(8, 8);
    Pow2Adds(16, 16);
    Pow2Adds(32, 32);
  }

  lemma OddHasTwoBits(c: nat)
    requires c > 1 && c % 2 == 1
    ensures And(c, c - 1) == c - 1
  {
    AndSelf(c / 2);
    assert (c - 1) / 2 == c / 2;
  }

  /** The logarithm the static assertion implies, bit by bit. */
  lemma {:induction false} LogOf(c: nat) returns (k: nat)
    requires c >= 1 && And(c, c - 1) == 0
    ensures c == Pow2(k)
  {
    if c == 1 {
      k := 0;
    } else {
      if c % 2 == 1 { OddHasTwoBits(c); }
      assert (c - 1) / 2 == c / 2 - 1;
      k := LogOf(c / 2);
      k := k + 1;
    }
  }

  lemma {:induction false} Pow2HasOneBit(k: nat)
    ensures And(Pow2(k), Pow2(k) - 1) == 0
  {
    if k != 0 {
      Pow2HasOneBit(k - 1);
      assert (Pow2(k) - 1) / 2 == Pow2(k - 1) - 1;
    }
  }

  lemma Pow2TooWide(k: nat)
    requires k >= 64
    ensures Pow2(k) >= 0x1_0000_0000_0000_0000
  {
    WordSize();
    Pow2Adds(64, k - 64);
    assert Pow2(64) * Pow2(k - 64) >= Pow2(64);
  }

  /** The class's static assertion accepts exactly the powers of two, for every 64-bit capacity. */
  lemma StaticAssertIff(c: nat)
    requires 1 <= c < 0x1_0000_0000_0000_0000
    ensures And(c, c - 1) == 0 <==> PowerOfTwo(c)
  {
    if And(c, c - 1) == 0 {
      var k := LogOf(c);
      if k > 63 { Pow2TooWide(k); }
    }
    if PowerOfTwo(c) {
      var k: nat :| k <= 63 && c == Pow2(k);
      Pow2HasOneBit(k);
    }
  }

  lemma Regroup(q: int, c: nat, d: nat, p: int)
    ensures q * (c * d) + p * c == (q * d + p) * c
  {
  }

  lemma ModOfMod(a: int, c: nat, d: nat)
    requires c > 0 && d > 0 && c * d > 0
    ensures (a % (c * d)) % c == a % c
  {
    var w := c * d;
    var q, r := a / w, a % w;
    var p := r / c;
    assert a == q * w + r && r == p * c + r % c;
    Regroup(q, c, d, p);
    ModIs(a, c, q * d + p, r % c);
  }

  /** The masked 64-bit difference is the difference modulo the capacity, also when the
      subtraction wraps around. */
  lemma MaskedDifference(t: nat, h: nat, c: nat)
    requires PowerOfTwo(c)
    ensures And(Sub64(t, h), c - 1) == (t - h) % c
  {
    var k: nat :| k <= 63 && c == Pow2(k);
    MaskIsMod(Sub64(t, h), k);
    WordSize();
    Pow2Adds(k, 64 - k);
    ModOfMod(t - h, c, Pow2(64 - k));
  }
}
