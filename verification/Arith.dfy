/** Machine-word and ring-index arithmetic shared by the models. */
module Arith {

  const WORD: nat := 0x1_0000_0000

  type u32 = x: int | 0 <= x < 0x1_0000_0000
  type u16 = x: int | 0 <= x < 0x1_0000
  type u64 = x: int | 0 <= x < 0x1_0000_0000_0000_0000
  type u8 = x: int | 0 <= x < 0x100

  /** What C keeps of an integer stored in a `uint32_t`. */
  function Wrap32(x: int): u32 {
    x % 0x1_0000_0000
  }

  lemma WrapSmall(x: int)
    requires 0 <= x < WORD
    ensures Wrap32(x) == x
  {
  }

  lemma WrapAtMost(x: nat)
    ensures Wrap32(x) <= x
  {
  }

  lemma WrapAdd(a: int, b: int)
    ensures Wrap32(Wrap32(a) + b) == Wrap32(a + b)
  {
  }

  function Pow2(k: nat): (p: nat)
    ensures p >= 1
  {
    if k == 0 then 1 else 2 * Pow2(k - 1)
  }

  ghost predicate IsPow2(n: nat) {
    exists k: nat :: Pow2(k) == n
  }

  /** C's `&` on unsigned words, bit by bit. */
  function And(a: nat, b: nat): (r: nat)
    ensures r <= a && r <= b
  {
    if a == 0 || b == 0 then 0
    else (if a % 2 == 1 && b % 2 == 1 then 1 else 0) + 2 * And(a / 2, b / 2)
  }

  // ----- division -----

  lemma MulAtLeast(d: int, n: nat)
    requires d >= 1
    ensures d * n >= n
  {
    assert d * n == (d - 1) * n + n;
    assert (d - 1) * n >= 0;
  }

  /** Only zero times n is strictly between -n and n. */
  lemma MultipleBelow(d: int, n: nat)
    ensures d == 0 || d * n >= n || d * n <= -(n as int)
  {
    if d >= 1 {
      MulAtLeast(d, n);
    } else if d <= -1 {
      MulAtLeast(-d, n);
    }
  }

  lemma DivModUnique(x: int, q: int, r: int, n: nat)
    requires n > 0 && x == q * n + r && 0 <= r < n
    ensures x / n == q && x % n == r
  {
    var d, m := x / n, x % n;
    assert x == d * n + m;
    assert (q - d) * n == q * n - d * n;
    MultipleBelow(q - d, n);
  }

  lemma MulMono(a: nat, b: nat, c: nat)
    requires a <= b
    ensures a * c <= b * c
  {
  }

  /** Stepping a counter steps its ring index, with the reset the code writes as a comparison. */
  lemma ModSucc(x: nat, n: nat)
    requires n > 0
    ensures (x + 1) % n == (if x % n + 1 == n then 0 else x % n + 1)
    ensures (x + 1) / n == (if x % n + 1 == n then x / n + 1 else x / n)
  {
    var q, r := x / n, x % n;
    assert x == q * n + r;
    if r + 1 == n {
      assert x + 1 == (q + 1) * n + 0;
      DivModUnique(x + 1, q + 1, 0, n);
    } else {
      DivModUnique(x + 1, q, r + 1, n);
    }
  }

  lemma ModAddMultiple(x: int, m: int, n: nat)
    requires n > 0
    ensures (x + m * n) % n == x % n
    ensures (x + m * n) / n == x / n + m
  {
    var q, r := x / n, x % n;
    assert x + m * n == (q + m) * n + r;
    DivModUnique(x + m * n, q + m, r, n);
  }

  /** Two counters less than one ring apart sit in different slots. */
  lemma ModDistinct(a: nat, b: nat, n: nat)
    requires n > 0 && a < b < a + n
    ensures a % n != b % n
  {
    if a % n == b % n {
      var qa, qb := a / n, b / n;
      assert a == qa * n + a % n && b == qb * n + b % n;
      assert (qb - qa) * n == qb * n - qa * n;
      MultipleBelow(qb - qa, n);
    }
  }

  /** A distance below one ring is recovered from the two ring indices. */
  lemma ModDistance(a: nat, b: nat, n: nat)
    requires n > 0 && a <= b < a + n
    ensures (b % n + n - a % n) % n == b - a
  {
    var qa, ra, qb, rb := a / n, a % n, b / n, b % n;
    assert rb + n - ra == (qa - qb + 1) * n + (b - a);
    DivModUnique(rb + n - ra, qa - qb + 1, b - a, n);
  }

  /** Reducing modulo a multiple of n first loses nothing modulo n. */
  lemma ModOfMod(x: nat, n: nat, m: nat)
    requires n > 0 && m > 0
    ensures n * m > 0
    ensures (x % (n * m)) % n == x % n
  {
    assert n * m > 0;
    var q, r := x / (n * m), x % (n * m);
    assert x == q * (n * m) + r;
    assert x == r + (q * m) * n;
    ModAddMultiple(r, q * m, n);
  }

  // ----- powers of two and masks -----

  lemma {:induction false} Pow2Add(a: nat, b: nat)
    ensures Pow2(a + b) == Pow2(a) * Pow2(b)
  {
    if a > 0 {
      Pow2Add(a - 1, b);
    }
  }

  lemma {:induction false} Pow2Monotone(a: nat, b: nat)
    requires a < b
    ensures 2 * Pow2(a) <= Pow2(b)
  {
    if a + 1 < b {
      Pow2Monotone(a, b - 1);
    }
  }

  lemma Pow2Constants()
    ensures Pow2(30) == 0x4000_0000 && Pow2(31) == 0x8000_0000 && Pow2(32) == WORD
  {
    assert Pow2(4) == 16;
    Pow2Add(4, 4);
    assert Pow2(8) == 256;
    Pow2Add(8, 8);
    Pow2Add(16, 16);
    assert Pow2(31) == 2 * Pow2(30);
  }

  lemma AndStep(a: nat, b: nat)
    ensures And(a, b) == (if a % 2 == 1 && b % 2 == 1 then 1 else 0) + 2 * And(a / 2, b / 2)
  {
  }

  lemma AndOddMask(x: nat, m: nat, half: nat)
    requires m == 2 * half + 1
    ensures And(x, m) == x % 2 + 2 * And(x / 2, half)
  {
    AndStep(x, m);
  }

  function Shr(x: nat, n: nat): nat {
    if n == 0 then x else Shr(x / 2, n - 1)
  }

  /** The lowest k bits. */
  function Low(x: nat, k: nat): nat {
    if k == 0 then 0 else x % 2 + 2 * Low(x / 2, k - 1)
  }

  function Ones(k: nat): nat {
    if k == 0 then 0 else 1 + 2 * Ones(k - 1)
  }

  lemma {:induction false} AndOnes(x: nat, k: nat)
    ensures And(x, Ones(k)) == Low(x, k)
  {
    if k > 0 {
      AndOnes(x / 2, k - 1);
      AndStep(x, Ones(k));
    }
  }

  lemma {:induction false} LowOfSmall(x: nat, k: nat)
    ensures Low(x, k) < Pow2(k)
    ensures Low(x, k) == x <==> x < Pow2(k)
  {
    if k > 0 {
      LowOfSmall(x / 2, k - 1);
    }
  }

  lemma {:induction false} OnesBelowPow2(k: nat)
    ensures Ones(k) == Pow2(k) - 1
  {
    if k > 0 {
      OnesBelowPow2(k - 1);
    }
  }

  /** The low bits and the rest make up the number. */
  lemma {:induction false} LowAndRest(x: nat, k: nat)
    ensures x == Shr(x, k) * Pow2(k) + Low(x, k)
  {
    if k > 0 {
      LowAndRest(x / 2, k - 1);
      DoubleOut(Shr(x, k), Pow2(k - 1));
    }
  }

  lemma DoubleOut(a: nat, b: nat)
    ensures a * (2 * b) == 2 * (a * b)
  {
  }

  /** Masking with n - 1 is reduction modulo n exactly because n is a power of two. */
  lemma AndLowMask(x: nat, k: nat)
    ensures And(x, Pow2(k) - 1) == x % Pow2(k)
  {
    AndOnes(x, k);
    OnesBelowPow2(k);
    LowAndRest(x, k);
    LowOfSmall(x, k);
    DivModUnique(x, Shr(x, k), Low(x, k), Pow2(k));
  }

  /** The test `n & (n - 1)` of xgq_attach: zero exactly on the powers of two. */
  lemma {:induction false} AndPredecessor(n: nat)
    requires n > 0
    ensures And(n, n - 1) == 0 <==> IsPow2(n)
  {
    var h := n / 2;
    if n % 2 == 1 {
      AndSwapsLast(n, h);
      OddPow2(n);
    } else {
      AndPredecessor(h);
      AndOddMask(n, n - 1, h - 1);
      Pow2Half(h);
    }
  }

  lemma AndSwapsLast(n: nat, h: nat)
    requires n == 2 * h + 1
    ensures And(n, n - 1) == 2 * h
  {
    AndStep(n, n - 1);
    assert (n - 1) / 2 == h && n / 2 == h;
    AndSelf(h);
  }

  lemma Pow2Half(h: nat)
    requires h > 0
    ensures IsPow2(2 * h) <==> IsPow2(h)
  {
    if IsPow2(h) {
      var k: nat :| Pow2(k) == h;
      assert Pow2(k + 1) == 2 * h;
    }
    if IsPow2(2 * h) {
      var k: nat :| Pow2(k) == 2 * h;
      assert k > 0 && Pow2(k - 1) == h;
    }
  }

  lemma Pow2Parity(k: nat)
    ensures Pow2(k) % 2 == 1 <==> k == 0
  {
  }

  lemma OddPow2(n: nat)
    requires n % 2 == 1
    ensures IsPow2(n) <==> n == 1
  {
    assert Pow2(0) == 1;
    if IsPow2(n) {
      var k: nat :| Pow2(k) == n;
      Pow2Parity(k);
    }
  }

  lemma {:induction false} AndSelf(a: nat)
    ensures And(a, a) == a
  {
    if a > 0 {
      AndSelf(a / 2);
    }
  }

  /** A counter kept modulo 2^32 still names the right slot of a power-of-two ring. */
  lemma MaskOfWrapped(x: nat, n: nat)
    requires IsPow2(n) && n <= 0x8000_0000
    ensures n > 0 && And(Wrap32(x), n - 1) == x % n
  {
    var k: nat :| Pow2(k) == n;
    Pow2Constants();
    if k > 31 {
      Pow2Monotone(31, k);
    }
    AndLowMask(Wrap32(x), k);
    Pow2Add(k, 32 - k);
    ModOfMod(x, n, Pow2(32 - k));
  }
}
