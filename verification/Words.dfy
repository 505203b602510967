/** Machine words of any width as naturals: bitwise operations, wrap-around and two's complement. */
module Words {

  function Pow2(k: nat): (p: nat)
    ensures p > 0
  {
    if k == 0 then 1 else 2 * Pow2(k - 1)
  }

  ghost predicate IsPow2(n: nat) {
    exists k: nat :: n == Pow2(k)
  }

  function BitAnd(a: nat, b: nat): (r: nat)
    ensures r <= b
  {
    if a == 0 || b == 0 then 0
    else 2 * BitAnd(a / 2, b / 2) + (if a % 2 == 1 && b % 2 == 1 then 1 else 0)
  }

  /** `~a` on w bits. */
  function BitNot(w: nat, a: nat): nat
    requires a < Pow2(w)
  {
    Pow2(w) - 1 - a
  }

  /** Word x of a machine with m = 2^w word values, read as a two's complement number. */
  function Signed(m: nat, x: int): int {
    if 2 * x < m then x else x - m
  }

  /** The constructor's test `(size_ != 0) && ((size_ & (~size_ + 1)) == size_)`. */
  predicate SizeTest(w: nat, size: nat)
    requires size < Pow2(w)
  {
    size != 0 && BitAnd(size, (BitNot(w, size) + 1) % Pow2(w)) == size
  }

  // ---------------------------------------------------------------------------------------------

  lemma ModUnique(x: int, m: int, k: int, r: int)
    requires 0 <= r < m && x == m * k + r
    ensures x % m == r && x / m == k
  {
    var d := k - x / m;
    assert m * d == x % m - r;
    assert d >= 1 ==> m * d >= m;
    assert d <= -1 ==> m * d <= -m;
  }

  /** Adding a constant commutes with wrapping. */
  lemma WrapAdd(x: int, c: int, m: int)
    requires m > 0
    ensures (x % m + c) % m == (x + c) % m
  {
    var y := x % m + c;
    assert x + c == m * (x / m) + y;
    assert x + c == m * (x / m + y / m) + y % m;
    ModUnique(x + c, m, x / m + y / m, y % m);
  }

  /** Wrapping to a multiple of n first does not change the remainder modulo n. */
  lemma WrapThenMod(x: int, n: int, k: int)
    requires n > 0 && k > 0 && n * k > 0
    ensures (x % (n * k)) % n == x % n
  {
    var m := n * k;
    var y := x % m;
    assert x == m * (x / m) + y;
    assert x == n * (k * (x / m) + y / n) + y % n;
    ModUnique(x, n, k * (x / m) + y / n, y % n);
  }

  /** Differences within half the range survive wrapping and the signed reading. */
  lemma SignedDifference(m: nat, a: int, b: int)
    requires m > 0 && 2 * (b - a) <= m && 2 * (a - b) < m
    ensures Signed(m, (a % m - b % m) % m) == a - b
  {
    var d := a % m - b % m;
    var k := b / m - a / m;
    assert d == (a - b) + m * k;
    if a - b >= 0 {
      ModUnique(d, m, k, a - b);
    } else {
      assert d == m * (k - 1) + (a - b + m);
      ModUnique(d, m, k - 1, a - b + m);
    }
  }

  /** Less than a lap back, the distance is found on wrapped numbers. */
  lemma WrapDistance(m: nat, a: int, b: int)
    requires b <= a < b + m
    ensures (a % m - b % m) % m == a - b
  {
    var d, k := a % m - b % m, b / m - a / m;
    assert d == (a - b) + m * k;
    ModUnique(d, m, k, a - b);
  }

  /** Two numbers less than the modulus apart are equal exactly when they wrap to the same word. */
  lemma WrapInjective(a: int, b: int, m: int)
    requires m > 0 && b <= a < b + m
    ensures a % m == b % m <==> a == b
  {
    if a % m == b % m {
      var k := a / m - b / m;
      assert a - b == m * k;
      assert k >= 1 ==> m * k >= m;
      assert k <= -1 ==> m * k <= -m;
    }
  }

  // ---------------------------------------------------------------------------------------------

  /** Masking with 2^k - 1 is the remainder modulo 2^k. */
  lemma {:induction false} MaskIsMod(x: nat, k: nat)
    ensures BitAnd(x, Pow2(k) - 1) == x % Pow2(k)
    decreases k
  {
    if k > 0 {
      MaskIsMod(x / 2, k - 1);
      MaskOneBit(x, Pow2(k - 1), Pow2(k));
    }
  }

  lemma MaskOneBit(x: nat, p: nat, m: nat)
    requires p > 0 && m == 2 * p && BitAnd(x / 2, p - 1) == (x / 2) % p
    ensures BitAnd(x, m - 1) == x % m
  {
    AndOdd(x, p - 1);
    assert m - 1 == 2 * (p - 1) + 1;
    HalfMod(x, p, m);
  }

  lemma AndOdd(x: nat, h: nat)
    ensures BitAnd(x, 2 * h + 1) == 2 * BitAnd(x / 2, h) + x % 2
  {
    assert (2 * h + 1) / 2 == h && (2 * h + 1) % 2 == 1;
    if x == 0 {
      assert BitAnd(0, h) == 0;
    }
  }

  lemma HalfMod(x: nat, p: nat, m: nat)
    requires p > 0 && m == 2 * p
    ensures x % m == 2 * ((x / 2) % p) + x % 2
  {
    var q, r := (x / 2) / p, (x / 2) % p;
    assert x / 2 == p * q + r;
    assert x == m * q + (2 * r + x % 2);
    ModUnique(x, m, q, 2 * r + x % 2);
  }

  lemma {:induction false} AndComplement(w: nat, a: nat)
    requires a < Pow2(w)
    ensures BitAnd(a, Pow2(w) - 1 - a) == 0
    decreases w
  {
    if w > 0 {
      AndComplement(w - 1, a / 2);
      assert (Pow2(w) - 1 - a) / 2 == Pow2(w - 1) - 1 - a / 2;
    }
  }

  lemma EvenPow2(n: nat)
    requires n > 0
    ensures IsPow2(2 * n) <==> IsPow2(n)
  {
    if IsPow2(n) {
      var k: nat :| n == Pow2(k);
      assert 2 * n == Pow2(k + 1);
    }
    if IsPow2(2 * n) {
      var k: nat :| 2 * n == Pow2(k);
      assert n == Pow2(k - 1);
    }
  }

  lemma OddPow2(n: nat)
    requires n % 2 == 1
    ensures IsPow2(n) <==> n == 1
  {
    if n == 1 {
      assert n == Pow2(0);
    }
    if IsPow2(n) {
      var k: nat :| n == Pow2(k);
    }
  }

  /** `n & -n` is the lowest set bit, which is all of n exactly for a power of two. */
  lemma {:induction false} LowestBit(w: nat, n: nat)
    requires 0 < n < Pow2(w)
    ensures BitAnd(n, Pow2(w) - n) == n <==> IsPow2(n)
    decreases w
  {
    if n % 2 == 1 {
      AndComplement(w - 1, n / 2);
      assert (Pow2(w) - n) / 2 == Pow2(w - 1) - 1 - n / 2;
      OddPow2(n);
    } else {
      LowestBit(w - 1, n / 2);
      assert (Pow2(w) - n) / 2 == Pow2(w - 1) - n / 2;
      EvenPow2(n / 2);
    }
  }

  /** The constructor accepts exactly the powers of two, at every word width. */
  lemma SizeTestIff(w: nat, size: nat)
    requires size < Pow2(w)
    ensures SizeTest(w, size) <==> IsPow2(size)
  {
    if size == 0 {
      assert !IsPow2(0);
    } else {
      ModUnique(Pow2(w) - size, Pow2(w), 0, Pow2(w) - size);
      LowestBit(w, size);
    }
  }

  /** A power of two below 2^w divides it at least once more. */
  lemma {:induction false} Pow2Divides(j: nat, w: nat)
    requires j < w
    ensures Pow2(w) == Pow2(j) * Pow2(w - j) && 2 * Pow2(j) <= Pow2(w)
    decreases w
  {
    if j + 1 == w {
      assert Pow2(1) == 2 * Pow2(0);
    } else {
      Pow2Divides(j, w - 1);
      assert Pow2(w - j) == 2 * Pow2(w - 1 - j);
    }
  }

  lemma {:induction false} Pow2Monotone(j: nat, w: nat)
    requires Pow2(j) < Pow2(w)
    ensures j < w
    decreases j
  {
    if w == 0 {
    } else if j > 0 {
      Pow2Monotone(j - 1, w - 1);
    }
  }
}
