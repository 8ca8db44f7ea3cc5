/** Residues: congruence, primes, Euclid's lemma and Fermat's little theorem. */
module ModArith {

  /** `a` lies `k` times `m` above `b`. */
  ghost predicate Apart(a: int, b: int, m: nat, k: int) {
    a == b + m * k
  }

  ghost predicate Cong(a: int, b: int, m: nat)
    requires m > 0
  {
    exists k: int :: Apart(a, b, m, k)
  }

  ghost predicate Prime(p: nat) {
    p > 1 && forall d: nat :: 1 < d < p ==> p % d != 0
  }

  lemma CongIntro(a: int, b: int, m: nat, k: int)
    requires m > 0 && a == b + m * k
    ensures Cong(a, b, m)
  {
    assert Apart(a, b, m, k);
  }

  lemma CongRefl(a: int, m: nat)
    requires m > 0
    ensures Cong(a, a, m)
  {
    CongIntro(a, a, m, 0);
  }

  lemma CongSym(a: int, b: int, m: nat)
    requires m > 0 && Cong(a, b, m)
    ensures Cong(b, a, m)
  {
    var k :| Apart(a, b, m, k);
    assert m * (-k) == -(m * k);
    CongIntro(b, a, m, -k);
  }

  lemma CongTrans(a: int, b: int, c: int, m: nat)
    requires m > 0 && Cong(a, b, m) && Cong(b, c, m)
    ensures Cong(a, c, m)
  {
    var j :| Apart(a, b, m, j);
    var k :| Apart(b, c, m, k);
    assert m * (j + k) == m * j + m * k;
    CongIntro(a, c, m, j + k);
  }

  lemma CongAdd(a: int, b: int, c: int, d: int, m: nat)
    requires m > 0 && Cong(a, b, m) && Cong(c, d, m)
    ensures Cong(a + c, b + d, m) && Cong(a - c, b - d, m)
  {
    var j :| Apart(a, b, m, j);
    var k :| Apart(c, d, m, k);
    assert m * (j + k) == m * j + m * k && m * (j - k) == m * j - m * k;
    CongIntro(a + c, b + d, m, j + k);
    CongIntro(a - c, b - d, m, j - k);
  }

  lemma MoveOut(b: int, m: int, k: int)
    ensures b * (m * k) == m * (b * k) && (m * k) * b == m * (k * b)
  {
  }

  lemma Expand(b: int, x: int, d: int, y: int)
    ensures (b + x) * (d + y) == b * d + b * y + x * d + x * y
  {
  }

  lemma Collect(m: int, u: int, v: int, w: int)
    ensures m * u + m * v + m * w == m * (u + v + w)
  {
  }

  lemma CongMul(a: int, b: int, c: int, d: int, m: nat)
    requires m > 0 && Cong(a, b, m) && Cong(c, d, m)
    ensures Cong(a * c, b * d, m)
  {
    var j :| Apart(a, b, m, j);
    var k :| Apart(c, d, m, k);
    var y := m * k;
    Expand(b, m * j, d, y);
    MoveOut(b, m, k);
    MoveOut(d, m, j);
    MoveOut(y, m, j);
    Collect(m, b * k, j * d, j * y);
    CongIntro(a * c, b * d, m, b * k + j * d + j * y);
  }

  lemma CongMod(a: int, m: nat)
    requires m > 0
    ensures Cong(a % m, a, m)
  {
    assert a == m * (a / m) + a % m;
    assert m * (-(a / m)) == -(m * (a / m));
    CongIntro(a % m, a, m, -(a / m));
  }

  /** Congruent residues are equal. */
  lemma CongSmall(a: nat, b: nat, m: nat)
    requires m > 0 && Cong(a, b, m) && a < m && b < m
    ensures a == b
  {
    var k :| Apart(a, b, m, k);
    if k != 0 {
      FarApart(m, k);
    }
  }

  lemma FarApart(m: nat, k: int)
    requires k != 0
    ensures m * k >= m || m * k <= -(m as int)
  {
    if k >= 1 {
      assert m * (k - 1) >= 0;
    } else {
      assert m * (-1 - k) >= 0;
    }
  }

  lemma CongIffMod(a: int, b: int, m: nat)
    requires m > 0
    ensures Cong(a, b, m) <==> a % m == b % m
  {
    CongMod(a, m);
    CongMod(b, m);
    if Cong(a, b, m) {
      CongTrans(a % m, a, b, m);
      CongSym(b % m, b, m);
      CongTrans(a % m, b, b % m, m);
      CongSmall(a % m, b % m, m);
    } else if a % m == b % m {
      CongSym(a % m, a, m);
      CongTrans(a, a % m, b, m);
    }
  }

  // ── Powers ───────────────────────────────────────────────────────────────

  function Pow(a: int, e: nat): int {
    if e == 0 then 1 else a * Pow(a, e - 1)
  }

  lemma {:induction false} PowSum(a: int, d: nat, e: nat)
    ensures Pow(a, d + e) == Pow(a, d) * Pow(a, e)
    decreases d
  {
    if d > 0 {
      PowSum(a, d - 1, e);
      assert a * (Pow(a, d - 1) * Pow(a, e)) == (a * Pow(a, d - 1)) * Pow(a, e);
    }
  }

  // ── Euclid's lemma ───────────────────────────────────────────────────────

  /** A number below the prime that is not zero cancels. */
  lemma {:induction false} Cancel(p: nat, d: nat, b: int)
    requires Prime(p) && 0 < d < p && Cong(d * b, 0, p)
    ensures Cong(b, 0, p)
    decreases d
  {
    if d == 1 {
      assert d * b == b;
    } else {
      var q, r := p / d, p % d;
      assert p == d * q + r;
      assert r * b == p * b - q * (d * b) by {
        assert (d * q + r) * b == q * (d * b) + r * b;
      }
      CongRefl(q, p);
      CongMul(q, q, d * b, 0, p);
      CongIntro(p * b, 0, p, b);
      CongAdd(p * b, 0, q * (d * b), q * 0, p);
      Cancel(p, r, b);
    }
  }

  lemma Euclid(p: nat, a: int, b: int)
    requires Prime(p) && Cong(a * b, 0, p)
    ensures Cong(a, 0, p) || Cong(b, 0, p)
  {
    CongMod(a, p);
    var d := a % p;
    if d == 0 {
      CongSym(0, a, p);
    } else {
      CongRefl(b, p);
      CongMul(d, a, b, b, p);
      CongTrans(d * b, a * b, 0, p);
      Cancel(p, d, b);
    }
  }

  // ── Fermat's little theorem ──────────────────────────────────────────────

  function Choose(n: nat, k: nat): nat {
    if k == 0 then 1 else if n == 0 then 0 else Choose(n - 1, k - 1) + Choose(n - 1, k)
  }

  lemma {:induction false} ChooseEnds(n: nat, k: nat)
    requires k >= n
    ensures Choose(n, k) == if k == n then 1 else 0
    decreases n
  {
    if n > 0 {
      ChooseEnds(n - 1, k - 1);
      ChooseEnds(n - 1, k);
    }
  }

  lemma AbsorbStep(n: nat, k: nat, c: nat, d: nat, e: nat, g: nat)
    requires (k + 1) * d == n * e && k * c == n * g && c == g + e
    ensures (k + 1) * (c + d) == (n + 1) * c
  {
    calc {
      (k + 1) * (c + d);
      k * c + c + (k + 1) * d;
      n * g + c + n * e;
      { assert n * (g + e) == n * g + n * e; }
      (n + 1) * c;
    }
  }

  lemma {:induction false} Absorb(n: nat, k: nat)
    ensures (k + 1) * Choose(n + 1, k + 1) == (n + 1) * Choose(n, k)
    decreases n
  {
    assert Choose(n + 1, k + 1) == Choose(n, k) + Choose(n, k + 1);
    if n == 0 {
      ChooseEnds(0, k + 1);
      ChooseEnds(0, k);
    } else if k == 0 {
      Absorb(n - 1, 0);
    } else {
      Absorb(n - 1, k);
      Absorb(n - 1, k - 1);
      AbsorbStep(n, k, Choose(n, k), Choose(n, k + 1), Choose(n - 1, k), Choose(n - 1, k - 1));
    }
  }

  /** `p` divides its inner binomial coefficients. */
  lemma ChooseDivisible(p: nat, k: nat)
    requires Prime(p) && 0 < k < p
    ensures Cong(Choose(p, k), 0, p)
  {
    Absorb(p - 1, k - 1);
    CongIntro(k * Choose(p, k), 0, p, Choose(p - 1, k - 1));
    Cancel(p, k, Choose(p, k));
  }

  /** The first `j` terms of the binomial expansion of `(a + 1)^n`. */
  function Expansion(a: int, n: nat, j: nat): int {
    if j == 0 then 0 else Expansion(a, n, j - 1) + Choose(n, j - 1) * Pow(a, j - 1)
  }

  lemma {:induction false} ExpansionStep(a: int, n: nat, j: nat)
    ensures Expansion(a, n + 1, j + 1) == Expansion(a, n, j + 1) + a * Expansion(a, n, j)
    decreases j
  {
    hide Choose, Pow, Expansion;
    if j == 0 {
      ExpansionStart(a, n);
      ExpansionStart(a, n + 1);
    } else {
      ExpansionStep(a, n, j - 1);
      var x, y, u, v := Expansion(a, n, j - 1), Pow(a, j - 1), Choose(n, j - 1), Choose(n, j);
      ExpansionUnfold(a, n + 1, j + 1);
      ExpansionUnfold(a, n, j + 1);
      ExpansionUnfold(a, n, j);
      PascalPow(a, n, j);
      ExpansionArith(a, Expansion(a, n, j), x, y, u, v);
    }
  }

  lemma ExpansionStart(a: int, n: nat)
    ensures Expansion(a, n, 0) == 0 && Expansion(a, n, 1) == 1
  {
    assert Expansion(a, n, 1) == Expansion(a, n, 0) + Choose(n, 0) * Pow(a, 0);
  }

  lemma ExpansionUnfold(a: int, n: nat, j: nat)
    requires j > 0
    ensures Expansion(a, n, j) == Expansion(a, n, j - 1) + Choose(n, j - 1) * Pow(a, j - 1)
  {
  }

  lemma PascalPow(a: int, n: nat, j: nat)
    requires j > 0
    ensures Choose(n + 1, j) == Choose(n, j - 1) + Choose(n, j) && Pow(a, j) == a * Pow(a, j - 1)
  {
  }

  lemma ExpansionArith(a: int, e: int, x: int, y: int, u: int, v: int)
    ensures e + a * x + (u + v) * (a * y) == (e + v * (a * y)) + a * (x + u * y)
  {
    assert (u + v) * (a * y) == v * (a * y) + a * (u * y);
  }

  lemma {:induction false} Binomial(a: int, n: nat)
    ensures Pow(a + 1, n) == Expansion(a, n, n + 1)
    decreases n
  {
    if n == 0 {
      assert Expansion(a, 0, 1) == Expansion(a, 0, 0) + Choose(0, 0) * Pow(a, 0);
    } else {
      Binomial(a, n - 1);
      ExpansionStep(a, n - 1, n);
      ChooseEnds(n - 1, n);
      assert Expansion(a, n - 1, n + 1) == Expansion(a, n - 1, n) + 0 * Pow(a, n);
      assert (a + 1) * Expansion(a, n - 1, n) == Expansion(a, n - 1, n) + a * Expansion(a, n - 1, n);
    }
  }

  lemma {:induction false} InnerTermsVanish(p: nat, a: int, j: nat)
    requires Prime(p) && 1 <= j <= p
    ensures Cong(Expansion(a, p, j), 1, p)
    decreases j
  {
    if j == 1 {
      assert Expansion(a, p, 1) == Expansion(a, p, 0) + Choose(p, 0) * Pow(a, 0);
      CongRefl(1, p);
    } else {
      InnerTermsVanish(p, a, j - 1);
      ChooseDivisible(p, j - 1);
      CongRefl(Pow(a, j - 1), p);
      CongMul(Choose(p, j - 1), 0, Pow(a, j - 1), Pow(a, j - 1), p);
      CongAdd(Expansion(a, p, j - 1), 1, Choose(p, j - 1) * Pow(a, j - 1), 0, p);
    }
  }

  /** `a^p` is congruent to `a`. */
  lemma {:induction false} FermatPower(p: nat, a: nat)
    requires Prime(p)
    ensures Cong(Pow(a, p), a, p)
    decreases a
  {
    if a == 0 {
      assert Pow(0, p) == 0 * Pow(0, p - 1);
      CongRefl(0, p);
    } else {
      FermatPower(p, a - 1);
      Binomial(a - 1, p);
      InnerTermsVanish(p, a - 1, p);
      ChooseEnds(p, p);
      CongAdd(Expansion(a - 1, p, p), 1, Pow(a - 1, p), a - 1, p);
      assert Pow(a, p) == Expansion(a - 1, p, p) + 1 * Pow(a - 1, p);
    }
  }

  /** For a prime `p` the power `p - 2` is an inverse. */
  lemma FermatInverse(p: nat, a: nat)
    requires Prime(p) && 0 < a < p
    ensures Cong(a * Pow(a, p - 2), 1, p)
  {
    FermatPower(p, a);
    var b := Pow(a, p - 1);
    assert Pow(a, p) == a * b && b == a * Pow(a, p - 2);
    CongRefl(a, p);
    CongAdd(Pow(a, p), a, a, a, p);
    assert a * (b - 1) == a * b - a;
    Cancel(p, a, b - 1);
    CongRefl(1, p);
    CongAdd(b - 1, 0, 1, 1, p);
  }

  // ── Inverses ─────────────────────────────────────────────────────────────

  function InverseMod(m: nat, a: int): nat
    requires m > 1
  {
    Pow(a % m, m - 2) % m
  }

  lemma NonZero(m: nat, a: int)
    requires Prime(m)
    ensures Cong(a, 0, m) <==> a % m == 0
  {
    CongIffMod(a, 0, m);
    assert 0 % m == 0;
  }

  lemma ProductNonZero(m: nat, a: int, b: int)
    requires Prime(m) && !Cong(a, 0, m) && !Cong(b, 0, m)
    ensures !Cong(a * b, 0, m)
  {
    if Cong(a * b, 0, m) {
      Euclid(m, a, b);
    }
  }

  lemma InverseWorks(m: nat, a: int)
    requires Prime(m) && !Cong(a, 0, m)
    ensures Cong(a * InverseMod(m, a), 1, m)
  {
    NonZero(m, a);
    var r := a % m;
    FermatInverse(m, r);
    CongMod(a, m);
    CongSym(r, a, m);
    CongMod(Pow(r, m - 2), m);
    CongMul(a, r, InverseMod(m, a), Pow(r, m - 2), m);
    CongTrans(a * InverseMod(m, a), r * Pow(r, m - 2), 1, m);
  }

  /** A quotient times its divisor. */
  lemma QuotientWorks(m: nat, n: int, d: int)
    requires Prime(m) && !Cong(d, 0, m)
    ensures Cong(((n * InverseMod(m, d)) % m) * d, n, m)
  {
    assert m > 1;
    hide Cong, Prime, InverseMod;
    var i := InverseMod(m, d);
    InverseWorks(m, d);
    ProductCong(m, n * i, d, n, d * i);
  }

  /** A residue of `a` times `d` is `n` when `a d` is `n` times a 1. */
  lemma ProductCong(m: nat, a: int, d: int, n: int, one: int)
    requires m > 0 && a * d == n * one && Cong(one, 1, m)
    ensures Cong((a % m) * d, n, m)
  {
    hide Cong;
    CongMod(a, m);
    CongRefl(d, m);
    CongMul(a % m, a, d, d, m);
    CongRefl(n, m);
    CongMul(n, n, one, 1, m);
    CongTrans((a % m) * d, a * d, n * 1, m);
  }
}
