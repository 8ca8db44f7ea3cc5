/** Powers of two, and the arithmetic of shifts. */
module PowersOfTwo {
  import opened Felts

  function Two(k: nat): (p: nat)
    ensures p > 0
  {
    if k == 0 then 1 else 2 * Two(k - 1)
  }

  /** The number without its `k` lowest bits. */
  function Shr(v: nat, k: nat): (r: nat)
    ensures r == v / Two(k)
  {
    QuotientSmall(v, Two(k));
    v / Two(k)
  }

  lemma {:induction false} TwoSum(i: nat, j: nat)
    ensures Two(i + j) == Two(i) * Two(j)
    decreases i
  {
    hide Two;
    if i > 0 {
      TwoSum(i - 1, j);
      TwoStep(i);
      TwoStep(i + j);
      DoubledProduct(Two(i - 1), Two(j));
    } else {
      TwoZero();
    }
  }

  lemma TwoZero()
    ensures Two(0) == 1
  {
  }

  lemma TwoStep(k: nat)
    requires k > 0
    ensures Two(k) == 2 * Two(k - 1)
  {
  }

  lemma DoubledProduct(a: int, b: int)
    ensures (2 * a) * b == 2 * (a * b)
  {
  }

  lemma {:induction false} TwoGrows(i: nat, j: nat)
    requires i <= j
    ensures Two(i) <= Two(j)
    decreases j
  {
    if i < j {
      TwoGrows(i, j - 1);
    }
  }

  lemma SmallPowers()
    ensures Two(0) == 1 && Two(1) == 2 && Two(2) == 4 && Two(3) == 8 && Two(4) == 16
    ensures Two(5) == 32 && Two(6) == 64 && Two(7) == 128 && Two(8) == 256
  {
    assert Two(4) == 2 * Two(3);
    assert Two(6) == 2 * Two(5);
  }

  lemma LimbPowers()
    ensures Two(16) == 0x1_0000 && Two(32) == 0x1_0000_0000
    ensures Two(63) == 0x8000_0000_0000_0000 && Two(64) == 0x1_0000_0000_0000_0000
  {
    SmallPowers();
    hide Two;
    TwoSum(8, 8);
    TwoSum(16, 16);
    TwoSum(32, 16);
    TwoSum(48, 8);
    TwoSum(56, 7);
    TwoSum(63, 1);
  }

  lemma LargePowers()
    ensures Two(128) == 0x1_00000000_00000000_00000000_00000000
    ensures Two(253) == 0x20000000_00000000_00000000_00000000_00000000_00000000_00000000_00000000
    ensures Two(254) == 0x40000000_00000000_00000000_00000000_00000000_00000000_00000000_00000000
  {
    LimbPowers();
    SmallPowers();
    hide Two;
    TwoSum(64, 64);
    TwoSum(64, 32);
    TwoSum(96, 16);
    TwoSum(112, 8);
    TwoSum(120, 5);
    TwoSum(120, 6);
    TwoSum(128, 125);
    TwoSum(128, 126);
  }

  /** Powers up to 2^253 are field elements. */
  lemma PowersFit(n: nat)
    requires n <= 253
    ensures Two(n) < PRIME
  {
    LargePowers();
    TwoSum(n, 253 - n);
    MulMono(1, Two(253 - n), Two(n));
  }

  /** Two shifts make one. */
  lemma ShiftStep(v: nat, w: nat, b: nat)
    requires w > 0 && b > 0
    ensures (v / w) / b == v / (b * w) && v / w == (v / w) % b + b * (v / (b * w))
  {
    var q := v / w;
    var r := v % w;
    assert v == w * q + r;
    var q2 := q / b;
    var r2 := q % b;
    assert q == b * q2 + r2;
    assert w * q == (b * w) * q2 + w * r2 by {
      assert w * (b * q2) == (b * w) * q2;
    }
    assert 0 <= w * r2 + r < b * w by {
      MulMono2(w, r2, b - 1);
      assert w * (b - 1) == b * w - w;
    }
    assert b * w > 0 by {
      MulMono(1, b, w);
    }
    DivModUnique(v, b * w, q2, w * r2 + r);
  }
}
