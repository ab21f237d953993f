/**
 * JavaScript's 32-bit bitwise operators on bit patterns, and the bits of a number as a sequence, most
 * significant first. Everything is defined by halving, the lowest bit last.
 */
module BitArithmetic {

  function Pow2(k: nat): nat {
    if k == 0 then 1 else 2 * Pow2(k - 1)
  }

  /** `v` followed by `k` zero bits. */
  function Double(v: nat, k: nat): nat {
    if k == 0 then v else 2 * Double(v, k - 1)
  }

  /** The lowest `k` bits of `v`. */
  function Low(v: nat, k: nat): (r: nat)
    ensures r < Pow2(k)
  {
    if k == 0 then 0 else 2 * Low(v / 2, k - 1) + v % 2
  }

  /** `a | b`. */
  function BitOr(a: nat, b: nat): nat
    decreases a + b
  {
    if a == 0 && b == 0 then 0
    else 2 * BitOr(a / 2, b / 2) + (if a % 2 == 1 || b % 2 == 1 then 1 else 0)
  }

  /** `a & b`. */
  function BitAnd(a: nat, b: nat): nat
    decreases a + b
  {
    if a == 0 && b == 0 then 0
    else 2 * BitAnd(a / 2, b / 2) + (if a % 2 == 1 && b % 2 == 1 then 1 else 0)
  }

  /** `v << k`: the bits shifted past the 32-bit word are lost. */
  function Shl(v: nat, k: nat): nat {
    Low(Double(v, k), 32)
  }

  /** `v >>> k`: the lowest `k` bits are dropped. */
  function Shr(v: nat, k: nat): nat {
    if k == 0 then v else Shr(v / 2, k - 1)
  }

  function ToBits(v: nat, n: nat): (r: seq<bool>)
    ensures |r| == n
  {
    if n == 0 then [] else ToBits(v / 2, n - 1) + [v % 2 == 1]
  }

  function FromBits(bs: seq<bool>): nat {
    if bs == [] then 0 else 2 * FromBits(bs[..|bs| - 1]) + (if bs[|bs| - 1] then 1 else 0)
  }

  lemma {:induction false} FromToBits(v: nat, n: nat)
    requires v < Pow2(n)
    ensures FromBits(ToBits(v, n)) == v
  {
    if n > 0 {
      FromToBits(v / 2, n - 1);
      assert ToBits(v, n)[..n - 1] == ToBits(v / 2, n - 1);
    }
  }

  lemma {:induction false} ToFromBits(bs: seq<bool>)
    ensures FromBits(bs) < Pow2(|bs|) && ToBits(FromBits(bs), |bs|) == bs
  {
    if bs != [] {
      var n := |bs| - 1;
      ToFromBits(bs[..n]);
      assert bs == bs[..n] + [bs[n]];
    }
  }

  /** The bits of `a` followed by `n` bits of `b`. */
  lemma {:induction false} ToBitsAppend(a: nat, b: nat, m: nat, n: nat)
    requires b < Pow2(n)
    ensures ToBits(Double(a, n) + b, m + n) == ToBits(a, m) + ToBits(b, n)
  {
    if n > 0 {
      ToBitsAppend(a, b / 2, m, n - 1);
    }
  }

  /** Cutting a number to `m` bits leaves its lowest bits alone. */
  lemma {:induction false} ToBitsLow(v: nat, m: nat, n: nat)
    requires n <= m
    ensures ToBits(Low(v, m), n) == ToBits(v, n)
  {
    if n > 0 {
      ToBitsLow(v / 2, m - 1, n - 1);
    }
  }

  /** A right shift by `k` drops the last `k` bits. */
  lemma {:induction false} ToBitsShr(v: nat, k: nat, n: nat)
    ensures ToBits(v, n + k) == ToBits(Shr(v, k), n) + ToBits(v, k)
  {
    if k > 0 {
      ToBitsShr(v / 2, k - 1, n);
    }
  }

  /** A left shift by `k` keeps `k` zero bits at the end. */
  lemma {:induction false} LowDouble(v: nat, k: nat, m: nat)
    requires k <= m
    ensures Low(Double(v, k), m) == Double(Low(v, m - k), k)
  {
    if k > 0 {
      LowDouble(v, k - 1, m - 1);
    }
  }

  lemma {:induction false} OrZero(b: nat)
    ensures BitOr(0, b) == b && BitOr(b, 0) == b
  {
    if b > 0 {
      OrZero(b / 2);
    }
  }

  /** Or-ing into vacated low bits adds. */
  lemma {:induction false} OrIntoVacated(a: nat, b: nat, k: nat)
    requires b < Pow2(k)
    ensures BitOr(Double(a, k), b) == Double(a, k) + b
  {
    if k == 0 {
      OrZero(a);
    } else if Double(a, k) == 0 {
      OrZero(b);
    } else {
      OrIntoVacated(a, b / 2, k - 1);
    }
  }

  /** `k` one bits. */
  function Ones(k: nat): nat {
    if k == 0 then 0 else 2 * Ones(k - 1) + 1
  }

  lemma {:induction false} AndZero(a: nat)
    ensures BitAnd(a, 0) == 0
  {
    if a > 0 {
      AndZero(a / 2);
    }
  }

  /** And-ing with `k` ones keeps the lowest `k` bits. */
  lemma {:induction false} AndOnes(a: nat, k: nat)
    ensures BitAnd(a, Ones(k)) == Low(a, k)
  {
    if k == 0 {
      AndZero(a);
    } else {
      AndOnes(a / 2, k - 1);
    }
  }

  lemma Masks()
    ensures Ones(5) == 31 && Ones(8) == 0xff && Ones(16) == 0xffff
    ensures Pow2(5) == 32 && Pow2(8) == 256
  {
    assert Ones(4) == 15;
    assert Ones(8) == 255;
    assert Ones(12) == 4095;
    assert Pow2(4) == 16;
  }
}
