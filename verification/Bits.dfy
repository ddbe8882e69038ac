/**
  C's `|`, `&` and `>>` on non-negative integers, bit by bit, and `pow2gt`: the least power of two
  that is not below a number, found by smearing the leading one (src/cJSON.c, line 117).
 */
module Bits {

  // x | y
  function Or(x: nat, y: nat): nat {
    if x == 0 && y == 0 then 0
    else 2 * Or(x / 2, y / 2) + (if x % 2 == 1 || y % 2 == 1 then 1 else 0)
  }

  // x & y
  function And(x: nat, y: nat): nat {
    if x == 0 || y == 0 then 0
    else 2 * And(x / 2, y / 2) + (if x % 2 == 1 && y % 2 == 1 then 1 else 0)
  }

  // x >> k
  function Shr(x: nat, k: nat): nat {
    if k == 0 then x else Shr(x / 2, k - 1)
  }

  // The bits of h followed by the low k bits of l: (h << k) | (l & ((1 << k) - 1))
  function Join(h: nat, l: nat, k: nat): nat {
    if k == 0 then h else 2 * Join(h, l / 2, k - 1) + l % 2
  }

  function Pow2(k: nat): (p: nat)
    ensures p >= 1
  {
    if k == 0 then 1 else 2 * Pow2(k - 1)
  }

  // k ones
  function Ones(k: nat): nat {
    Pow2(k) - 1
  }

  ghost predicate IsPow2(n: nat) {
    exists k: nat :: Pow2(k) == n
  }

  function Min(a: nat, b: nat): nat {
    if a < b then a else b
  }

  lemma {:induction false} PowMonotone(a: nat, b: nat)
    requires a <= b
    ensures Pow2(a) <= Pow2(b)
  {
    if a < b {
      PowMonotone(a, b - 1);
    }
  }

  lemma {:induction false} ShrShr(x: nat, j: nat, k: nat)
    ensures Shr(Shr(x, j), k) == Shr(x, j + k)
  {
    if j > 0 {
      ShrShr(x / 2, j - 1, k);
    }
  }

  lemma {:induction false} ShrOnes(k: nat, d: nat)
    requires d <= k
    ensures Shr(Ones(k), d) == Ones(k - d)
  {
    if d > 0 {
      assert Ones(k) / 2 == Ones(k - 1);
      ShrOnes(k - 1, d - 1);
    }
  }

  lemma OnesHalf(k: nat)
    requires k > 0
    ensures Ones(k) / 2 == Ones(k - 1) && Ones(k) % 2 == 1
  {
  }

  lemma {:induction false} ShrSmall(x: nat, k: nat)
    requires x < Pow2(k)
    ensures Shr(x, k) == 0
  {
    if k > 0 {
      ShrSmall(x / 2, k - 1);
    }
  }

  lemma {:induction false} OrZero(x: nat)
    ensures Or(x, 0) == x == Or(0, x)
  {
    if x > 0 {
      OrZero(x / 2);
    }
  }

  lemma {:induction false} OrShr(x: nat, y: nat, k: nat)
    ensures Shr(Or(x, y), k) == Or(Shr(x, k), Shr(y, k))
  {
    if k > 0 {
      OrShr(x / 2, y / 2, k - 1);
    }
  }

  // A number is its high bits followed by its low bits.
  lemma {:induction false} JoinShr(x: nat, k: nat)
    ensures Join(Shr(x, k), x, k) == x
  {
    if k > 0 {
      JoinShr(x / 2, k - 1);
    }
  }

  // Or-ing k ones fills the low k bits and keeps the rest.
  lemma {:induction false} OrOnes(h: nat, l: nat, k: nat)
    ensures Or(Join(h, l, k), Ones(k)) == Join(h, Ones(k), k)
  {
    if k == 0 {
      OrZero(h);
    } else {
      OrOnes(h, l / 2, k - 1);
      assert Ones(k) / 2 == Ones(k - 1) && Ones(k) % 2 == 1;
    }
  }

  lemma {:induction false} JoinOnes(a: nat, b: nat)
    ensures Join(Ones(a), Ones(b), b) == Ones(a + b)
  {
    if b > 0 {
      JoinOnes(a, b - 1);
      assert Ones(b) / 2 == Ones(b - 1) && Ones(b) % 2 == 1;
    }
  }

  // Or-ing above the low k bits keeps them.
  lemma {:induction false} OrHigh(x: nat, h: nat, k: nat)
    ensures Or(x, Join(h, 0, k)) == Or(Join(h, 0, k), x) == Join(Or(Shr(x, k), h), x, k)
  {
    if k == 0 {
      OrCommutes(x, h);
    } else {
      OrHigh(x / 2, h, k - 1);
    }
  }

  lemma {:induction false} OrCommutes(x: nat, y: nat)
    ensures Or(x, y) == Or(y, x)
  {
    if x > 0 || y > 0 {
      OrCommutes(x / 2, y / 2);
    }
  }

  // A mask whose low k bits are ones keeps the low k bits.
  lemma {:induction false} AndMask(x: nat, h: nat, k: nat)
    ensures And(x, Join(h, Ones(k), k)) == Join(And(Shr(x, k), h), x, k)
  {
    if k > 0 {
      AndMask(x / 2, h, k - 1);
      OnesHalf(k);
      AndOdd(x, Join(h, Ones(k - 1), k - 1));
      assert Join(h, Ones(k), k) == 2 * Join(h, Ones(k - 1), k - 1) + 1;
      hide Ones, And;
    }
  }

  lemma AndOdd(x: nat, m: nat)
    ensures And(x, 2 * m + 1) == 2 * And(x / 2, m) + x % 2
  {
  }

  // Joining is shifting and adding.
  lemma {:induction false} JoinSum(h: nat, l: nat, k: nat)
    ensures Join(h, l, k) == Pow2(k) * h + l % Pow2(k)
  {
    if k == 0 {
      assert Pow2(0) == 1;
    } else {
      JoinSum(h, l / 2, k - 1);
      var d := Pow2(k - 1);
      assert Pow2(k) == 2 * d && Join(h, l, k) == 2 * Join(h, l / 2, k - 1) + l % 2;
      hide *;
      JoinArithmetic(h, l, d, Pow2(k), Join(h, l / 2, k - 1));
    }
  }

  lemma JoinArithmetic(h: nat, l: nat, d: nat, p: nat, j: nat)
    requires d > 0 && p == 2 * d && j == d * h + l / 2 % d
    ensures 2 * j + l % 2 == p * h + l % p
  {
    Halve(l, d);
    assert p * h == 2 * (d * h);
  }

  lemma Halve(l: nat, d: nat)
    requires d > 0
    ensures l % (2 * d) == 2 * (l / 2 % d) + l % 2
  {
    var q, r := l / 2 / d, l / 2 % d;
    assert l == 2 * (l / 2) + l % 2 && l / 2 == d * q + r && r < d;
    assert q * (2 * d) == 2 * (d * q);
    assert l == q * (2 * d) + (2 * r + l % 2);
    Remainder(q, 2 * r + l % 2, 2 * d);
  }

  lemma Remainder(q: nat, r: nat, d: nat)
    requires r < d
    ensures (q * d + r) % d == r && (q * d + r) / d == q
  {
    var x := q * d + r;
    var z := x / d - q;
    assert z * d == r - x % d;
    if z >= 1 {
      AtLeast(z, d);
    } else if z <= -1 {
      AtLeast(-z, d);
    }
  }

  lemma AtLeast(z: int, d: nat)
    requires z >= 1
    ensures z * d >= d
  {
  }

  // x has p bits, and its leading k bits are ones.
  ghost predicate LeadingOnes(x: nat, p: nat, k: nat) {
    k <= p && Shr(x, p - k) == Ones(k)
  }

  // Every positive number has a leading one.
  lemma {:induction false} TopBit(x: nat) returns (p: nat)
    requires x > 0
    ensures p > 0 && LeadingOnes(x, p, 1) && Pow2(p - 1) <= x < Pow2(p)
  {
    if x == 1 {
      p := 1;
    } else {
      var q := TopBit(x / 2);
      p := q + 1;
    }
  }

  // One smearing step doubles the run of leading ones, up to the length of the number.
  lemma SmearStep(x: nat, p: nat, k: nat)
    requires LeadingOnes(x, p, Min(k, p))
    ensures LeadingOnes(Or(x, Shr(x, k)), p, Min(2 * k, p))
  {
    if k > p {
      SmearDone(x, p, k);
    } else {
      SmearMore(x, p, k, Min(k, p - k));
    }
  }

  lemma SmearDone(x: nat, p: nat, k: nat)
    requires k > p && x == Ones(p)
    ensures Or(x, Shr(x, k)) == x
  {
    PowMonotone(p, k);
    ShrSmall(x, k);
    OrZero(x);
  }

  lemma SmearMore(x: nat, p: nat, k: nat, j: nat)
    requires j <= k && k + j <= p
    requires LeadingOnes(x, p, k)
    ensures LeadingOnes(Or(x, Shr(x, k)), p, k + j)
  {
    OrShr(x, Shr(x, k), p - k - j);
    SmearWindow(x, p, k, j);
  }

  // The k + j leading bits of x are k ones and j unknown bits; those of x >> k are j ones.
  lemma SmearWindow(x: nat, p: nat, k: nat, j: nat)
    requires j <= k && k + j <= p
    requires LeadingOnes(x, p, k)
    ensures Or(Shr(x, p - k - j), Shr(Shr(x, k), p - k - j)) == Ones(k + j)
  {
    var m := p - k - j;
    var w := Shr(x, m);
    ShrShr(x, m, j);
    JoinShr(w, j);
    ShrShr(x, k, m);
    ShrShr(x, p - k, k - j);
    ShrOnes(k, k - j);
    OrOnes(Ones(k), w, j);
    JoinOnes(k, j);
  }

  // `static int pow2gt(int x)`. The result fits in a signed 32-bit int exactly when x <= 2^30.
  method Pow2gt(x: nat) returns (r: nat)
    requires 1 <= x <= 0x4000_0000
    ensures IsPow2(r) && x <= r <= 0x4000_0000
    ensures forall q: nat :: IsPow2(q) && x <= q ==> r <= q
  {
    var y := x - 1;
    ghost var p := 0;
    if y > 0 {
      p := TopBit(y);
    }
    Bit30(p);
    SmearStep(y, p, 1);
    y := Or(y, Shr(y, 1));
    SmearStep(y, p, 2);
    y := Or(y, Shr(y, 2));
    SmearStep(y, p, 4);
    y := Or(y, Shr(y, 4));
    SmearStep(y, p, 8);
    y := Or(y, Shr(y, 8));
    SmearStep(y, p, 16);
    y := Or(y, Shr(y, 16));
    assert y == Ones(p);
    r := y + 1;
    LeastPower(x, p);
  }

  lemma Bit30(p: nat)
    requires p > 0 ==> Pow2(p - 1) < 0x4000_0000
    ensures p <= 30 && Pow2(p) <= 0x4000_0000
  {
    Pow2Of30();
    if p > 30 {
      PowMonotone(30, p - 1);
    } else {
      PowMonotone(p, 30);
    }
  }

  lemma LeastPower(x: nat, p: nat)
    requires p > 0 ==> Pow2(p - 1) < x
    requires x > 0
    ensures forall q: nat :: IsPow2(q) && x <= q ==> Pow2(p) <= q
  {
    forall q: nat | IsPow2(q) && x <= q
      ensures Pow2(p) <= q
    {
      var k: nat :| Pow2(k) == q;
      if k < p {
        PowMonotone(k, p - 1);
      } else {
        PowMonotone(p, k);
      }
    }
  }

  lemma Pow2Of30()
    ensures Pow2(30) == 0x4000_0000
  {
    assert Pow2(5) == 32;
    assert Pow2(10) == 1024;
    assert Pow2(15) == 32768;
    assert Pow2(20) == 0x10_0000;
    assert Pow2(25) == 0x200_0000;
  }
}
