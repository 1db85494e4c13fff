/**
 Scaling a thread's system time to its measured run time: a multiply-and-divide that gives
 up precision rather than overflow (driver/ppm_cputime.c).
 */
module Scaling {
  import opened Bytes

  const TWO31: nat := 0x8000_0000
  const TWO63: nat := 0x8000_0000_0000_0000

  // The working variables of the scaling loop, and how many times it dropped a bit.
  datatype Scale = Scale(s: nat, r: nat, t: nat, k: nat)

  function Ordered(v: Scale): Scale {
    if v.s > v.r then v.(s := v.r, r := v.s) else v
  }

  // Whether the loop ends after putting the larger factor in r.
  predicate Settled(v: Scale) {
    v.t < TWO32 && v.r < TWO32
  }

  function Dropped(v: Scale): Scale {
    Scale(v.s, v.r / 2, v.t / 2, v.k + 1)
  }

  function Balanced(v: Scale): Scale {
    Scale(2 * v.s, v.r / 2, v.t, v.k)
  }

  // One pass of the loop body on ordered, unsettled variables.
  function Pass(v: Scale): Scale {
    if v.t >= TWO32 || v.s >= TWO31 then Dropped(v) else Balanced(v)
  }

  function Measure(v: Scale): nat {
    v.s + v.r + v.t
  }

  lemma PassShrinks(v: Scale)
    requires v.s <= v.r && !Settled(v)
    ensures Measure(Pass(v)) < Measure(v)
  {
  }

  function Reduced(v: Scale): (d: Scale)
    ensures Settled(d) && d.s <= d.r
    decreases Measure(v)
  {
    var o := Ordered(v);
    if Settled(o) then o else
      PassShrinks(o);
      Reduced(Pass(o))
  }

  predicate Words(v: Scale) {
    v.s < TWO64 && v.r < TWO64 && v.t < TWO64
  }

  lemma Unfold(v: Scale)
    ensures var o := Ordered(v);
            && (Settled(o) ==> Reduced(v) == o)
            && (!Settled(o) ==> Reduced(v) == Reduced(Pass(o)) && Measure(Pass(o)) < Measure(v))
            && (Words(v) ==> Words(o) && (!Settled(o) ==> Words(Pass(o))))
  {
  }

  // stime * rtime / total without an intermediate product wider than 64 bits; None is a division by zero.
  function Scaled(stime: nat, rtime: nat, total: nat): Option<nat> {
    var d := Reduced(Scale(stime, rtime, total, 0));
    if d.t == 0 then None else Some(Quotient(d.s * d.r, d.t))
  }

  function Quotient(m: nat, t: nat): nat
    requires t > 0
  {
    m / t
  }

  // The loop of scale_stime. No variable ever leaves 64 bits, so neither shift loses a high bit.
  method ScaleStime(stime: nat, rtime: nat, total: nat) returns (scaled: Option<nat>)
    requires stime < TWO64 && rtime < TWO64 && total < TWO64
    ensures scaled == Scaled(stime, rtime, total)
    ensures scaled.Some? ==> scaled.value < TWO64
  {
    var s: nat, r: nat, t: nat := stime, rtime, total;
    ghost var v := Scale(s, r, t, 0);
    ghost var d := Reduced(v);
    while true
      invariant v.s == s && v.r == r && v.t == t
      invariant Words(v) && Reduced(v) == d
      decreases Measure(v)
    {
      Unfold(v);
      if s > r {
        s, r := r, s;
      }
      v := Ordered(v);
      if t < TWO32 && r < TWO32 {
        break;
      }
      if t >= TWO32 || s >= TWO31 {
        r, t := r / 2, t / 2;
      } else {
        s, r := 2 * s, r / 2;
      }
      v := Pass(v);
    }
    if t == 0 {
      return None;
    }
    QuotientFits(s, r, t);
    return Some(Quotient(s * r, t));
  }

  lemma QuotientFits(s: nat, r: nat, t: nat)
    requires s < TWO32 && r < TWO32 && t > 0
    ensures Quotient(s * r, t) < TWO64
  {
    ScaleUp(s, TWO32 - 1, r);
    ScaleUp(r, TWO32 - 1, TWO32 - 1);
    ScaleUp(1, t, s * r);
    QuotientAtMost(s * r, t, s * r);
  }

  lemma ScaleUp(a: nat, b: nat, c: nat)
    requires a <= b
    ensures a * c <= b * c && c * a <= c * b
  {
  }

  // What v keeps of the inputs: no more than their product, and total to within the bits dropped.
  predicate Approximates(v: Scale, stime: nat, rtime: nat, total: nat) {
    && v.s * v.r * Pow2(v.k) <= stime * rtime
    && v.t * Pow2(v.k) <= total < (v.t + 1) * Pow2(v.k)
  }

  lemma PassApproximates(v: Scale, stime: nat, rtime: nat, total: nat)
    requires Approximates(v, stime, rtime, total)
    ensures Approximates(Pass(v), stime, rtime, total)
  {
    var p := Pow2(v.k);
    Halving(v.s, v.r, p);
    if v.t >= TWO32 || v.s >= TWO31 {
      assert Pow2(v.k + 1) == 2 * p;
      HalvingTotal(v.t, p);
    }
  }

  lemma Halving(s: nat, r: nat, p: nat)
    ensures s * (r / 2) * (2 * p) <= s * r * p
    ensures 2 * s * (r / 2) * p <= s * r * p
  {
  }

  lemma HalvingTotal(t: nat, p: nat)
    ensures t / 2 * (2 * p) <= t * p
    ensures (t + 1) * p <= (t / 2 + 1) * (2 * p)
  {
    var h := t / 2;
    ScaleUp(2 * h, t, p);
    ScaleUp(t + 1, 2 * h + 2, p);
    assert (h + 1) * (2 * p) == (2 * h + 2) * p;
  }

  lemma OrderedApproximates(v: Scale, stime: nat, rtime: nat, total: nat)
    requires Approximates(v, stime, rtime, total)
    ensures Approximates(Ordered(v), stime, rtime, total)
  {
  }

  lemma {:induction false} ReducedApproximates(v: Scale, stime: nat, rtime: nat, total: nat)
    requires Approximates(v, stime, rtime, total)
    ensures Approximates(Reduced(v), stime, rtime, total)
    decreases Measure(v)
  {
    var o := Ordered(v);
    OrderedApproximates(v, stime, rtime, total);
    Unfold(v);
    if !Settled(o) {
      PassApproximates(o, stime, rtime, total);
      ReducedApproximates(Pass(o), stime, rtime, total);
    }
  }

  // How wide a number is.
  function Bits(x: nat): nat {
    if x == 0 then 0 else 1 + Bits(x / 2)
  }

  lemma {:induction false} BitsBelow(x: nat, n: nat)
    ensures Bits(x) <= n <==> x < Pow2(n)
    decreases x
  {
    if x > 0 && n > 0 {
      BitsBelow(x / 2, n - 1);
    }
  }

  lemma {:induction false} BitsMonotone(x: nat, y: nat)
    requires x <= y
    ensures Bits(x) <= Bits(y)
    decreases y
  {
    if x > 0 {
      BitsMonotone(x / 2, y / 2);
    }
  }

  // How wide a product of two numbers can be; a zero factor makes it zero.
  function Width(s: nat, r: nat): nat {
    if s == 0 || r == 0 then 0 else Bits(s) + Bits(r)
  }

  function Excess(a: nat, b: nat): nat {
    if a > b then a - b else 0
  }

  // How many bits the loop drops: as many as the total has beyond 32, and the factors together
  // beyond 64.
  function Drops(stime: nat, rtime: nat, total: nat): nat {
    Max(Excess(Bits(total), 32), Excess(Width(stime, rtime), 64))
  }

  // A pass lowers that number by one exactly when it drops a bit.
  lemma PassDrops(v: Scale)
    requires v.s <= v.r && !Settled(v)
    ensures var w := Pass(v);
            && v.k + Drops(v.s, v.r, v.t) == w.k + Drops(w.s, w.r, w.t)
            && Bits(w.t) == Excess(Bits(v.t), w.k - v.k)
  {
    Pow2Values();
    BitsBelow(v.t, 32);
    BitsBelow(v.r, 32);
    BitsBelow(v.s, 31);
    if v.t >= TWO32 || v.s >= TWO31 {
      DropLowers(v.s, v.r, v.t);
    } else {
      BalanceKeeps(v.s, v.r, v.t);
    }
  }

  lemma DropLowers(s: nat, r: nat, t: nat)
    requires s <= r && (Bits(t) > 32 || Width(s, r) > 64)
    ensures Drops(s, r, t) == Drops(s, r / 2, t / 2) + 1 && Bits(t / 2) == Excess(Bits(t), 1)
  {
  }

  lemma BalanceKeeps(s: nat, r: nat, t: nat)
    requires r > 1
    ensures Drops(2 * s, r / 2, t) == Drops(s, r, t)
  {
    assert Bits(2 * s) == if s == 0 then 0 else Bits(s) + 1;
  }

  lemma {:induction false} ReducedDrops(v: Scale)
    ensures var d, n := Reduced(v), Drops(v.s, v.r, v.t); d.k == v.k + n && Bits(d.t) == Excess(Bits(v.t), n)
    decreases Measure(v)
  {
    var o := Ordered(v);
    assert Drops(o.s, o.r, o.t) == Drops(v.s, v.r, v.t);
    Unfold(v);
    if Settled(o) {
      Pow2Values();
      BitsBelow(o.t, 32);
      BitsBelow(o.r, 32);
      BitsBelow(o.s, 32);
    } else {
      PassDrops(o);
      ReducedDrops(Pass(o));
    }
  }

  // With k bits dropped, the result times the total less the dropped bits never exceeds the product.
  lemma ScaledBound(stime: nat, rtime: nat, total: nat)
    requires Scaled(stime, rtime, total).Some?
    ensures var k := Drops(stime, rtime, total);
            total >= Pow2(k) ==> Scaled(stime, rtime, total).value * (total - Pow2(k) + 1) <= stime * rtime
  {
    ReducedDrops(Scale(stime, rtime, total, 0));
    ReducedBound(stime, rtime, total, Drops(stime, rtime, total));
  }

  lemma ReducedBound(stime: nat, rtime: nat, total: nat, k: nat)
    requires Scaled(stime, rtime, total).Some? && k == Reduced(Scale(stime, rtime, total, 0)).k
    ensures total >= Pow2(k) ==> Scaled(stime, rtime, total).value * (total - Pow2(k) + 1) <= stime * rtime
  {
    var v := Scale(stime, rtime, total, 0);
    StartApproximates(v);
    ReducedApproximates(v, stime, rtime, total);
    ApproximateBound(Reduced(v), stime, rtime, total);
  }

  lemma StartApproximates(v: Scale)
    requires v.k == 0
    ensures Approximates(v, v.s, v.r, v.t)
  {
    assert Pow2(0) == 1;
  }

  lemma ApproximateBound(d: Scale, stime: nat, rtime: nat, total: nat)
    requires d.t > 0 && Approximates(d, stime, rtime, total)
    ensures total >= Pow2(d.k) ==> Quotient(d.s * d.r, d.t) * (total - Pow2(d.k) + 1) <= stime * rtime
  {
    QuotientBound(d.s * d.r, d.t, Pow2(d.k), stime * rtime, total);
  }

  lemma QuotientBound(m: nat, t: nat, p: nat, product: nat, total: nat)
    requires t > 0 && m * p <= product && total < (t + 1) * p
    ensures total >= p ==> m / t * (total - p + 1) <= product
  {
    var q := m / t;
    if total >= p {
      assert (t + 1) * p == t * p + p;
      ScaleUp(total - p + 1, t * p, q);
      assert q * t <= m;
      ScaleUp(q * t, m, p);
      assert q * (t * p) == q * t * p;
    }
  }

  // The division is by zero exactly when the total is zero or the factors together are 64 bits wider
  // than it.
  lemma DivisorVanishesIff(stime: nat, rtime: nat, total: nat)
    ensures Scaled(stime, rtime, total) == None <==> total == 0 || Width(stime, rtime) >= 64 + Bits(total)
  {
    ReducedDrops(Scale(stime, rtime, total, 0));
  }

  // So it never is when a part of the total is scaled to a run time below 2^63.
  lemma DivisorNonZero(stime: nat, rtime: nat, total: nat)
    requires 0 < total && stime <= total && rtime < TWO63
    ensures Scaled(stime, rtime, total).Some?
  {
    DivisorVanishesIff(stime, rtime, total);
    BitsMonotone(stime, total);
    Pow2Values();
    BitsBelow(rtime, 63);
  }

  // At 2^63 it can be: one tick of system time out of one.
  lemma DivisorCanVanish()
    ensures Scaled(1, TWO63, 1) == None
  {
    DivisorVanishesIff(1, TWO63, 1);
    Pow2Values();
    BitsBelow(TWO63, 63);
    assert Bits(1) == 1;
  }

  lemma Pow2Values()
    ensures Pow2(31) == TWO31 && Pow2(32) == TWO32 && Pow2(63) == TWO63
  {
    assert Pow2(8) == 0x100;
    assert Pow2(16) == 0x1_0000;
    assert Pow2(24) == 0x100_0000;
    assert Pow2(32) == TWO32;
    assert Pow2(40) == 0x100_0000_0000;
    assert Pow2(48) == 0x1_0000_0000_0000;
    assert Pow2(56) == 0x100_0000_0000_0000;
  }

  // Whether the rest of the total makes up for the bits that the loop drops; it does if none are dropped.
  predicate Ample(stime: nat, rtime: nat, total: nat) {
    stime + Pow2(Drops(stime, rtime, total)) - 1 <= total
  }

  // Then the result never exceeds the run time.
  lemma ScaledWithinRuntime(stime: nat, rtime: nat, total: nat)
    requires 0 < total && Ample(stime, rtime, total)
    ensures Scaled(stime, rtime, total).Some? && Scaled(stime, rtime, total).value <= rtime
  {
    var k := Drops(stime, rtime, total);
    DivisorVanishesIff(stime, rtime, total);
    BitsBelow(total, k);
    ScaledBound(stime, rtime, total);
    var q, t := Scaled(stime, rtime, total).value, total - Pow2(k) + 1;
    ScaleUp(stime, t, rtime);
    FactorAtMost(q, t, rtime);
  }

  lemma FactorAtMost(q: nat, t: nat, r: nat)
    requires t > 0 && q * t <= t * r
    ensures q <= r
  {
    assert q > r ==> q * t >= (r + 1) * t by { if q > r { ScaleUp(r + 1, q, t); } }
    assert (r + 1) * t == t * r + t;
  }

  function Product(v: Scale): nat {
    v.s * v.r
  }

  // The product of the factors after j bits have been moved from r to s; those that are set are lost.
  function Moved(s: nat, r: nat, j: nat): nat
    decreases j
  {
    if j == 0 then s * r else Moved(2 * s, r / 2, j - 1)
  }

  lemma {:induction false} MovedIs(s: nat, r: nat, j: nat)
    ensures Moved(s, r, j) == s * (r / Pow2(j) * Pow2(j))
    decreases j
  {
    if j == 0 {
      assert Pow2(0) == 1;
    } else {
      MovedIs(2 * s, r / 2, j - 1);
      MovesBit(s, r, Pow2(j - 1));
    }
  }

  lemma MovesBit(s: nat, r: nat, p: nat)
    requires p > 0
    ensures 2 * s * (r / 2 / p * p) == s * (r / (2 * p) * (2 * p))
  {
    var q := r / 2 / p;
    assert r == 2 * (r / 2) + r % 2 && r / 2 == p * q + r / 2 % p;
    DivModUnique(r, 2 * p, q, 2 * (r / 2 % p) + r % 2);
    Regrouped(s, q * p);
    assert q * (2 * p) == 2 * (q * p);
  }

  lemma Regrouped(a: nat, b: nat)
    ensures 2 * a * b == a * (2 * b)
  {
  }

  // Where no bit is to be dropped and the larger factor is too wide, a pass moves one of its bits.
  lemma BalanceStep(v: Scale, j: nat)
    requires v.s <= v.r && v.t < TWO32 && Width(v.s, v.r) <= 64 && 0 < j == Excess(Bits(v.r), 32)
    ensures var w := Balanced(v);
            && Reduced(v) == Reduced(w) && Width(w.s, w.r) <= 64 && Excess(Bits(w.r), 32) == j - 1
            && (if j == 1 then Settled(Ordered(w)) else w.s <= w.r)
  {
    Pow2Values();
    BitsBelow(v.r, 32);
    BitsBelow(v.r / 2, 32);
    BitsBelow(v.s, 31);
    Unfold(v);
    BalanceWidth(v.s, v.r);
  }

  lemma BalanceWidth(s: nat, r: nat)
    requires r > 1
    ensures Width(2 * s, r / 2) == Width(s, r)
  {
    assert Bits(2 * s) == if s == 0 then 0 else Bits(s) + 1;
  }

  // Without dropping a bit the loop moves the low bits of the larger factor beyond 32 to the smaller one.
  lemma {:induction false} BalancesAll(v: Scale, j: nat)
    requires v.s <= v.r && v.t < TWO32 && Width(v.s, v.r) <= 64 && j == Excess(Bits(v.r), 32)
    ensures Product(Reduced(v)) == Moved(v.s, v.r, j) && Reduced(v).t == v.t
    decreases j
  {
    if j == 0 {
      NoneToMove(v);
    } else {
      var w := Balanced(v);
      BalanceStep(v, j);
      if j == 1 {
        Unfold(w);
      } else {
        BalancesAll(w, j - 1);
      }
    }
  }

  lemma NoneToMove(v: Scale)
    requires v.s <= v.r && v.t < TWO32 && Excess(Bits(v.r), 32) == 0
    ensures Reduced(v) == v
  {
    Pow2Values();
    BitsBelow(v.r, 32);
    Unfold(v);
  }

  // A factor with its bits beyond the highest 32 cleared.
  function Rounded(x: nat): nat {
    var p := Pow2(Excess(Bits(x), 32));
    x / p * p
  }

  // So where no bit is dropped the result is the exact quotient, the larger factor being rounded to its
  // highest 32 bits.
  lemma ScaledRounded(stime: nat, rtime: nat, total: nat)
    requires 0 < total < TWO32 && Width(stime, rtime) <= 64
    ensures Scaled(stime, rtime, total) ==
            Some(Quotient(if stime <= rtime then stime * Rounded(rtime) else rtime * Rounded(stime), total))
  {
    var v := Scale(stime, rtime, total, 0);
    var o := Ordered(v);
    BalancesAll(o, Excess(Bits(o.r), 32));
    MovedIs(o.s, o.r, Excess(Bits(o.r), 32));
    SameReduced(v);
    ScaledIs(stime, rtime, total, Reduced(v));
  }

  lemma SameReduced(v: Scale)
    ensures Reduced(Ordered(v)) == Reduced(v)
  {
    Unfold(v);
    Unfold(Ordered(v));
  }

  lemma ScaledIs(stime: nat, rtime: nat, total: nat, d: Scale)
    requires d == Reduced(Scale(stime, rtime, total, 0)) && d.t > 0
    ensures Scaled(stime, rtime, total) == Some(Quotient(Product(d), d.t))
  {
  }

  // In the 32-bit range the result is the exact quotient, and never more than the run time.
  lemma ScaledExact(stime: nat, rtime: nat, total: nat)
    requires stime < TWO32 && rtime < TWO32 && 0 < total < TWO32
    ensures Scaled(stime, rtime, total) == Some(stime * rtime / total)
    ensures stime <= total ==> stime * rtime / total <= rtime
  {
    assert stime * rtime == rtime * stime;
    if stime <= total {
      ScaleUp(stime, total, rtime);
      QuotientAtMost(stime * rtime, total, rtime);
    }
  }

  lemma QuotientAtMost(m: nat, t: nat, r: nat)
    requires t > 0 && m <= t * r
    ensures m / t <= r
  {
  }

  // Where bits are dropped and the rest of the total is too small for them the result can exceed the
  // run time, ...
  lemma ScaledCanExceedRuntime()
    ensures Scaled(6251015310, 6478498651, 6251015310) == Some(6478498652)
  {
    var v := Scale(6251015310, 6478498651, 6251015310, 0);
    assert Pass(v) == Scale(6251015310, 3239249325, 3125507655, 1);
  }

  // ... and one tick too small is enough, however many bits are dropped.
  lemma OneTickShort(k: nat, t: nat, r: nat)
    requires k > 0 && TWO31 <= t * Pow2(k) < r < TWO32
    ensures var stime, rtime := t * Pow2(k) + 1, r * Pow2(k);
            var total := stime + Pow2(k) - 2;
            && Drops(stime, rtime, total) == k && stime <= total
            && Scaled(stime, rtime, total).Some? && Scaled(stime, rtime, total).value > rtime
  {
    var p := Pow2(k);
    var s, q := t * p + 1, r * p;
    OneTickReduced(k, t, r, p, Scale(s, q, s + p - 2, 0));
    OneTickOver(s, r, t, p, q);
  }

  lemma OneTickReduced(k: nat, t: nat, r: nat, p: nat, v: Scale)
    requires k > 0 && p == Pow2(k) && TWO31 <= t * p < r < TWO32
    requires v == Scale(t * p + 1, r * p, t * p + p - 1, 0)
    ensures 0 < t <= r && p >= 2 && Drops(v.s, v.r, v.t) == k && Reduced(v) == Scale(v.s, r, t, k)
  {
    assert p == 2 * Pow2(k - 1);
    AtMostProduct(t, p);
    DropsAll(v, Scale(v.s, r, t, k), p - 1, k);
    ReducedDrops(v);
  }

  lemma OneTickOver(s: nat, r: nat, t: nat, p: nat, q: nat)
    requires s == t * p + 1 && q == r * p && 0 < t <= r
    ensures Quotient(s * r, t) > q
  {
    Regroup(t, r, p);
    OneMore(s * r, t, q, r);
  }

  // The variables after j bits have been dropped from r and t, of which t had e behind them.
  predicate Ahead(v: Scale, d: Scale, e: nat, p: nat) {
    v.s == d.s && v.r == d.r * p && v.t == d.t * p + e
  }

  // Halving the larger factor and the total j times, the smaller factor being too wide to balance.
  lemma {:induction false} DropsAll(v: Scale, d: Scale, e: nat, j: nat)
    requires TWO31 <= d.s <= d.r < TWO32 && d.t < TWO32
    requires Ahead(v, d, e, Pow2(j)) && e < Pow2(j) && d.k == v.k + j
    ensures Reduced(v) == d
    decreases j
  {
    if j > 0 {
      DropsOne(v, d, e, Pow2(j - 1));
      Unfold(v);
      DropsAll(Pass(v), d, e / 2, j - 1);
    } else {
      NoneLeft(v, d, e);
      Unfold(v);
    }
  }

  lemma NoneLeft(v: Scale, d: Scale, e: nat)
    requires Ahead(v, d, e, Pow2(0)) && e < Pow2(0) && d.k == v.k
    ensures v == d
  {
    assert Pow2(0) == 1;
  }

  lemma DropsOne(v: Scale, d: Scale, e: nat, p: nat)
    requires TWO31 <= d.s <= d.r && p > 0 && Ahead(v, d, e, 2 * p)
    ensures Ordered(v) == v && !Settled(v) && Pass(v).k == v.k + 1 && Ahead(Pass(v), d, e / 2, p)
  {
    Halves(d.r, p, 0);
    Halves(d.t, p, e);
    ScaleUp(1, p, d.r);
  }

  lemma Halves(a: nat, p: nat, e: nat)
    ensures a * (2 * p) == 2 * (a * p) && (a * (2 * p) + e) / 2 == a * p + e / 2
  {
  }

  lemma AtMostProduct(t: nat, p: nat)
    requires 0 < t * p
    ensures 0 < t <= t * p
  {
    ScaleUp(1, p, t);
  }

  lemma Regroup(t: nat, r: nat, p: nat)
    ensures (t * p + 1) * r == t * (r * p) + r
  {
    assert t * (r * p) == t * p * r;
  }

  lemma OneMore(m: nat, t: nat, q: nat, r: nat)
    requires 0 < t <= r && m == t * q + r
    ensures Quotient(m, t) > q
  {
    assert t * (q + 1) == t * q + t;
    DivModUnique(t * (q + 1), t, q + 1, 0);
  }
}
