/**
 CUBIC in modules/net/quic/cong.c: the integer cube root, and the target window of an epoch
 (section 4 of RFC 9438). Arithmetic is unsigned and 64 bits wide unless a field is narrower;
 wrap-around is written out.
 */
module Cubic {

  const TWO_62: int := 0x4000_0000_0000_0000
  const TWO_64: int := 0x1_0000_0000_0000_0000
  const U32_MAX: int := 0xffff_ffff
  const USEC_PER_SEC := 1_000_000

  function U64(x: int): (r: nat)
    ensures 0 <= x < TWO_64 ==> r == x
    ensures r < TWO_64
  {
    x % TWO_64
  }

  function Cube(a: int): int { a * a * a }

  // ---------- the cube root ----------

  /** 64 - __builtin_clzll(n) */
  function BitLen(n: nat): nat
  {
    if n == 0 then 0 else 1 + BitLen(n / 2)
  }

  function Pow2(k: nat): (r: nat)
    ensures r >= 1
  {
    if k == 0 then 1 else 2 * Pow2(k - 1)
  }

  lemma {:induction false} BitLenBounds(n: nat)
    requires n > 0
    ensures Pow2(BitLen(n) - 1) <= n < Pow2(BitLen(n))
  {
    if n > 1 {
      BitLenBounds(n / 2);
    }
  }

  lemma {:induction false} Pow2Monotone(a: nat, b: nat)
    requires a <= b
    ensures Pow2(a) <= Pow2(b)
    decreases b
  {
    if a < b {
      Pow2Monotone(a, b - 1);
    }
  }

  lemma {:induction false} Pow2Add(a: nat, b: nat)
    ensures Pow2(a + b) == Pow2(a) * Pow2(b)
    decreases b
  {
    if b > 0 {
      Pow2Add(a, b - 1);
    }
  }

  /** r is the integer cube root of n. */
  predicate IsRoot(n: nat, r: nat)
  {
    Cube(r) <= n < Cube(r + 1)
  }

  lemma CubeMonotone(a: nat, b: nat)
    requires a <= b
    ensures Cube(a) <= Cube(b)
  {
    assert a * a <= b * b;
    assert a * a * a <= b * b * a <= b * b * b;
  }

  /** The tangent of the cubic stays below it: 3 r a^2 - 2 a^3 <= r^3. */
  lemma TangentBelow(a: nat, r: nat)
    ensures (3 * r - 2 * a) * (a * a) <= Cube(r)
  {
    var d := r - a;
    assert d * d >= 0;
    assert d * d * (r + 2 * a) >= 0;
    assert Cube(r) - (3 * r - 2 * a) * (a * a) == d * d * (r + 2 * a) by {
      assert d * d == r * r - 2 * r * a + a * a;
      assert d * d * (r + 2 * a) == d * d * r + 2 * (d * d * a);
      assert d * d * r == r * r * r - 2 * (r * r * a) + r * (a * a);
      assert d * d * a == r * r * a - 2 * (r * (a * a)) + a * a * a;
      assert (3 * r - 2 * a) * (a * a) == 3 * (r * (a * a)) - 2 * (a * a * a);
    }
  }

  lemma MulLe(x: int, y: int, d: nat)
    requires x <= y
    ensures x * d <= y * d
  {
  }

  lemma DivBounds(n: nat, d: nat, q: int)
    requires d > 0
    ensures q * d <= n ==> q <= n / d
    ensures n < q * d ==> n / d < q
  {
    var k := n / d;
    assert n == d * k + n % d;
    assert (k + 1) * d == d * k + d;
    if k < q {
      MulLe(k + 1, q, d);
    } else {
      MulLe(q, k, d);
    }
  }

  /** One Newton step from above the root: it decreases and stays at or above the root. */
  lemma NewtonStep(n: nat, a: nat)
    requires a > 0 && Cube(a) > n
    ensures a * a > 0
    ensures var next := (2 * a + n / (a * a)) / 3;
            next < a && n < Cube(next + 1)
  {
    var sq := a * a;
    var q := n / sq;
    var r := (2 * a + q) / 3 + 1;
    assert a * sq == Cube(a);
    DivBounds(n, sq, a);
    TangentBelow(a, r);
    DivBounds(n, sq, 3 * r - 2 * a);
  }

  const STUCK := 0x40_0000

  /** The first guess: above the root, and small enough not to wrap exactly for n below 2^62. */
  lemma FirstGuess(n: nat)
    requires 0 < n < TWO_64
    ensures var a := Pow2(BitLen(n) / 3 + 1);
            && (n < TWO_62 ==> a <= 0x20_0000 && Cube(a) > n)
            && (n >= TWO_62 ==> a == STUCK)
  {
    var b := BitLen(n);
    var d := b / 3;
    BitLenBounds(n);
    Powers();
    if b >= 65 {
      Pow2Monotone(64, b - 1);
    }
    if n < TWO_62 {
      if b >= 63 {
        Pow2Monotone(62, b - 1);
      }
      assert d <= 20;
      Pow2Monotone(d + 1, 21);
      Pow2Monotone(b, (d + 1) + (d + 1) + (d + 1));
      Pow2Add((d + 1) + (d + 1), d + 1);
      Pow2Add(d + 1, d + 1);
    } else {
      if b <= 62 {
        Pow2Monotone(b, 62);
      }
      assert d == 21;
    }
  }

  lemma Powers()
    ensures Pow2(21) == 0x20_0000 && Pow2(22) == STUCK && Pow2(62) == TWO_62 && Pow2(64) == TWO_64
  {
    assert Pow2(8) == 256;
    Pow2Add(8, 8);
    Pow2Add(16, 16);
    Pow2Add(32, 30);
    Pow2Add(16, 5);
    Pow2Add(16, 6);
    Pow2Add(16, 14);
    Pow2Add(32, 32);
    assert Pow2(5) == 32 && Pow2(6) == 64;
    Pow2Add(8, 6);
  }

  /**
   cubic_root: Newton's method in 64-bit arithmetic. The result is the integer cube root exactly
   for arguments below 2^62; above, the first cube wraps to zero and the guess 2^22 is returned.
   */
  method CubicRoot(n: nat) returns (a: nat)
    requires n < TWO_64
    ensures IsRoot(n, a) <==> n < TWO_62
    ensures n >= TWO_62 ==> a == STUCK
  {
    if n == 0 {
      return 0;
    }
    var d := BitLen(n) / 3;
    a := Pow2(d + 1);
    FirstGuess(n);
    if n >= TWO_62 {
      Stuck(n);
    }
    CubeMonotone(a, a + 1);
    hide Cube, BitLen, Pow2, U64;
    while U64(U64(a * a) * a) > n
      invariant 0 < a <= STUCK
      invariant n < TWO_62 ==> a <= 0x20_0000 && n < Cube(a + 1)
      invariant n >= TWO_62 ==> a == STUCK
      decreases a
    {
      MachineStep(n, a);
      d := n / U64(a * a);
      a := U64(2 * a + d) / 3;
    }
    if n < TWO_62 {
      NoWrap(a);
    }
  }

  lemma NoWrap(a: nat)
    requires a <= 0x20_0000
    ensures U64(a * a) == a * a && U64(U64(a * a) * a) == Cube(a)
    ensures U64(2 * a + a) == 2 * a + a
  {
    MulLe(a, 0x20_0000, a);
    MulLe(a * a, 0x20_0000 * 0x20_0000, a);
  }

  /** The Newton step in 64-bit arithmetic, where nothing wraps. */
  lemma MachineStep(n: nat, a: nat)
    requires 0 < a <= 0x20_0000 && n < U64(U64(a * a) * a) && 0 < n < TWO_62
    ensures U64(a * a) > 0
    ensures var next := U64(2 * a + n / U64(a * a)) / 3;
            0 < next < a && n < Cube(next + 1)
  {
    hide U64, Cube;
    NoWrap(a);
    NewtonStep(n, a);
    StepFits(n, a, a * a);
    CubeOne();
  }

  lemma StepFits(n: nat, a: nat, d: nat)
    requires a <= 0x20_0000 && d > 0 && n < TWO_62
    ensures n / d >= 0 && U64(2 * a + n / d) == 2 * a + n / d
  {
    hide U64;
    QuotientBelow(n, d);
    SumFits(a, n / d, n);
  }

  lemma SumFits(a: nat, q: nat, n: nat)
    requires a <= 0x20_0000 && q <= n < TWO_62
    ensures U64(2 * a + q) == 2 * a + q
  {
  }

  lemma QuotientBelow(n: nat, d: nat)
    requires d > 0
    ensures 0 <= n / d <= n
  {
    MulLe(1, d, n + 1);
    DivBounds(n, d, n + 1);
  }

  lemma CubeOne()
    ensures Cube(1) == 1
  {
  }

  lemma Stuck(n: nat)
    requires TWO_62 <= n < TWO_64
    ensures U64(U64(STUCK * STUCK) * STUCK) == 0
    ensures !IsRoot(n, STUCK)
  {
  }

  // ---------- the target window ----------

  /** ((t^2 >> 10) * t) >> 10, and the scaling by C = 0.4 segments, as cubic_cong_avoid computes them. */
  function Scaled(td: nat): nat
  {
    U64(U64(td * td) / 1024 * td) / 1024
  }

  function Delta(mss: nat, td: nat): nat
  {
    U64(U64(mss * Scaled(td)) * 4) / 10 / 1024
  }

  lemma SmallRoot(k: nat, gap: nat)
    requires Cube(k) * 4 <= gap * 10 && gap <= U32_MAX
    ensures k <= 0x1000
  {
    assert Cube(0x1001) == 0x1001 * 0x1001 * 0x1001;
    if k > 0x1000 {
      CubeMonotone(0x1001, k);
    }
  }

  lemma Squared(a: nat)
    requires a <= 0x40_0000
    ensures Scaled(a) == a * a / 1024 * a / 1024
  {
    hide U64;
    MulLe(a, 0x40_0000, a);
    var x := a * a;
    assert x <= 0x1000_0000_0000;
    var y := x / 1024;
    MulLe(y, 0x4_0000_0000, a);
    assert U64(x) == x && U64(y * a) == y * a;
  }

  lemma SquareLe(a: nat, b: nat)
    requires a <= b
    ensures a * a <= b * b
  {
    MulLe(a, b, a);
    MulLe(a, b, b);
  }

  lemma PlateauPowers(k: nat)
    ensures 1024 * k * (1024 * k) == 1024 * (1024 * (k * k))
    ensures 1024 * (k * k) * (1024 * k) == 1024 * (1024 * Cube(k))
  {
    assert Cube(k) == k * k * k;
  }

  /** The shifts only round down: the scaled cube is at most td^3 / 2^20, here at most 1024 k^3. */
  lemma ScaledBound(k: nat, td: nat)
    requires k <= 0x1000 && td <= 1024 * k
    ensures Scaled(td) <= 1024 * Cube(k)
  {
    hide Scaled, Cube;
    var t, q := 1024 * k, k * k;
    Squared(td);
    SquareLe(td, t);
    PlateauPowers(k);
    var y := td * td / 1024;
    assert y <= 1024 * q;
    assert y * td <= 1024 * q * t by {
      MulLe(y, 1024 * q, td);
      MulLe(td, t, 1024 * q);
    }
  }

  /** Because of how k was chosen, the product never wraps before the plateau. */
  lemma ProductFits(mss: nat, k: nat, td: nat, gap: nat)
    requires 0 < mss && td <= 1024 * k && gap <= U32_MAX
    requires Climbs(k, mss, gap)
    ensures k <= 0x1000 && 4 * (mss * Scaled(td)) <= 1024 * (gap * 10)
  {
    hide Scaled, Cube;
    var c := Cube(k);
    assert c >= 0 by { CubeMonotone(0, k); CubeZero(); }
    assert c * 4 <= c * (4 * mss) by { MulLe(4, 4 * mss, c); }
    SmallRoot(k, gap);
    ScaledBound(k, td);
    ScaleUp(mss, Scaled(td), c);
  }

  lemma CubeZero()
    ensures Cube(0) == 0
  {
  }

  lemma ScaleUp(mss: nat, x: nat, c: nat)
    requires x <= 1024 * c
    ensures 4 * (mss * x) <= 1024 * (c * (4 * mss))
  {
    assert mss * x <= mss * (1024 * c) by { MulLe(x, 1024 * c, mss); }
    assert 4 * (mss * (1024 * c)) == 1024 * (c * (4 * mss));
  }

  /** Before the plateau the computed change is at most the distance between the plateau and the
      window at the start of the epoch. */
  lemma DeltaBound(mss: nat, k: nat, td: nat, gap: nat)
    requires 0 < mss && td <= 1024 * k && gap <= U32_MAX
    requires Climbs(k, mss, gap)
    ensures Delta(mss, td) <= gap
  {
    hide U64, Scaled, Cube;
    ProductFits(mss, k, td, gap);
    DeltaFits(mss * Scaled(td), gap);
  }

  lemma DeltaFits(d: nat, gap: nat)
    requires 4 * d <= 1024 * (gap * 10) && gap <= U32_MAX
    ensures U64(U64(d) * 4) / 10 / 1024 <= gap
  {
    assert U64(d) == d && U64(d * 4) == d * 4;
  }

  /** x / 1024 / 10 and the like only round down, by less than one. */
  lemma ShiftBounds(x: nat)
    ensures x / 1024 * 1024 <= x < (x / 1024 + 1) * 1024
    ensures x / 10 / 1024 * 10240 <= x < (x / 10 / 1024 + 1) * 10240
  {
  }

  /** The scaled cube is td^3 / 2^20, less what the two shifts drop. */
  lemma ScaledNear(td: nat)
    requires td <= 0x40_0000
    ensures 0x10_0000 * Scaled(td) <= Cube(td) <= 0x10_0000 * (Scaled(td) + 1) + 1024 * td
  {
    hide Scaled, Cube;
    Squared(td);
    var x := td * td;
    var z := x / 1024 * td;
    CubeIs(td);
    ShiftBounds(x);
    ShiftBounds(z);
    SquareShare(x, x / 1024, td);
  }

  lemma CubeIs(td: nat)
    ensures Cube(td) == td * td * td
  {
  }

  lemma SquareShare(x: nat, y: nat, td: nat)
    requires 1024 * y <= x <= 1024 * y + 1024
    ensures 1024 * (y * td) <= x * td <= 1024 * (y * td) + 1024 * td
  {
    MulLe(1024 * y, x, td);
    MulLe(x, 1024 * y + 1024, td);
    assert 1024 * y * td == 1024 * (y * td) && (1024 * y + 1024) * td == 1024 * (y * td) + 1024 * td;
  }

  /**
   While nothing wraps, the change is C (t - K)^3 with C = 0.4 segments and times in 1/1024 seconds,
   rounded down: it is never more, and less only by what the shifts drop.
   */
  lemma DeltaNear(mss: nat, td: nat)
    requires td <= 0x40_0000 && 4 * (mss * Scaled(td)) < TWO_64
    ensures 10 * 0x4000_0000 * Delta(mss, td) <= 4 * mss * Cube(td)
    ensures 4 * mss * Cube(td) <= 10 * 0x4000_0000 * (Delta(mss, td) + 1) + 4 * mss * (0x10_0000 + 1024 * td)
  {
    hide Scaled, Cube, U64;
    ScaledNear(td);
    var c, x := Cube(td), Scaled(td);
    var d := mss * x;
    assert U64(d) == d && U64(d * 4) == d * 4;
    ShiftBounds(4 * d);
    var r := Delta(mss, td);
    assert 10240 * r <= 4 * d < 10240 * (r + 1);
    CubeShare(mss, x, c, td);
  }

  lemma CubeShare(mss: nat, x: nat, c: nat, td: nat)
    requires 0x10_0000 * x <= c <= 0x10_0000 * (x + 1) + 1024 * td
    ensures 0x10_0000 * (4 * (mss * x)) <= 4 * mss * c <= 0x10_0000 * (4 * (mss * x)) + 4 * mss * (0x10_0000 + 1024 * td)
  {
    var m := 4 * mss;
    MulLe(0x10_0000 * x, c, m);
    MulLe(c, 0x10_0000 * (x + 1) + 1024 * td, m);
    assert 0x10_0000 * x * m == 0x10_0000 * (4 * (mss * x));
    assert (0x10_0000 * (x + 1) + 1024 * td) * m == 0x10_0000 * (4 * (mss * x)) + m * (0x10_0000 + 1024 * td);
  }

  lemma DivMonotone(x: nat, y: nat, d: nat)
    requires x <= y && d > 0
    ensures x / d <= y / d
  {
    DivBounds(y, d, x / d);
    assert x / d * d <= x;
  }

  lemma ScaledMonotone(a: nat, b: nat)
    requires a <= b <= 0x40_0000
    ensures Scaled(a) <= Scaled(b)
  {
    hide Scaled;
    Squared(a);
    Squared(b);
    SquareLe(a, b);
    var x, y := a * a / 1024, b * b / 1024;
    DivMonotone(a * a, b * b, 1024);
    assert x * a <= y * b by { MulLe(x, y, a); MulLe(a, b, y); }
    DivMonotone(x * a, y * b, 1024);
  }

  /** As time goes on towards the plateau the change gets smaller, down to nothing at the plateau,
      so the target rises. */
  lemma TargetRises(mss: nat, k: nat, tx: nat, later: nat, gap: nat)
    requires 0 < mss && tx <= later <= 1024 * k && gap <= U32_MAX
    requires Climbs(k, mss, gap)
    ensures Delta(mss, 1024 * k - later) <= Delta(mss, 1024 * k - tx) && Delta(mss, 0) == 0
  {
    hide U64, Scaled, Cube;
    var a, b := 1024 * k - later, 1024 * k - tx;
    ProductFits(mss, k, b, gap);
    ScaledMonotone(a, b);
    MulLe(Scaled(a), Scaled(b), mss);
    DeltaOrder(mss * Scaled(a), mss * Scaled(b), gap);
    Squared(0);
  }

  lemma DeltaOrder(d: nat, e: nat, gap: nat)
    requires d <= e && 4 * e <= 1024 * (gap * 10) && gap <= U32_MAX
    ensures U64(U64(d) * 4) / 10 / 1024 <= U64(U64(e) * 4) / 10 / 1024
  {
    assert U64(d) == d && U64(d * 4) == d * 4 && U64(e) == e && U64(e * 4) == e * 4;
  }

  /** Section 4.2 of RFC 9438: the distance to climb over C segments. */
  function RootArgument(d: nat, mss: nat): nat
    requires mss > 0
  {
    QuotientBelow(d * 10, mss * 4);
    d * 10 / (mss * 4)
  }

  lemma RootArgumentFits(d: nat, mss: nat)
    requires d <= U32_MAX && mss > 0
    ensures RootArgument(d, mss) < TWO_62
  {
    QuotientBelow(d * 10, mss * 4);
  }

  /** k is short enough that the cubic does not start below where the window was. */
  predicate Climbs(k: nat, mss: nat, gap: nat)
  {
    Cube(k) * (4 * mss) <= gap * 10
  }

  lemma RootClimbs(k: nat, mss: nat, d: nat)
    requires mss > 0 && IsRoot(RootArgument(d, mss), k)
    ensures Climbs(k, mss, d) && !Climbs(k + 1, mss, d)
  {
    hide Cube;
    var m, n := mss * 4, RootArgument(d, mss);
    assert d * 10 == m * n + d * 10 % m;
    MulLe(Cube(k), n, m);
    MulLe(n + 1, Cube(k + 1), m);
    assert n * m == m * n && (n + 1) * m == m * n + m;
  }

  lemma NothingToClimb(mss: nat)
    ensures Climbs(0, mss, 0)
  {
  }

  /** The part of the CUBIC state that an epoch fixes, with the window when it began. */
  class Epoch {
    var window: nat
    var wLastMax: nat
    var mss: nat
    var epochStart: nat
    var k: nat
    var originPoint: nat
    ghost var startWindow: nat

    ghost predicate Valid()
      reads this
    {
      && window <= U32_MAX && wLastMax <= U32_MAX && 0 < mss <= U32_MAX && epochStart <= U32_MAX
      && (epochStart != U32_MAX ==> Anchored())
    }

    /** The plateau is at or above where the epoch began, and k is short enough to climb there. */
    ghost predicate Anchored()
      reads this
    {
      && startWindow <= originPoint <= U32_MAX
      && Climbs(k, mss, originPoint - startWindow)
    }

    /** quic_cubic_on_init: no epoch is running. */
    constructor (window: nat, mss: nat)
      requires window <= U32_MAX && 0 < mss <= U32_MAX
      ensures Valid() && epochStart == U32_MAX && this.window == window && this.mss == mss && wLastMax == 0
    {
      this.window, this.mss, wLastMax, epochStart := window, mss, 0, U32_MAX;
      k, originPoint, startWindow := 0, 0, 0;
    }

    /** The beginning of cubic_cong_avoid when no epoch is running. */
    method Start(time: nat)
      requires Valid() && time < TWO_64
      modifies this`epochStart, this`k, this`originPoint, this`startWindow
      ensures Valid() && Anchored() && startWindow == window
      ensures epochStart == time % (U32_MAX + 1)
      ensures originPoint == if window < wLastMax then wLastMax else window
      ensures window < wLastMax ==> IsRoot(RootArgument(wLastMax - window, mss), k)
    {
      hide Cube, Climbs, RootArgument, IsRoot;
      NothingToClimb(mss);
      epochStart := time % (U32_MAX + 1);
      startWindow := window;
      if window < wLastMax {
        k := wLastMax - window;
        RootArgumentFits(k, mss);
        k := CubicRoot(RootArgument(k, mss));
        RootClimbs(k, mss, wLastMax - window);
        originPoint := wLastMax;
      } else {
        k := 0;
        originPoint := window;
      }
    }

    /**
     The target of cubic_cong_avoid before it is clamped. Whatever the clock says, before the
     plateau (tx <= kx) the unsigned subtraction does not wrap: the target lies between the window
     at the start of the epoch and the plateau.
     */
    method Target(time: nat, srtt: nat) returns (target: nat, tx: nat, kx: nat)
      requires Valid() && time < TWO_64 && srtt <= U32_MAX
      modifies this`epochStart, this`k, this`originPoint, this`startWindow
      ensures Valid()
      ensures tx <= kx ==> startWindow <= target <= originPoint
      ensures kx == k * 1024 && tx == U64(U64(time - epochStart + srtt) * 1024) / USEC_PER_SEC
      ensures target == if tx > kx then U64(originPoint + Delta(mss, tx - kx)) else originPoint - Delta(mss, kx - tx)
      ensures old(epochStart) != U32_MAX ==> unchanged(this)
      ensures old(epochStart) == U32_MAX ==> startWindow == window
      ensures Anchored()
    {
      if epochStart == U32_MAX {
        Start(time);
      }
      var t := U64(time - epochStart + srtt);
      tx := U64(t * 1024) / USEC_PER_SEC;
      KSmall();
      kx := U64(k * 1024);
      var td := if tx > kx then tx - kx else kx - tx;
      var delta := U64(mss * Scaled(td));
      delta := U64(delta * 4) / 10 / 1024;
      if tx > kx {
        target := U64(originPoint + delta);
      } else {
        DeltaBound(mss, k, td, originPoint - startWindow);
        target := U64(originPoint - delta);
      }
    }

    lemma KSmall()
      requires Valid() && Anchored()
      ensures k <= 0x1000
    {
      CubeMonotone(0, k);
      MulLe(4, 4 * mss, Cube(k));
      SmallRoot(k, originPoint - startWindow);
    }

    /** The epoch ends with a loss, which also sets the window and the last maximum. */
    method End(window': nat, wLastMax': nat)
      requires Valid() && window' <= U32_MAX && wLastMax' <= U32_MAX
      modifies this`epochStart, this`window, this`wLastMax
      ensures Valid() && epochStart == U32_MAX && window == window' && wLastMax == wLastMax'
    {
      epochStart, window, wLastMax := U32_MAX, window', wLastMax';
    }

    /** The window moves during an epoch; the epoch's anchor does not. */
    method Move(window': nat)
      requires Valid() && window' <= U32_MAX
      modifies this`window
      ensures Valid() && window == window'
    {
      window := window';
    }
  }
}
