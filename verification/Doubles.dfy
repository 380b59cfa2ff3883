/** Exact numbers: int64 integers and finite doubles on one scale, and rounding between them.

    A finite double is its 64-bit pattern in the binary64 interchange format of section 3.4 of IEEE 754-2019.
    Values are exact: each is an integer number of units of 2^-1074, the smallest subnormal. Rounding an
    integer to a double is roundTiesToEven, section 4.3.1. */
module Doubles {

  const TWO52: nat := 0x10_0000_0000_0000
  const TWO53: nat := 0x20_0000_0000_0000
  const TWO63: nat := 0x8000_0000_0000_0000
  const TWO64: nat := 0x1_0000_0000_0000_0000

  /** The least pattern, sign aside, that is not a finite number: the exponent field all ones. */
  const INFINITE: nat := 0x7FF0_0000_0000_0000

  function Pow2(e: nat): (p: nat)
    ensures p > 0
  {
    if e == 0 then 1 else 2 * Pow2(e - 1)
  }

  lemma {:induction false} Pow2Sum(a: nat, b: nat)
    ensures Pow2(a + b) == Pow2(a) * Pow2(b)
  {
    if b > 0 {
      Pow2Sum(a, b - 1);
      assert Pow2(a) * Pow2(b) == 2 * (Pow2(a) * Pow2(b - 1));
    }
  }

  lemma {:induction false} Pow2Grows(a: nat, b: nat)
    requires a <= b
    ensures Pow2(a) <= Pow2(b)
  {
    if a < b {
      Pow2Grows(a, b - 1);
    }
  }

  // ---- doubles ----------------------------------------------------------------------------------

  /** The distance to the next double up from magnitude pattern `m`. */
  function Ulp(m: nat): (u: nat)
    ensures u > 0
  {
    if m < TWO53 then 1 else Pow2(m / TWO52 - 1)
  }

  /** The exact magnitude of the double whose pattern, sign aside, is `m`: the significand, with its hidden bit
      when the exponent field is not zero, times the weight of its last place. */
  function Magnitude(m: nat): nat {
    if m < TWO52 then m else (TWO52 + m % TWO52) * Pow2(m / TWO52 - 1)
  }

  /** Neighbouring patterns are one unit in the last place apart, across exponent boundaries too. */
  lemma NextMagnitude(m: nat)
    ensures Magnitude(m + 1) == Magnitude(m) + Ulp(m)
  {
    if m + 1 < TWO52 {
    } else if m + 1 == TWO52 {
      assert Pow2(0) == 1;
    } else {
      var e, f := m / TWO52, m % TWO52;
      if f + 1 < TWO52 {
        assert (m + 1) / TWO52 == e && (m + 1) % TWO52 == f + 1;
        assert (TWO52 + f + 1) * Pow2(e - 1) == (TWO52 + f) * Pow2(e - 1) + Pow2(e - 1);
      } else {
        assert (m + 1) / TWO52 == e + 1 && (m + 1) % TWO52 == 0;
        assert Pow2(e) == 2 * Pow2(e - 1);
        assert TWO52 * (2 * Pow2(e - 1)) == (TWO52 + f) * Pow2(e - 1) + Pow2(e - 1);
      }
      assert e == 1 ==> Pow2(e - 1) == 1;
    }
  }

  lemma {:induction false} MagnitudeGrows(a: nat, b: nat)
    requires a < b
    ensures Magnitude(a) < Magnitude(b)
    decreases b - a
  {
    NextMagnitude(b - 1);
    if a < b - 1 {
      MagnitudeGrows(a, b - 1);
    }
  }

  // ---- rounding to the nearest double, ties to even ---------------------------------------------

  /** The weight of the last place of doubles around `n`: the significand takes 53 bits. */
  function Place(n: nat, e: nat): nat
    requires n >= Pow2(52 + e)
    ensures Pow2(52 + Place(n, e)) <= n < Pow2(53 + Place(n, e))
    decreases n - Pow2(52 + e)
  {
    if n < Pow2(53 + e) then e else Place(n, e + 1)
  }

  lemma SmallPowers()
    ensures Pow2(9) == 512 && Pow2(10) == 1024 && Pow2(52) == TWO52 && Pow2(53) == TWO53 && Pow2(63) == TWO63
  {
    assert Pow2(3) == 8;
    Pow2Sum(3, 3);
    Pow2Sum(6, 3);
    Pow2Sum(9, 1);
    Pow2Sum(10, 3);
    Pow2Sum(13, 13);
    Pow2Sum(26, 26);
    Pow2Sum(52, 1);
    Pow2Sum(53, 10);
  }

  /** The greatest pattern whose double is not above `n`. */
  function Below(n: nat): nat {
    if n < TWO52 then n
    else
      SmallPowers();
      var e := Place(n, 0);
      e * TWO52 + n / Pow2(e)
  }

  /** The pattern of the double nearest to `n` units; halfway goes to the even one. Rounding up a full significand
      carries into the exponent field. */
  function Nearest(n: nat): nat {
    var low := Below(n);
    var over := 2 * (n - Magnitude(low));
    if over > Ulp(low) || (over == Ulp(low) && low % 2 == 1) then low + 1 else low
  }

  lemma PatternMagnitude(e: nat, q: nat)
    requires TWO52 <= q <= TWO53
    ensures Magnitude(e * TWO52 + q) == q * Pow2(e)
  {
    var m := e * TWO52 + q;
    if q < TWO53 {
      assert m / TWO52 == e + 1 && m % TWO52 == q - TWO52;
    } else {
      assert m / TWO52 == e + 2 && m % TWO52 == 0;
      assert Pow2(e + 1) == 2 * Pow2(e);
    }
  }

  lemma Quotient(n: nat, e: nat)
    requires Pow2(52 + e) <= n < Pow2(53 + e)
    ensures var q, unit := n / Pow2(e), Pow2(e); TWO52 <= q < TWO53 && q * unit <= n < (q + 1) * unit
  {
    SmallPowers();
    Pow2Sum(52, e);
    Pow2Sum(53, e);
    QuotientBounds(n, Pow2(e), TWO52, TWO53);
  }

  lemma QuotientBounds(n: nat, unit: nat, lo: nat, hi: nat)
    requires unit > 0 && lo * unit <= n < hi * unit
    ensures var q := n / unit; lo <= q < hi && q * unit <= n < (q + 1) * unit
  {
    var q := n / unit;
    assert n == q * unit + n % unit;
    if q < lo {
      MulBound(q + 1, lo, unit);
    }
    if q >= hi {
      MulBound(hi, q, unit);
    }
  }

  lemma MulBound(a: nat, b: nat, unit: nat)
    requires a <= b
    ensures a * unit <= b * unit
  {
  }

  /** `n` lies between a double and its next neighbour. */
  lemma Bracketed(n: nat)
    ensures Magnitude(Below(n)) <= n < Magnitude(Below(n) + 1)
  {
    if n < TWO52 {
      NextMagnitude(n);
    } else {
      SmallPowers();
      var e := Place(n, 0);
      Quotient(n, e);
      PatternMagnitude(e, n / Pow2(e));
      PatternMagnitude(e, n / Pow2(e) + 1);
    }
  }

  function Distance(n: nat, m: nat): nat {
    if n >= Magnitude(m) then n - Magnitude(m) else Magnitude(m) - n
  }

  /** Every other double lies beyond the two neighbours. */
  lemma Outside(low: nat, x: nat)
    ensures x < low ==> Magnitude(x) < Magnitude(low)
    ensures x > low + 1 ==> Magnitude(x) > Magnitude(low) + Ulp(low)
  {
    NextMagnitude(low);
    if x < low {
      MagnitudeGrows(x, low);
    } else if x > low + 1 {
      MagnitudeGrows(low + 1, x);
    }
  }

  /** How far each double is, seen from between two neighbours. */
  lemma Distances(n: nat, x: nat)
    ensures var low, gap := Below(n), n - Magnitude(Below(n));
            && 0 <= gap < Ulp(low) && Distance(n, low) == gap && Distance(n, low + 1) == Ulp(low) - gap
            && (x < low ==> Distance(n, x) > gap) && (x > low + 1 ==> Distance(n, x) > Ulp(low) - gap)
  {
    Bracketed(n);
    NextMagnitude(Below(n));
    Outside(Below(n), x);
  }

  /** No double is nearer than the rounded one, and of two equally near ones it is the even one. */
  lemma NearestIsNearest(n: nat, x: nat)
    ensures Distance(n, Nearest(n)) <= Distance(n, x)
    ensures x != Nearest(n) && Distance(n, Nearest(n)) == Distance(n, x) ==> Nearest(n) % 2 == 0
  {
    Distances(n, x);
    var low := Below(n);
    Choice(low, x, Distance(n, low), Distance(n, low + 1), Distance(n, x));
    NearestByDistance(n);
  }

  /** Rounding compares the distances to the two neighbours. */
  lemma NearestByDistance(n: nat)
    ensures var low := Below(n); Nearest(n) == Nearer(low, Distance(n, low), Distance(n, low + 1))
  {
    Bracketed(n);
    NextMagnitude(Below(n));
  }

  function Nearer(low: nat, d0: nat, d1: nat): nat {
    if d0 > d1 || (d0 == d1 && low % 2 == 1) then low + 1 else low
  }

  lemma Choice(low: nat, x: nat, d0: nat, d1: nat, dx: nat)
    requires (x == low ==> dx == d0) && (x == low + 1 ==> dx == d1) && (x < low ==> dx > d0) &&
             (x > low + 1 ==> dx > d1)
    ensures var r := Nearer(low, d0, d1);
            var dr := if r == low then d0 else d1;
            dr <= dx && (x != r && dr == dx ==> r % 2 == 0)
  {
  }

  lemma RoundingKeepsOrder(a: nat, b: nat)
    requires a <= b
    ensures Nearest(a) <= Nearest(b)
  {
    if Nearest(a) > Nearest(b) {
      MagnitudeGrows(Nearest(b), Nearest(a));
      NearestIsNearest(a, Nearest(b));
      NearestIsNearest(b, Nearest(a));
    }
  }

  lemma DoublesRoundToThemselves(m: nat)
    ensures Nearest(Magnitude(m)) == m
  {
    var r := Nearest(Magnitude(m));
    NearestIsNearest(Magnitude(m), m);
    if r < m {
      MagnitudeGrows(r, m);
    } else if m < r {
      MagnitudeGrows(m, r);
    }
  }

  // ---- signed values ----------------------------------------------------------------------------

  /** Doubles by rank: `p` for the pattern `p` with a clear sign bit, `-p` with it set. Both zeros have rank 0. */
  function ValueAt(p: int): int {
    if p >= 0 then Magnitude(p) else -(Magnitude(-p) as int)
  }

  function Rounded(v: int): int {
    if v >= 0 then Nearest(v) else -(Nearest(-v) as int)
  }

  lemma RoundedGrows(v: int, w: int)
    requires v <= w
    ensures Rounded(v) <= Rounded(w)
  {
    if v >= 0 {
      RoundingKeepsOrder(v, w);
    } else if w < 0 {
      RoundingKeepsOrder(-w, -v);
    }
  }

  lemma RanksRoundToThemselves(p: int)
    ensures Rounded(ValueAt(p)) == p
  {
    if p >= 0 {
      DoublesRoundToThemselves(p);
    } else {
      MagnitudeGrows(0, -p);
      DoublesRoundToThemselves(-p);
    }
  }

  // ---- integers ---------------------------------------------------------------------------------

  ghost predicate ResidualFits(k: nat, g: nat) {
    && Magnitude(Nearest(k * Pow2(g))) % Pow2(g) == 0
    && Distance(k * Pow2(g), Nearest(k * Pow2(g))) <= 512 * Pow2(g)
  }

  /** Rounding `k` times a power of two moves it by a whole multiple of that power, at most 2^9 of them while `k`
      is an int64 magnitude. */
  lemma IntegerResidual(k: nat, g: nat)
    requires k <= TWO63
    ensures ResidualFits(k, g)
  {
    if k * Pow2(g) < TWO52 {
      SmallGrid(k, g);
    } else {
      SmallPowers();
      var e := Place(k * Pow2(g), 0);
      if e <= g {
        FineGrid(k, g, e);
      } else {
        CoarseGrid(k, g, e);
      }
    }
  }

  lemma SmallGrid(k: nat, g: nat)
    requires k * Pow2(g) < TWO52
    ensures ResidualFits(k, g)
  {
    var n := k * Pow2(g);
    assert Magnitude(n) == n;
    DoublesRoundToThemselves(n);
    MultipleOf(k, Pow2(g));
  }

  lemma MultipleOf(k: nat, unit: nat)
    requires unit > 0
    ensures (k * unit) % unit == 0 && (k * unit) / unit == k
  {
    QuotientUnique(k * unit, unit, k, 0);
  }

  lemma QuotientUnique(n: nat, unit: nat, q: nat, r: nat)
    requires unit > 0 && n == q * unit + r && r < unit
    ensures n / unit == q && n % unit == r
  {
    var d := n / unit;
    assert n == d * unit + n % unit;
    if d < q {
      MulBound(d + 1, q, unit);
    } else if d > q {
      MulBound(q + 1, d, unit);
    }
  }

  /** Places no coarser than the grid hold the number exactly. */
  lemma FineGrid(k: nat, g: nat, e: nat)
    requires e <= g && k * Pow2(g) >= TWO52 && Pow2(52 + e) <= k * Pow2(g) < Pow2(53 + e)
    ensures ResidualFits(k, g)
  {
    var n, unit := k * Pow2(g), Pow2(e);
    Pow2Sum(g - e, e);
    var q := k * Pow2(g - e);
    assert n == q * unit by {
      assert k * (Pow2(g - e) * unit) == (k * Pow2(g - e)) * unit;
    }
    MultipleOf(q, unit);
    Quotient(n, e);
    PatternMagnitude(e, q);
    DoublesRoundToThemselves(e * TWO52 + q);
    MultipleOf(k, Pow2(g));
  }

  lemma PlaceUnique(n: nat, e: nat)
    requires n >= TWO52 && Pow2(52 + e) <= n < Pow2(53 + e)
    ensures (SmallPowers(); Place(n, 0) == e)
  {
    SmallPowers();
    var f := Place(n, 0);
    if f < e {
      Pow2Grows(53 + f, 52 + e);
    } else if e < f {
      Pow2Grows(53 + e, 52 + f);
    }
  }

  /** Places coarser than the grid are multiples of it, and for an int64 at most 2^10 of it. */
  lemma CoarseGrid(k: nat, g: nat, e: nat)
    requires k <= TWO63 && e > g && k * Pow2(g) >= TWO52 && Pow2(52 + e) <= k * Pow2(g) < Pow2(53 + e)
    ensures ResidualFits(k, g)
  {
    var n, unit := k * Pow2(g), Pow2(e);
    Quotient(n, e);
    var q := n / unit;
    BetweenMultiples(n, e, q);
    assert (Magnitude(Nearest(n))) % Pow2(g) == 0 by {
      Pow2Sum(e - g, g);
      MultiplesNest(q, Pow2(e - g), Pow2(g));
      MultiplesNest(q + 1, Pow2(e - g), Pow2(g));
    }
    UnitBound(k, g, e);
    if Pow2(e) > 1024 * Pow2(g) {
      QuotientUnique(n, unit, TWO52, 0);
    }
  }

  /** Between neighbouring multiples of the place, rounding picks one no further than half of it. */
  lemma BetweenMultiples(n: nat, e: nat, q: nat)
    requires n >= TWO52 && Pow2(52 + e) <= n < Pow2(53 + e) && q == n / Pow2(e)
    ensures Magnitude(Nearest(n)) == q * Pow2(e) || Magnitude(Nearest(n)) == (q + 1) * Pow2(e)
    ensures 2 * Distance(n, Nearest(n)) <= Pow2(e)
    ensures n == q * Pow2(e) ==> Distance(n, Nearest(n)) == 0
  {
    BelowAt(n, e, q);
    Distances(n, Below(n));
    NearestByDistance(n);
    NextMagnitude(Below(n));
  }

  lemma BelowAt(n: nat, e: nat, q: nat)
    requires n >= TWO52 && Pow2(52 + e) <= n < Pow2(53 + e) && q == n / Pow2(e)
    ensures Below(n) == e * TWO52 + q && Magnitude(Below(n)) == q * Pow2(e)
    ensures Ulp(Below(n)) == Pow2(e) && (q + 1) * Pow2(e) == q * Pow2(e) + Pow2(e)
  {
    PlaceUnique(n, e);
    Quotient(n, e);
    PatternMagnitude(e, q);
    PatternMagnitude(e, q + 1);
    NextMagnitude(e * TWO52 + q);
  }

  lemma MultiplesNest(q: nat, c: nat, grid: nat)
    requires grid > 0
    ensures (q * (c * grid)) % grid == 0
  {
    assert q * (c * grid) == (q * c) * grid;
    MultipleOf(q * c, grid);
  }

  lemma UnitBound(k: nat, g: nat, e: nat)
    requires k <= TWO63 && e > g && Pow2(52 + e) <= k * Pow2(g) < Pow2(53 + e)
    ensures Pow2(e) <= 1024 * Pow2(g) || (k == TWO63 && k * Pow2(g) == TWO52 * Pow2(e))
  {
    SmallPowers();
    Pow2Sum(63, g);
    if e > g + 11 {
      Pow2Grows(64 + g, 52 + e);
      Pow2Sum(1, 63 + g);
      MulBound(k, TWO63, Pow2(g));
    } else if e == g + 11 {
      Pow2Sum(52, e);
      MulBound(k, TWO63, Pow2(g));
      if k < TWO63 {
        MulBound(k + 1, TWO63, Pow2(g));
      }
    } else {
      Pow2Sum(10, g);
      Pow2Grows(e, g + 10);
    }
  }

  // ---- numeric values and their keys ------------------------------------------------------------

  /** A number to key: an int64, or a finite double by its pattern. */
  datatype Numeric = Int64(n: int) | Real(bits: nat)

  predicate Valid(v: Numeric) {
    match v
    case Int64(n) => -(TWO63 as int) <= n < TWO63
    case Real(bits) => bits < TWO64 && bits % TWO63 < INFINITE
  }

  /** `n` in units of 2^-`g`. */
  function Scaled(n: int, g: nat): int {
    n * Pow2(g)
  }

  /** The exact value in units of 2^-`g`, the smallest subnormal: `g` is 1074 for binary64. */
  function Exact(v: Numeric, g: nat): int
    requires Valid(v)
  {
    match v
    case Int64(n) => Scaled(n, g)
    case Real(bits) => ValueAt(Rank(bits))
  }

  function Rank(bits: nat): int {
    if bits < TWO63 then bits else -((bits - TWO63) as int)
  }

  /** The nearest double, by rank. A double is its own. */
  function Primary(v: Numeric, g: nat): int
    requires Valid(v)
  {
    match v
    case Int64(n) => Rounded(Scaled(n, g))
    case Real(bits) => Rank(bits)
  }

  /** The whole number the double of rank `p` is, toward zero. */
  function Whole(p: int, g: nat): int {
    if p >= 0 then Magnitude(p) / Pow2(g) else -((Magnitude(-p) / Pow2(g)) as int)
  }

  /** What the nearest double misses, in whole numbers. */
  function Residual(v: Numeric, g: nat): int
    requires Valid(v)
  {
    match v
    case Int64(n) => n - Whole(Rounded(Scaled(n, g)), g)
    case Real(_) => 0
  }

  lemma WholeIsExact(k: nat, g: nat)
    requires k <= TWO63
    ensures var m := Nearest(k * Pow2(g));
            && Magnitude(m) == (Magnitude(m) / Pow2(g)) * Pow2(g)
            && -512 <= k - Magnitude(m) / Pow2(g) <= 512
  {
    IntegerResidual(k, g);
    var m, grid := Nearest(k * Pow2(g)), Pow2(g);
    NearbyMultiples(k, Magnitude(m), grid);
  }

  lemma NearbyMultiples(k: nat, x: nat, grid: nat)
    requires grid > 0 && x % grid == 0 && k * grid - 512 * grid <= x <= k * grid + 512 * grid
    ensures x == (x / grid) * grid && -512 <= k - x / grid <= 512
  {
    var w := x / grid;
    assert x == w * grid;
    if k > w + 512 {
      MulBound(w + 513, k, grid);
    } else if w > k + 512 {
      MulBound(k + 513, w, grid);
    }
  }

  /** Nearest double and residual together are the number, the residual at most 2^9 either way, and the nearest
      double is the rounded exact value for both kinds. */
  lemma SplitIsExact(v: Numeric, g: nat)
    requires Valid(v)
    ensures Exact(v, g) == ValueAt(Primary(v, g)) + Scaled(Residual(v, g), g)
    ensures -512 <= Residual(v, g) <= 512
    ensures Primary(v, g) == Rounded(Exact(v, g))
  {
    match v
    case Int64(n) =>
      var w := Whole(Rounded(Scaled(n, g)), g);
      WholeOfRounded(n, g);
      Distributes(n, w, Pow2(g));
    case Real(bits) =>
      RanksRoundToThemselves(Rank(bits));
      assert Scaled(0, g) == 0;
  }

  lemma Distributes(n: int, w: int, grid: nat)
    ensures n * grid == w * grid + (n - w) * grid
  {
  }

  lemma WholeOfRounded(n: int, g: nat)
    requires -(TWO63 as int) <= n <= TWO63
    ensures var w := Whole(Rounded(Scaled(n, g)), g);
            ValueAt(Rounded(Scaled(n, g))) == w * Pow2(g) && -512 <= n - w <= 512
  {
    var k := if n >= 0 then n else -n;
    var grid := Pow2(g);
    WholeIsExact(k, g);
    var m := Nearest(k * grid);
    var u := Magnitude(m) / grid;
    ScaledSign(n, k, g);
    if n < 0 {
      assert Rounded(Scaled(n, g)) == -(m as int);
      NegativeProduct(-(u as int), grid);
    }
  }

  lemma ScaledSign(n: int, k: nat, g: nat)
    requires k == if n >= 0 then n else -n
    ensures n >= 0 ==> Scaled(n, g) == k * Pow2(g)
    ensures n < 0 ==> Scaled(n, g) == -((k * Pow2(g)) as int) < 0
  {
    NegativeProduct(n, Pow2(g));
    if n < 0 {
      MulBound(1, k, Pow2(g));
    }
  }

  lemma NegativeProduct(n: int, grid: nat)
    ensures n * grid == -((-n) * grid)
  {
  }

  // ---- the split --------------------------------------------------------------------------------

  /** A number as its key holds it: the nearest double by rank, and what that misses. */
  datatype Split = Split(rank: int, residual: int)

  predicate Fits(sp: Split) {
    -(INFINITE as int) < sp.rank < INFINITE && -512 <= sp.residual <= 512
  }

  function SplitOf(v: Numeric, g: nat): Split
    requires Valid(v)
  {
    Split(Primary(v, g), Residual(v, g))
  }

  lemma PrimaryIsFinite(v: Numeric, g: nat)
    requires Valid(v) && g <= 1074
    ensures -(INFINITE as int) < Primary(v, g) < INFINITE
  {
    if v.Int64? {
      var k := if v.n >= 0 then v.n else -v.n;
      ScaledSign(v.n, k, g);
      RoundedIsFinite(k, g);
    }
  }

  lemma RoundedIsFinite(k: nat, g: nat)
    requires k <= TWO63 && g <= 1074
    ensures Nearest(k * Pow2(g)) < INFINITE
  {
    var n := k * Pow2(g);
    if n >= TWO52 {
      SmallPowers();
      var e := Place(n, 0);
      Quotient(n, e);
      if e > g + 11 {
        Pow2Sum(63, g);
        MulBound(k, TWO63, Pow2(g));
        Pow2Grows(64 + g, 52 + e);
      }
      assert e <= 1085;
      MulBound(e, 1085, TWO52);
    }
  }

  lemma SplitFits(v: Numeric, g: nat)
    requires Valid(v) && g <= 1074
    ensures Fits(SplitOf(v, g))
  {
    PrimaryIsFinite(v, g);
    SplitIsExact(v, g);
  }

  predicate Precedes(a: Split, b: Split) {
    a.rank < b.rank || (a.rank == b.rank && a.residual < b.residual)
  }

  lemma ScaledOrders(r: int, s: int, g: nat)
    requires Scaled(r, g) < Scaled(s, g)
    ensures r < s
  {
    if r >= s {
      assert (r - s) * Pow2(g) >= 0;
      Distributes(r, s, Pow2(g));
    }
  }

  lemma ScaledStrict(r: int, s: int, g: nat)
    requires r < s
    ensures Scaled(r, g) < Scaled(s, g)
  {
    Distributes(s, r, Pow2(g));
    MulBound(1, s - r, Pow2(g));
  }

  /** A lesser number has the earlier split, and equal numbers one split, whichever kinds they are. */
  lemma SplitOrders(a: Numeric, b: Numeric, g: nat)
    requires Valid(a) && Valid(b)
    ensures Exact(a, g) < Exact(b, g) ==> Precedes(SplitOf(a, g), SplitOf(b, g))
    ensures Exact(a, g) == Exact(b, g) ==> SplitOf(a, g) == SplitOf(b, g)
  {
    SplitIsExact(a, g);
    SplitIsExact(b, g);
    OrderedParts(Exact(a, g), Exact(b, g), Residual(a, g), Residual(b, g), g);
  }

  lemma OrderedParts(x: int, y: int, r: int, s: int, g: nat)
    requires x == ValueAt(Rounded(x)) + Scaled(r, g) && y == ValueAt(Rounded(y)) + Scaled(s, g)
    ensures x < y ==> Rounded(x) < Rounded(y) || (Rounded(x) == Rounded(y) && r < s)
    ensures x == y ==> r == s
  {
    if x < y {
      RoundedGrows(x, y);
      if Rounded(x) == Rounded(y) {
        ScaledOrders(r, s, g);
      }
    } else if x == y {
      if r < s {
        ScaledStrict(r, s, g);
      } else if s < r {
        ScaledStrict(s, r, g);
      }
    }
  }
}
