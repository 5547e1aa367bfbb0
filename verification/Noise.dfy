/** Value noise over a lattice, with f64 taken as the reals, and the Nether heights built on it (world.rs). */
module Noise {
  import opened Arithmetic

  const U64_MAX := 0xffff_ffff_ffff_ffff

  type Word = w: int | 0 <= w <= U64_MAX

  /** The mixed value at each lattice point, for one seed. */
  type Lattice = (int, int) -> Word

  type Unit = t: real | 0.0 <= t <= 1.0

  function Sample(lattice: Lattice, gridX: int, gridZ: int): real {
    lattice(gridX, gridZ) as real / U64_MAX as real * 2.0 - 1.0
  }

  function Smooth(t: real): real { t * t * (3.0 - 2.0 * t) }

  function Between(a: real, b: real, weight: real): real { a + (b - a) * weight }

  // The noise at a point of a cell.
  function CellNoise(lattice: Lattice, gridX: int, gridZ: int, tx: real, tz: real): real {
    var top := Between(Sample(lattice, gridX, gridZ), Sample(lattice, gridX + 1, gridZ), Smooth(tx));
    var bottom := Between(Sample(lattice, gridX, gridZ + 1), Sample(lattice, gridX + 1, gridZ + 1), Smooth(tx));
    Between(top, bottom, Smooth(tz))
  }

  function Fraction(x: int, scale: int): real
    requires scale > 0
  {
    (x % scale) as real / scale as real
  }

  function ValueNoise(lattice: Lattice, x: int, z: int, scale: int): real
    requires scale > 0
  {
    CellNoise(lattice, x / scale, z / scale, Fraction(x, scale), Fraction(z, scale))
  }

  // ----- The curve

  lemma Product(a: real, b: real)
    requires 0.0 <= a && 0.0 <= b
    ensures 0.0 <= a * b
  {
  }

  lemma Square(a: real)
    ensures 0.0 <= a * a
  {
  }

  // The slope of the chord of the curve between two points.
  function Chord(t: real, s: real): real { 3.0 * (s + t) - 2.0 * (s * s + s * t + t * t) }

  lemma ChordRange(t: Unit, s: Unit)
    ensures 0.0 <= Chord(t, s) <= 1.5
  {
    assert 1.5 - Chord(t, s) == 1.5 * ((s + t - 1.0) * (s + t - 1.0)) + 0.5 * ((s - t) * (s - t));
    Square(s + t - 1.0);
    Square(s - t);
    assert Chord(t, s) == (s * (1.0 - s) + t * (1.0 - t)) * 2.0 + (s * (1.0 - t) + t * (1.0 - s));
    Product(s, 1.0 - s);
    Product(t, 1.0 - t);
    Product(s, 1.0 - t);
    Product(t, 1.0 - s);
  }

  lemma SmoothSlope(t: Unit, s: Unit)
    requires t <= s
    ensures 0.0 <= Smooth(s) - Smooth(t) <= 1.5 * (s - t)
  {
    assert Smooth(s) - Smooth(t) == (s - t) * Chord(t, s);
    ChordRange(t, s);
    hide Smooth, Chord;
    Product(s - t, Chord(t, s));
    Product(s - t, 1.5 - Chord(t, s));
    assert (s - t) * (1.5 - Chord(t, s)) == 1.5 * (s - t) - (s - t) * Chord(t, s);
  }

  lemma SmoothRange(t: Unit)
    ensures 0.0 <= Smooth(t) <= 1.0
  {
    SmoothSlope(0.0, t);
    SmoothSlope(t, 1.0);
  }

  lemma BetweenRange(a: real, b: real, weight: Unit, low: real, high: real)
    requires low <= a <= high && low <= b <= high
    ensures low <= Between(a, b, weight) <= high
  {
    assert Between(a, b, weight) == a * (1.0 - weight) + b * weight;
    Product(a - low, 1.0 - weight);
    Product(b - low, weight);
    Product(high - a, 1.0 - weight);
    Product(high - b, weight);
  }

  lemma SampleRange(lattice: Lattice, gridX: int, gridZ: int)
    ensures -1.0 <= Sample(lattice, gridX, gridZ) <= 1.0
  {
    var value := lattice(gridX, gridZ) as real;
    assert 0.0 <= value / U64_MAX as real <= 1.0;
  }

  lemma RowRange(lattice: Lattice, gridX: int, gridZ: int, tx: Unit)
    ensures -1.0 <= Between(Sample(lattice, gridX, gridZ), Sample(lattice, gridX + 1, gridZ), Smooth(tx)) <= 1.0
  {
    SampleRange(lattice, gridX, gridZ);
    SampleRange(lattice, gridX + 1, gridZ);
    SmoothRange(tx);
    BetweenRange(Sample(lattice, gridX, gridZ), Sample(lattice, gridX + 1, gridZ), Smooth(tx), -1.0, 1.0);
  }

  lemma CellRange(lattice: Lattice, gridX: int, gridZ: int, tx: Unit, tz: Unit)
    ensures -1.0 <= CellNoise(lattice, gridX, gridZ, tx, tz) <= 1.0
  {
    hide Sample, Smooth, Between;
    RowRange(lattice, gridX, gridZ, tx);
    RowRange(lattice, gridX, gridZ + 1, tx);
    SmoothRange(tz);
    BetweenRange(Between(Sample(lattice, gridX, gridZ), Sample(lattice, gridX + 1, gridZ), Smooth(tx)),
                 Between(Sample(lattice, gridX, gridZ + 1), Sample(lattice, gridX + 1, gridZ + 1), Smooth(tx)),
                 Smooth(tz), -1.0, 1.0);
  }

  // ----- Steps within a cell, and the seams between cells

  lemma BetweenStep(a: real, b: real, from: Unit, to: Unit)
    requires -1.0 <= a <= 1.0 && -1.0 <= b <= 1.0 && from <= to
    ensures var d := Between(a, b, Smooth(to)) - Between(a, b, Smooth(from));
      -3.0 * (to - from) <= d <= 3.0 * (to - from)
  {
    SmoothSlope(from, to);
    hide Smooth, Between;
    MixStep(a, b, Smooth(to), Smooth(from), 1.5 * (to - from));
  }

  lemma MixStep(a: real, b: real, w: real, v: real, bound: real)
    requires -1.0 <= a <= 1.0 && -1.0 <= b <= 1.0 && 0.0 <= w - v <= bound
    ensures -2.0 * bound <= Between(a, b, w) - Between(a, b, v) <= 2.0 * bound
  {
    var d, rise := b - a, w - v;
    assert Between(a, b, w) - Between(a, b, v) == d * rise;
    hide Between;
    ScaleBound(d, rise);
    assert -2.0 * rise <= d * rise <= 2.0 * rise;
  }

  lemma ScaleBound(d: real, w: real)
    requires -2.0 <= d <= 2.0 && 0.0 <= w
    ensures -2.0 * w <= d * w <= 2.0 * w
  {
    Product(2.0 - d, w);
    Product(2.0 + d, w);
  }

  lemma CellStepX(lattice: Lattice, gridX: int, gridZ: int, from: Unit, to: Unit, tz: Unit)
    requires from <= to
    ensures var d := CellNoise(lattice, gridX, gridZ, to, tz) - CellNoise(lattice, gridX, gridZ, from, tz);
      -3.0 * (to - from) <= d <= 3.0 * (to - from)
  {
    var a, b := Sample(lattice, gridX, gridZ), Sample(lattice, gridX + 1, gridZ);
    var c, e := Sample(lattice, gridX, gridZ + 1), Sample(lattice, gridX + 1, gridZ + 1);
    SampleRange(lattice, gridX, gridZ);
    SampleRange(lattice, gridX + 1, gridZ);
    SampleRange(lattice, gridX, gridZ + 1);
    SampleRange(lattice, gridX + 1, gridZ + 1);
    hide Sample;
    BetweenStep(a, b, from, to);
    BetweenStep(c, e, from, to);
    SmoothRange(tz);
    hide Smooth;
    var top := Between(a, b, Smooth(to)) - Between(a, b, Smooth(from));
    var bottom := Between(c, e, Smooth(to)) - Between(c, e, Smooth(from));
    BetweenRange(top, bottom, Smooth(tz), -3.0 * (to - from), 3.0 * (to - from));
    DifferenceOfMixes(Between(a, b, Smooth(to)), Between(c, e, Smooth(to)), Between(a, b, Smooth(from)),
                      Between(c, e, Smooth(from)), Smooth(tz));
  }

  lemma DifferenceOfMixes(a: real, b: real, c: real, d: real, w: real)
    ensures Between(a, b, w) - Between(c, d, w) == Between(a - c, b - d, w)
  {
    assert (b - a) * w - (d - c) * w == ((b - d) - (a - c)) * w;
  }

  lemma CellStepZ(lattice: Lattice, gridX: int, gridZ: int, tx: Unit, from: Unit, to: Unit)
    requires from <= to
    ensures var d := CellNoise(lattice, gridX, gridZ, tx, to) - CellNoise(lattice, gridX, gridZ, tx, from);
      -3.0 * (to - from) <= d <= 3.0 * (to - from)
  {
    hide Sample, Smooth, Between;
    RowRange(lattice, gridX, gridZ, tx);
    RowRange(lattice, gridX, gridZ + 1, tx);
    BetweenStep(Between(Sample(lattice, gridX, gridZ), Sample(lattice, gridX + 1, gridZ), Smooth(tx)),
                Between(Sample(lattice, gridX, gridZ + 1), Sample(lattice, gridX + 1, gridZ + 1), Smooth(tx)),
                from, to);
  }

  /** The far edge of a cell is the near edge of the next. */
  lemma SeamX(lattice: Lattice, gridX: int, gridZ: int, tz: real)
    ensures CellNoise(lattice, gridX, gridZ, 1.0, tz) == CellNoise(lattice, gridX + 1, gridZ, 0.0, tz)
  {
  }

  lemma SeamZ(lattice: Lattice, gridX: int, gridZ: int, tx: real)
    ensures CellNoise(lattice, gridX, gridZ, tx, 1.0) == CellNoise(lattice, gridX, gridZ + 1, tx, 0.0)
  {
  }

  // One column further is in the same cell, or at the near edge of the next.
  lemma NextColumn(x: int, scale: int)
    requires scale > 0
    ensures 0.0 <= Fraction(x, scale) <= 1.0
    ensures 0.0 <= Fraction(x, scale) + 1.0 / scale as real <= 1.0
    ensures (x % scale + 1 < scale && (x + 1) / scale == x / scale
             && Fraction(x + 1, scale) == Fraction(x, scale) + 1.0 / scale as real)
         || (x % scale + 1 == scale && (x + 1) / scale == x / scale + 1 && Fraction(x + 1, scale) == 0.0
             && Fraction(x, scale) + 1.0 / scale as real == 1.0)
  {
    NextQuotient(x, scale);
    var r := x % scale;
    assert r as real / scale as real + 1.0 / scale as real == (r + 1) as real / scale as real;
    FractionRange(r, scale);
    FractionRange(r + 1, scale);
  }

  lemma FractionRange(r: int, scale: int)
    requires scale > 0 && 0 <= r <= scale
    ensures 0.0 <= r as real / scale as real <= 1.0
  {
  }

  lemma NextQuotient(x: int, scale: int)
    requires scale > 0
    ensures if x % scale + 1 < scale then (x + 1) / scale == x / scale && (x + 1) % scale == x % scale + 1
            else (x + 1) / scale == x / scale + 1 && (x + 1) % scale == 0
  {
    var q := x / scale;
    assert x == q * scale + x % scale && (q + 1) * scale == q * scale + scale;
    if x % scale + 1 < scale {
      QuotientBounds(x + 1, scale, q, q);
    } else {
      QuotientBounds(x + 1, scale, q + 1, q + 1);
    }
  }

  // ----- The noise

  /** The noise stays within [-1, 1], everywhere. */
  lemma NoiseRange(lattice: Lattice, x: int, z: int, scale: int)
    requires scale > 0
    ensures -1.0 <= ValueNoise(lattice, x, z, scale) <= 1.0
  {
    hide CellNoise, Fraction;
    NextColumn(x, scale);
    NextColumn(z, scale);
    CellRange(lattice, x / scale, z / scale, Fraction(x, scale), Fraction(z, scale));
  }

  predicate Within(a: real, b: real, bound: real) { -bound <= a - b <= bound }

  /** One column further in x the noise has changed by at most 3 / scale, also across lattice lines and for
      negative coordinates. */
  lemma NoiseSlopeX(lattice: Lattice, x: int, z: int, scale: int)
    requires scale > 0
    ensures Within(ValueNoise(lattice, x + 1, z, scale), ValueNoise(lattice, x, z, scale), 3.0 * (1.0 / scale as real))
  {
    NextColumn(x, scale);
    NextColumn(z, scale);
    hide CellNoise, Fraction;
    var tx, tz := Fraction(x, scale), Fraction(z, scale);
    CellStepX(lattice, x / scale, z / scale, tx, tx + 1.0 / scale as real, tz);
    SeamX(lattice, x / scale, z / scale, tz);
  }

  lemma NoiseSlopeZ(lattice: Lattice, x: int, z: int, scale: int)
    requires scale > 0
    ensures Within(ValueNoise(lattice, x, z + 1, scale), ValueNoise(lattice, x, z, scale), 3.0 * (1.0 / scale as real))
  {
    NextColumn(x, scale);
    NextColumn(z, scale);
    hide CellNoise, Fraction;
    var tx, tz := Fraction(x, scale), Fraction(z, scale);
    CellStepZ(lattice, x / scale, z / scale, tx, tz, tz + 1.0 / scale as real);
    SeamZ(lattice, x / scale, z / scale, tx);
  }

  // ----- What the noise is

  /** At a lattice point the noise is the point's own value, scaled from -1 to 1. */
  lemma NoiseAtLatticePoint(lattice: Lattice, gridX: int, gridZ: int, scale: int)
    requires scale > 0
    ensures ValueNoise(lattice, gridX * scale, gridZ * scale, scale) == Sample(lattice, gridX, gridZ)
    ensures U64_MAX as real * Sample(lattice, gridX, gridZ) == (2 * lattice(gridX, gridZ) - U64_MAX) as real
  {
    AddMultiple(0, gridX, scale);
    AddMultiple(0, gridZ, scale);
  }

  /** Along the lattice lines it goes from one point's value to the next one's on the smoothing curve. */
  lemma NoiseOnLatticeLine(lattice: Lattice, gridX: int, gridZ: int, scale: int, offset: int)
    requires 0 <= offset < scale
    ensures var t := offset as real / scale as real; var weight := t * t * (3.0 - 2.0 * t);
      var here := Sample(lattice, gridX, gridZ);
      && ValueNoise(lattice, offset + gridX * scale, gridZ * scale, scale)
           == here + (Sample(lattice, gridX + 1, gridZ) - here) * weight
      && ValueNoise(lattice, gridX * scale, offset + gridZ * scale, scale)
           == here + (Sample(lattice, gridX, gridZ + 1) - here) * weight
  {
    hide Sample;
    AddMultiple(0, gridX, scale);
    AddMultiple(0, gridZ, scale);
    AddMultiple(offset, gridX, scale);
    AddMultiple(offset, gridZ, scale);
    SmallQuotient(offset, scale);
    assert Fraction(offset + gridX * scale, scale) == Fraction(offset + gridZ * scale, scale)
        == offset as real / scale as real;
    hide Fraction;
  }

  /** The curve starts and ends level, and is the same from either end. */
  lemma SmoothIsLevelAtEnds(t: Unit)
    ensures 0.0 <= Smooth(t) <= 3.0 * (t * t)
    ensures Smooth(1.0 - t) == 1.0 - Smooth(t)
  {
    Square(t);
    Product(t * t, 2.0 * t);
    SmoothRange(t);
  }

  // ----- Nether heights

  // Rounds half away from zero.
  function Round(v: real): int {
    if v >= 0.0 then (v + 0.5).Floor else -((0.5 - v).Floor)
  }

  lemma RoundIsNearest(v: real)
    ensures -0.5 <= Round(v) as real - v <= 0.5
    ensures Round(-v) == -Round(v)
    ensures v >= 0.0 ==> Round(v) as real - v > -0.5
  {
  }

  function Clamp(v: int, low: int, high: int): (clamped: int)
    requires low <= high
    ensures low <= clamped <= high && (low <= v <= high ==> clamped == v)
    ensures v < low ==> clamped == low
    ensures v > high ==> clamped == high
  {
    if v < low then low else if v > high then high else v
  }

  function CeilingField(coarse: Lattice, fine: Lattice, x: int, z: int): real {
    96.0 + ValueNoise(coarse, x, z, 48) * 10.0 + ValueNoise(fine, x, z, 20) * 3.0
  }

  function NetherCeilingHeight(coarse: Lattice, fine: Lattice, x: int, z: int): int {
    Clamp(Round(CeilingField(coarse, fine, x, z)), 83, 109)
  }

  function FloorField(lattice: Lattice, x: int, z: int): real {
    48.0 + ValueNoise(lattice, x, z, 32) * 12.0
  }

  function NetherFloorHeight(lattice: Lattice, x: int, z: int): int {
    Clamp(Round(FloorField(lattice, x, z)), 32, 72)
  }

  /** Neither clamp ever binds, and there are at least 23 blocks between floor and ceiling. */
  lemma NetherHeadroom(coarse: Lattice, fine: Lattice, floor: Lattice, x: int, z: int)
    ensures 83 <= NetherCeilingHeight(coarse, fine, x, z) == Round(CeilingField(coarse, fine, x, z)) <= 109
    ensures 36 <= NetherFloorHeight(floor, x, z) == Round(FloorField(floor, x, z)) <= 60
    ensures NetherCeilingHeight(coarse, fine, x, z) - NetherFloorHeight(floor, x, z) >= 23
  {
    hide ValueNoise;
    NoiseRange(coarse, x, z, 48);
    NoiseRange(fine, x, z, 20);
    NoiseRange(floor, x, z, 32);
  }

  /** Where the lattices meet, the Nether's ceiling is 96 moved by 10 and 3 blocks of noise, and its floor 48 moved
      by 12, each rounded to the nearest block. */
  lemma NetherHeightsOnLattice(coarse: Lattice, fine: Lattice, floor: Lattice, a: int, b: int)
    ensures NetherCeilingHeight(coarse, fine, 240 * a, 240 * b)
         == Round(96.0 + 10.0 * Sample(coarse, 5 * a, 5 * b) + 3.0 * Sample(fine, 12 * a, 12 * b))
    ensures NetherFloorHeight(floor, 32 * a, 32 * b) == Round(48.0 + 12.0 * Sample(floor, a, b))
  {
    hide ValueNoise, Sample, Round;
    NetherHeadroom(coarse, fine, floor, 240 * a, 240 * b);
    NetherHeadroom(coarse, fine, floor, 32 * a, 32 * b);
    NoiseAtLatticePoint(coarse, 5 * a, 5 * b, 48);
    NoiseAtLatticePoint(fine, 12 * a, 12 * b, 20);
    NoiseAtLatticePoint(floor, a, b, 32);
    assert 5 * a * 48 == 240 * a && 5 * b * 48 == 240 * b && 12 * a * 20 == 240 * a && 12 * b * 20 == 240 * b;
    assert a * 32 == 32 * a && b * 32 == 32 * b;
  }

  lemma RoundClose(a: real, b: real, bound: real)
    requires a >= 0.0 && b >= 0.0 && Within(a, b, bound) && bound < 2.0
    ensures -2 <= Round(a) - Round(b) <= 2
  {
  }

  lemma FieldIsHigh(coarse: Lattice, fine: Lattice, x: int, z: int)
    ensures CeilingField(coarse, fine, x, z) >= 83.0
  {
    hide ValueNoise;
    NoiseRange(coarse, x, z, 48);
    NoiseRange(fine, x, z, 20);
  }

  lemma FieldsClose(coarse: Lattice, fine: Lattice, x: int, z: int, x': int, z': int)
    requires Within(ValueNoise(coarse, x', z', 48), ValueNoise(coarse, x, z, 48), 3.0 * (1.0 / 48.0))
    requires Within(ValueNoise(fine, x', z', 20), ValueNoise(fine, x, z, 20), 3.0 * (1.0 / 20.0))
    ensures -2 <= NetherCeilingHeight(coarse, fine, x', z') - NetherCeilingHeight(coarse, fine, x, z) <= 2
  {
    hide ValueNoise, Round;
    assert Within(CeilingField(coarse, fine, x', z'), CeilingField(coarse, fine, x, z), 1.1);
    FieldIsHigh(coarse, fine, x, z);
    FieldIsHigh(coarse, fine, x', z');
    hide CeilingField, Within;
    NetherHeadroom(coarse, fine, coarse, x, z);
    NetherHeadroom(coarse, fine, coarse, x', z');
    RoundClose(CeilingField(coarse, fine, x', z'), CeilingField(coarse, fine, x, z), 1.1);
  }

  /** A ceiling and the one next to it, in x or in z, differ by at most 2. */
  lemma NetherCeilingIsGentle(coarse: Lattice, fine: Lattice, x: int, z: int)
    ensures -2 <= NetherCeilingHeight(coarse, fine, x + 1, z) - NetherCeilingHeight(coarse, fine, x, z) <= 2
    ensures -2 <= NetherCeilingHeight(coarse, fine, x, z + 1) - NetherCeilingHeight(coarse, fine, x, z) <= 2
  {
    hide *;
    NoiseSlopeX(coarse, x, z, 48);
    NoiseSlopeX(fine, x, z, 20);
    FieldsClose(coarse, fine, x, z, x + 1, z);
    NoiseSlopeZ(coarse, x, z, 48);
    NoiseSlopeZ(fine, x, z, 20);
    FieldsClose(coarse, fine, x, z, x, z + 1);
  }
}
