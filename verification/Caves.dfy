/** The infinite cave network of world.rs, as a set of positions: junctions, tunnels,
    and the passage that joins any two of them. */
module Caves {
  import opened Arithmetic
  import opened Blocks

  const CAVE_CELL_WIDTH := 64
  const CAVE_TUNNEL_RADIUS := 3
  const CAVE_CHAMBER_RADIUS := 5
  const LOWEST_CARVED_Y := -59
  const ROOF_THICKNESS := 6

  /** A seed's view of the terrain: mix for the cave stream, and the surface heights. */
  datatype Terrain = Terrain(mix: (int, int) -> nat, surface: (int, int) -> int)

  // terrain_height clamps the Overworld to 32..144.
  ghost predicate SurfaceClamped(t: Terrain) {
    forall x, z :: 32 <= t.surface(x, z) <= 144
  }

  // ----- The carved set

  function CaveNetworkNode(t: Terrain, cellX: int, cellZ: int): BlockPosition {
    var value := t.mix(cellX, cellZ);
    BlockPosition(cellX * CAVE_CELL_WIDTH + 16 + (value / 0x100) % 32,
                  -24 + (value / 0x100_0000) % 13,
                  cellZ * CAVE_CELL_WIDTH + 16 + (value / 0x100_0000_0000) % 32)
  }

  function TunnelSteps(start: BlockPosition, end: BlockPosition): nat
    ensures TunnelSteps(start, end) >= 1
    ensures Abs(end.x - start.x) <= TunnelSteps(start, end)
    ensures Abs(end.y - start.y) <= TunnelSteps(start, end)
    ensures Abs(end.z - start.z) <= TunnelSteps(start, end)
  {
    var dx, dy, dz := Abs(end.x - start.x), Abs(end.y - start.y), Abs(end.z - start.z);
    var most := if dx >= dy && dx >= dz then dx else if dy >= dz then dy else dz;
    if most < 1 then 1 else most
  }

  function TunnelSample(start: BlockPosition, end: BlockPosition, step: nat): BlockPosition {
    var steps := TunnelSteps(start, end);
    BlockPosition(start.x + ((end.x - start.x) * step) / steps,
                  start.y + ((end.y - start.y) * step) / steps,
                  start.z + ((end.z - start.z) * step) / steps)
  }

  function Square(n: int): int { n * n }

  predicate InBall(center: BlockPosition, radius: int, p: BlockPosition) {
    Square(p.x - center.x) + Square(p.z - center.z) + Square(p.y - center.y) <= Square(radius)
  }

  // The clips of carve_cave_ball.
  predicate Unclipped(t: Terrain, p: BlockPosition) {
    LOWEST_CARVED_Y <= p.y <= t.surface(p.x, p.z) - ROOF_THICKNESS
  }

  ghost predicate InTunnel(start: BlockPosition, end: BlockPosition, p: BlockPosition) {
    exists step: nat :: step <= TunnelSteps(start, end) && InBall(TunnelSample(start, end, step), CAVE_TUNNEL_RADIUS, p)
  }

  /** Every cell owns its junction and its east and south tunnels. */
  ghost predicate CellReaches(t: Terrain, cellX: int, cellZ: int, p: BlockPosition) {
    var node := CaveNetworkNode(t, cellX, cellZ);
    || InBall(node, CAVE_CHAMBER_RADIUS, p)
    || InTunnel(node, CaveNetworkNode(t, cellX + 1, cellZ), p)
    || InTunnel(node, CaveNetworkNode(t, cellX, cellZ + 1), p)
  }

  ghost predicate Carved(t: Terrain, p: BlockPosition) {
    Unclipped(t, p) && exists cellX, cellZ :: CellReaches(t, cellX, cellZ, p)
  }

  // ----- Tunnel samples

  lemma NextQuotient(d: int, step: int, n: int)
    requires n >= 1 && -n <= d <= n
    ensures -1 <= (d * (step + 1)) / n - (d * step) / n <= 1
  {
    var a := d * step;
    var q, r := a / n, a % n;
    assert a == q * n + r;
    assert d * (step + 1) == a + d;
    if r + d < 0 {
      assert (q - 1) * n == q * n - n;
      QuotientBounds(a + d, n, q - 1, q - 1);
    } else if r + d < n {
      QuotientBounds(a + d, n, q, q);
    } else {
      assert (q + 1) * n == q * n + n;
      if r + d < 2 * n {
        QuotientBounds(a + d, n, q + 1, q + 1);
      }
    }
  }

  lemma QuotientEnds(d: int, n: int)
    requires n >= 1
    ensures (d * 0) / n == 0 && (d * n) / n == d
  {
    QuotientBounds(d * n, n, d, d);
  }

  lemma SampleEnds(start: BlockPosition, end: BlockPosition)
    ensures TunnelSample(start, end, 0) == start
    ensures TunnelSample(start, end, TunnelSteps(start, end)) == end
  {
    var steps := TunnelSteps(start, end);
    QuotientEnds(end.x - start.x, steps);
    QuotientEnds(end.y - start.y, steps);
    QuotientEnds(end.z - start.z, steps);
  }

  /** Consecutive samples differ by at most one block on each axis. */
  lemma SamplesAreClose(start: BlockPosition, end: BlockPosition, step: nat)
    ensures var a, b := TunnelSample(start, end, step), TunnelSample(start, end, step + 1);
      -1 <= b.x - a.x <= 1 && -1 <= b.y - a.y <= 1 && -1 <= b.z - a.z <= 1
  {
    var steps := TunnelSteps(start, end);
    NextQuotient(end.x - start.x, step, steps);
    NextQuotient(end.y - start.y, step, steps);
    NextQuotient(end.z - start.z, step, steps);
  }

  lemma ScaledWithin(d: int, step: int, n: int)
    requires 0 <= step <= n
    ensures d >= 0 ==> 0 <= d * step <= d * n
    ensures d <= 0 ==> d * n <= d * step <= 0
  {
  }

  lemma QuotientWithin(d: int, step: int, n: int)
    requires n >= 1 && 0 <= step <= n
    ensures d >= 0 ==> 0 <= (d * step) / n <= d
    ensures d <= 0 ==> d <= (d * step) / n <= 0
  {
    ScaledWithin(d, step, n);
    if d >= 0 {
      QuotientBounds(d * step, n, 0, d);
    } else {
      QuotientBounds(d * step, n, d, 0);
    }
  }

  /** Every sample lies in the box its two ends span. */
  lemma SampleWithin(start: BlockPosition, end: BlockPosition, step: nat)
    requires step <= TunnelSteps(start, end)
    ensures var p := TunnelSample(start, end, step);
      && (start.x <= p.x <= end.x || end.x <= p.x <= start.x)
      && (start.y <= p.y <= end.y || end.y <= p.y <= start.y)
      && (start.z <= p.z <= end.z || end.z <= p.z <= start.z)
  {
    var steps := TunnelSteps(start, end);
    QuotientWithin(end.x - start.x, step, steps);
    QuotientWithin(end.y - start.y, step, steps);
    QuotientWithin(end.z - start.z, step, steps);
  }

  function LongestAxis(start: BlockPosition, end: BlockPosition): nat {
    Max(Max(Abs(end.x - start.x), Abs(end.y - start.y)), Abs(end.z - start.z))
  }

  lemma QuotientRoundsDown(from: int, to: int, part: nat, whole: nat)
    requires whole >= 1
    ensures var sample := from + ((to - from) * part) / whole;
      whole * (sample - from) <= (to - from) * part < whole * (sample - from) + whole
  {
    var product := (to - from) * part;
    assert product == (product / whole) * whole + product % whole;
  }

  /** A tunnel is straight: it takes one sample per block of its longest axis, and each is the exact point of the
      line, rounded down on every axis. */
  lemma SamplesOnLine(start: BlockPosition, end: BlockPosition, step: nat)
    requires start != end
    ensures TunnelSteps(start, end) == LongestAxis(start, end)
    ensures var s, n := TunnelSample(start, end, step), LongestAxis(start, end);
      && n * (s.x - start.x) <= (end.x - start.x) * step < n * (s.x - start.x) + n
      && n * (s.y - start.y) <= (end.y - start.y) * step < n * (s.y - start.y) + n
      && n * (s.z - start.z) <= (end.z - start.z) * step < n * (s.z - start.z) + n
  {
    var n := LongestAxis(start, end);
    assert TunnelSteps(start, end) == n;
    hide LongestAxis, TunnelSteps;
    QuotientRoundsDown(start.x, end.x, step, n);
    QuotientRoundsDown(start.y, end.y, step, n);
    QuotientRoundsDown(start.z, end.z, step, n);
  }

  /** The junction of a cell lies anywhere in a box of 32 by 13 by 32 blocks, placed by three separate
      groups of bits of the mixed value. */
  lemma JunctionPlaces(t: Terrain, cellX: int, cellZ: int, dx: nat, y: nat, dz: nat)
    requires dx < 32 && y < 0x1_0000 && dz < 32
    requires t.mix(cellX, cellZ) == dx * 0x100 + y * 0x100_0000 + dz * 0x100_0000_0000
    ensures CaveNetworkNode(t, cellX, cellZ)
         == BlockPosition(64 * cellX + 16 + dx, -24 + (y + 3 * dz) % 13, 64 * cellZ + 16 + dz)
  {
    LowBits(dx, y, dz);
    MiddleBits(dx, y, dz);
    HighBits(dx, y, dz);
  }

  lemma LowBits(dx: nat, y: nat, dz: nat)
    requires dx < 32
    ensures ((dx * 0x100 + y * 0x100_0000 + dz * 0x100_0000_0000) / 0x100) % 32 == dx
  {
    var rest := y * 0x800 + dz * 0x800_0000;
    QuotientBounds(dx * 0x100 + y * 0x100_0000 + dz * 0x100_0000_0000, 0x100, dx + rest * 32, dx + rest * 32);
    AddMultiple(dx, rest, 32);
    SmallQuotient(dx, 32);
  }

  lemma MiddleBits(dx: nat, y: nat, dz: nat)
    requires dx < 32
    ensures ((dx * 0x100 + y * 0x100_0000 + dz * 0x100_0000_0000) / 0x100_0000) % 13 == (y + 3 * dz) % 13
  {
    var quotient := y + dz * 0x1_0000;
    QuotientBounds(dx * 0x100 + y * 0x100_0000 + dz * 0x100_0000_0000, 0x100_0000, quotient, quotient);
    AddMultiple(y + 3 * dz, 5041 * dz, 13);
  }

  lemma HighBits(dx: nat, y: nat, dz: nat)
    requires dx < 32 && y < 0x1_0000 && dz < 32
    ensures ((dx * 0x100 + y * 0x100_0000 + dz * 0x100_0000_0000) / 0x100_0000_0000) % 32 == dz
  {
    QuotientBounds(dx * 0x100 + y * 0x100_0000 + dz * 0x100_0000_0000, 0x100_0000_0000, dz, dz);
    SmallQuotient(dz, 32);
  }

  /** The ball is round, and what is carved keeps clear of the lowest layers and of the ground. */
  lemma CarvedShape(t: Terrain, center: BlockPosition, radius: int, p: BlockPosition)
    ensures InBall(center, radius, p) <==>
      (p.x - center.x) * (p.x - center.x) + (p.y - center.y) * (p.y - center.y) + (p.z - center.z) * (p.z - center.z)
      <= radius * radius
    ensures Carved(t, p) <==>
      -59 <= p.y <= t.surface(p.x, p.z) - 6 && exists cellX, cellZ :: CellReaches(t, cellX, cellZ, p)
  {
  }

  // ----- Which cells can reach a chunk

  function ScanStart(chunkCoordinate: int): int {
    (chunkCoordinate * CHUNK_WIDTH - CAVE_CHAMBER_RADIUS) / CAVE_CELL_WIDTH - 1
  }

  function ScanEnd(chunkCoordinate: int): int {
    (chunkCoordinate * CHUNK_WIDTH + CHUNK_WIDTH - 1 + CAVE_CHAMBER_RADIUS) / CAVE_CELL_WIDTH
  }

  lemma BallReach(center: BlockPosition, radius: int, p: BlockPosition)
    requires radius >= 0 && InBall(center, radius, p)
    ensures -radius <= p.x - center.x <= radius
    ensures -radius <= p.y - center.y <= radius
    ensures -radius <= p.z - center.z <= radius
  {
    BoundedBySquare(p.x - center.x, radius);
    BoundedBySquare(p.y - center.y, radius);
    BoundedBySquare(p.z - center.z, radius);
  }

  lemma SquareGrows(a: int, b: int)
    requires 0 <= a < b
    ensures Square(a) < Square(b) && Square(-b) == Square(b)
  {
    var c := b - a;
    assert b * b == a * a + 2 * (a * c) + c * c;
    assert a * c >= 0 && c * c >= 1;
  }

  lemma BoundedBySquare(n: int, radius: int)
    requires radius >= 0
    ensures Square(n) <= Square(radius) ==> -radius <= n <= radius
    ensures Square(n) >= 0
  {
    if n > radius {
      SquareGrows(radius, n);
    } else if n < -radius {
      SquareGrows(radius, -n);
    }
  }

  lemma CellReachIsLocal(t: Terrain, cellX: int, cellZ: int, p: BlockPosition)
    requires CellReaches(t, cellX, cellZ, p)
    ensures CAVE_CELL_WIDTH * cellX + 11 <= p.x <= CAVE_CELL_WIDTH * cellX + 114
    ensures CAVE_CELL_WIDTH * cellZ + 11 <= p.z <= CAVE_CELL_WIDTH * cellZ + 114
  {
    var node := CaveNetworkNode(t, cellX, cellZ);
    if InBall(node, CAVE_CHAMBER_RADIUS, p) {
      BallReach(node, CAVE_CHAMBER_RADIUS, p);
    } else {
      var end := if InTunnel(node, CaveNetworkNode(t, cellX + 1, cellZ), p)
                 then CaveNetworkNode(t, cellX + 1, cellZ) else CaveNetworkNode(t, cellX, cellZ + 1);
      var step: nat :| step <= TunnelSteps(node, end)
        && InBall(TunnelSample(node, end, step), CAVE_TUNNEL_RADIUS, p);
      SampleWithin(node, end, step);
      BallReach(TunnelSample(node, end, step), CAVE_TUNNEL_RADIUS, p);
    }
  }

  /** The cells a chunk scans are all that can reach it, on either side of the origin. */
  lemma ScanMissesNothing(t: Terrain, cellX: int, cellZ: int, p: BlockPosition)
    requires CellReaches(t, cellX, cellZ, p)
    ensures ScanStart(ChunkOf(p).x) <= cellX <= ScanEnd(ChunkOf(p).x)
    ensures ScanStart(ChunkOf(p).z) <= cellZ <= ScanEnd(ChunkOf(p).z)
  {
    CellReachIsLocal(t, cellX, cellZ, p);
  }
}
