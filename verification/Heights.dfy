/** Terrain heights of the three dimensions, and the column arrays generation fills with them (world.rs). */
module Heights {
  import opened Wrappers
  import opened Arithmetic
  import opened Blocks
  import opened Noise

  /** A biome's terrain: its level, and how far coarse and fine noise move it. */
  datatype TerrainShape = TerrainShape(base: real, relief: real, detail: real)

  /** The slab of an End island in a column. */
  datatype Island = Island(bottom: int, top: int)

  /** A seed, the mixing of seeds with lattice points, the terrain shape of each column (blended between
      biomes), and the End islands. */
  datatype Seeded = Seeded(seed: bv64, mix: (bv64, int, int) -> Word, shape: (int, int) -> TerrainShape,
                           island: (int, int) -> Option<Island>)
  {
    /** One stream of mixed values: the seed salted. */
    function Stream(salt: bv64): Lattice {
      (x, z) => mix(seed ^ salt, x, z)
    }
  }

  // ----- Heights

  function SpawnDistance(x: int, z: int): nat {
    Max(Abs(x + 8), Abs(z + 8))
  }

  function ClampUnit(v: real): real {
    if v < 0.0 then 0.0 else if v > 1.0 then 1.0 else v
  }

  // The height noise gives, drawn towards 64 near spawn.
  function OverworldField(s: Seeded, x: int, z: int): real {
    64.0 + (GeneratedField(s, x, z) - 64.0) * Blend(x, z)
  }

  function GeneratedField(s: Seeded, x: int, z: int): real {
    var shape := s.shape(x, z);
    shape.base + ValueNoise(s.Stream(0), x, z, 64) * shape.relief
    + ValueNoise(s.Stream(0xa5a5_a5a5_a5a5_a5a5), x, z, 24) * shape.detail
  }

  function Blend(x: int, z: int): real {
    Smooth(ClampUnit((SpawnDistance(x, z) - 8) as real / 64.0))
  }

  function OverworldHeight(s: Seeded, x: int, z: int): int {
    if SpawnDistance(x, z) <= 8 then 64 else Clamp(Round(OverworldField(s, x, z)), 32, 144)
  }

  /** Ground within 8 columns of (-8, -8) is level; from 72 on it is what noise gives, and the pull towards the
      level never grows with the distance. */
  lemma SpawnIsLevel(s: Seeded, x: int, z: int)
    ensures -16 <= x <= 0 && -16 <= z <= 0 ==> OverworldHeight(s, x, z) == 64
    ensures x <= -80 || x >= 64 || z <= -80 || z >= 64 ==>
      OverworldHeight(s, x, z) == Clamp(Round(GeneratedField(s, x, z)), 32, 144)
  {
    hide GeneratedField, Round;
    if x <= -80 || x >= 64 || z <= -80 || z >= 64 {
      assert Blend(x, z) == 1.0;
    }
  }

  /** Between, d columns past the level ground, the share of the noise is the smoothing curve at d / 64. */
  lemma BlendCurve(x: int, z: int, d: int)
    requires 0 <= d <= 64 && Max(Abs(x + 8), Abs(z + 8)) == 8 + d
    ensures Blend(x, z) == d as real / 64.0 * (d as real / 64.0) * (3.0 - d as real / 32.0)
  {
  }

  lemma BlendGrows(x: int, z: int, x': int, z': int)
    requires Max(Abs(x + 8), Abs(z + 8)) <= Max(Abs(x' + 8), Abs(z' + 8))
    ensures 0.0 <= Blend(x, z) <= Blend(x', z') <= 1.0
  {
    var t := ClampUnit((SpawnDistance(x, z) - 8) as real / 64.0);
    var t' := ClampUnit((SpawnDistance(x', z') - 8) as real / 64.0);
    SmoothSlope(t, t');
    SmoothRange(t);
    SmoothRange(t');
  }

  /** Where the lattices meet, what noise gives is the shape's level, moved by its relief and its detail. */
  lemma FieldOnLattice(s: Seeded, a: int, b: int)
    ensures var shape := s.shape(192 * a, 192 * b);
      GeneratedField(s, 192 * a, 192 * b)
        == shape.base + shape.relief * Sample(s.Stream(0), 3 * a, 3 * b)
           + shape.detail * Sample(s.Stream(0xa5a5_a5a5_a5a5_a5a5), 8 * a, 8 * b)
  {
    hide ValueNoise, Sample;
    NoiseAtLatticePoint(s.Stream(0), 3 * a, 3 * b, 64);
    NoiseAtLatticePoint(s.Stream(0xa5a5_a5a5_a5a5_a5a5), 8 * a, 8 * b, 24);
    assert 3 * a * 64 == 192 * a && 3 * b * 64 == 192 * b && 8 * a * 24 == 192 * a && 8 * b * 24 == 192 * b;
  }

  const NO_ISLAND := Island(320, -65)

  function IslandColumn(s: Seeded, x: int, z: int): Island {
    if s.island(x, z).Some? then s.island(x, z).value else NO_ISLAND
  }

  function TerrainHeight(s: Seeded, dimension: DimensionKind, x: int, z: int): int {
    match dimension
    case Overworld => OverworldHeight(s, x, z)
    case Nether => NetherFloorHeight(s.Stream(0x4e37_4e52), x, z)
    case End => IslandColumn(s, x, z).top
  }

  function CeilingHeight(s: Seeded, x: int, z: int): int {
    NetherCeilingHeight(s.Stream(0x0063_6569_6c69_6e67), s.Stream(0x6e65_7468_6572), x, z)
  }

  /** Outside the End, generated terrain is at least 32 and at most 144 high, so it survives the cast to
      16 bits; the Nether's ceiling stays at least 23 above its floor. */
  lemma HeightsFit(s: Seeded, dimension: DimensionKind, x: int, z: int)
    ensures dimension != End ==> 32 <= TerrainHeight(s, dimension, x, z) <= 144
    ensures dimension == Nether ==> CeilingHeight(s, x, z) - TerrainHeight(s, dimension, x, z) >= 23
    ensures 83 <= CeilingHeight(s, x, z) <= 109
  {
    hide OverworldField, FloorField, CeilingField, Round;
    NetherHeadroom(s.Stream(0x0063_6569_6c69_6e67), s.Stream(0x6e65_7468_6572), s.Stream(0x4e37_4e52), x, z);
  }

  // ----- The column arrays of a chunk

  // A wide integer cut to 16 bits.
  function ToI16(n: int): int {
    var word := n % 0x1_0000;
    if word < 0x8000 then word else word - 0x1_0000
  }

  lemma CastTo16Bits(n: int)
    ensures -0x8000 <= ToI16(n) <= 0x7fff && (ToI16(n) - n) % 0x1_0000 == 0
    ensures -0x8000 <= n <= 0x7fff ==> ToI16(n) == n
  {
  }

  /** The world column behind an entry of the arrays. */
  function ColumnX(position: ChunkPosition, c: nat): int { position.x * CHUNK_WIDTH + c % CHUNK_WIDTH }
  function ColumnZ(position: ChunkPosition, c: nat): int { position.z * CHUNK_WIDTH + c / CHUNK_WIDTH }

  function SurfaceEntry(s: Seeded, dimension: DimensionKind, position: ChunkPosition, c: nat): int {
    ToI16(TerrainHeight(s, dimension, ColumnX(position, c), ColumnZ(position, c)))
  }

  function CeilingEntry(s: Seeded, position: ChunkPosition, c: nat): int {
    ToI16(CeilingHeight(s, ColumnX(position, c), ColumnZ(position, c)))
  }

  function BottomEntry(s: Seeded, position: ChunkPosition, c: nat): int {
    ToI16(IslandColumn(s, ColumnX(position, c), ColumnZ(position, c)).bottom)
  }

  datatype Columns = Columns(surfaceY: seq<int>, netherCeiling: Option<seq<int>>, endBottom: Option<seq<int>>)

  /** The arrays a chunk of a dimension is generated with. */
  function GeneratedColumns(s: Seeded, dimension: DimensionKind, position: ChunkPosition): Columns {
    Columns(
      seq(256, c requires 0 <= c < 256 => SurfaceEntry(s, dimension, position, c)),
      if dimension.Nether? then Some(seq(256, c requires 0 <= c < 256 => CeilingEntry(s, position, c))) else None,
      if dimension.End? then Some(seq(256, c requires 0 <= c < 256 => BottomEntry(s, position, c))) else None)
  }

  lemma ColumnOf(position: ChunkPosition, localX: int, localZ: int)
    requires 0 <= localX < CHUNK_WIDTH && 0 <= localZ < CHUNK_WIDTH
    ensures var c := localZ * CHUNK_WIDTH + localX;
      0 <= c < 256
      && ColumnX(position, c) == position.x * CHUNK_WIDTH + localX
      && ColumnZ(position, c) == position.z * CHUNK_WIDTH + localZ
  {
  }

  // The entries before one are the wanted ones.
  ghost predicate FilledTo(entries: seq<int>, wanted: seq<int>, count: int) {
    0 <= count <= |entries| == |wanted| && entries[..count] == wanted[..count]
  }

  lemma FillOneMore(entries: seq<int>, wanted: seq<int>, count: int, entry: int)
    requires FilledTo(entries, wanted, count) && count < |entries| && wanted[count] == entry
    ensures FilledTo(entries[count := entry], wanted, count + 1)
  {
    var more := entries[count := entry];
    assert more[..count + 1] == entries[..count] + [entry];
    assert wanted[..count + 1] == wanted[..count] + [entry];
  }

  lemma FillLimits(entries: seq<int>, wanted: seq<int>)
    requires |entries| == |wanted|
    ensures FilledTo(entries, wanted, 0)
    ensures FilledTo(entries, wanted, |wanted|) ==> entries == wanted
  {
    if FilledTo(entries, wanted, |wanted|) {
      assert entries == entries[..|wanted|] && wanted == wanted[..|wanted|];
    }
  }

  // The nested loops over a chunk's columns.
  method FillColumns(s: Seeded, dimension: DimensionKind, position: ChunkPosition) returns (columns: Columns)
    ensures columns == GeneratedColumns(s, dimension, position)
  {
    hide FilledTo, ToI16, TerrainHeight, CeilingHeight, IslandColumn, GeneratedColumns;
    ghost var wanted := GeneratedColumns(s, dimension, position);
    HasColumns(s, dimension, position);
    var surface, ceiling, bottoms := new int[256](_ => 64), new int[256](_ => 96), new int[256](_ => 320);
    FillLimits(surface[..], wanted.surfaceY);
    if dimension.Nether? { FillLimits(ceiling[..], wanted.netherCeiling.value); }
    if dimension.End? { FillLimits(bottoms[..], wanted.endBottom.value); }
    for localZ := 0 to CHUNK_WIDTH
      invariant FilledTo(surface[..], wanted.surfaceY, localZ * CHUNK_WIDTH)
      invariant dimension.Nether? ==> FilledTo(ceiling[..], wanted.netherCeiling.value, localZ * CHUNK_WIDTH)
      invariant dimension.End? ==> FilledTo(bottoms[..], wanted.endBottom.value, localZ * CHUNK_WIDTH)
    {
      for localX := 0 to CHUNK_WIDTH
        invariant FilledTo(surface[..], wanted.surfaceY, localZ * CHUNK_WIDTH + localX)
        invariant dimension.Nether? ==> FilledTo(ceiling[..], wanted.netherCeiling.value, localZ * CHUNK_WIDTH + localX)
        invariant dimension.End? ==> FilledTo(bottoms[..], wanted.endBottom.value, localZ * CHUNK_WIDTH + localX)
      {
        var x, z := position.x * CHUNK_WIDTH + localX, position.z * CHUNK_WIDTH + localZ;
        var column := localZ * CHUNK_WIDTH + localX;
        EntriesAt(s, dimension, position, localX, localZ);
        FillOneMore(surface[..], wanted.surfaceY, column, wanted.surfaceY[column]);
        if dimension.End? {
          FillOneMore(bottoms[..], wanted.endBottom.value, column, wanted.endBottom.value[column]);
          var island := IslandColumn(s, x, z);
          bottoms[column] := ToI16(island.bottom);
          surface[column] := ToI16(island.top);
        } else {
          surface[column] := ToI16(TerrainHeight(s, dimension, x, z));
        }
        if dimension.Nether? {
          FillOneMore(ceiling[..], wanted.netherCeiling.value, column, wanted.netherCeiling.value[column]);
          ceiling[column] := ToI16(CeilingHeight(s, x, z));
        }
      }
    }
    FillLimits(surface[..], wanted.surfaceY);
    if dimension.Nether? { FillLimits(ceiling[..], wanted.netherCeiling.value); }
    if dimension.End? { FillLimits(bottoms[..], wanted.endBottom.value); }
    columns := Columns(surface[..], if dimension.Nether? then Some(ceiling[..]) else None,
                       if dimension.End? then Some(bottoms[..]) else None);
  }

  lemma HasColumns(s: Seeded, dimension: DimensionKind, position: ChunkPosition)
    ensures var g := GeneratedColumns(s, dimension, position);
      && |g.surfaceY| == 256
      && (if dimension.Nether? then g.netherCeiling.Some? && |g.netherCeiling.value| == 256 else g.netherCeiling.None?)
      && (if dimension.End? then g.endBottom.Some? && |g.endBottom.value| == 256 else g.endBottom.None?)
  {
  }

  lemma EntriesAt(s: Seeded, dimension: DimensionKind, position: ChunkPosition, localX: int, localZ: int)
    requires 0 <= localX < CHUNK_WIDTH && 0 <= localZ < CHUNK_WIDTH
    ensures var x, z := position.x * CHUNK_WIDTH + localX, position.z * CHUNK_WIDTH + localZ;
      var c := localZ * CHUNK_WIDTH + localX;
      var g := GeneratedColumns(s, dimension, position);
      && 0 <= c < 256 == |g.surfaceY|
      && g.surfaceY[c] == ToI16(TerrainHeight(s, dimension, x, z))
      && (dimension.Nether? ==> g.netherCeiling.Some? && |g.netherCeiling.value| == 256
                                && g.netherCeiling.value[c] == ToI16(CeilingHeight(s, x, z)))
      && (dimension.End? ==> g.endBottom.Some? && |g.endBottom.value| == 256
                             && g.endBottom.value[c] == ToI16(IslandColumn(s, x, z).bottom)
                             && g.surfaceY[c] == ToI16(IslandColumn(s, x, z).top))
  {
    hide ToI16, OverworldHeight, CeilingHeight, IslandColumn;
    ColumnOf(position, localX, localZ);
  }

  /** Outside the End every surface entry is the terrain height itself, at least 32 and at most 144. */
  lemma SurfaceIsTerrain(s: Seeded, dimension: DimensionKind, position: ChunkPosition, c: nat)
    requires dimension != End && c < 256
    ensures var surface := GeneratedColumns(s, dimension, position).surfaceY[c];
      32 <= surface <= 144 && surface == TerrainHeight(s, dimension, ColumnX(position, c), ColumnZ(position, c))
  {
    hide TerrainHeight, CeilingHeight;
    HeightsFit(s, dimension, ColumnX(position, c), ColumnZ(position, c));
  }
}
