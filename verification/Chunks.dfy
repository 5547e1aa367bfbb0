/** One generated chunk (world.rs): carving caves into it, and reading its blocks back
    in compact form or as explicit placements. */
module Chunks {
  import opened Wrappers
  import opened Arithmetic
  import opened Blocks
  import opened Caves
  import Heights

  /** Carving exactly some cells to air: nothing else changes. */
  ghost predicate CarvedExactly(before: map<BlockPosition, BlockKind>, after: map<BlockPosition, BlockKind>,
                                cells: iset<BlockPosition>) {
    && (forall p :: p in after <==> p in before || p in cells)
    && (forall p :: p in after ==> after[p] == if p in cells then Air else before[p])
  }

  lemma CarvedNothing(blocks: map<BlockPosition, BlockKind>)
    ensures CarvedExactly(blocks, blocks, iset{})
  {
  }

  lemma CarveMore(a: map<BlockPosition, BlockKind>, b: map<BlockPosition, BlockKind>, c: map<BlockPosition, BlockKind>,
                  first: iset<BlockPosition>, second: iset<BlockPosition>, both: iset<BlockPosition>)
    requires CarvedExactly(a, b, first) && CarvedExactly(b, c, second)
    requires forall p :: p in both <==> p in first || p in second
    ensures CarvedExactly(a, c, both)
  {
  }

  ghost predicate AllInChunk(blocks: map<BlockPosition, BlockKind>, c: ChunkPosition) {
    forall p <- blocks :: ChunkOf(p) == c
  }

  lemma CarvingStaysInChunk(before: map<BlockPosition, BlockKind>, after: map<BlockPosition, BlockKind>,
                            cells: iset<BlockPosition>, c: ChunkPosition)
    requires CarvedExactly(before, after, cells) && AllInChunk(before, c) && forall p <- cells :: ChunkOf(p) == c
    ensures AllInChunk(after, c)
  {
  }

  const NETHER_ROOF_Y := 127

  function Column(p: BlockPosition): (c: nat)
    ensures c < 256
  {
    (p.z % CHUNK_WIDTH) * CHUNK_WIDTH + p.x % CHUNK_WIDTH
  }

  // What block_at falls back to below no ceiling and above no slab.
  function ColumnBlock(terrain: TerrainProfile, surface: int, y: int): BlockKind {
    if y > surface then Air
    else if y == surface then terrain.surface
    else if y >= surface - 3 then terrain.filler
    else if y <= MIN_Y then terrain.bedrock
    else terrain.foundation
  }

  /** What generation gives one chunk: its column arrays and its explicit blocks. */
  datatype Generation = Generation(
    terrain: TerrainProfile,
    surfaceY: seq<int>,
    netherCeiling: Option<seq<int>>,
    endBottom: Option<seq<int>>,
    blocks: map<BlockPosition, BlockKind>)
  {
    predicate Valid() {
      && |surfaceY| == 256
      && (netherCeiling.Some? ==> |netherCeiling.value| == 256)
      && (endBottom.Some? ==> |endBottom.value| == 256)
    }

    // Every generated block lies in the chunk's own columns.
    ghost predicate Within(c: ChunkPosition) { AllInChunk(blocks, c) }

    predicate HasColumns(columns: Heights.Columns) {
      Heights.Columns(surfaceY, netherCeiling, endBottom) == columns
    }

    function RoofBlockAt(p: BlockPosition): Option<BlockKind>
      requires Valid()
    {
      if netherCeiling.Some? && netherCeiling.value[Column(p)] <= p.y <= NETHER_ROOF_Y
      then Some(if p.y == NETHER_ROOF_Y then Bedrock else terrain.foundation)
      else None
    }

    predicate InEndSlab(p: BlockPosition)
      requires Valid()
    {
      endBottom.Some? && endBottom.value[Column(p)] <= p.y <= surfaceY[Column(p)]
    }

    /** The deterministic generated block. */
    function BlockAt(p: BlockPosition): BlockKind
      requires Valid()
    {
      if p in blocks then blocks[p]
      else if RoofBlockAt(p).Some? then RoofBlockAt(p).value
      else if endBottom.Some? then (if InEndSlab(p) then EndStone else Air)
      else ColumnBlock(terrain, surfaceY[Column(p)], p.y)
    }
  }

  class GeneratedChunk {
    const position: ChunkPosition
    const terrain: TerrainProfile
    const surfaceY: seq<int>
    const netherCeiling: Option<seq<int>>
    const endBottom: Option<seq<int>>
    var blocks: map<BlockPosition, BlockKind>
    var edits: map<BlockPosition, BlockKind>
    var revision: nat

    constructor Generate(position: ChunkPosition, generation: Generation)
      requires generation.Valid()
      ensures Valid() && this.position == position && Generated() == generation && edits == map[] && revision == 1
      ensures generation.Within(position) ==> Owned()
    {
      this.position := position;
      terrain, surfaceY := generation.terrain, generation.surfaceY;
      netherCeiling, endBottom := generation.netherCeiling, generation.endBottom;
      blocks, edits, revision := generation.blocks, map[], 1;
    }

    ghost predicate Valid() {
      && |surfaceY| == 256
      && (netherCeiling.Some? ==> |netherCeiling.value| == 256)
      && (endBottom.Some? ==> |endBottom.value| == 256)
    }

    // The chunk holds blocks of its own columns only.
    ghost predicate Owned()
      reads this`blocks, this`edits
    {
      AllInChunk(blocks, position) && AllInChunk(edits, position)
    }

    function Generated(): (g: Generation)
      requires Valid()
      reads this`blocks
      ensures g.Valid()
    {
      Generation(terrain, surfaceY, netherCeiling, endBottom, blocks)
    }

    function SurfaceAt(x: int, z: int): int
      requires Valid()
    {
      surfaceY[Column(BlockPosition(x, 0, z))]
    }

    function BlockAt(p: BlockPosition): BlockKind
      requires Valid()
      reads this`blocks, this`edits
    {
      if p in edits then edits[p] else Generated().BlockAt(p)
    }

    // ----- Explicit placements

    /** What placements lists at a position of the chunk, if anything. */
    function PlacementAt(p: BlockPosition): Option<BlockKind>
      requires Valid()
      reads this`blocks, this`edits
    {
      if p in edits then Some(edits[p])
      else if p in blocks then Some(blocks[p])
      else if ChunkOf(p) == position && Generated().RoofBlockAt(p).Some? then Generated().RoofBlockAt(p)
      else if ChunkOf(p) == position && Generated().InEndSlab(p) then Some(EndStone)
      else None
    }

    // The compact layers placements expands: the Nether ceiling, or the End slab.
    function LayerAt(roof: bool, p: BlockPosition): Option<BlockKind>
      requires Valid()
      reads this`blocks
    {
      if roof then Generated().RoofBlockAt(p)
      else if Generated().InEndSlab(p) then Some(EndStone)
      else None
    }

    // The layer's blocks put over others, on some cells only.
    ghost predicate Overlaid(roof: bool, before: map<BlockPosition, BlockKind>, after: map<BlockPosition, BlockKind>,
                             cells: iset<BlockPosition>)
      requires Valid()
      reads this`blocks
    {
      && (forall p :: p in after <==> p in before || (p in cells && LayerAt(roof, p).Some?))
      && (forall p :: p in after ==>
            after[p] == if p in cells && LayerAt(roof, p).Some? then LayerAt(roof, p).value else before[p])
    }

    lemma OverlayMore(roof: bool, a: map<BlockPosition, BlockKind>, b: map<BlockPosition, BlockKind>,
                      c: map<BlockPosition, BlockKind>, first: iset<BlockPosition>, second: iset<BlockPosition>,
                      both: iset<BlockPosition>)
      requires Valid() && Overlaid(roof, a, b, first) && Overlaid(roof, b, c, second)
      requires forall p :: p in both <==> p in first || p in second
      ensures Overlaid(roof, a, c, both)
    {
    }

    ghost function ColumnBelow(x: int, z: int, y: int): iset<BlockPosition> {
      iset p: BlockPosition | p.x == x && p.z == z && p.y < y
    }

    lemma OverlayOne(roof: bool, before: map<BlockPosition, BlockKind>, after: map<BlockPosition, BlockKind>,
                     p: BlockPosition)
      requires Valid() && Overlaid(roof, before, after, ColumnBelow(p.x, p.z, p.y)) && LayerAt(roof, p).Some?
      ensures Overlaid(roof, before, after[p := LayerAt(roof, p).value], ColumnBelow(p.x, p.z, p.y + 1))
    {
      hide LayerAt;
    }

    // The layer's blocks in a column.
    lemma ColumnSpan(roof: bool, x: int, z: int)
      requires Valid() && (if roof then netherCeiling.Some? else endBottom.Some?)
      ensures var column := Column(BlockPosition(x, 0, z));
        var bottom := if roof then netherCeiling.value[column] else endBottom.value[column];
        var top := if roof then NETHER_ROOF_Y else surfaceY[column];
        forall p: BlockPosition | p.x == x && p.z == z :: LayerAt(roof, p).Some? <==> bottom <= p.y <= top
    {
      forall p: BlockPosition | p.x == x && p.z == z ensures Column(p) == Column(BlockPosition(x, 0, z)) {
      }
    }

    lemma OverlayStart(roof: bool, placed: map<BlockPosition, BlockKind>, x: int, z: int, bottom: int)
      requires Valid() && forall p: BlockPosition | p.x == x && p.z == z && p.y < bottom :: LayerAt(roof, p).None?
      ensures Overlaid(roof, placed, placed, ColumnBelow(x, z, bottom))
    {
      hide LayerAt;
    }

    lemma OverlayEnd(roof: bool, placed: map<BlockPosition, BlockKind>, more: map<BlockPosition, BlockKind>, x: int,
                     z: int, end: int)
      requires Valid() && forall p: BlockPosition | p.x == x && p.z == z && p.y >= end :: LayerAt(roof, p).None?
      requires Overlaid(roof, placed, more, ColumnBelow(x, z, end))
      ensures Overlaid(roof, placed, more, iset p: BlockPosition | p.x == x && p.z == z)
    {
      hide LayerAt;
    }

    method AddColumn(roof: bool, placed: map<BlockPosition, BlockKind>, x: int, z: int)
      returns (more: map<BlockPosition, BlockKind>)
      requires Valid() && (if roof then netherCeiling.Some? else endBottom.Some?)
      ensures Overlaid(roof, placed, more, iset p: BlockPosition | p.x == x && p.z == z)
    {
      hide Overlaid, ColumnBelow, LayerAt, Column;
      more := placed;
      var column := Column(BlockPosition(x, 0, z));
      var y := if roof then netherCeiling.value[column] else endBottom.value[column];
      var top := if roof then NETHER_ROOF_Y else surfaceY[column];
      ColumnSpan(roof, x, z);
      OverlayStart(roof, placed, x, z, y);
      ghost var bottom := y;
      while y <= top
        invariant bottom <= y
        invariant Overlaid(roof, placed, more, ColumnBelow(x, z, y))
      {
        var p := BlockPosition(x, y, z);
        OverlayOne(roof, placed, more, p);
        more := more[p := LayerAt(roof, p).value];
        y := y + 1;
      }
      OverlayEnd(roof, placed, more, x, z, y);
    }

    method AddLayer(roof: bool, placed: map<BlockPosition, BlockKind>) returns (more: map<BlockPosition, BlockKind>)
      requires Valid() && (if roof then netherCeiling.Some? else endBottom.Some?)
      ensures Overlaid(roof, placed, more, iset p | ChunkOf(p) == position)
    {
      more := placed;
      hide LayerAt, Overlaid;
      OverlaidNothing(roof, placed);
      for localZ := 0 to 16
        invariant Overlaid(roof, placed, more, ColumnsBefore(localZ, 0))
      {
        for localX := 0 to 16
          invariant Overlaid(roof, placed, more, ColumnsBefore(localZ, localX))
        {
          var x, z := position.x * 16 + localX, position.z * 16 + localZ;
          var previous := more;
          more := AddColumn(roof, previous, x, z);
          OverlayMore(roof, placed, previous, more, ColumnsBefore(localZ, localX),
                      (iset p: BlockPosition | p.x == x && p.z == z), ColumnsBefore(localZ, localX + 1));
        }
        assert ColumnsBefore(localZ, 16) == ColumnsBefore(localZ + 1, 0);
      }
      assert ColumnsBefore(16, 0) == iset p | ChunkOf(p) == position;
    }

    lemma OverlaidNothing(roof: bool, placed: map<BlockPosition, BlockKind>)
      requires Valid()
      ensures Overlaid(roof, placed, placed, ColumnsBefore(0, 0))
    {
    }

    // The chunk's columns before one in the order of the placement loops.
    ghost function ColumnsBefore(localZ: int, localX: int): iset<BlockPosition> {
      iset p | ChunkOf(p) == position
        && (p.z % 16 < localZ || (p.z % 16 == localZ && p.x % 16 < localX))
    }

    ghost predicate ArePlacements(placed: map<BlockPosition, BlockKind>)
      requires Valid()
      reads this`blocks, this`edits
    {
      && (forall p :: p in placed <==> PlacementAt(p).Some?)
      && (forall p :: p in placed ==> placed[p] == PlacementAt(p).value)
    }

    /** A chunk that holds only its own columns lists no other placement. */
    lemma PlacementsAreOwn(placed: map<BlockPosition, BlockKind>)
      requires Valid() && Owned() && ArePlacements(placed)
      ensures forall p <- placed :: ChunkOf(p) == position
    {
      forall p <- placed ensures ChunkOf(p) == position {
        assert PlacementAt(p).Some?;
      }
    }

    method Placements() returns (placed: map<BlockPosition, BlockKind>)
      requires Valid()
      ensures ArePlacements(placed)
    {
      placed := map[];
      if endBottom.Some? {
        placed := AddLayer(false, placed);
      }
      if netherCeiling.Some? {
        placed := AddLayer(true, placed);
      }
      placed := placed + blocks;
      placed := placed + edits;
    }

    // What a reader of the placements falls back to: nothing below End slabs.
    function BaseBlock(p: BlockPosition): BlockKind
      requires Valid()
    {
      if endBottom.Some? then Air else ColumnBlock(terrain, surfaceY[Column(p)], p.y)
    }

    /** The compact view and the explicit placements are the same blocks. */
    lemma PlacementsAgree(p: BlockPosition)
      requires Valid() && ChunkOf(p) == position
      ensures BlockAt(p) == if PlacementAt(p).Some? then PlacementAt(p).value else BaseBlock(p)
    {
    }

    // The chunk's columns are those of the terrain.
    ghost predicate FollowsTerrain(t: Terrain)
      requires Valid()
    {
      forall x, z :: x / CHUNK_WIDTH == position.x && z / CHUNK_WIDTH == position.z ==>
        SurfaceAt(x, z) == t.surface(x, z)
    }

    // The cells of a ball the chunk carves: its own columns, below the roof and above the floor.
    ghost predicate BallCell(center: BlockPosition, radius: int, p: BlockPosition)
      requires Valid()
    {
      && ChunkOf(p) == position
      && InBall(center, radius, p)
      && LOWEST_CARVED_Y <= p.y <= SurfaceAt(p.x, p.z) - ROOF_THICKNESS
    }

    ghost function BallCells(center: BlockPosition, radius: int): iset<BlockPosition>
      requires Valid()
    {
      iset p | BallCell(center, radius, p)
    }

    // The cells before and at a row, and before and at a column of it.
    ghost function RowsBefore(center: BlockPosition, radius: int, z: int): iset<BlockPosition>
      requires Valid()
    {
      iset p | BallCell(center, radius, p) && p.z < z
    }

    ghost function RowAt(center: BlockPosition, radius: int, z: int): iset<BlockPosition>
      requires Valid()
    {
      iset p | BallCell(center, radius, p) && p.z == z
    }

    ghost function BallColumnsBefore(center: BlockPosition, radius: int, x: int, z: int): iset<BlockPosition>
      requires Valid()
    {
      iset p | BallCell(center, radius, p) && p.z == z && p.x < x
    }

    ghost function BallColumnAt(center: BlockPosition, radius: int, x: int, z: int): iset<BlockPosition>
      requires Valid()
    {
      iset p | BallCell(center, radius, p) && p.z == z && p.x == x
    }

    ghost function ColumnCellsBelow(center: BlockPosition, radius: int, x: int, y: int, z: int): iset<BlockPosition>
      requires Valid()
    {
      iset p | BallCell(center, radius, p) && p.z == z && p.x == x && p.y < y
    }

    lemma BallCellBounds(center: BlockPosition, radius: int, p: BlockPosition)
      requires Valid() && radius >= 0 && BallCell(center, radius, p)
      ensures Max(center.x - radius, position.x * CHUNK_WIDTH) <= p.x
      ensures p.x <= Min(center.x + radius, position.x * CHUNK_WIDTH + CHUNK_WIDTH - 1)
      ensures Max(center.y - radius, LOWEST_CARVED_Y) <= p.y
      ensures p.y <= Min(center.y + radius, SurfaceAt(p.x, p.z) - ROOF_THICKNESS)
      ensures Max(center.z - radius, position.z * CHUNK_WIDTH) <= p.z
      ensures p.z <= Min(center.z + radius, position.z * CHUNK_WIDTH + CHUNK_WIDTH - 1)
    {
      BallReach(center, radius, p);
      hide InBall;
    }

    // Where the loop over rows starts there is nothing to carve yet, and where it ends all is carved.
    lemma RowRange(center: BlockPosition, radius: int)
      requires Valid() && radius >= 0
      ensures var minZ := position.z * CHUNK_WIDTH;
        && RowsBefore(center, radius, Max(center.z - radius, minZ)) == iset{}
        && minZ <= Max(center.z - radius, minZ)
        && Min(center.z + radius, minZ + CHUNK_WIDTH - 1) <= minZ + CHUNK_WIDTH - 1
        && forall z :: z > Min(center.z + radius, minZ + CHUNK_WIDTH - 1) ==>
             RowsBefore(center, radius, z) == BallCells(center, radius)
    {
      forall p | BallCell(center, radius, p)
        ensures Max(center.z - radius, position.z * CHUNK_WIDTH) <= p.z
        ensures p.z <= Min(center.z + radius, position.z * CHUNK_WIDTH + CHUNK_WIDTH - 1)
      {
        BallCellBounds(center, radius, p);
      }
      hide BallCell;
    }

    lemma ColumnRange(center: BlockPosition, radius: int, z: int)
      requires Valid() && radius >= 0
      ensures var minX := position.x * CHUNK_WIDTH;
        && BallColumnsBefore(center, radius, Max(center.x - radius, minX), z) == iset{}
        && minX <= Max(center.x - radius, minX)
        && Min(center.x + radius, minX + CHUNK_WIDTH - 1) <= minX + CHUNK_WIDTH - 1
        && forall x :: x > Min(center.x + radius, minX + CHUNK_WIDTH - 1) ==>
             BallColumnsBefore(center, radius, x, z) == RowAt(center, radius, z)
    {
      forall p | BallCell(center, radius, p)
        ensures Max(center.x - radius, position.x * CHUNK_WIDTH) <= p.x
        ensures p.x <= Min(center.x + radius, position.x * CHUNK_WIDTH + CHUNK_WIDTH - 1)
      {
        BallCellBounds(center, radius, p);
      }
      hide BallCell;
    }

    lemma HeightRange(center: BlockPosition, radius: int, x: int, z: int)
      requires Valid() && radius >= 0 && ChunkOf(BlockPosition(x, 0, z)) == position
      ensures var roof := SurfaceAt(x, z) - ROOF_THICKNESS;
        && ColumnCellsBelow(center, radius, x, Max(center.y - radius, LOWEST_CARVED_Y), z) == iset{}
        && forall y :: y > Min(center.y + radius, roof) ==>
             ColumnCellsBelow(center, radius, x, y, z) == BallColumnAt(center, radius, x, z)
    {
      forall p | BallCell(center, radius, p) && p.x == x && p.z == z
        ensures Max(center.y - radius, LOWEST_CARVED_Y) <= p.y
        ensures p.y <= Min(center.y + radius, SurfaceAt(x, z) - ROOF_THICKNESS)
      {
        BallCellBounds(center, radius, p);
      }
      hide BallCell;
    }

    // A cell of the column is carved exactly when it is in the ball.
    lemma CarveOneMore(before: map<BlockPosition, BlockKind>, now: map<BlockPosition, BlockKind>, center: BlockPosition,
                     radius: int, p: BlockPosition, inside: bool)
      requires Valid() && radius >= 0 && ChunkOf(p) == position
      requires LOWEST_CARVED_Y <= p.y <= SurfaceAt(p.x, p.z) - ROOF_THICKNESS
      requires CarvedExactly(before, now, ColumnCellsBelow(center, radius, p.x, p.y, p.z))
      requires inside <==> Square(p.x - center.x) + Square(p.z - center.z) + Square(p.y - center.y) <= Square(radius)
      ensures CarvedExactly(before, if inside then now[p := Air] else now,
                            ColumnCellsBelow(center, radius, p.x, p.y + 1, p.z))
    {
      assert inside <==> BallCell(center, radius, p);
      hide BallCell, Square;
    }

    // The loops of carve_cave_ball, innermost first.
    method CarveColumn(center: BlockPosition, radius: int, x: int, z: int)
      requires Valid() && radius >= 0 && ChunkOf(BlockPosition(x, 0, z)) == position
      modifies this`blocks
      ensures CarvedExactly(old(blocks), blocks, BallColumnAt(center, radius, x, z))
    {
      hide Square, BallCell, BallColumnAt, ColumnCellsBelow, CarvedExactly;
      HeightRange(center, radius, x, z);
      ghost var before := blocks;
      CarvedNothing(before);
      var horizontal := Square(x - center.x) + Square(z - center.z);
      var roof := SurfaceAt(x, z) - ROOF_THICKNESS;
      var y := Max(center.y - radius, LOWEST_CARVED_Y);
      var highY := Min(center.y + radius, roof);
      while y <= highY
        invariant LOWEST_CARVED_Y <= y
        invariant CarvedExactly(before, blocks, ColumnCellsBelow(center, radius, x, y, z))
      {
        var p := BlockPosition(x, y, z);
        CarveOneMore(before, blocks, center, radius, p, horizontal + Square(y - center.y) <= Square(radius));
        if horizontal + Square(y - center.y) <= Square(radius) {
          blocks := blocks[p := Air];
        }
        y := y + 1;
      }
    }

    method CarveRow(center: BlockPosition, radius: int, z: int)
      requires Valid() && radius >= 0 && z / CHUNK_WIDTH == position.z
      modifies this`blocks
      ensures CarvedExactly(old(blocks), blocks, RowAt(center, radius, z))
    {
      hide BallCell, RowAt, CarvedExactly;
      ColumnRange(center, radius, z);
      ghost var before := blocks;
      CarvedNothing(before);
      var minX := position.x * CHUNK_WIDTH;
      var x := Max(center.x - radius, minX);
      var highX := Min(center.x + radius, minX + CHUNK_WIDTH - 1);
      while x <= highX
        invariant minX <= x
        invariant CarvedExactly(before, blocks, BallColumnsBefore(center, radius, x, z))
      {
        ghost var carved := blocks;
        CarveColumn(center, radius, x, z);
        CarveMore(before, carved, blocks, BallColumnsBefore(center, radius, x, z), BallColumnAt(center, radius, x, z),
                  BallColumnsBefore(center, radius, x + 1, z));
        x := x + 1;
      }
    }

    method CarveCaveBall(center: BlockPosition, radius: int)
      requires Valid() && radius >= 0
      modifies this`blocks
      ensures CarvedExactly(old(blocks), blocks, BallCells(center, radius))
    {
      hide BallCell, BallCells, CarvedExactly;
      RowRange(center, radius);
      ghost var before := blocks;
      CarvedNothing(before);
      var minZ := position.z * CHUNK_WIDTH;
      var z := Max(center.z - radius, minZ);
      var highZ := Min(center.z + radius, minZ + CHUNK_WIDTH - 1);
      while z <= highZ
        invariant minZ <= z
        invariant CarvedExactly(before, blocks, RowsBefore(center, radius, z))
      {
        ghost var carved := blocks;
        CarveRow(center, radius, z);
        CarveMore(before, carved, blocks, RowsBefore(center, radius, z), RowAt(center, radius, z),
                  RowsBefore(center, radius, z + 1));
        z := z + 1;
      }
    }

    // The chunk was generated from a seed.
    ghost predicate FromSeed(s: Heights.Seeded, dimension: DimensionKind)
      requires Valid()
      reads this`blocks
    {
      Generated().HasColumns(Heights.GeneratedColumns(s, dimension, position))
    }

    // What the chunk itself owns of the carved space.
    ghost predicate Own(p: BlockPosition)
      requires Valid()
    {
      ChunkOf(p) == position && LOWEST_CARVED_Y <= p.y <= SurfaceAt(p.x, p.z) - ROOF_THICKNESS
    }

    ghost function TunnelCells(start: BlockPosition, end: BlockPosition): iset<BlockPosition>
      requires Valid()
    {
      iset p | Own(p) && InTunnel(start, end, p)
    }

    // The tunnel cells of the samples before one.
    ghost function SampledCells(start: BlockPosition, end: BlockPosition, before: nat): iset<BlockPosition>
      requires Valid()
    {
      iset p, step: nat | step < before && p in BallCells(TunnelSample(start, end, step), CAVE_TUNNEL_RADIUS) :: p
    }

    method CarveCaveTunnel(start: BlockPosition, end: BlockPosition)
      requires Valid()
      modifies this`blocks
      ensures CarvedExactly(old(blocks), blocks, TunnelCells(start, end))
    {
      ghost var before := blocks;
      var steps := TunnelSteps(start, end);
      hide TunnelSample, BallCell, TunnelSteps;
      for step := 0 to steps + 1
        invariant CarvedExactly(before, blocks, SampledCells(start, end, step))
      {
        ghost var carved := blocks;
        CarveCaveBall(TunnelSample(start, end, step), CAVE_TUNNEL_RADIUS);
        CarveMore(before, carved, blocks,
                  SampledCells(start, end, step),
                  BallCells(TunnelSample(start, end, step), CAVE_TUNNEL_RADIUS),
                  SampledCells(start, end, step + 1));
      }
      SamplesMakeTunnel(start, end);
    }

    lemma SamplesMakeTunnel(start: BlockPosition, end: BlockPosition)
      requires Valid()
      ensures SampledCells(start, end, TunnelSteps(start, end) + 1) == TunnelCells(start, end)
    {
      hide TunnelSample, TunnelSteps, InBall;
      forall p | p in TunnelCells(start, end)
        ensures p in SampledCells(start, end, TunnelSteps(start, end) + 1)
      {
        var step: nat :| step <= TunnelSteps(start, end)
          && InBall(TunnelSample(start, end, step), CAVE_TUNNEL_RADIUS, p);
        assert p in BallCells(TunnelSample(start, end, step), CAVE_TUNNEL_RADIUS);
      }
    }

    ghost function CellCells(t: Terrain, cellX: int, cellZ: int): iset<BlockPosition>
      requires Valid()
    {
      iset p | Own(p) && CellReaches(t, cellX, cellZ, p)
    }

    // The body of the network loop: a junction, its east tunnel and its south tunnel.
    method CarveCell(t: Terrain, cellX: int, cellZ: int)
      requires Valid()
      modifies this`blocks
      ensures CarvedExactly(old(blocks), blocks, CellCells(t, cellX, cellZ))
    {
      var node := CaveNetworkNode(t, cellX, cellZ);
      var east, south := CaveNetworkNode(t, cellX + 1, cellZ), CaveNetworkNode(t, cellX, cellZ + 1);
      ghost var first := blocks;
      CarveCaveBall(node, CAVE_CHAMBER_RADIUS);
      ghost var second := blocks;
      CarveCaveTunnel(node, east);
      ghost var third := blocks;
      CarveCaveTunnel(node, south);
      hide CarvedExactly, InTunnel, InBall, CaveNetworkNode;
      CarveMore(first, second, third, BallCells(node, CAVE_CHAMBER_RADIUS), TunnelCells(node, east),
                BallCells(node, CAVE_CHAMBER_RADIUS) + TunnelCells(node, east));
      CarveMore(first, third, blocks, BallCells(node, CAVE_CHAMBER_RADIUS) + TunnelCells(node, east),
                TunnelCells(node, south), CellCells(t, cellX, cellZ));
    }

    // What the cells before (cellZ, cellX) of the scan carve.
    ghost function ScannedCells(t: Terrain, cellZ: int, cellX: int): iset<BlockPosition>
      requires Valid()
    {
      iset p, z, x |
        && ScanStart(position.z) <= z <= ScanEnd(position.z)
        && ScanStart(position.x) <= x <= ScanEnd(position.x)
        && (z < cellZ || (z == cellZ && x < cellX))
        && p in CellCells(t, x, z) :: p
    }

    /** A block is carved by its own chunk exactly when it lies in the global network:
        the result does not depend on which chunks exist or on their order. */
    method GenerateCaveNetwork(t: Terrain)
      requires Valid() && FollowsTerrain(t)
      modifies this`blocks
      ensures CarvedExactly(old(blocks), blocks, iset p | ChunkOf(p) == position && Carved(t, p))
      ensures old(Owned()) ==> Owned()
    {
      ghost var before := blocks;
      var startX, endX := ScanStart(position.x), ScanEnd(position.x);
      var startZ, endZ := ScanStart(position.z), ScanEnd(position.z);
      hide CellCells, AllInChunk, CarvedExactly;
      CarvedNothing(before);
      assert ScannedCells(t, startZ, startX) == iset{};
      for cellZ := startZ to endZ + 1
        invariant CarvedExactly(before, blocks, ScannedCells(t, cellZ, startX))
      {
        for cellX := startX to endX + 1
          invariant CarvedExactly(before, blocks, ScannedCells(t, cellZ, cellX))
        {
          ghost var carved := blocks;
          CarveCell(t, cellX, cellZ);
          CarveMore(before, carved, blocks, ScannedCells(t, cellZ, cellX), CellCells(t, cellX, cellZ),
                    ScannedCells(t, cellZ, cellX + 1));
        }
        assert ScannedCells(t, cellZ, endX + 1) == ScannedCells(t, cellZ + 1, startX);
      }
      ScanIsGlobal(t);
      if AllInChunk(before, position) {
        CarvingStaysInChunk(before, blocks, (iset p | ChunkOf(p) == position && Carved(t, p)), position);
      }
    }

    lemma ScanIsGlobal(t: Terrain)
      requires Valid() && FollowsTerrain(t)
      ensures ScannedCells(t, ScanEnd(position.z) + 1, ScanStart(position.x)) ==
        iset p | ChunkOf(p) == position && Carved(t, p)
    {
      hide CellReaches;
      forall p | ChunkOf(p) == position && Carved(t, p)
        ensures p in ScannedCells(t, ScanEnd(position.z) + 1, ScanStart(position.x))
      {
        var cellX, cellZ :| CellReaches(t, cellX, cellZ, p);
        ScanMissesNothing(t, cellX, cellZ, p);
        assert SurfaceAt(p.x, p.z) == t.surface(p.x, p.z);
        assert p in CellCells(t, cellX, cellZ);
      }
      forall p | p in ScannedCells(t, ScanEnd(position.z) + 1, ScanStart(position.x))
        ensures ChunkOf(p) == position && Carved(t, p)
      {
        var z, x :| p in CellCells(t, x, z);
        assert SurfaceAt(p.x, p.z) == t.surface(p.x, p.z);
      }
    }
  }
}
