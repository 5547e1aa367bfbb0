/** Column by column, the blocks of a chunk generated from a seed that no later stage or edit has touched
    (world.rs): the ground, the Nether's roof and the End's islands. */
module SeedBlocks {
  import opened Wrappers
  import opened Arithmetic
  import opened Blocks
  import opened Chunks
  import opened Heights
  import opened Noise

  // The entries of a chunk's arrays behind a position.
  lemma EntriesBehind(s: Seeded, dimension: DimensionKind, p: BlockPosition)
    ensures var g, c := GeneratedColumns(s, dimension, ChunkOf(p)), Column(p);
      && |g.surfaceY| == 256 && g.surfaceY[c] == ToI16(TerrainHeight(s, dimension, p.x, p.z))
      && (if dimension.Nether?
          then g.netherCeiling.Some? && |g.netherCeiling.value| == 256
               && g.netherCeiling.value[c] == ToI16(CeilingHeight(s, p.x, p.z))
          else g.netherCeiling.None?)
      && (if dimension.End?
          then g.endBottom.Some? && |g.endBottom.value| == 256
               && g.endBottom.value[c] == ToI16(IslandColumn(s, p.x, p.z).bottom)
          else g.endBottom.None?)
  {
    hide GeneratedColumns, ToI16, TerrainHeight, CeilingHeight, IslandColumn;
    HasColumns(s, dimension, ChunkOf(p));
    EntriesAt(s, dimension, ChunkOf(p), p.x % CHUNK_WIDTH, p.z % CHUNK_WIDTH);
  }

  // No edit and no explicit block.
  ghost predicate Untouched(chunk: GeneratedChunk, p: BlockPosition)
    reads chunk
  {
    p !in chunk.edits && p !in chunk.blocks
  }

  /** The ground under a surface: the surface block, three of filler, then foundation down to bedrock. */
  function Ground(terrain: TerrainProfile, depth: int, y: int): BlockKind {
    if depth < 0 then Air
    else if depth == 0 then terrain.surface
    else if depth < 4 then terrain.filler
    else if y > -64 then terrain.foundation
    else terrain.bedrock
  }

  /** An edit shows before all else, and an explicit block before roof, slab and ground. */
  lemma LaterBlocksWin(chunk: GeneratedChunk, p: BlockPosition)
    requires chunk.Valid()
    ensures p in chunk.edits ==> chunk.BlockAt(p) == chunk.edits[p]
    ensures p !in chunk.edits && p in chunk.blocks ==> chunk.BlockAt(p) == chunk.blocks[p]
  {
  }

  /** The Overworld: ground up to the terrain's height. */
  lemma OverworldColumn(chunk: GeneratedChunk, s: Seeded, p: BlockPosition)
    requires chunk.Valid() && chunk.FromSeed(s, DimensionKind.Overworld)
    requires ChunkOf(p) == chunk.position && Untouched(chunk, p)
    ensures chunk.BlockAt(p) == Ground(chunk.terrain, OverworldHeight(s, p.x, p.z) - p.y, p.y)
  {
    hide GeneratedColumns, OverworldHeight, Column;
    EntriesBehind(s, DimensionKind.Overworld, p);
    HeightsFit(s, DimensionKind.Overworld, p.x, p.z);
  }

  /** The Nether: ground up to the floor, air up to the ceiling, then foundation up to a layer of bedrock at 127. */
  lemma NetherColumn(chunk: GeneratedChunk, s: Seeded, p: BlockPosition)
    requires chunk.Valid() && chunk.FromSeed(s, Nether)
    requires ChunkOf(p) == chunk.position && Untouched(chunk, p)
    ensures chunk.BlockAt(p)
      == if p.y == 127 then Bedrock
         else if CeilingHeight(s, p.x, p.z) <= p.y < 127 then chunk.terrain.foundation
         else Ground(chunk.terrain, TerrainHeight(s, Nether, p.x, p.z) - p.y, p.y)
  {
    hide GeneratedColumns, TerrainHeight, CeilingHeight, Column;
    EntriesBehind(s, Nether, p);
    HeightsFit(s, Nether, p.x, p.z);
  }

  /** The End: end stone in the slab of the column's island, and nothing else. */
  lemma EndColumn(chunk: GeneratedChunk, s: Seeded, p: BlockPosition)
    requires chunk.Valid() && chunk.FromSeed(s, End)
    requires ChunkOf(p) == chunk.position && Untouched(chunk, p)
    requires s.island(p.x, p.z).Some? ==>
      -0x8000 <= s.island(p.x, p.z).value.bottom <= 0x7fff && -0x8000 <= s.island(p.x, p.z).value.top <= 0x7fff
    ensures chunk.BlockAt(p)
      == match s.island(p.x, p.z)
         case Some(island) => if island.bottom <= p.y <= island.top then EndStone else Air
         case None => Air
  {
    hide GeneratedColumns, Column;
    EntriesBehind(s, End, p);
  }
}
