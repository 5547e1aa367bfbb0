/** The caves of the Overworld as a seed generates it (world.rs): the clamp on its heights is what keeps
    the network connected. */
module Overworld {
  import opened Blocks
  import opened Caves
  import opened CavePassages
  import opened Chunks
  import opened Heights

  // The cave stream, and the Overworld's heights.
  function OverworldTerrain(s: Seeded): Terrain {
    Terrain(s.Stream(0x6361_7665_6e65_7473), (x, z) => OverworldHeight(s, x, z))
  }

  lemma OverworldIsClamped(s: Seeded)
    ensures SurfaceClamped(OverworldTerrain(s))
  {
    hide OverworldHeight;
    forall x, z ensures 32 <= OverworldTerrain(s).surface(x, z) <= 144 {
      HeightsFit(s, DimensionKind.Overworld, x, z);
    }
  }

  /** For every seed, the junctions of any two cells of the infinite grid are joined by a carved passage. */
  lemma EverySeedJoinsItsJunctions(s: Seeded, fromX: int, fromZ: int, toX: int, toZ: int)
    ensures var t := OverworldTerrain(s);
      Joined(t, CaveNetworkNode(t, fromX, fromZ), CaveNetworkNode(t, toX, toZ))
  {
    hide Joined, SurfaceClamped, CaveNetworkNode;
    OverworldIsClamped(s);
    AnyTwoJunctionsJoined(OverworldTerrain(s), fromX, fromZ, toX, toZ);
  }

  lemma ColumnBehind(position: ChunkPosition, x: int, z: int)
    requires x / CHUNK_WIDTH == position.x && z / CHUNK_WIDTH == position.z
    ensures ColumnX(position, Column(BlockPosition(x, 0, z))) == x
    ensures ColumnZ(position, Column(BlockPosition(x, 0, z))) == z
  {
    var localX, localZ := x % CHUNK_WIDTH, z % CHUNK_WIDTH;
    ColumnOf(position, localX, localZ);
    hide ColumnX, ColumnZ;
  }

  /** A chunk generated from a seed has the columns of the Overworld's terrain: what it carves is its part of
      that connected network. */
  lemma SeedFollowsTerrain(chunk: GeneratedChunk, s: Seeded)
    requires chunk.Valid() && chunk.FromSeed(s, DimensionKind.Overworld)
    ensures chunk.FollowsTerrain(OverworldTerrain(s))
  {
    hide OverworldHeight, GeneratedColumns, Column, ColumnX, ColumnZ;
    forall x, z | x / CHUNK_WIDTH == chunk.position.x && z / CHUNK_WIDTH == chunk.position.z
      ensures chunk.SurfaceAt(x, z) == OverworldTerrain(s).surface(x, z)
    {
      ColumnBehind(chunk.position, x, z);
      SurfaceIsTerrain(s, DimensionKind.Overworld, chunk.position, Column(BlockPosition(x, 0, z)));
    }
  }
}
