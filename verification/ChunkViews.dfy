/** The compact chunk, its explicit placements and the sections sent to a client agree. */
module ChunkViews {
  import opened Wrappers
  import opened Blocks
  import opened Chunks
  import opened VarInt
  import opened Container
  import opened World
  import Heights
  import Sections

  function BlockStateId(kind: BlockKind): (id: int)
    ensures IsI32(id)
  {
    match kind
    case Air => 0
    case Water => 86
    case Lava => 102
    case Stone => 1
    case CoalOre => 133
    case IronOre => 131
    case CopperOre => 27790
    case GoldOre => 129
    case RedstoneOre => 6881
    case LapisOre => 563
    case DiamondOre => 5307
    case Cobblestone => 14
    case Grass => 9
    case ShortGrass => 2248
    case Fern => 2249
    case DeadBush => 2250
    case Dirt => 10
    case Sand => 118
    case Gravel => 124
    case Sandstone => 578
    case SnowBlock => 6928
    case Netherrack => 6997
    case SoulSand => 6998
    case Basalt => 7000
    case EndStone => 9477
    case Obsidian => 3369
    case StoneBricks => 7754
    case Bedrock => 85
    case OakLog => 137
    case OakPlanks => 15
    case OakLeaves => 279
    case BirchLog => 142
    case BirchLeaves => 308
    case SpruceLog => 139
    case SpruceLeaves => 280
    case CraftingTable => 5310
    case Furnace => 5328
    case Chest => 3988
    case NetherPortal => 7017
    case EndPortal => 9468
  }

  lemma AirState()
    ensures BlockStateId(Air) == Sections.AIR_STATE
  {
  }

  lemma LowStates(a: BlockKind, b: BlockKind)
    requires BlockStateId(a) == BlockStateId(b) < 135
    ensures a == b
  {
  }

  lemma MiddleStates(a: BlockKind, b: BlockKind)
    requires 135 <= BlockStateId(a) == BlockStateId(b) < 5000
    ensures a == b
  {
  }

  lemma HighStates(a: BlockKind, b: BlockKind)
    requires 5000 <= BlockStateId(a) == BlockStateId(b)
    ensures a == b
  {
  }

  /** A client can tell any two kinds of block apart, and nothing else from air. */
  lemma StatesTellKindsApart(a: BlockKind, b: BlockKind)
    ensures BlockStateId(a) == BlockStateId(b) <==> a == b
    ensures BlockStateId(a) == Sections.AIR_STATE <==> a == Air
  {
    hide BlockStateId;
    AirState();
    if BlockStateId(a) == BlockStateId(b) {
      if BlockStateId(a) < 135 { LowStates(a, b); }
      else if BlockStateId(a) < 5000 { MiddleStates(a, b); }
      else { HighStates(a, b); }
    }
    if BlockStateId(a) == Sections.AIR_STATE { LowStates(a, Air); }
  }

  /** The terrain states sent with a chunk: all air in the End, whose slabs arrive as placements. */
  function TerrainStatesOf(terrain: TerrainProfile, inEnd: bool): Sections.TerrainStates {
    if inEnd then Sections.TerrainStates(0, 0, 0, 0)
    else Sections.TerrainStates(BlockStateId(terrain.surface), BlockStateId(terrain.filler),
                                BlockStateId(terrain.foundation), BlockStateId(terrain.bedrock))
  }

  predicate IsI16(n: int) { -0x8000 <= n <= 0x7fff }

  // The heights a cast to 16 bits keeps.
  lemma KeptBy16Bits(n: int)
    ensures IsI16(n) <==> Heights.ToI16(n) == n
  {
  }

  // A height outside 16 bits is sent as height 0.
  function WireKey(p: BlockPosition): Sections.Key {
    (p.x % CHUNK_WIDTH, if IsI16(p.y) then p.y else 0, p.z % CHUNK_WIDTH)
  }

  // The placements form an unordered list, so of two with the same key either may be kept.
  ghost predicate AreOverrides(overrides: map<Sections.Key, int>, placements: map<BlockPosition, BlockKind>) {
    && (forall p :: p in placements ==> WireKey(p) in overrides)
    && (forall key :: key in overrides ==>
          exists p :: p in placements && WireKey(p) == key && overrides[key] == BlockStateId(placements[p]))
  }

  predicate InSections(p: BlockPosition) {
    MIN_Y <= p.y < MIN_Y + 16 * SECTION_COUNT
  }

  function WireState(chunk: GeneratedChunk, overrides: map<Sections.Key, int>, p: BlockPosition): int
    requires chunk.Valid()
  {
    Sections.CellState(chunk.surfaceY, TerrainStatesOf(chunk.terrain, chunk.endBottom.Some?), overrides,
                       p.x % CHUNK_WIDTH, p.y, p.z % CHUNK_WIDTH)
  }

  // ----- The two base rules

  /** The base rules of block_at and of the encoder test bedrock and filler in different
      orders: within the world's height they agree on a column exactly when its surface
      keeps clear of the bedrock layer (or both tests give the same block). */
  lemma BaseRulesAgree(surface: int, terrain: TerrainProfile)
    ensures (forall y {:trigger ColumnBlock(terrain, surface, y)} :: y >= MIN_Y ==>
               Sections.BlockState(y, surface, TerrainStatesOf(terrain, false))
               == BlockStateId(ColumnBlock(terrain, surface, y)))
      <==> (!(-63 <= surface <= -61) || BlockStateId(terrain.filler) == BlockStateId(terrain.bedrock))
  {
    if -63 <= surface <= -61 && BlockStateId(terrain.filler) != BlockStateId(terrain.bedrock) {
      assert ColumnBlock(terrain, surface, MIN_Y) == terrain.filler;
    }
  }

  /** They differ two blocks above the lowest layer, for one: the chunk has dirt there and the wire bedrock. */
  lemma BaseRulesDiffer()
    ensures var terrain := TerrainProfile(Grass, Dirt, Stone, Bedrock);
      && ColumnBlock(terrain, MIN_Y + 2, MIN_Y) == Dirt
      && Sections.BlockState(MIN_Y, MIN_Y + 2, TerrainStatesOf(terrain, false)) == BlockStateId(Bedrock)
      && BlockStateId(Dirt) != BlockStateId(Bedrock)
  {
  }

  // Outside the End, every surface is clear of bedrock.
  ghost predicate SurfacesClear(chunk: GeneratedChunk)
    requires chunk.Valid()
  {
    chunk.endBottom.None? ==> forall c: nat :: c < 256 ==> !(-63 <= chunk.surfaceY[c] <= -61)
  }

  /** Generation keeps every surface clear of bedrock: outside the End the terrain is at least 32 high. */
  lemma SeedKeepsSurfacesClear(chunk: GeneratedChunk, s: Heights.Seeded, dimension: DimensionKind)
    requires chunk.Valid() && chunk.FromSeed(s, dimension)
    ensures SurfacesClear(chunk)
  {
    hide Heights.GeneratedColumns;
    if chunk.endBottom.None? {
      Heights.HasColumns(s, dimension, chunk.position);
      forall c: nat | c < 256 ensures !(-63 <= chunk.surfaceY[c] <= -61) {
        Heights.SurfaceIsTerrain(s, dimension, chunk.position, c);
      }
    }
  }

  // ----- The three views

  lemma SameCell(p: BlockPosition, q: BlockPosition)
    requires ChunkOf(p) == ChunkOf(q) && WireKey(p) == WireKey(q)
    ensures p.x == q.x && p.z == q.z
    ensures IsI16(p.y) && IsI16(q.y) ==> p == q
  {
  }

  lemma BaseOnWire(chunk: GeneratedChunk, overrides: map<Sections.Key, int>, p: BlockPosition)
    requires chunk.Valid() && SurfacesClear(chunk) && InSections(p) && WireKey(p) !in overrides
    ensures WireState(chunk, overrides, p) == BlockStateId(chunk.BaseBlock(p))
  {
    var surface := chunk.surfaceY[Column(p)];
    BaseRulesAgree(surface, chunk.terrain);
    assert chunk.endBottom.None? ==> (BlockStateId(ColumnBlock(chunk.terrain, surface, p.y))
                                      == Sections.BlockState(p.y, surface, TerrainStatesOf(chunk.terrain, false)));
  }

  // Every placement whose height is sent as 0 looks like the block that is there.
  ghost predicate FarPlacementsHarmless(chunk: GeneratedChunk, placements: map<BlockPosition, BlockKind>)
    requires chunk.Valid()
    reads chunk
  {
    forall q :: q in placements && !IsI16(q.y) ==>
      BlockStateId(placements[q]) == BlockStateId(chunk.BlockAt(q.(y := 0)))
  }

  lemma WireShowsBlock(chunk: GeneratedChunk, placements: map<BlockPosition, BlockKind>,
                       overrides: map<Sections.Key, int>, p: BlockPosition)
    requires chunk.Valid() && SurfacesClear(chunk) && chunk.Owned() && chunk.ArePlacements(placements)
    requires AreOverrides(overrides, placements) && FarPlacementsHarmless(chunk, placements)
    requires ChunkOf(p) == chunk.position && InSections(p)
    ensures WireState(chunk, overrides, p) == BlockStateId(chunk.BlockAt(p))
  {
    hide BlockStateId, TerrainStatesOf, GeneratedChunk.BlockAt, GeneratedChunk.PlacementAt, Column;
    chunk.PlacementsAgree(p);
    chunk.PlacementsAreOwn(placements);
    if WireKey(p) in overrides {
      var q :| q in placements && WireKey(q) == WireKey(p) && overrides[WireKey(p)] == BlockStateId(placements[q]);
      SameCell(p, q);
      if IsI16(q.y) {
        assert chunk.PlacementAt(p).Some?;
      } else {
        assert p == q.(y := 0);
      }
    } else {
      assert p !in placements;
      BaseOnWire(chunk, overrides, p);
    }
  }

  // The overrides that keep a chosen placement whenever its key is contested.
  ghost function Preferring(placements: map<BlockPosition, BlockKind>, chosen: BlockPosition): map<Sections.Key, int> {
    map key | key in (set p | p in placements :: WireKey(p)) ::
      BlockStateId(placements[Holder(placements, chosen, key)])
  }

  ghost function Holder(placements: map<BlockPosition, BlockKind>, chosen: BlockPosition, key: Sections.Key)
    : (p: BlockPosition)
    requires exists q :: q in placements && WireKey(q) == key
    ensures p in placements && WireKey(p) == key
    ensures chosen in placements && WireKey(chosen) == key ==> p == chosen
  {
    if chosen in placements && WireKey(chosen) == key then chosen
    else var p :| p in placements && WireKey(p) == key; p
  }

  lemma PreferringAreOverrides(placements: map<BlockPosition, BlockKind>, chosen: BlockPosition)
    ensures AreOverrides(Preferring(placements, chosen), placements)
  {
    var overrides := Preferring(placements, chosen);
    forall key | key in overrides
      ensures exists p :: p in placements && WireKey(p) == key && overrides[key] == BlockStateId(placements[p])
    {
      var p := Holder(placements, chosen, key);
      assert p in placements && WireKey(p) == key && overrides[key] == BlockStateId(placements[p]);
    }
  }

  ghost predicate WireAgrees(chunk: GeneratedChunk, placements: map<BlockPosition, BlockKind>)
    requires chunk.Valid()
    reads chunk
  {
    forall overrides, p :: AreOverrides(overrides, placements) && ChunkOf(p) == chunk.position && InSections(p) ==>
      WireState(chunk, overrides, p) == BlockStateId(chunk.BlockAt(p))
  }

  // Whatever the surfaces, the wire can show every block only if the far placements are harmless.
  lemma AgreementNeedsHarmless(chunk: GeneratedChunk, placements: map<BlockPosition, BlockKind>, q: BlockPosition)
    requires chunk.Valid() && chunk.ArePlacements(placements) && WireAgrees(chunk, placements)
    requires q in placements && !IsI16(q.y) && ChunkOf(q) == chunk.position
    ensures BlockStateId(placements[q]) == BlockStateId(chunk.BlockAt(q.(y := 0)))
  {
    hide BlockStateId, TerrainStatesOf, GeneratedChunk.BlockAt, GeneratedChunk.PlacementAt, GeneratedChunk.Valid;
    var overrides, p := Preferring(placements, q), q.(y := 0);
    PreferringAreOverrides(placements, q);
    assert WireKey(q) in overrides && WireKey(q) == WireKey(p);
    assert InSections(p) && ChunkOf(p) == chunk.position;
    assert WireState(chunk, overrides, p) == overrides[WireKey(q)];
  }

  /** A chunk generated from a seed, whatever was written to its columns since, shows its blocks in its sections
      exactly when no placement outside the 16-bit heights stands over a different block at height 0. */
  lemma ViewsAgree(chunk: GeneratedChunk, placements: map<BlockPosition, BlockKind>, s: Heights.Seeded,
                   dimension: DimensionKind)
    requires chunk.Valid() && chunk.Owned() && chunk.FromSeed(s, dimension) && chunk.ArePlacements(placements)
    ensures WireAgrees(chunk, placements) <==> FarPlacementsHarmless(chunk, placements)
  {
    hide BlockStateId, GeneratedChunk.BlockAt, GeneratedChunk.PlacementAt, GeneratedChunk.FromSeed, SurfacesClear,
         GeneratedChunk.Owned, GeneratedChunk.ArePlacements, AreOverrides, WireState, InSections;
    SeedKeepsSurfacesClear(chunk, s, dimension);
    if FarPlacementsHarmless(chunk, placements) {
      forall overrides, p | AreOverrides(overrides, placements) && ChunkOf(p) == chunk.position && InSections(p)
        ensures WireState(chunk, overrides, p) == BlockStateId(chunk.BlockAt(p))
      {
        WireShowsBlock(chunk, placements, overrides, p);
      }
    }
    if WireAgrees(chunk, placements) {
      chunk.PlacementsAreOwn(placements);
      forall q | q in placements && !IsI16(q.y)
        ensures BlockStateId(placements[q]) == BlockStateId(chunk.BlockAt(q.(y := 0)))
      {
        AgreementNeedsHarmless(chunk, placements, q);
      }
    }
  }

  lemma LoadedIsFromSeed(world: PrototypeWorld, s: Heights.Seeded, dimension: DimensionKind, c: ChunkPosition)
    requires world.Valid() && GeneratesFrom(world.generate, s, dimension) && c in world.chunks
    ensures var chunk := world.chunks[c];
      chunk.Valid() && chunk.Owned() && chunk.FromSeed(s, dimension) && chunk.position == c
  {
    hide Heights.GeneratedColumns, GeneratedChunk.Owned;
    assert world.Shows(world.chunks[c]);
    world.LoadedIsOwned(c);
    assert world.generate(c).HasColumns(Heights.GeneratedColumns(s, dimension, c));
  }

  /** Every loaded chunk of a world generated from a seed is such a chunk. */
  lemma LoadedViewsAgree(world: PrototypeWorld, s: Heights.Seeded, dimension: DimensionKind, c: ChunkPosition,
                         placements: map<BlockPosition, BlockKind>)
    requires world.Valid() && GeneratesFrom(world.generate, s, dimension) && c in world.chunks
    requires world.chunks[c].ArePlacements(placements)
    ensures WireAgrees(world.chunks[c], placements) <==> FarPlacementsHarmless(world.chunks[c], placements)
  {
    hide GeneratedChunk.ArePlacements, GeneratedChunk.Owned, WireAgrees, FarPlacementsHarmless,
         GeneratedChunk.FromSeed;
    LoadedIsFromSeed(world, s, dimension, c);
    ViewsAgree(world.chunks[c], placements, s, dimension);
  }

  /** It can fail: stone saved 40000 blocks up over air at height 0 reaches the client as stone at height 0. */
  lemma FarEditShowsThrough(chunk: GeneratedChunk, placements: map<BlockPosition, BlockKind>, q: BlockPosition)
    requires chunk.Valid() && chunk.ArePlacements(placements) && ChunkOf(q) == chunk.position && q.y == 40000
    requires q in chunk.edits && chunk.edits[q] == Stone
    requires q.(y := 0) in chunk.edits && chunk.edits[q.(y := 0)] == Air
    ensures !WireAgrees(chunk, placements)
  {
    assert q in placements && placements[q] == Stone && chunk.BlockAt(q.(y := 0)) == Air;
    hide WireAgrees, GeneratedChunk.ArePlacements;
    if WireAgrees(chunk, placements) {
      AgreementNeedsHarmless(chunk, placements, q);
    }
  }

  /** A save with those two blocks, restored into any world, makes such a chunk. */
  lemma RestoredFarEdit(world: PrototypeWorld, q: BlockPosition, placements: map<BlockPosition, BlockKind>)
    requires world.Valid() && q.y == 40000 && world.written == map[q := Stone, q.(y := 0) := Air]
    requires world.IsEdit(q) && world.IsEdit(q.(y := 0))
    requires world.chunks[ChunkOf(q)].ArePlacements(placements)
    ensures !WireAgrees(world.chunks[ChunkOf(q)], placements)
  {
    hide GeneratedChunk.ArePlacements, WireAgrees;
    var chunk := world.chunks[ChunkOf(q)];
    assert world.Shows(chunk);
    FarEditShowsThrough(chunk, placements, q);
  }

  // The block of the k-th cell of a section.
  function CellPosition(chunk: GeneratedChunk, section: int, k: nat): BlockPosition {
    BlockPosition(chunk.position.x * CHUNK_WIDTH + k % 16,
                  MIN_Y + section * 16 + k / 256,
                  chunk.position.z * CHUNK_WIDTH + (k / 16) % 16)
  }

  lemma ClientReadsCell(chunk: GeneratedChunk, placements: map<BlockPosition, BlockKind>,
                        overrides: map<Sections.Key, int>, s: Heights.Seeded, dimension: DimensionKind,
                        section: int, biomeId: int, k: nat)
    requires chunk.Valid() && chunk.Owned() && chunk.FromSeed(s, dimension) && chunk.ArePlacements(placements)
    requires AreOverrides(overrides, placements) && FarPlacementsHarmless(chunk, placements)
    requires IsI32(biomeId) && 0 <= section < SECTION_COUNT && k < 4096
    ensures var terrain := TerrainStatesOf(chunk.terrain, chunk.endBottom.Some?);
      var states := Sections.SectionStates(section, chunk.surfaceY, terrain, overrides);
      && Encodable(states)
      && Sections.ReadSection(Sections.SectionBytes(states, biomeId)) == Some(Taken(states, [0] + Bytes(biomeId)))
      && states[k] == BlockStateId(chunk.BlockAt(CellPosition(chunk, section, k)))
  {
    hide BlockStateId, Sections.ReadSection, Sections.SectionBytes, Sections.BlockState, GeneratedChunk.FromSeed,
         GeneratedChunk.Owned, GeneratedChunk.ArePlacements;
    SeedKeepsSurfacesClear(chunk, s, dimension);
    var terrain := TerrainStatesOf(chunk.terrain, chunk.endBottom.Some?);
    var p := CellPosition(chunk, section, k);
    Sections.StatesEncodable(section, chunk.surfaceY, terrain, overrides);
    Sections.SectionReadsBack(Sections.SectionStates(section, chunk.surfaceY, terrain, overrides), biomeId);
    assert ChunkOf(p) == chunk.position && InSections(p);
    WireShowsBlock(chunk, placements, overrides, p);
    assert p.x % CHUNK_WIDTH == k % 16 && p.z % CHUNK_WIDTH == (k / 16) % 16;
  }

  // The section a height lies in, and the index of a block in it: 256 to a layer, 16 to a row.
  function SectionIndex(y: int): int { (y + 64) / 16 }

  function IndexInSection(p: BlockPosition): (k: nat)
    ensures k < 4096
  {
    (p.y % 16) * 256 + (p.z % 16) * 16 + p.x % 16
  }

  lemma IndexedPosition(chunk: GeneratedChunk, p: BlockPosition)
    requires ChunkOf(p) == chunk.position && InSections(p)
    ensures 0 <= SectionIndex(p.y) < SECTION_COUNT
    ensures CellPosition(chunk, SectionIndex(p.y), IndexInSection(p)) == p
  {
  }

  // The states sent for the section of a height.
  function SentStates(chunk: GeneratedChunk, overrides: map<Sections.Key, int>, y: int): seq<int>
    requires chunk.Valid()
  {
    Sections.SectionStates(SectionIndex(y), chunk.surfaceY, TerrainStatesOf(chunk.terrain, chunk.endBottom.Some?),
                           overrides)
  }

  /** What a client reads from the encoded sections of a loaded chunk is the chunk's own block everywhere. */
  lemma LoadedClientReadsBlocks(world: PrototypeWorld, s: Heights.Seeded, dimension: DimensionKind, c: ChunkPosition,
                                placements: map<BlockPosition, BlockKind>, overrides: map<Sections.Key, int>,
                                biomeId: int, p: BlockPosition)
    requires world.Valid() && GeneratesFrom(world.generate, s, dimension) && c in world.chunks
    requires world.chunks[c].ArePlacements(placements) && AreOverrides(overrides, placements)
    requires FarPlacementsHarmless(world.chunks[c], placements)
    requires IsI32(biomeId) && ChunkOf(p) == c && InSections(p)
    ensures world.chunks[c].Valid()
    ensures var states := SentStates(world.chunks[c], overrides, p.y);
      && Encodable(states)
      && Sections.ReadSection(Sections.SectionBytes(states, biomeId)) == Some(Taken(states, [0] + Bytes(biomeId)))
      && states[IndexInSection(p)] == BlockStateId(world.chunks[c].BlockAt(p))
  {
    hide GeneratedChunk.ArePlacements, GeneratedChunk.Owned, FarPlacementsHarmless, AreOverrides, BlockStateId,
         GeneratedChunk.FromSeed, GeneratedChunk.BlockAt, SectionIndex, IndexInSection, CellPosition, InSections,
         Sections.SectionStates, Sections.SectionBytes, Sections.ReadSection;
    LoadedIsFromSeed(world, s, dimension, c);
    IndexedPosition(world.chunks[c], p);
    ClientReadsCell(world.chunks[c], placements, overrides, s, dimension, SectionIndex(p.y), biomeId,
                    IndexInSection(p));
  }
}
