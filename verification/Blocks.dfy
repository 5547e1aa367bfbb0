/** Block kinds and positions shared by the world, portal and generation models. */
module Blocks {
  datatype BlockKind =
    | Air | Water | Lava | Bedrock | Stone | CoalOre | IronOre | CopperOre | GoldOre | RedstoneOre
    | LapisOre | DiamondOre | Cobblestone | Dirt | Grass | ShortGrass | Fern | DeadBush | Sand | Gravel
    | Sandstone | SnowBlock | Netherrack | SoulSand | Basalt | EndStone | Obsidian | StoneBricks | OakLog
    | OakPlanks | OakLeaves | BirchLog | BirchLeaves | SpruceLog | SpruceLeaves | CraftingTable | Furnace
    | Chest | NetherPortal | EndPortal
  {
    predicate IsSurfacePlant() { ShortGrass? || Fern? || DeadBush? }

    predicate PlantSurvivesOn(support: BlockKind) {
      match this
      case ShortGrass => support.Grass? || support.Dirt?
      case Fern => support.Grass? || support.Dirt?
      case DeadBush => support.Sand? || support.Dirt? || support.Grass?
      case _ => false
    }
  }

  datatype DimensionKind = Overworld | Nether | End

  datatype BlockPosition = BlockPosition(x: int, y: int, z: int) {
    function Up(): BlockPosition { this.(y := y + 1) }
    function Down(): BlockPosition { this.(y := y - 1) }
  }

  const CHUNK_WIDTH := 16

  // A chunk's sections of 16 layers, from the lowest layer up.
  const MIN_Y := -64
  const SECTION_COUNT := 24

  datatype ChunkPosition = ChunkPosition(x: int, z: int)

  /** The chunk a block belongs to. */
  function ChunkOf(p: BlockPosition): ChunkPosition {
    ChunkPosition(p.x / CHUNK_WIDTH, p.z / CHUNK_WIDTH)
  }

  datatype TerrainProfile =
    TerrainProfile(surface: BlockKind, filler: BlockKind, foundation: BlockKind, bedrock: BlockKind)

  const I32_MIN := -0x8000_0000
  const I32_MAX := 0x7fff_ffff

  /** The coordinates fit the source's i32 fields. */
  predicate InI32(p: BlockPosition) {
    && I32_MIN <= p.x <= I32_MAX
    && I32_MIN <= p.y <= I32_MAX
    && I32_MIN <= p.z <= I32_MAX
  }

  /** The positions share a face. */
  predicate Adjacent(p: BlockPosition, q: BlockPosition) {
    || (p.y == q.y && p.z == q.z && (q.x == p.x - 1 || q.x == p.x + 1))
    || (p.x == q.x && p.z == q.z && (q.y == p.y - 1 || q.y == p.y + 1))
    || (p.x == q.x && p.y == q.y && (q.z == p.z - 1 || q.z == p.z + 1))
  }
}
