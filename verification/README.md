# CarbonMC verification model

CarbonMC is a Minecraft server. This project models the algorithms and state machines in it whose
behaviour is hard to see from one function body, and proves what they promise:

- **Mob path search** (`PathSearch`): A* over loaded ground with an octile heuristic, 10/14 step costs,
  the corner rule, stale heap entries and an expansion budget.
- **World saves** (`SaveRotation`): a save path as primary, backup, temporary and quarantined files; one
  protocol step per file operation; a crash, an I/O error or damage to the primary at rest between any two.
- **Nether portals and block writes** (`PortalSpec`, `Portals`, `PortalLife`, `BlockWrites`): lighting, the flood
  fill, the frame test and the collapse, and the plants a write takes along, over a mutable map from position to
  block.
- **Caves** (`Caves`, `CavePassages`, `Chunks`): the infinite network, that it is connected, and that every
  chunk carves exactly its own part of it.
- **Chunks and their cache** (`Chunks`, `World`): compact blocks, explicit placements, edits, pruning and
  restoring a save.
- **Chunk encoding** (`Bits`, `Palette`, `Container`, `Sections`, `ChunkViews`, `LightSpec`, `Light`,
  `LightPayload`, `LightReader`): paletted containers, sections, and block light with its masks.
- **Frames** (`VarInt`, `Frames`, `Compression`, `Transport`): VarInts, the batch parse, compression envelopes
  and the incremental, cancellable reader.
- **Items** (`Items`, `Crafting`, `SlotOrder`, `Inventory`, `InventoryRuns`, `FurnaceSpec`, `FurnaceRuns`,
  `Furnaces`): slot clicks, crafting, and furnaces tick by tick.
- **Heights** (`Noise`, `Heights`, `Overworld`, `SeedBlocks`): value noise over the reals, the terrain heights of
  the three dimensions built on it, the blocks of every column, and what they give the caves and the chunk encoding.
- **Signed hexadecimal** (`SignedHex`): the server hash.

Code that updates state in place is a method on arrays, fields or local variables, proved equal to a function
of its inputs or of the old state; the promises are then lemmas about that function or about the invariants.
`Wrappers`, `Arithmetic` and `Blocks` hold the option type, arithmetic facts, and block kinds and positions.

How outside things appear: random mixing (`mix`), the blended terrain shape of a column and the End islands are
function parameters, so every statement about them holds for every seed; zlib is a pair of functions assumed to
invert each other (`InversePair`); the generation of a chunk is a function of its position, held to two facts
(`World.WellGenerated`): it fills its column arrays, and it puts blocks in the chunk's own columns only, as every
stage does that clips its loops to them or inserts through crates/carbon-server/src/world.rs:1200-1206; a save
file is its length and what parsing it as JSON gives; which file operations of
a save fail is a parameter (`Faults`); a deadline, a rate limit, an I/O error, a shutdown or a cancelled read on a
connection is a nondeterministic choice, which a parameter (`calm`) rules out.

Some promises hold only under a condition. It is stated exactly, with an input that fails it:

- A complete portal survives the frame test if and only if no portal block touches it front or back
  (`PortalLife.CompletePortalStands`). Two frames built one block apart fail it: each can be lit
  (`LightingTwins`), and then they are one field that fails (`TwinsFall`), and the next obsidian block taken out
  within reach of either empties both (`BreakingClearsTwins`).
- The wire form shows every block of a loaded chunk if and only if no placement outside the 16-bit heights stands
  over a different block at height 0 (`ChunkViews.LoadedViewsAgree`). `FarEditShowsThrough` has stone at height
  40000 over air at height 0; loading a save hands every saved block, at any 32-bit height, to the world
  (crates/carbon-server/src/state.rs:1271-1291), and `RestoredFarEdit` shows that such a save makes such a chunk.
- The two base-column rules agree if and only if the surface keeps clear of the bedrock layer, or the two blocks
  look alike (`ChunkViews.BaseRulesAgree`, `BaseRulesDiffer`). Generation never makes a surface that fails it
  (`SeedKeepsSurfacesClear`).
- A click conserves every item but for a right click with a stack of nothing, which makes 256 of it
  (`Items.ClickConserves`); `InventoryRuns.EmptyStackMints` picks such a stack up and does it. A craft loses what
  does not fit only when a stack like its output is over its limit (`Crafting.CraftConserves`,
  `OverfullStackLosesPlanks`). Clicks and crafts make neither kind of stack, but loading a save does not check
  counts (crates/carbon-server/src/state.rs:1301-1310, 4033-4039).

## Model

| member | source | states |
|---|---|---|
| PathSearch.FindPath | crates/carbon-server/src/world.rs:1817-1888 | A returned path is a legal walk from start to goal and no legal walk is cheaper; no path is returned only if an endpoint is unloaded, no legal walk exists, or more cells than the budget lie on walks that, going on over open ground, are no dearer than the cheapest path; whenever a path is returned the budget covered every cell on a walk that could so have been cheaper |
| PathSearch.OctileIsOpenCost | crates/carbon-server/src/world.rs:1922-1927 | The estimate is exactly the cost of a cheapest walk over open ground, at 10 a straight and 14 a diagonal step |
| PathSearch.LegalStepFits | crates/carbon-server/src/world.rs:1862-1872 | A step is legal if and only if every cell it touches but the one it leaves is loaded, at most one block up and three down, and has two passable blocks over its ground |
| PathSearch.OctileConsistent | crates/carbon-server/src/world.rs:1922-1927 | The heuristic never drops by more than the cost of a legal step, straight or diagonal |
| PathSearch.Frontier | crates/carbon-server/src/world.rs:1828-1886 | While the goal is not expanded, some cell of any walk to it is open with its cheapest cost, so the top of the heap never overestimates |
| PathSearch.CloseCell | crates/carbon-server/src/world.rs:1838-1850 | A fresh entry taken from the heap has the cheapest cost any walk can have, so each cell is expanded at most once |
| PathSearch.Expand | crates/carbon-server/src/world.rs:1851-1884 | Expanding a cell keeps the search invariant and relaxes all eight neighbours by the walking rule |
| PathSearch.Reconstruct | crates/carbon-server/src/world.rs:1841-1848 | Following the parents ends at the start and gives the walk the costs were computed for |
| PathSearch.AllClosedMeansUnreachable | crates/carbon-server/src/world.rs:1832-1886 | If the heap runs empty without meeting the goal, no legal walk reaches it |
| PathSearch.SmallRegionIsWithinBudget | crates/carbon-server/src/world.rs:1828-1886 | If the reachable region has no more cells than the budget, the search cannot fail for lack of budget |
| SaveRotation.QuarantineImpliesUsableBackup | crates/carbon-server/src/state.rs:3805-3866 | A primary that is quarantined before a save is one for which loading already falls back to a usable backup: the two tests agree |
| SaveRotation.LoadingByClass | crates/carbon-server/src/state.rs:3719-3845 | Loading is refused if and only if the primary cannot be read or has an unsupported version, whatever the backup, or is missing or corrupt while the backup cannot be used; it starts afresh if and only if neither file is there; and it gives a save if and only if the primary holds it, or is missing or corrupt and the backup holds it |
| SaveRotation.SaveDirectory.AtomicWrite | crates/carbon-server/src/state.rs:3872-3907 | Every file operation is a legal protocol step from the last recorded disk; it succeeds exactly when no operation it reaches fails, with the new bytes in the primary, the old primary as the backup and no temporary file; after a failed final rename the previous save is put back where that succeeds |
| SaveRotation.SaveDirectory.WriteWorldSave | crates/carbon-server/src/state.rs:3846-3866 | It succeeds exactly when the files are not of the classes loading refuses, the save is not oversized and no operation it reaches fails; refused or oversized, every file is unchanged; success leaves the new save, the previous loadable save as the backup, and exactly a corrupt primary quarantined |
| SaveRotation.CrashPointLoads | crates/carbon-server/src/state.rs:3795-3907 | A crash after any file operation of a save loads exactly what loading gave before it or, once the last rename happened, exactly the new save |
| SaveRotation.RunKeepsInv | crates/carbon-server/src/state.rs:3795-3907 | Over every run of saves, crashes, restarts and damage, the files hold the newest committed save and, as spare, the one before it |
| SaveRotation.CrashSafety | crates/carbon-server/src/state.rs:3795-3907 | Over every run, loading gives the last committed save and never the temporary file |
| SaveRotation.DamageLosesAtMostOneSave | crates/carbon-server/src/state.rs:3805-3845 | A primary lost or corrupted at rest recovers if and only if the backup is usable, and then to the last save or the one before |
| SaveRotation.SaveIsRun | crates/carbon-server/src/state.rs:3846-3907 | Every trace a save leaves is such a run from the files it began with |
| SaveRotation.CompletedSaveIsBackedUp | crates/carbon-server/src/state.rs:3872-3907 | From a completed save over an existing one, whatever saves, crashes and restarts follow, the replaced save's file stays the backup and damage to the primary recovers exactly it, until a later save removes the backup or a failed final rename puts it back in the primary's place |
| SaveRotation.WindowLosesEverySave | crates/carbon-server/src/state.rs:3872-3907 | Right after either of those two steps, damage to the primary loses every save |
| SaveRotation.RefusedSaveChangesNothing | crates/carbon-server/src/state.rs:3846-3866 | While loading is refused, a save can only fail, with no file changed |
| PortalSpec.ComponentIsLeastClosed | crates/carbon-server/src/state.rs:229-258 | A connected field is closed under sharing a face, and lies inside every closed set it meets |
| PortalSpec.ClearOneMore | crates/carbon-server/src/state.rs:1825-1861 | Clearing blocks one at a time, with the plants each removal drops, is clearing them together, whatever the order |
| Portals.InteriorSize | crates/carbon-server/src/state.rs:272-324 | A frame's interior has exactly width times height cells |
| Portals.ScanMeetsEdge | crates/carbon-server/src/state.rs:340-368 | Seen from inside a frame, a scan first meets something other than air exactly at the edge |
| Portals.LightableIsUnique | crates/carbon-server/src/state.rs:326-395 | In one orientation at most one frame can be lit around a cell |
| Portals.LitFrameIsComplete | crates/carbon-server/src/state.rs:326-395 | A lit interior makes a complete portal |
| Portals.ClearKeepsComponent | crates/carbon-server/src/state.rs:208-270 | Clearing some connected fields leaves every other field as it was |
| Portals.SweepComponent | crates/carbon-server/src/state.rs:208-270 | Handling one more field keeps the sweep exact: its verdict is the one it had before any removal, and what is removed are exactly the doomed cells visited |
| Portals.SweptAllIsDoomed | crates/carbon-server/src/state.rs:208-270 | Once all portal blocks of the scan box are visited, exactly the doomed cells are removed, independent of the order |
| Portals.Dimension.FloodComponent | crates/carbon-server/src/state.rs:229-258 | The flood fill returns the connected field of its start, no more and no less |
| Portals.Dimension.NetherPortalComponentHasFrame | crates/carbon-server/src/state.rs:272-324 | True if and only if the field is the whole interior of a complete frame of legal size, in either orientation |
| Portals.Dimension.CollapseNetherPortalNear | crates/carbon-server/src/state.rs:208-270 | Exactly the frameless fields that meet the scan box are cleared, whole; all other blocks stay (but for plants on cleared cells); the count is the number of cells removed |
| Portals.Dimension.SetBlock | crates/carbon-server/src/state.rs:1825-1861 | Setting a block, the plant cascade and the collapse that obsidian's removal starts give exactly the blocks the definition says; it reports whether the block was different; it terminates |
| Portals.Dimension.SetUnloadedBlock | crates/carbon-server/src/state.rs:1825-1861 | A write into a chunk that is not loaded generates it, is judged against what was generated, drops an unsupported plant, and never starts a collapse, because the block there before is read as air |
| BlockWrites.SetKeepsPlantsStanding | crates/carbon-server/src/state.rs:1824-1862 | Where every grass, fern and dead bush stands on a block that carries it, every one does after a write and the collapse it causes, unless the write is itself such a plant on a wrong block |
| BlockWrites.SetChangesOnly | crates/carbon-server/src/state.rs:1824-1862 | A write changes the block, a plant above that the new block does not carry, and, if it took obsidian away, the fields left without a frame; nothing else |
| BlockWrites.CollapseReach | crates/carbon-server/src/state.rs:208-270 | Lost obsidian takes along exactly the frameless fields with a cell within 3 blocks in x and z and 4 in y |
| Portals.Dimension.FindLightable | crates/carbon-server/src/state.rs:335-380 | The scans find the frame around the ignition if there is one, and report none only if there is none |
| Portals.Dimension.ActivateNetherPortalNear | crates/carbon-server/src/state.rs:326-395 | Outside the End it lights if and only if the ignition lies in the all-air interior of an obsidian frame, 2 to 21 by 3 to 21, corners free; then exactly that interior becomes portal (frames along x first), otherwise nothing changes |
| PortalLife.FrameIsRing | crates/carbon-server/src/state.rs:270-395 | A frame is obsidian along the four sides, corners apart, of 2 to 21 by 3 to 21 cells |
| PortalLife.CompletePortalStands | crates/carbon-server/src/state.rs:272-324 | A complete portal's field passes the frame test if and only if no portal block touches it front or back |
| PortalLife.TwinsFall | crates/carbon-server/src/state.rs:208-258 | Two portal fields of frame size back to back, whatever stands around them, lie in one connected field, and that fails the frame test |
| PortalLife.BreakingClearsTwins | crates/carbon-server/src/state.rs:208-324 | Replacing any obsidian block within reach of either, of their frames or not, leaves both interiors air |
| PortalLife.LightingTwins | crates/carbon-server/src/state.rs:326-395 | Two air frames back to back, along x or z, can both be lit, one after the other, and then fail the frame test |
| PortalLife.TwinFramesStand | crates/carbon-server/src/state.rs:326-395 | Two obsidian frames back to back, of any legal size, share no block that either needs |
| PortalLife.BreakingEmptiesInterior | crates/carbon-server/src/state.rs:208-324 | Replacing any required edge block of a complete portal by a block that is neither obsidian nor portal empties its interior |
| PortalLife.LightThenBreak | crates/carbon-server/src/state.rs:208-395 | Lighting a frame and then breaking it gives the air back |
| Caves.SamplesAreClose | crates/carbon-server/src/world.rs:507-527 | Consecutive tunnel samples differ by at most one block on each axis |
| Caves.SampleEnds | crates/carbon-server/src/world.rs:507-527 | The first and last samples of a tunnel are its two junctions |
| Caves.SamplesOnLine | crates/carbon-server/src/world.rs:509-529 | A tunnel is straight: one sample per block of its longest axis, each the exact point of the line rounded down on every axis |
| Caves.JunctionPlaces | crates/carbon-server/src/world.rs:1929-1936 | A cell's junction takes any place of a 32 by 13 by 32 box, by three groups of bits of the mixed value |
| Caves.CarvedShape | crates/carbon-server/src/world.rs:529-547 | The ball is round, and nothing is carved below -59 or within six blocks of the ground |
| Caves.CellReachIsLocal | crates/carbon-server/src/world.rs:219-239 | What a cell's junction and its two tunnels reach stays between 11 and 114 blocks from the cell's corner |
| Caves.ScanMissesNothing | crates/carbon-server/src/world.rs:219-239 | Every cell that reaches into a chunk is among those the chunk scans, on either side of the origin |
| CavePassages.RoomAroundSample | crates/carbon-server/src/world.rs:507-547 | Around every tunnel sample one can stand, two blocks high: the roof and floor clips never cut there |
| CavePassages.AlongTunnel | crates/carbon-server/src/world.rs:507-547 | From a junction to any sample of its tunnels runs a carved passage |
| CavePassages.PassageStepByStep | crates/carbon-server/src/world.rs:509-547 | Every position of a passage and the one above it are carved, and each shares a face with the next |
| CavePassages.AnyTwoJunctionsJoined | crates/carbon-server/src/world.rs:219-239 | Over terrain at least 32 high, the junctions of any two cells of the infinite grid are joined by a face-connected, two-block-high carved passage |
| Heights.HeightsFit | crates/carbon-server/src/world.rs:2086-2117 | Outside the End the terrain is at least 32 and at most 144 high, and the Nether ceiling stays 23 above the floor, for every seed and column |
| Heights.SpawnIsLevel | crates/carbon-server/src/world.rs:2105-2116 | The ground is 64 high within 8 columns of (-8, -8), and what noise gives from 72 on |
| Heights.BlendCurve | crates/carbon-server/src/world.rs:2113-2116 | From 8 to 72 columns out the share of the noise follows the smoothing curve |
| Heights.BlendGrows | crates/carbon-server/src/world.rs:2113-2116 | The share of the noise never falls with the distance from spawn |
| Heights.FieldOnLattice | crates/carbon-server/src/world.rs:2110-2112 | Where the lattices meet, the field is the shape's base, moved by relief and detail times the two samples there |
| Heights.FillColumns | crates/carbon-server/src/world.rs:61-83 | The loops over a chunk's columns fill exactly the arrays its dimension has, each entry from its own world column |
| Heights.EntriesAt | crates/carbon-server/src/world.rs:61-83 | Each array entry is the 16-bit cast of the floor, ceiling or island bottom of its own world column |
| Heights.SurfaceIsTerrain | crates/carbon-server/src/world.rs:61-83 | Outside the End every surface entry is the terrain height itself: the cut to 16 bits changes nothing |
| Overworld.EverySeedJoinsItsJunctions | crates/carbon-server/src/world.rs:219-239 | For every seed the junctions of any two cells are joined by a carved passage: the Overworld's clamped heights are all the connection needs |
| Overworld.SeedFollowsTerrain | crates/carbon-server/src/world.rs:61-83 | A chunk generated from a seed has the columns of that terrain, so what it carves is its part of the connected network |
| SeedBlocks.LaterBlocksWin | crates/carbon-server/src/world.rs:1214-1256 | An edit shows before all else, and an explicit block before roof, slab and ground |
| SeedBlocks.OverworldColumn | crates/carbon-server/src/world.rs:1214-1256 | In a chunk generated from a seed, an untouched Overworld column is the surface block at the terrain's height, three of filler, foundation, and bedrock at the bottom |
| SeedBlocks.NetherColumn | crates/carbon-server/src/world.rs:1214-1256 | An untouched Nether column is ground up to the floor, air, foundation from the ceiling on, and bedrock at 127 |
| SeedBlocks.EndColumn | crates/carbon-server/src/world.rs:1214-1256 | An untouched End column is end stone in its island's slab and air elsewhere |
| Chunks.GeneratedChunk.CarveCaveBall | crates/carbon-server/src/world.rs:529-547 | Exactly the ball's cells in the chunk, above the floor and below the roof, become air |
| Chunks.GeneratedChunk.CarveCaveTunnel | crates/carbon-server/src/world.rs:507-527 | Exactly the chunk's part of the tunnel becomes air |
| Chunks.GeneratedChunk.GenerateCaveNetwork | crates/carbon-server/src/world.rs:219-239 | A chunk carves exactly its own part of the global network, for every chunk including negative coordinates, so the result does not depend on load order |
| Chunks.GeneratedChunk.ScanIsGlobal | crates/carbon-server/src/world.rs:219-239 | Within a chunk, what the scanned cells reach is what any cell of the network reaches |
| Chunks.GeneratedChunk.Placements | crates/carbon-server/src/world.rs:1258-1307 | The listed placements are exactly the edits, explicit blocks, Nether roof and End slab, in that precedence |
| Chunks.GeneratedChunk.PlacementsAreOwn | crates/carbon-server/src/world.rs:1258-1307 | A chunk whose blocks and edits lie in its own columns lists placements in its own columns only |
| Chunks.GeneratedChunk.PlacementsAgree | crates/carbon-server/src/world.rs:1214-1307 | At every position the block is the placement if there is one, and else the base column (air in the End) |
| World.PrototypeWorld.LoadedShowsExpected | crates/carbon-server/src/world.rs:1628-1640 | Reading a loaded chunk gives the last value written there, or else the generated block; an unloaded one reads as air |
| World.PrototypeWorld.LoadedIsOwned | crates/carbon-server/src/world.rs:1670-1712 | Whatever was written, a loaded chunk's blocks and edits lie in its own columns |
| World.PrototypeWorld.EnsureChunk | crates/carbon-server/src/world.rs:1411-1416 | Loading a chunk again changes nothing; a new one is the generated one, without edits |
| World.PrototypeWorld.SetBlock | crates/carbon-server/src/world.rs:1670-1686 | The position now has the value, every other one keeps its own, and the report says whether the value was new; a changed position becomes an edit, and no other edit comes or goes |
| World.PrototypeWorld.ApplyEdit | crates/carbon-server/src/world.rs:1700-1712 | As a write, and exactly this position joins the edits |
| World.PrototypeWorld.PruneChunkCache | crates/carbon-server/src/world.rs:1607-1626 | Exactly the chunks stay that have edits, a player in the 25 by 25 chunks around, or a mob in the 5 by 5; they are as they were and no edit is lost |
| World.PrototypeWorld.Edits | crates/carbon-server/src/world.rs:1688-1698 | Exactly the edits of all chunks, with their values |
| World.Restore | crates/carbon-server/src/state.rs:1257-1292 | A fresh world with the saved edits applied in any order has exactly them as its last writes, and every one is an edit |
| World.RestoreShowsTheSame | crates/carbon-server/src/world.rs:1688-1712 | After replaying the edits into a fresh world of the same seed, every position should show what it should in the saved world, and shows the same where the chunk is loaded in both |
| Bits.OrDisjoint | crates/carbon-protocol/src/chunk.rs:335-349 | Words that share no bit add under the bitwise or |
| Palette.LeastWords | crates/carbon-protocol/src/chunk.rs:335-349 | Packing uses the least number of 64-bit words that hold all entries whole |
| Palette.EntryPlace | crates/carbon-protocol/src/chunk.rs:335-349 | Entry k is the k-th group of bits counted from the lowest, 64 / bits of them to a word |
| Palette.EntryReadsBack | crates/carbon-protocol/src/chunk.rs:335-349 | Every packed entry reads back from one long, so none straddles two |
| Container.PaletteIsDistinct | crates/carbon-protocol/src/chunk.rs:297-328 | The palette holds exactly the states that occur, each once |
| Container.BitsFit | crates/carbon-protocol/src/chunk.rs:297-328 | The chosen width has room for every palette index |
| Container.WidthIsLeast | crates/carbon-protocol/src/chunk.rs:310-320 | The width is the minimum, or one bit less would not tell the palette's entries apart |
| Container.PaletteInOrder | crates/carbon-protocol/src/chunk.rs:297-313 | Values join the palette in the order they first appear |
| Container.EncodePalettedContainer | crates/carbon-protocol/src/chunk.rs:297-333 | The loops append exactly the container's bytes |
| Container.ContainerReadsBack | crates/carbon-protocol/src/chunk.rs:297-349 | Reading what a container wrote gives the list of states back, whatever bytes follow |
| Sections.EncodeSection | crates/carbon-protocol/src/chunk.rs:248-295 | The loops append exactly the section's bytes for the 4096 cells, overrides first and the base column otherwise |
| Sections.SectionReadsBack | crates/carbon-protocol/src/chunk.rs:248-295 | Reading a section back gives its 4096 states |
| Sections.CountReadsBack | crates/carbon-protocol/src/chunk.rs:248-282 | The first two bytes are the number of cells that are not air |
| ChunkViews.BaseRulesAgree | crates/carbon-protocol/src/chunk.rs:283-295 | The encoder's and the chunk's base-column rules agree at every height if and only if the surface is not one to three blocks above bedrock, or filler and bedrock look alike |
| ChunkViews.BaseRulesDiffer | crates/carbon-protocol/src/chunk.rs:283-295 | Two blocks above the lowest layer the two rules give dirt and bedrock |
| ChunkViews.SeedKeepsSurfacesClear | crates/carbon-server/src/world.rs:2096-2117 | No chunk generated from a seed, in any dimension, has a surface at which the base rules differ |
| ChunkViews.ViewsAgree | crates/carbon-server/src/network/mod.rs:3415-3468 | The wire shows the block of a chunk generated from a seed, whatever was written to its own columns since, at every position if and only if no placement outside the 16-bit heights stands over a different block at height 0 |
| ChunkViews.LoadedViewsAgree | crates/carbon-server/src/network/mod.rs:3415-3468 | The same for every loaded chunk of a world generated from a seed, whatever was written to the world |
| ChunkViews.FarEditShowsThrough | crates/carbon-server/src/network/mod.rs:3415-3468 | With stone edited in at height 40000 over air at height 0, the wire does not show the chunk's blocks |
| ChunkViews.RestoredFarEdit | crates/carbon-server/src/state.rs:1271-1291 | A save with those two blocks, restored into any world, makes such a chunk |
| ChunkViews.StatesTellKindsApart | crates/carbon-server/src/network/mod.rs:3424-3429 | No two kinds of block are sent as the same state |
| ChunkViews.LoadedClientReadsBlocks | crates/carbon-server/src/network/mod.rs:3415-3468 | When no placement outside the 16-bit heights stands over a different block at height 0, what a client decodes from the encoded section of a loaded chunk, 256 cells to a layer and 16 to a row, is the block at every position |
| LightSpec.NibbleWrite | crates/carbon-protocol/src/chunk.rs:375-426 | Writing a nibble puts its level and leaves its neighbour alone |
| LightSpec.LitBySource | crates/carbon-protocol/src/chunk.rs:375-403 | A cell has at least a level exactly when some source is that much brighter than it is blocks away along the axes |
| LightSpec.CellInArray | crates/carbon-protocol/src/chunk.rs:392-401 | A cell's level is in its own half of byte 128 y + 8 z + x / 2 of its section's array |
| LightSpec.SectionsReached | crates/carbon-protocol/src/chunk.rs:375-403 | A section has an array exactly when some source is within 14 blocks of one of its cells |
| LightSpec.LightSectionsUnique | crates/carbon-protocol/src/chunk.rs:375-426 | Arrays with the defined light at every cell are the defined arrays, byte for byte |
| Light.FloodSources | crates/carbon-protocol/src/chunk.rs:375-426 | After the nested loops each cell's nibble is the largest of level minus Manhattan distance over all sources, also those outside the chunk |
| LightPayload.MasksPartition | crates/carbon-protocol/src/chunk.rs:404-426 | Each of the 26 light sections is in exactly one of the lit and empty masks, and in the lit one exactly when it has an array |
| LightPayload.LitSectionsAscend | crates/carbon-protocol/src/chunk.rs:404-426 | The arrays follow the order of the mask |
| LightPayload.BitRangeBits | crates/carbon-protocol/src/chunk.rs:452-457 | A bit range has exactly the bits from first to last |
| LightPayload.EncodeLightless | crates/carbon-protocol/src/chunk.rs:375-426 | The payload written is the one the light's definition gives |
| LightReader.PayloadParts | crates/carbon-protocol/src/chunk.rs:404-426 | The fields in order: sky mask, lit mask, empty sky mask, empty mask, no sky arrays, and the count and arrays of the lit sections |
| LightReader.SectionsReadBack | crates/carbon-protocol/src/chunk.rs:404-426 | An independent reader of bit sets and arrays gets back both masks and the lit arrays in order, whatever bytes follow |
| LightReader.PayloadReadsBack | crates/carbon-protocol/src/chunk.rs:375-426 | Assigning the arrays read to the bits of the mask read gives, at every cell of the chunk, the light of the definition; sections named empty are dark |
| LightSpec.SectionsHoldLight | crates/carbon-protocol/src/chunk.rs:375-403 | The arrays by definition hold the light of every cell, and a section without one is dark |
| VarInt.EncodeVarint | crates/carbon-protocol/src/varint.rs:12-22 | The loop appends the VarInt of any 32-bit value |
| VarInt.DecodeVarint | crates/carbon-protocol/src/varint.rs:24-41 | The loop gives the parse's value and length, or its error |
| VarInt.ParseBytes | crates/carbon-protocol/src/varint.rs:12-41 | A VarInt reads back, for every signed 32-bit value, whatever bytes follow |
| VarInt.ByteOfWord | crates/carbon-protocol/src/varint.rs:12-22 | Each byte holds the seven bits of its place, lowest first, and all but the last are marked |
| VarInt.NoShorterEncoding | crates/carbon-protocol/src/varint.rs:12-41 | No bytes that read as a value are fewer than its encoding |
| Frames.FramePacket | crates/carbon-protocol/src/packet.rs:106-118 | The frame is the body's length and the body, packet id first |
| Frames.BatchOfFrames | crates/carbon-protocol/src/packet.rs:106-118 | The batch parse of framed bodies gives them back, then whatever follows |
| Compression.EncodeFrames | crates/carbon-server/src/network/compression.rs:59-87 | The loop re-envelopes frame by frame, exactly as defined, or refuses |
| Compression.EnvelopeOpens | crates/carbon-server/src/network/compression.rs:12-57 | Opening an envelope, compressed or below the threshold, gives the body back |
| Compression.OpensWhen | crates/carbon-server/src/network/compression.rs:12-57 | A packet opens exactly when it is a zero and 1 to 255 plain bytes, or a length from 256 to 2097152 and a zlib stream, used up to its end, of as many |
| Compression.EncodedFrames | crates/carbon-server/src/network/compression.rs:59-87 | Framed packets come out as framed envelopes, and are refused if and only if one outgrows the packet limit |
| Compression.PacketsComeBack | crates/carbon-server/src/network/compression.rs:12-87 | Any packets framed, enveloped, parsed as a batch and opened come back in order |
| Transport.PrefixDecides | crates/carbon-server/src/network/transport.rs:215-252 | The byte that ends a length prefix decides alone whether the frame is malformed, and which way |
| Transport.Connection.ReadFrame | crates/carbon-server/src/network/transport.rs:202-287 | However the stream is cut and wherever calls are cancelled, the frames returned are those of the batch parse up to the first malformed length, and a call that no deadline, limit, error or cancellation cuts short ends with the next of them; the prefix stays within 5 bytes and the payload within the limit |
| Transport.Connection.EnableCompression | crates/carbon-server/src/network/transport.rs:154-164 | Compression goes on exactly when it was off, the reader is between two frames and the announcement can be written; otherwise nothing changes |
| Transport.ReaderOpensWhatWasSent | crates/carbon-server/src/network/transport.rs:202-287 | Of the packets sent, plain up to the switch and enveloped from it on, the reader has opened the first ones in order, and all once the stream is exhausted |
| Items.ClickConserves | crates/carbon-server/src/state.rs:4048-4117 | A click makes, loses and changes no item, even with stacks over their limit, except that a right click with a stack of nothing onto room makes 256; stacks within their limits stay there; an emptied slot keeps no sharpness |
| Items.PickingUp | crates/carbon-server/src/state.rs:4056-4071 | The left button picks a whole stack up, the right one its larger half |
| Items.PuttingDown | crates/carbon-server/src/state.rs:4073-4085 | The left button puts down all a slot holds, the right one a single item, and only kinds the slot takes |
| Items.MeetingStack | crates/carbon-server/src/state.rs:4086-4112 | On a stack alike the left button adds what there is room for and the right one a single item; others change places within the limit |
| Items.StackLimits | crates/carbon-server/src/state.rs:3956-3988 | Blocks, materials and food stack to 64, empty buckets to 16, and nothing else stacks |
| Crafting.ConsumeTakes | crates/carbon-server/src/state.rs:2627-2646 | Taking an available amount of a kind takes exactly it and nothing else |
| Crafting.AddStackPours | crates/carbon-server/src/state.rs:4133-4163 | Adding any stack pours in as much as there is room for and changes no other total; stacks within their limits stay there |
| SlotOrder.ConsumeAt | crates/carbon-server/src/state.rs:2627-2646 | Each slot gives what the slots before it could not, and keeps its sharpness unless emptied |
| SlotOrder.AddStackAt | crates/carbon-server/src/state.rs:4133-4163 | A stack joins those alike in kind and damage first, slot by slot, and only then fills empty slots |
| SlotOrder.MadeFrom | crates/carbon-server/src/state.rs:3909-3955 | What each product is made from, and how many at a time |
| SlotOrder.CaseDoesNotMatter | crates/carbon-server/src/state.rs:3909-3911 | Names that differ only in the case of letters name the same recipe |
| Crafting.CapacityIsRoom | crates/carbon-server/src/state.rs:2615-2628 | The capacity crafting counts is the room there is, when no stack like the output is over its limit |
| Crafting.RecipeDefinition | crates/carbon-server/src/state.rs:3909-3955 | Every recipe makes something out of distinct ingredients, none of which is what it makes |
| Crafting.CraftConserves | crates/carbon-server/src/state.rs:2592-2650 | An accepted craft changes each kind's total by exactly the recipe's amounts, less what of the output the room left after taking the ingredients does not hold; that is nothing when no stack like the output is over its limit |
| Crafting.OverfullStackLosesPlanks | crates/carbon-server/src/state.rs:2592-2650 | With two logs, 65 planks in a slot and stone in all others, planks are crafted and all lost |
| Inventory.SlotRow.Click | crates/carbon-server/src/state.rs:2347-2366 | A click on a storage or chest slot, with any stacks, changes that slot and the cursor as defined, and no other slot; an index past the end changes nothing |
| Inventory.SlotRow.Take | crates/carbon-server/src/state.rs:2627-2646 | The loop over the slots takes ingredients as defined |
| Inventory.SlotRow.AddStack | crates/carbon-server/src/state.rs:4133-4163 | The two loops pour any stack as defined, and report whether a pour ended with none left |
| Inventory.SlotRow.Craft | crates/carbon-server/src/state.rs:2592-2650 | For any slots, crafts exactly when the recipe is known, every ingredient is there and the counted capacity suffices; refused, it changes nothing |
| InventoryRuns.ClickRowConserves | crates/carbon-server/src/state.rs:2168-2203 | A click on a row of slots conserves every variety (kind, damage and sharpness) over row and cursor, unless it is a right click with a stack of nothing |
| InventoryRuns.RunConserves | crates/carbon-server/src/state.rs:2168-2203 | Over every run of crafts and clicks, totals over inventory, chest and cursor change only by the accepted recipes' amounts, no stack outgrows its limit, and clicks alone conserve every variety |
| InventoryRuns.EmptyStackMints | crates/carbon-server/src/state.rs:4048-4117 | A stack of nothing picked up and put down with the right button on a free slot leaves one item there and 255 on the cursor, all else as it was |
| InventoryRuns.MovingStack | crates/carbon-server/src/state.rs:2168-2203 | Two left clicks move a stack from a chest slot to a free inventory slot, sharpness and all |
| InventoryRuns.SplittingStack | crates/carbon-server/src/state.rs:2347-2366 | A right click and a left one split a stack between two slots, the smaller half staying |
| InventoryRuns.SecondClickUndoes | crates/carbon-server/src/state.rs:2347-2366 | Two left clicks on a storage slot, or a right click that picks half of a stack up and a left one, restore the whole store, if and only if the first click did not pour a stack onto one alike |
| FurnaceSpec.ClosedForm | crates/carbon-server/src/state.rs:1020-1065 | From idle with n items and m units of fuel, after any number of ticks the items smelted, the progress, the fuel used and the burn left are given by a closed form |
| FurnaceSpec.FuelIsWorth | crates/carbon-server/src/state.rs:1020-1065 | Once the fuel has burned out, each coal has smelted eight items, each two logs or planks three, and each two sticks one, as far as there were items |
| FurnaceSpec.TickProgress | crates/carbon-server/src/state.rs:1025-1063 | Without room or input progress is lost, without fire it waits, and the 200th tick of fire makes the item |
| FurnaceSpec.SmeltedFrom | crates/carbon-server/src/state.rs:3990-4001 | What each product is smelted from |
| FurnaceSpec.BurnsFor | crates/carbon-server/src/state.rs:4003-4010 | What burns, and for how many ticks |
| FurnaceRuns.TickKeeps | crates/carbon-server/src/state.rs:1020-1065 | A tick burns what it lit, spends 200 lit ticks an item, and turns one input item into one output item |
| FurnaceRuns.SlotsTake | crates/carbon-server/src/state.rs:2120-2131 | On a free slot the input takes exactly what smelts, the fuel slot what burns, and the output nothing |
| FurnaceRuns.SlotsGive | crates/carbon-server/src/state.rs:2120-2131 | A stack picked up comes from the slot clicked |
| FurnaceRuns.EventHappens | crates/carbon-server/src/state.rs:1020-1065 | In a run a tick ticks the furnace, its smelted items are those its output gained, and a click clicks the slot |
| FurnaceRuns.RunInParts | crates/carbon-server/src/state.rs:1020-1065 | A run is its events one after the other |
| FurnaceRuns.PlacedRun | crates/carbon-server/src/state.rs:1020-1065 | Over every run of ticks and clicks: the output stays within 64; 200 times the items smelted plus the progress never exceeds the lit ticks; lit ticks plus burn left equal the fuel's worth, and the burn left never exceeds what the last unit gave; what was put in is there, was taken out, or was burned |
| Furnaces.TickFurnace | crates/carbon-server/src/state.rs:1025-1063 | The step-by-step updates of one furnace amount to the tick function |
| Furnaces.FurnaceBank.TickFurnaces | crates/carbon-server/src/state.rs:1020-1065 | Every furnace is ticked exactly once and none is added or lost |
| Furnaces.FurnaceBank.ClickFurnaceSlot | crates/carbon-server/src/state.rs:2101-2137 | Only the clicked slot of the furnace at that position changes, as the click function says; without a furnace block nothing does |
| Noise.NoiseRange | crates/carbon-server/src/world.rs:2285-2299 | The noise stays within [-1, 1] |
| Noise.NoiseAtLatticePoint | crates/carbon-server/src/world.rs:2285-2299 | At a lattice point the noise is the point's own value, scaled to [-1, 1] |
| Noise.NoiseOnLatticeLine | crates/carbon-server/src/world.rs:2285-2299 | Along the lattice lines it goes from one point's value to the next on the smoothing curve |
| Noise.SmoothSlope | crates/carbon-server/src/world.rs:2285-2299 | The smoothing curve rises at most 3/2 as fast as its argument, and never falls |
| Noise.SmoothIsLevelAtEnds | crates/carbon-server/src/world.rs:2285-2299 | The curve starts and ends level, and is the same from either end |
| Noise.SeamX | crates/carbon-server/src/world.rs:2285-2299 | The far edge of a lattice cell is the near edge of the next |
| Noise.NoiseSlopeX | crates/carbon-server/src/world.rs:2285-2299 | Adjacent columns in x differ by at most 3 / scale, across lattice lines and for negative coordinates |
| Noise.NoiseSlopeZ | crates/carbon-server/src/world.rs:2285-2299 | The same in z |
| Noise.NetherHeadroom | crates/carbon-server/src/world.rs:2086-2101 | Neither Nether clamp ever binds, and floor and ceiling are at least 23 blocks apart |
| Noise.NetherHeightsOnLattice | crates/carbon-server/src/world.rs:2086-2101 | Where the lattices meet, the ceiling is 96 moved by 10 and 3 times the samples and the floor 48 moved by 12, each rounded |
| Noise.RoundIsNearest | crates/carbon-server/src/world.rs:2086-2101 | Heights are rounded to the nearest block, halves away from zero |
| Noise.NetherCeilingIsGentle | crates/carbon-server/src/world.rs:2086-2095 | Adjacent Nether ceilings differ by at most 2 |
| SignedHex.Negate | crates/carbon-server/src/network/crypto.rs:97-106 | The carry loop replaces a negative two's-complement number by its magnitude, in place, for any byte length |
| SignedHex.SignedHex | crates/carbon-server/src/network/crypto.rs:97-116 | The text printed is canonical (no leading zeros, minus only for negatives, "0" only for zero) and parses back to the digest's signed value |
| SignedHex.LowercaseDigits | crates/carbon-server/src/network/crypto.rs:107-116 | The digits are the sixteen of hexadecimal in lower case |
| SignedHex.CanonicalIsUnique | crates/carbon-server/src/network/crypto.rs:97-116 | A number has only one canonical text |

## Left out

- PathSearch.FindPath: the coordinates and the budget must be small enough that no u32 cost sum overflows; what a wrapped sum would do to the order of the heap is not modelled.
- Portals.Dimension.SetBlock: the server's chunk store is one map from position to block, in which a missing entry is air; block-change logs and their revisions are not part of this model.
- Chunks.GeneratedChunk.GenerateCaveNetwork: caves only; the later generation stages (entrances, ores, trees, structures), which may refill a carved block, are not modelled.
- World.PrototypeWorld.SetBlock: chunk generation is a function of the chunk position; mobs and the removal of plants and portals around a write are not part of the cache model.
- Transport.Connection.ReadFrame: deadlines, rate limits and shutdown only decide that a call may stop; when they do so is not modelled, and the cipher is taken to hand over plain bytes; of the compression switch the announcement's bytes are left out.
- Compression.PacketsComeBack: zlib is any pair of functions that invert each other; its own format and the detection of corrupt streams are not modelled.
- SaveRotation.CrashSafety: a process crash, not a power failure; directory entries are durable once an operation returned, and there is one writer.
- Items.ClickConserves: the 255 left by a right click with a stack of nothing supposes a build without overflow checks; with them the server stops there instead.
- ChunkViews.StatesTellKindsApart: the state numbers themselves are a table taken over as it is.
- SlotOrder.MadeFrom: which names, besides the lowercase form of one given, lead to which recipe is a table taken over as it is.
- Inventory.SlotRow.RoomFor: subtracting from a stack over its limit wraps around, as in a build without overflow checks; with them the server stops there instead.
- Inventory.SlotRow.Click: armour and off-hand slots, and the revision counters of inventories, chests and furnaces, are not modelled.
- Furnaces.TickFurnace: the furnace's counters are unbounded; with 16-bit counters the saturating progress count gives the same ticks, because a full count also finishes the item.
- Noise.NoiseSlopeX: f64 is taken as the reals, so rounding error is not part of the bound.
- Item pickup, which returns success after inserting part of a stack, so that totals over pickups are not conserved.
- Chunk coordinates that overflow 32 bits outside the portal code.
- Heightmaps, sky light and the chunk packet around the sections.
- RSA, the session check, JSON, play packet layouts, permissions, configuration, commands and the extension API.
- Mob movement, combat, item physics, trees, ores, structures and loot tables.
