/** What writing one block changes (state.rs): no plant is left standing on a block that cannot carry it,
    no other plant falls, and only lost obsidian takes portal blocks along. */
module BlockWrites {
  import opened Blocks
  import opened PortalSpec
  import opened Portals

  /** Grass and fern stand on grass or dirt blocks, a dead bush also on sand. */
  predicate Stands(plant: BlockKind, support: BlockKind) {
    support in {Grass, Dirt} || (plant == DeadBush && support == Sand)
  }

  predicate IsPlant(kind: BlockKind) {
    kind in {ShortGrass, Fern, DeadBush}
  }

  lemma PlantsAgree(plant: BlockKind, support: BlockKind)
    ensures plant.IsSurfacePlant() <==> IsPlant(plant)
    ensures IsPlant(plant) ==> (plant.PlantSurvivesOn(support) <==> Stands(plant, support))
  {
  }

  ghost predicate PlantsStand(blocks: BlockMap) {
    forall p <- blocks :: IsPlant(blocks[p]) ==> Stands(blocks[p], BlockAt(blocks, p.Down()))
  }

  lemma StandsOn(blocks: BlockMap, p: BlockPosition)
    requires InWorld(blocks) && PlantsStand(blocks) && IsPlant(BlockAt(blocks, p))
    ensures p.y > I32_MIN && Stands(BlockAt(blocks, p), BlockAt(blocks, p.Down()))
    ensures !IsPlant(BlockAt(blocks, p.Down()))
  {
    assert p in blocks && (p.y == I32_MIN ==> p.Down() !in blocks);
  }

  /** Clearing cells takes along exactly the plants that stand on them. */
  lemma ClearedAt(blocks: BlockMap, cleared: set<BlockPosition>, q: BlockPosition)
    requires InWorld(blocks) && PlantsStand(blocks)
    requires forall c <- cleared :: !IsPlant(BlockAt(blocks, c))
    ensures BlockAt(Clear(blocks, cleared), q)
      == if q in cleared || (IsPlant(BlockAt(blocks, q)) && q.Down() in cleared) then Air else BlockAt(blocks, q)
  {
    if IsPlant(BlockAt(blocks, q)) {
      StandsOn(blocks, q);
      assert !Wilts(blocks, cleared, q.Down());
    }
  }

  lemma {:induction false} ClearKeepsPlantsStanding(blocks: BlockMap, cleared: set<BlockPosition>)
    requires InWorld(blocks) && PlantsStand(blocks)
    requires forall c <- cleared :: !IsPlant(BlockAt(blocks, c))
    ensures PlantsStand(Clear(blocks, cleared))
  {
    forall q | q in Clear(blocks, cleared) && IsPlant(Clear(blocks, cleared)[q])
      ensures Stands(Clear(blocks, cleared)[q], BlockAt(Clear(blocks, cleared), q.Down()))
    {
      ClearedAt(blocks, cleared, q);
      ClearedAt(blocks, cleared, q.Down());
      StandsOn(blocks, q);
    }
  }

  lemma NothingElseWilts(blocks: BlockMap, p: BlockPosition, kind: BlockKind, q: BlockPosition)
    requires InWorld(blocks) && PlantsStand(blocks) && IsPlant(BlockAt(blocks, p.Up()))
    ensures !Wilts(blocks[p := kind], {p.Up()}, q)
  {
    var placed := blocks[p := kind];
    WiltsOnlyAbove(placed, p.Up(), q);
    WiltsOnlyAbove(placed, p.Up(), q.Down());
    if Wilts(placed, {p.Up()}, q) {
      StandsOn(blocks, q);
    }
  }

  // The block itself, and the plant above it.
  lemma PlacedAt(blocks: BlockMap, p: BlockPosition, kind: BlockKind, q: BlockPosition)
    requires InWorld(blocks) && PlantsStand(blocks) && InI32(p)
    ensures var above := BlockAt(blocks, p.Up());
      BlockAt(Placed(blocks, p, kind), q)
      == if q == p then kind
         else if q == p.Up() && IsPlant(above) && !Stands(above, kind) then Air
         else BlockAt(blocks, q)
  {
    assert p.y == I32_MAX ==> p.Up() !in blocks;
    PlantsAgree(BlockAt(blocks, p.Up()), kind);
    PlantsAgree(Air, kind);
    if IsPlant(BlockAt(blocks, p.Up())) {
      NothingElseWilts(blocks, p, kind, q);
    }
    hide Wilts, PlantsStand, InWorld, Stands, IsPlant, BlockKind.IsSurfacePlant, BlockKind.PlantSurvivesOn;
  }

  // What stands at the position after the write must be able to.
  ghost predicate Supported(blocks: BlockMap, p: BlockPosition, kind: BlockKind) {
    IsPlant(kind) ==> Stands(kind, BlockAt(blocks, p.Down()))
  }

  lemma PlacedKeepsPlantsStanding(blocks: BlockMap, p: BlockPosition, kind: BlockKind)
    requires InWorld(blocks) && PlantsStand(blocks) && InI32(p) && Supported(blocks, p, kind)
    ensures InWorld(Placed(blocks, p, kind)) && PlantsStand(Placed(blocks, p, kind))
  {
    var placed := Placed(blocks, p, kind);
    forall q | q in placed && IsPlant(placed[q]) ensures Stands(placed[q], BlockAt(placed, q.Down())) {
      PlacedAt(blocks, p, kind, q);
      PlacedAt(blocks, p, kind, q.Down());
      if q != p {
        StandsOn(blocks, q);
      }
    }
  }

  lemma DoomedIsPortal(blocks: BlockMap, broken: BlockPosition, q: BlockPosition)
    requires q in DoomedCells(blocks, broken)
    ensures IsPortal(blocks, q)
  {
    var start :| InScanBox(broken, start) && IsPortal(blocks, start) && q in Component(blocks, start)
      && !HasFrame(blocks, Component(blocks, start));
    var trail :| IsTrail(blocks, trail) && trail[0] == start && trail[|trail| - 1] == q;
  }

  /** Where every plant stands on a block that carries it, every plant does after a write, unless the write is
      itself a plant on a block that does not. */
  lemma SetKeepsPlantsStanding(blocks: BlockMap, p: BlockPosition, kind: BlockKind)
    requires InWorld(blocks) && PlantsStand(blocks) && InI32(p) && Supported(blocks, p, kind)
    ensures PlantsStand(AfterSet(blocks, p, kind))
  {
    hide PlantsStand, Placed, DoomedCells, InWorld, Clear, Supported;
    PlacedKeepsPlantsStanding(blocks, p, kind);
    var placed := Placed(blocks, p, kind);
    forall c | c in DoomedCells(placed, p) ensures !IsPlant(BlockAt(placed, c)) {
      DoomedIsPortal(placed, p, c);
    }
    ClearKeepsPlantsStanding(placed, DoomedCells(placed, p));
  }

  /** And the write changes nothing but the block itself, a plant above that it does not carry, and, when it
      takes obsidian away, the portal fields it leaves without a frame. */
  lemma SetChangesOnly(blocks: BlockMap, p: BlockPosition, kind: BlockKind, q: BlockPosition)
    requires InWorld(blocks) && PlantsStand(blocks) && InI32(p) && Supported(blocks, p, kind)
    ensures var above := BlockAt(blocks, p.Up());
      BlockAt(AfterSet(blocks, p, kind), q)
      == if BlockAt(blocks, p) == Obsidian && kind != Obsidian && q in DoomedCells(Placed(blocks, p, kind), p) then Air
         else if q == p then kind
         else if q == p.Up() && IsPlant(above) && !Stands(above, kind) then Air
         else BlockAt(blocks, q)
  {
    hide Placed, DoomedCells, InWorld, Clear, Supported, PlantsStand;
    var placed := Placed(blocks, p, kind);
    PlacedAt(blocks, p, kind, q);
    PlacedKeepsPlantsStanding(blocks, p, kind);
    forall c | c in DoomedCells(placed, p) ensures BlockAt(placed, c) == NetherPortal {
      DoomedIsPortal(placed, p, c);
    }
    ClearedAt(placed, DoomedCells(placed, p), q);
    if IsPlant(BlockAt(placed, q)) {
      StandsOn(placed, q);
    }
    if BlockAt(blocks, p) == kind && q == p.Up() && IsPlant(BlockAt(blocks, q)) {
      StandsOn(blocks, q);
    }
  }

  // A portal cell within 3 blocks in x and z and 4 in y.
  predicate Near(blocks: BlockMap, broken: BlockPosition, start: BlockPosition) {
    && start in blocks && blocks[start] == NetherPortal
    && broken.x - 3 <= start.x <= broken.x + 3
    && broken.y - 4 <= start.y <= broken.y + 4
    && broken.z - 3 <= start.z <= broken.z + 3
  }

  /** A lost frame block takes along exactly the frameless fields with a cell near it. */
  lemma CollapseReach(blocks: BlockMap, broken: BlockPosition, p: BlockPosition)
    requires InWorld(blocks)
    ensures p in DoomedCells(blocks, broken) <==> exists start ::
      Near(blocks, broken, start) && p in Component(blocks, start) && !HasFrame(blocks, Component(blocks, start))
  {
    hide Linked, HasFrame;
    forall start ensures Near(blocks, broken, start) <==> InScanBox(broken, start) && IsPortal(blocks, start) {
    }
    hide Near, InScanBox, IsPortal;
  }
}
