/** Nether portal ignition and collapse (state.rs): the scans, the flood fill and the frame test. */
module Portals {
  import opened Wrappers
  import opened Arithmetic
  import opened Blocks
  import opened PortalSpec

  // ----- Setting one block

  /** A block put in place, and the plants above it that it cannot support gone. */
  function Placed(blocks: BlockMap, p: BlockPosition, kind: BlockKind): BlockMap {
    var placed := blocks[p := kind];
    var plant := BlockAt(placed, p.Up());
    if p.y < I32_MAX && plant.IsSurfacePlant() && !plant.PlantSurvivesOn(kind) then Clear(placed, {p.Up()})
    else placed
  }

  ghost function AfterSet(blocks: BlockMap, p: BlockPosition, kind: BlockKind): BlockMap {
    if BlockAt(blocks, p) == kind then blocks
    else if BlockAt(blocks, p) == Obsidian && kind != Obsidian
    then Clear(Placed(blocks, p, kind), DoomedCells(Placed(blocks, p, kind), p))
    else Placed(blocks, p, kind)
  }

  lemma {:induction false} WiltsOnlyAbove(blocks: BlockMap, p: BlockPosition, q: BlockPosition)
    ensures Wilts(blocks, {p}, q) ==> q.y > p.y
    decreases if q.y > I32_MIN then q.y - I32_MIN else 0
  {
    if q.y > I32_MIN {
      WiltsOnlyAbove(blocks, p, q.Down());
    }
  }

  lemma {:induction false} WiltsAboveCleared(blocks: BlockMap, p: BlockPosition, q: BlockPosition)
    requires InI32(p) && p in blocks && q in blocks && InI32(q)
    ensures var above := p.Up();
      Wilts(blocks, {p}, q) <==>
        (BlockAt(blocks, above).IsSurfacePlant() && q != p && q == above)
        || (BlockAt(blocks, above).IsSurfacePlant() && Wilts(blocks[p := Air], {above}, q))
    decreases q.y - I32_MIN
  {
    WiltsOnlyAbove(blocks, p, q);
    WiltsOnlyAbove(blocks[p := Air], p.Up(), q);
    if q.y > I32_MIN && BlockAt(blocks, q).IsSurfacePlant() && q.Down() in blocks {
      WiltsAboveCleared(blocks, p, q.Down());
    }
  }

  lemma PlacingAirClears(blocks: BlockMap, p: BlockPosition)
    requires InWorld(blocks) && p in blocks
    ensures Placed(blocks, p, Air) == Clear(blocks, {p})
  {
    forall q | q in blocks ensures Placed(blocks, p, Air)[q] == Clear(blocks, {p})[q] {
      WiltsAboveCleared(blocks, p, q);
    }
  }

  // ----- Grids of cells

  ghost function Row(f: Frame, j: int): set<BlockPosition> {
    set i | 0 <= i < f.width :: f.Cell(i, j)
  }

  lemma {:induction false} RowSize(f: Frame, j: int)
    requires f.width >= 0
    ensures |Row(f, j)| == f.width
    decreases f.width
  {
    if f.width > 0 {
      var shorter := f.(width := f.width - 1);
      RowSize(shorter, j);
      assert Row(f, j) == Row(shorter, j) + {f.Cell(f.width - 1, j)} by {
        assert forall i :: shorter.Cell(i, j) == f.Cell(i, j);
      }
    } else {
      assert Row(f, j) == {};
    }
  }

  lemma TopRowSplits(f: Frame, below: Frame)
    requires f.height > 0 && below == f.(height := f.height - 1)
    ensures Interior(f) == Interior(below) + Row(f, f.height - 1)
    ensures Interior(below) !! Row(f, f.height - 1)
  {
    forall p | p in Interior(f) ensures p in Interior(below) + Row(f, f.height - 1) {
      var i, j :| 0 <= i < f.width && 0 <= j < f.height && f.Cell(i, j) == p;
      assert j < below.height ==> below.Cell(i, j) == p;
    }
    forall p | p in Interior(below) ensures p in Interior(f) && p.y < f.corner.y + below.height {
      var i, j :| 0 <= i < below.width && 0 <= j < below.height && below.Cell(i, j) == p;
      assert f.Cell(i, j) == p;
    }
    forall p | p in Row(f, f.height - 1) ensures p in Interior(f) && p.y == f.corner.y + below.height {
      var i :| 0 <= i < f.width && f.Cell(i, f.height - 1) == p;
    }
  }

  lemma {:induction false} InteriorSize(f: Frame)
    requires f.width >= 0 && f.height >= 0
    ensures |Interior(f)| == f.width * f.height
    decreases f.height
  {
    if f.height == 0 {
      assert Interior(f) == {};
    } else {
      var below := f.(height := f.height - 1);
      TopRowSplits(f, below);
      RowSize(f, f.height - 1);
      InteriorSize(below);
      OneMoreRow(f.width, f.height);
    }
  }

  lemma OneMoreRow(width: int, height: int)
    ensures width * height == width * (height - 1) + width
  {
  }

  lemma EqualBySize<T>(part: set<T>, whole: set<T>)
    requires part <= whole && |part| == |whole|
    ensures part == whole
  {
    assert whole == part + (whole - part);
  }

  // ----- Facts about flooded components

  const NEIGHBOUR_OFFSETS: seq<(int, int, int)> :=
    [(-1, 0, 0), (1, 0, 0), (0, -1, 0), (0, 1, 0), (0, 0, -1), (0, 0, 1)]

  function Shift(p: BlockPosition, k: nat): BlockPosition
    requires k < 6
  {
    BlockPosition(p.x + NEIGHBOUR_OFFSETS[k].0, p.y + NEIGHBOUR_OFFSETS[k].1, p.z + NEIGHBOUR_OFFSETS[k].2)
  }

  lemma ShiftsAreNeighbours(p: BlockPosition)
    ensures forall k: nat :: k < 6 ==> Adjacent(p, Shift(p, k))
    ensures forall q :: Adjacent(p, q) ==> exists k: nat :: k < 6 && q == Shift(p, k)
  {
    forall q | Adjacent(p, q) ensures exists k: nat :: k < 6 && q == Shift(p, k) {
      assert q in [Shift(p, 0), Shift(p, 1), Shift(p, 2), Shift(p, 3), Shift(p, 4), Shift(p, 5)];
    }
  }

  ghost predicate Reached(blocks: BlockMap, start: BlockPosition, cells: set<BlockPosition>,
                          queue: seq<BlockPosition>) {
    && (start in cells || start in queue)
    && (forall c <- cells :: c in Component(blocks, start))
    && (forall c <- queue :: c in Component(blocks, start))
  }

  ghost predicate FrontCovered(blocks: BlockMap, cells: set<BlockPosition>, queue: seq<BlockPosition>) {
    forall p, q :: p in cells && Adjacent(p, q) && IsPortal(blocks, q) ==> q in cells || q in queue
  }

  // The first few neighbours of a cell are flooded or queued, if they are portal.
  ghost predicate NeighboursSeen(blocks: BlockMap, cells: set<BlockPosition>, queue: seq<BlockPosition>,
                                 p: BlockPosition, seen: nat) {
    forall j: nat :: j < seen && j < 6 && IsPortal(blocks, Shift(p, j)) ==> Shift(p, j) in cells || Shift(p, j) in queue
  }

  lemma FloodStarts(blocks: BlockMap, start: BlockPosition)
    requires IsPortal(blocks, start)
    ensures Reached(blocks, start, {}, [start]) && FrontCovered(blocks, {}, [start])
  {
    hide Component;
    ComponentIsLeastClosed(blocks, start, {});
  }

  lemma FloodTakes(blocks: BlockMap, start: BlockPosition, cells: set<BlockPosition>, queue: seq<BlockPosition>)
    requires queue != [] && Reached(blocks, start, cells, queue) && FrontCovered(blocks, cells, queue)
    ensures queue[0] in cells ==> Reached(blocks, start, cells, queue[1..]) && FrontCovered(blocks, cells, queue[1..])
    ensures queue[0] !in cells ==>
      && queue[0] in blocks
      && Reached(blocks, start, cells + {queue[0]}, queue[1..])
      && FrontCovered(blocks, (cells + {queue[0]}) - {queue[0]}, queue[1..] + [queue[0]])
      && NeighboursSeen(blocks, cells + {queue[0]}, queue[1..], queue[0], 0)
  {
    assert queue[0] in Component(blocks, start);
    assert queue[0] in blocks;
    hide Component;
    assert queue == [queue[0]] + queue[1..];
    if queue[0] !in cells {
      assert (cells + {queue[0]}) - {queue[0]} == cells;
      assert FrontCovered(blocks, cells, queue[1..] + [queue[0]]);
    }
  }

  lemma FloodAdds(blocks: BlockMap, start: BlockPosition, cells: set<BlockPosition>, queue: seq<BlockPosition>,
                  p: BlockPosition, k: nat)
    requires InWorld(blocks) && k < 6 && p in cells
    requires Reached(blocks, start, cells, queue) && FrontCovered(blocks, cells - {p}, queue + [p])
    requires NeighboursSeen(blocks, cells, queue, p, k)
    ensures var q := Shift(p, k);
      if InI32(q) && q !in cells && BlockAt(blocks, q) == NetherPortal then
        && Reached(blocks, start, cells, queue + [q]) && FrontCovered(blocks, cells - {p}, queue + [q] + [p])
        && NeighboursSeen(blocks, cells, queue + [q], p, k + 1)
      else NeighboursSeen(blocks, cells, queue, p, k + 1)
  {
    var q := Shift(p, k);
    ShiftsAreNeighbours(p);
    assert IsPortal(blocks, q) ==> InI32(q);
    if IsPortal(blocks, q) && q !in cells {
      var trail :| IsTrail(blocks, trail) && trail[0] == start && trail[|trail| - 1] == p;
      ExtendTrail(blocks, start, p, q);
      assert q in Component(blocks, start);
    }
    hide Component, Shift;
  }

  lemma FloodCovers(blocks: BlockMap, cells: set<BlockPosition>, queue: seq<BlockPosition>, p: BlockPosition)
    requires FrontCovered(blocks, cells - {p}, queue + [p]) && NeighboursSeen(blocks, cells, queue, p, 6) && p in cells
    ensures FrontCovered(blocks, cells, queue)
  {
    ShiftsAreNeighbours(p);
    hide Shift;
  }

  lemma FloodEnds(blocks: BlockMap, start: BlockPosition, cells: set<BlockPosition>)
    requires IsPortal(blocks, start) && Reached(blocks, start, cells, []) && FrontCovered(blocks, cells, [])
    ensures cells == Component(blocks, start)
  {
    hide Component;
    ComponentIsLeastClosed(blocks, start, cells);
  }

  datatype Bounds = Bounds(min: BlockPosition, max: BlockPosition)

  ghost predicate Bounding(b: Bounds, cells: set<BlockPosition>) {
    && (forall p <- cells :: b.min.x <= p.x <= b.max.x && b.min.y <= p.y <= b.max.y && b.min.z <= p.z <= b.max.z)
    && (exists p <- cells :: p.x == b.min.x)
    && (exists p <- cells :: p.x == b.max.x)
    && (exists p <- cells :: p.y == b.min.y)
    && (exists p <- cells :: p.y == b.max.y)
    && (exists p <- cells :: p.z == b.min.z)
    && (exists p <- cells :: p.z == b.max.z)
  }

  method FindBounds(cells: set<BlockPosition>) returns (b: Bounds)
    requires cells != {}
    ensures Bounding(b, cells)
  {
    var first :| first in cells;
    b := Bounds(first, first);
    var rest := cells - {first};
    while rest != {}
      invariant rest <= cells && Bounding(b, cells - rest)
      decreases rest
    {
      var p :| p in rest;
      var wider := Bounds(
        BlockPosition(Min(b.min.x, p.x), Min(b.min.y, p.y), Min(b.min.z, p.z)),
        BlockPosition(Max(b.max.x, p.x), Max(b.max.y, p.y), Max(b.max.z, p.z)));
      GrowBounds(b, wider, cells - rest, p);
      assert cells - (rest - {p}) == cells - rest + {p};
      b, rest := wider, rest - {p};
    }
    assert cells - rest == cells;
  }

  lemma GrowBounds(b: Bounds, wider: Bounds, cells: set<BlockPosition>, p: BlockPosition)
    requires Bounding(b, cells)
    requires wider.min == BlockPosition(Min(b.min.x, p.x), Min(b.min.y, p.y), Min(b.min.z, p.z))
    requires wider.max == BlockPosition(Max(b.max.x, p.x), Max(b.max.y, p.y), Max(b.max.z, p.z))
    ensures Bounding(wider, cells + {p})
  {
  }

  /** The only frame the frame test can succeed on. */
  function FrameOf(b: Bounds): Frame {
    var alongX := b.min.z == b.max.z;
    Frame(b.min, alongX, (if alongX then b.max.x - b.min.x else b.max.z - b.min.z) + 1, b.max.y - b.min.y + 1)
  }

  lemma BoundsOfInterior(b: Bounds, f: Frame)
    requires f.Sized() && Bounding(b, Interior(f))
    ensures FrameOf(b) == f && (f.alongX || b.min.x == b.max.x)
  {
    var low, high := f.Cell(0, 0), f.Cell(f.width - 1, f.height - 1);
    assert low in Interior(f) && high in Interior(f);
    forall p | p in Interior(f)
      ensures low.x <= p.x <= high.x && low.y <= p.y <= high.y && low.z <= p.z <= high.z
    {
    }
  }

  lemma CellsWithinBounds(b: Bounds, cells: set<BlockPosition>)
    requires Bounding(b, cells) && (FrameOf(b).alongX || b.min.x == b.max.x)
    ensures cells <= Interior(FrameOf(b))
  {
    var f := FrameOf(b);
    forall p | p in cells ensures p in Interior(f) {
      assert f.Cell(if f.alongX then p.x - b.min.x else p.z - b.min.z, p.y - b.min.y) == p;
    }
  }

  // The ring and interior of a frame, as the loops of the frame test meet it.
  function ExpectedAt(f: Frame, inside: BlockKind, i: int, j: int): BlockKind {
    if i == -1 || i == f.width || j == -1 || j == f.height then Obsidian else inside
  }

  predicate Corner(f: Frame, i: int, j: int) {
    (i == -1 || i == f.width) && (j == -1 || j == f.height)
  }

  predicate FitsAt(blocks: BlockMap, f: Frame, inside: BlockKind, i: int, j: int) {
    || Corner(f, i, j)
    || (InI32(f.Cell(i, j)) && BlockAt(blocks, f.Cell(i, j)) == ExpectedAt(f, inside, i, j))
  }

  lemma FitsMeans(blocks: BlockMap, f: Frame, inside: BlockKind, i: int, j: int)
    ensures var side, cap := i == -1 || i == f.width, j == -1 || j == f.height;
      var expected := if side || cap then Obsidian else inside;
      FitsAt(blocks, f, inside, i, j) <==>
      ((side && cap) || (InI32(f.Cell(i, j)) && BlockAt(blocks, f.Cell(i, j)) == expected))
  {
    hide At, BlockAt, InI32;
  }

  ghost predicate RowFits(blocks: BlockMap, f: Frame, inside: BlockKind, j: int) {
    forall i :: -1 <= i <= f.width ==> FitsAt(blocks, f, inside, i, j)
  }

  lemma FitsEverywhere(blocks: BlockMap, f: Frame, inside: BlockKind)
    requires InWorld(blocks) && f.Sized()
    ensures Framed(blocks, f, inside) <==> forall j :: -1 <= j <= f.height ==> RowFits(blocks, f, inside, j)
  {
    hide Framed, RowFits;
    if forall j :: -1 <= j <= f.height ==> RowFits(blocks, f, inside, j) {
      RowsFrame(blocks, f, inside);
    }
    if Framed(blocks, f, inside) {
      forall j | -1 <= j <= f.height ensures RowFits(blocks, f, inside, j) {
        FramedRow(blocks, f, inside, j);
      }
    }
  }

  lemma RowsFrame(blocks: BlockMap, f: Frame, inside: BlockKind)
    requires f.Sized() && forall j :: -1 <= j <= f.height ==> RowFits(blocks, f, inside, j)
    ensures Framed(blocks, f, inside)
  {
    hide At, BlockAt, InI32;
    forall i, j | InInterior(f, i, j) || OnEdge(f, i, j)
      ensures BlockAt(blocks, f.Cell(i, j)) == if InInterior(f, i, j) then inside else Obsidian
    {
      assert RowFits(blocks, f, inside, j) && FitsAt(blocks, f, inside, i, j);
    }
  }

  lemma FramedRow(blocks: BlockMap, f: Frame, inside: BlockKind, j: int)
    requires InWorld(blocks) && Framed(blocks, f, inside) && -1 <= j <= f.height
    ensures RowFits(blocks, f, inside, j)
  {
    forall i | -1 <= i <= f.width ensures FitsAt(blocks, f, inside, i, j) {
      FramedCell(blocks, f, inside, i, j);
    }
    hide FitsAt, Framed;
  }

  lemma FramedCell(blocks: BlockMap, f: Frame, inside: BlockKind, i: int, j: int)
    requires InWorld(blocks) && Framed(blocks, f, inside) && -1 <= i <= f.width && -1 <= j <= f.height
    ensures FitsAt(blocks, f, inside, i, j)
  {
    hide At, BlockAt, InI32;
    if !Corner(f, i, j) {
      assert InInterior(f, i, j) || OnEdge(f, i, j);
      FramedInWorld(blocks, f, inside, i, j);
    }
  }

  /** Every cell of a frame has world coordinates, because the obsidian around it does. */
  lemma FramedInWorld(blocks: BlockMap, f: Frame, inside: BlockKind, i: int, j: int)
    requires InWorld(blocks) && Framed(blocks, f, inside) && (InInterior(f, i, j) || OnEdge(f, i, j))
    ensures InI32(f.Cell(i, j))
  {
    if InInterior(f, i, j) {
      var side, cap := f.Cell(-1, j), f.Cell(i, -1);
      assert OnEdge(f, -1, j) && OnEdge(f, i, -1);
      assert side in blocks && cap in blocks;
      assert f.Cell(i, f.height) in blocks by { assert OnEdge(f, i, f.height); }
    } else {
      assert f.Cell(i, j) in blocks;
    }
  }

  // ----- Clearing whole components one by one

  lemma ClearKeeps(blocks: BlockMap, cleared: set<BlockPosition>, p: BlockPosition)
    ensures BlockAt(Clear(blocks, cleared), p) in {BlockAt(blocks, p), Air}
    ensures p !in cleared && !BlockAt(blocks, p).IsSurfacePlant() ==>
      BlockAt(Clear(blocks, cleared), p) == BlockAt(blocks, p)
    ensures p in cleared ==> BlockAt(Clear(blocks, cleared), p) == Air
  {
  }

  lemma ClearNothing(blocks: BlockMap)
    ensures Clear(blocks, {}) == blocks
  {
    forall p | p in blocks ensures !Wilts(blocks, {}, p) {
      NothingWilts(blocks, p);
    }
  }

  lemma {:induction false} NothingWilts(blocks: BlockMap, p: BlockPosition)
    ensures !Wilts(blocks, {}, p)
    decreases if p.y > I32_MIN then p.y - I32_MIN else 0
  {
    if p.y > I32_MIN {
      NothingWilts(blocks, p.Down());
    }
  }

  lemma ComponentsCoincide(blocks: BlockMap, s: BlockPosition, t: BlockPosition, p: BlockPosition)
    requires IsPortal(blocks, s) && IsPortal(blocks, t)
    requires p in Component(blocks, s) && p in Component(blocks, t)
    ensures Component(blocks, s) == Component(blocks, t)
  {
    ComponentIsLeastClosed(blocks, s, Component(blocks, t));
    ComponentIsLeastClosed(blocks, t, Component(blocks, s));
  }

  /** Clearing some whole components leaves the others as they were. */
  lemma ClearKeepsComponent(blocks: BlockMap, cleared: set<BlockPosition>, start: BlockPosition)
    requires Closed(blocks, cleared) && start !in cleared && IsPortal(blocks, start)
    ensures Component(Clear(blocks, cleared), start) == Component(blocks, start)
    ensures Component(blocks, start) !! cleared
  {
    var now := Clear(blocks, cleared);
    var before, after := Component(blocks, start), Component(now, start);
    forall p ensures IsPortal(now, p) <==> IsPortal(blocks, p) && p !in cleared {
      ClearKeeps(blocks, cleared, p);
    }
    ComponentIsLeastClosed(blocks, start, cleared);
    ComponentIsLeastClosed(blocks, start, after);
    ComponentIsLeastClosed(now, start, before);
    hide Component, Clear;
    assert Closed(now, before);
    forall p, q | p in after && Adjacent(p, q) && IsPortal(blocks, q) ensures q in after {
      assert p in before && q in before;
    }
  }

  lemma ClearKeepsFrame(blocks: BlockMap, cleared: set<BlockPosition>, component: set<BlockPosition>)
    requires component !! cleared && forall c <- cleared :: IsPortal(blocks, c)
    ensures HasFrame(Clear(blocks, cleared), component) <==> HasFrame(blocks, component)
  {
    forall f: Frame | Interior(f) == component
      ensures Framed(Clear(blocks, cleared), f, NetherPortal) <==> Framed(blocks, f, NetherPortal)
    {
      forall i, j | InInterior(f, i, j) || OnEdge(f, i, j)
        ensures f.Cell(i, j) in cleared ==> !InInterior(f, i, j)
        ensures BlockAt(Clear(blocks, cleared), f.Cell(i, j)) in {Obsidian, NetherPortal}
          ==> BlockAt(blocks, f.Cell(i, j)) == BlockAt(Clear(blocks, cleared), f.Cell(i, j))
        ensures BlockAt(blocks, f.Cell(i, j)) == Obsidian
          ==> BlockAt(Clear(blocks, cleared), f.Cell(i, j)) == Obsidian
        ensures InInterior(f, i, j) && BlockAt(blocks, f.Cell(i, j)) == NetherPortal
          ==> BlockAt(Clear(blocks, cleared), f.Cell(i, j)) == NetherPortal
      {
        assert InInterior(f, i, j) ==> f.Cell(i, j) in Interior(f);
        ClearKeeps(blocks, cleared, f.Cell(i, j));
      }
    }
  }

  function SaturatingI32(n: int): int {
    if n < I32_MIN then I32_MIN else if n > I32_MAX then I32_MAX else n
  }

  // The position order of the three nested scan loops.
  predicate ScannedBefore(p: BlockPosition, y: int, z: int, x: int) {
    p.y < y || (p.y == y && (p.z < z || (p.z == z && p.x < x)))
  }

  ghost predicate PendingBefore(blocks: BlockMap, broken: BlockPosition, pending: seq<BlockPosition>, y: int, z: int,
                                x: int) {
    forall p :: p in pending <==> InScanBox(broken, p) && IsPortal(blocks, p) && ScannedBefore(p, y, z, x)
  }

  // How deep SetBlock and CollapseNetherPortalNear may still call each other.
  function SetRank(previous: BlockKind): nat {
    if previous.Obsidian? then 3 else if previous.IsSurfacePlant() then 0 else 1
  }

  // ----- Ignition

  // A position with i32 coordinates that holds air: what ignition's scans look through.
  predicate IsAir(blocks: BlockMap, p: BlockPosition) {
    InI32(p) && BlockAt(blocks, p) == Air
  }

  /** The frames an ignition can light, in one orientation. */
  ghost predicate Lightable(blocks: BlockMap, f: Frame, alongX: bool, ignition: BlockPosition) {
    f.alongX == alongX && Framed(blocks, f, Air) && ignition in Interior(f)
  }

  ghost function Lit(blocks: BlockMap, cells: set<BlockPosition>): BlockMap {
    blocks + map p | p in cells :: NetherPortal
  }

  // What the scans meet, seen from cell (a, c) of a frame's interior.
  ghost predicate SeenFrom(blocks: BlockMap, f: Frame, ignition: BlockPosition, a: int, c: int) {
    && InInterior(f, a, c)
    && f.Sized()
    && f.corner == At(ignition, f.alongX, -a, -c)
    && (forall u, v :: InInterior(f, a + u, c + v) ==> IsAir(blocks, At(ignition, f.alongX, u, v)))
    && (forall u, v :: OnEdge(f, a + u, c + v) ==> !IsAir(blocks, At(ignition, f.alongX, u, v)))
  }

  // The straight lines the scans of ignition follow, n blocks from cell (u, v) of the plane.
  datatype Heading = Back | Forth | Down | Up
  datatype Ray = Ray(base: BlockPosition, alongX: bool, u: int, v: int, heading: Heading) {
    function Point(n: int): BlockPosition {
      match heading
      case Back => At(base, alongX, u - n, v)
      case Forth => At(base, alongX, u + n, v)
      case Down => At(base, alongX, u, v - n)
      case Up => At(base, alongX, u, v + n)
    }
  }

  // The first distance from low to high at which a scan meets something other than air, if any.
  ghost predicate FirstNotAir(blocks: BlockMap, ray: Ray, low: int, high: int, n: Option<int>) {
    && (n.Some? ==> low <= n.value <= high && !IsAir(blocks, ray.Point(n.value)))
    && (forall m :: low <= m < (if n.Some? then n.value else high + 1) ==> IsAir(blocks, ray.Point(m)))
  }

  /** Seen from inside, a scan across a frame first meets something other than air at its edge. */
  lemma ScanMeetsEdge(blocks: BlockMap, f: Frame, ignition: BlockPosition, a: int, c: int,
                      ray: Ray, low: int, high: int, edge: int)
    requires SeenFrom(blocks, f, ignition, a, c) && ray.base == ignition && ray.alongX == f.alongX
    requires low <= edge <= high
    requires match ray.heading
      case Back => edge == a + ray.u + 1 && 0 <= c + ray.v < f.height && a + ray.u - low < f.width
      case Forth => edge == f.width - a - ray.u && 0 <= c + ray.v < f.height && 0 <= a + ray.u + low
      case Down => edge == c + ray.v + 1 && 0 <= a + ray.u < f.width && c + ray.v - low < f.height
      case Up => edge == f.height - c - ray.v && 0 <= a + ray.u < f.width && 0 <= c + ray.v + low
    ensures FirstNotAir(blocks, ray, low, high, Some(edge))
    ensures forall n :: FirstNotAir(blocks, ray, low, high, n) ==> n == Some(edge)
  {
    hide IsAir, At;
    var u, v := ray.u, ray.v;
    forall m | low <= m <= edge ensures IsAir(blocks, ray.Point(m)) <==> m < edge {
      match ray.heading
      case Back => assert InInterior(f, a + (u - m), c + v) || OnEdge(f, a + (u - m), c + v);
      case Forth => assert InInterior(f, a + (u + m), c + v) || OnEdge(f, a + (u + m), c + v);
      case Down => assert InInterior(f, a + u, c + (v - m)) || OnEdge(f, a + u, c + (v - m));
      case Up => assert InInterior(f, a + u, c + (v + m)) || OnEdge(f, a + u, c + (v + m));
    }
    assert !IsAir(blocks, ray.Point(edge));
  }

  // The frame the four scans describe.
  predicate IsFrameSeen(g: Frame, ignition: BlockPosition, alongX: bool, left: int, bottom: int, width: Option<int>,
                        height: Option<int>) {
    && width == Some(g.width + 1) && height == Some(g.height + 1)
    && 1 <= left <= g.width && 1 <= bottom <= g.height && g.Sized()
    && g == Frame(At(ignition, alongX, 1 - left, 1 - bottom), alongX, g.width, g.height)
  }

  lemma ScansSeeFrame(blocks: BlockMap, g: Frame, ignition: BlockPosition, alongX: bool, left: int, bottom: int,
                      width: Option<int>, height: Option<int>)
    requires InWorld(blocks) && Lightable(blocks, g, alongX, ignition)
    requires forall a, c :: SeenFrom(blocks, g, ignition, a, c) ==> left == a + 1 && bottom == c + 1
    requires FirstNotAir(blocks, Ray(ignition, alongX, -left, 1 - bottom, Forth), 2, 22, width)
    requires FirstNotAir(blocks, Ray(ignition, alongX, 1 - left, -bottom, Up), 2, 22, height)
    ensures IsFrameSeen(g, ignition, alongX, left, bottom, width, height)
  {
    hide At, IsAir, Framed, Interior, FirstNotAir, Lightable;
    var a, c := LookFromInside(blocks, g, alongX, ignition);
    ScanMeetsEdge(blocks, g, ignition, a, c, Ray(ignition, alongX, -left, 1 - bottom, Forth), 2, 22, g.width + 1);
    ScanMeetsEdge(blocks, g, ignition, a, c, Ray(ignition, alongX, 1 - left, -bottom, Up), 2, 22, g.height + 1);
  }

  // There is a frame only when the scans fit, and then it is the one they describe.
  lemma SeenFramesFit(blocks: BlockMap, ignition: BlockPosition, alongX: bool, left: int, bottom: int,
                      width: Option<int>, height: Option<int>)
    requires forall g :: Lightable(blocks, g, alongX, ignition) ==>
      IsFrameSeen(g, ignition, alongX, left, bottom, width, height)
    ensures forall g :: Lightable(blocks, g, alongX, ignition) ==>
      && width.Some? && height.Some? && 3 <= width.value && 4 <= height.value
      && left < width.value && bottom < height.value
      && g == Frame(At(ignition, alongX, 1 - left, 1 - bottom), alongX, width.value - 1, height.value - 1)
  {
    hide Lightable, At;
  }

  lemma LookFromInside(blocks: BlockMap, f: Frame, alongX: bool, ignition: BlockPosition) returns (a: int, c: int)
    requires InWorld(blocks) && Lightable(blocks, f, alongX, ignition)
    ensures SeenFrom(blocks, f, ignition, a, c) && f.alongX == alongX
  {
    a, c :| 0 <= a < f.width && 0 <= c < f.height && f.Cell(a, c) == ignition;
    forall u, v
      ensures InInterior(f, a + u, c + v) ==> IsAir(blocks, At(ignition, alongX, u, v))
      ensures OnEdge(f, a + u, c + v) ==> !IsAir(blocks, At(ignition, alongX, u, v))
    {
      assert At(ignition, alongX, u, v) == f.Cell(a + u, c + v);
      if InInterior(f, a + u, c + v) {
        FramedInWorld(blocks, f, Air, a + u, c + v);
      }
    }
  }

  // The cells lit before cell i of row j.
  ghost function LitCells(f: Frame, j: int, i: int): set<BlockPosition> {
    set p | p in Interior(f) &&
      (p.y < f.corner.y + j || (p.y == f.corner.y + j && (if f.alongX then p.x - f.corner.x else p.z - f.corner.z) < i))
  }

  lemma LitCellsLimits(f: Frame)
    requires f.Sized()
    ensures LitCells(f, 0, 0) == {} && LitCells(f, f.height, 0) == Interior(f)
  {
  }

  lemma LitCellsGrow(f: Frame, j: int, i: int)
    requires InInterior(f, i, j)
    ensures LitCells(f, j, i + 1) == LitCells(f, j, i) + {f.Cell(i, j)}
  {
    assert f.Cell(i, j) in Interior(f);
  }

  lemma LitCellsRow(f: Frame, j: int)
    requires f.Sized()
    ensures LitCells(f, j, f.width) == LitCells(f, j + 1, 0)
  {
  }

  lemma LitNothing(blocks: BlockMap)
    ensures Lit(blocks, {}) == blocks
  {
  }

  lemma LitOneMore(blocks: BlockMap, cells: set<BlockPosition>, p: BlockPosition)
    ensures Lit(blocks, cells)[p := NetherPortal] == Lit(blocks, cells + {p})
  {
  }

  lemma FramedIsSized(blocks: BlockMap, f: Frame)
    requires Framed(blocks, f, Air)
    ensures f.Sized() && f.width >= 2 && f.height >= 3
  {
  }

  // The blocks once the rows below j and the first i cells of row j are lit.
  ghost predicate LitUpTo(now: BlockMap, before: BlockMap, f: Frame, j: int, i: int) {
    now == Lit(before, LitCells(f, j, i))
  }

  lemma InteriorInWorld(blocks: BlockMap, f: Frame, i: int, j: int)
    requires InWorld(blocks) && Framed(blocks, f, Air) && 0 <= i < f.width && 0 <= j < f.height
    ensures InI32(f.Cell(i, j))
  {
    hide Framed;
    FramedInWorld(blocks, f, Air, i, j);
  }

  lemma NextCellIsBare(now: BlockMap, before: BlockMap, f: Frame, i: int, j: int)
    requires Framed(before, f, Air) && 0 <= i < f.width && 0 <= j < f.height && LitUpTo(now, before, f, j, i)
    ensures BlockAt(now, f.Cell(i, j)) == Air && !BlockAt(now, f.Cell(i, j).Up()).IsSurfacePlant()
  {
    hide Lit, LitCells, Interior, InInterior, OnEdge;
    BareCells(before, f, i, j);
    NotLitYet(f, i, j);
    LitShows(before, LitCells(f, j, i), f.Cell(i, j));
    LitShows(before, LitCells(f, j, i), f.Cell(i, j).Up());
  }

  lemma LitShows(blocks: BlockMap, cells: set<BlockPosition>, p: BlockPosition)
    ensures BlockAt(Lit(blocks, cells), p) == if p in cells then NetherPortal else BlockAt(blocks, p)
  {
  }

  lemma NotLitYet(f: Frame, i: int, j: int)
    requires 0 <= i < f.width && 0 <= j < f.height
    ensures f.Cell(i, j) !in LitCells(f, j, i)
  {
  }

  lemma BareCells(blocks: BlockMap, f: Frame, i: int, j: int)
    requires Framed(blocks, f, Air) && 0 <= i < f.width && 0 <= j < f.height
    ensures BlockAt(blocks, f.Cell(i, j)) == Air && !BlockAt(blocks, f.Cell(i, j).Up()).IsSurfacePlant()
  {
    assert f.Cell(i, j).Up() == f.Cell(i, j + 1);
    assert InInterior(f, i, j) && (InInterior(f, i, j + 1) || OnEdge(f, i, j + 1));
    hide BlockAt;
  }

  lemma SetOnAir(blocks: BlockMap, p: BlockPosition)
    requires BlockAt(blocks, p) == Air && !BlockAt(blocks, p.Up()).IsSurfacePlant()
    ensures AfterSet(blocks, p, NetherPortal) == blocks[p := NetherPortal]
  {
  }

  // Row by row, the next cell is still air and no plant stands on it.
  lemma NextCellToLight(now: BlockMap, before: BlockMap, f: Frame, i: int, j: int)
    requires InWorld(before) && Framed(before, f, Air) && 0 <= i < f.width && 0 <= j < f.height
    requires LitUpTo(now, before, f, j, i)
    ensures InI32(f.Cell(i, j))
    ensures LitUpTo(AfterSet(now, f.Cell(i, j), NetherPortal), before, f, j, i + 1)
  {
    hide Lit, LitCells, Framed, AfterSet, InInterior, OnEdge;
    var p := f.Cell(i, j);
    InteriorInWorld(before, f, i, j);
    NextCellIsBare(now, before, f, i, j);
    SetOnAir(now, p);
    LitCellsGrow(f, j, i);
    LitOneMore(before, LitCells(f, j, i), p);
  }

  lemma RowIsLit(now: BlockMap, before: BlockMap, f: Frame, j: int)
    requires f.Sized() && LitUpTo(now, before, f, j, f.width)
    ensures LitUpTo(now, before, f, j + 1, 0)
  {
    hide Lit, LitCells;
    LitCellsRow(f, j);
  }

  lemma NothingIsLit(before: BlockMap, f: Frame)
    requires f.Sized()
    ensures LitUpTo(before, before, f, 0, 0)
  {
    hide Lit, LitCells;
    LitCellsLimits(f);
    LitNothing(before);
  }

  lemma AllIsLit(now: BlockMap, before: BlockMap, f: Frame)
    requires f.Sized() && LitUpTo(now, before, f, f.height, 0)
    ensures now == Lit(before, Interior(f))
  {
    hide Lit, LitCells;
    LitCellsLimits(f);
  }

  /** Within the components already visited, exactly the doomed cells were removed. */
  ghost predicate Swept(blocks: BlockMap, broken: BlockPosition, visited: set<BlockPosition>,
                        removed: set<BlockPosition>) {
    && Closed(blocks, visited)
    && (forall p <- visited :: IsPortal(blocks, p))
    && removed <= visited
    && Closed(blocks, removed)
    && (forall p <- visited :: p in removed <==> Doomed(blocks, broken, p))
  }

  lemma SweepComponent(blocks: BlockMap, broken: BlockPosition, visited: set<BlockPosition>,
                       removed: set<BlockPosition>, start: BlockPosition)
    requires Swept(blocks, broken, visited, removed)
    requires start !in visited && InScanBox(broken, start) && IsPortal(blocks, start)
    ensures var component := Component(blocks, start);
      && start in component && component !! visited
      && Component(Clear(blocks, removed), start) == component
      && (HasFrame(Clear(blocks, removed), component) <==> HasFrame(blocks, component))
      && Swept(blocks, broken, visited + component,
               if HasFrame(blocks, component) then removed else removed + component)
  {
    var component := Component(blocks, start);
    ComponentIsLeastClosed(blocks, start, visited);
    ClearKeepsComponent(blocks, removed, start);
    ClearKeepsFrame(blocks, removed, component);
    forall p | p in component
      ensures IsPortal(blocks, p) && (Doomed(blocks, broken, p) <==> !HasFrame(blocks, component))
    {
      var trail :| IsTrail(blocks, trail) && trail[0] == start && trail[|trail| - 1] == p;
      if Doomed(blocks, broken, p) {
        var other :| InScanBox(broken, other) && IsPortal(blocks, other)
          && p in Component(blocks, other) && !HasFrame(blocks, Component(blocks, other));
        ComponentsCoincide(blocks, start, other, p);
      }
    }
    hide Component, HasFrame, Doomed, Clear;
  }

  lemma SweptAllIsDoomed(blocks: BlockMap, broken: BlockPosition, visited: set<BlockPosition>,
                         removed: set<BlockPosition>)
    requires Swept(blocks, broken, visited, removed)
    requires forall s :: InScanBox(broken, s) && IsPortal(blocks, s) ==> s in visited
    ensures removed == DoomedCells(blocks, broken)
  {
    forall p | Doomed(blocks, broken, p) ensures p in visited {
      var start :| InScanBox(broken, start) && IsPortal(blocks, start)
        && p in Component(blocks, start) && !HasFrame(blocks, Component(blocks, start));
      ComponentIsLeastClosed(blocks, start, visited);
    }
  }

  // What the sweep may use of a component found in the blocks as they are now.
  lemma SweptComponentIsThere(blocks: BlockMap, broken: BlockPosition, visited: set<BlockPosition>,
                              removed: set<BlockPosition>, start: BlockPosition)
    requires Swept(blocks, broken, visited, removed)
    requires start !in visited && InScanBox(broken, start) && IsPortal(blocks, start)
    ensures IsPortal(Clear(blocks, removed), start)
    ensures Component(blocks, start) !! removed
    ensures AllPortal(blocks, Component(blocks, start)) && AllPortal(blocks, removed)
  {
    hide Component, Clear, Closed, Doomed, HasFrame, Linked;
    SweepComponent(blocks, broken, visited, removed, start);
    ClearKeeps(blocks, removed, start);
  }

  ghost predicate AllPortal(blocks: BlockMap, cells: set<BlockPosition>) {
    forall p <- cells :: IsPortal(blocks, p)
  }

  // The next cell of a component is still portal, and clearing it clears one cell more.
  lemma NextCellToClear(now: BlockMap, before: BlockMap, component: set<BlockPosition>, gone: set<BlockPosition>,
                        rest: set<BlockPosition>, position: BlockPosition)
    requires InWorld(now) && component !! gone && AllPortal(before, component) && AllPortal(before, gone)
    requires now == Clear(before, gone + (component - rest)) && rest <= component && position in rest
    ensures InI32(position) && I32_MIN <= position.y <= I32_MAX && SetRank(BlockAt(now, position)) == 1
    ensures AfterSet(now, position, Air) == Clear(before, gone + (component - (rest - {position})))
  {
    hide Clear;
    var cleared := gone + (component - rest);
    ClearKeeps(before, cleared, position);
    PlacingAirClears(now, position);
    ClearOneMore(before, cleared, position);
    assert gone + (component - (rest - {position})) == cleared + {position};
  }

  lemma NothingSwept(blocks: BlockMap, broken: BlockPosition)
    ensures Swept(blocks, broken, {}, {})
  {
  }

  /** One dimension of the server. */
  class Dimension {
    const kind: DimensionKind
    var blocks: BlockMap

    ghost predicate Valid() reads this { InWorld(blocks) }

    constructor (kind: DimensionKind, blocks: BlockMap)
      requires InWorld(blocks)
      ensures Valid() && this.kind == kind && this.blocks == blocks
    {
      this.kind, this.blocks := kind, blocks;
    }

    method FloodComponent(start: BlockPosition) returns (component: set<BlockPosition>)
      requires Valid() && IsPortal(blocks, start)
      ensures component == Component(blocks, start)
    {
      hide *;
      component := {};
      var queue := [start];
      ValidIsInWorld();
      FloodStarts(blocks, start);
      while queue != []
        invariant Reached(blocks, start, component, queue)
        invariant FrontCovered(blocks, component, queue)
        decreases blocks.Keys - component, |queue|
      {
        var position := queue[0];
        FloodTakes(blocks, start, component, queue);
        queue := queue[1..];
        if position in component {
          continue;
        }
        component := component + {position};
        for k := 0 to 6
          invariant Reached(blocks, start, component, queue)
          invariant FrontCovered(blocks, component - {position}, queue + [position])
          invariant NeighboursSeen(blocks, component, queue, position, k)
        {
          var neighbour := Shift(position, k);
          FloodAdds(blocks, start, component, queue, position, k);
          if !InI32(neighbour) {
            continue;
          }
          if neighbour !in component && BlockAt(blocks, neighbour) == NetherPortal {
            queue := queue + [neighbour];
          }
        }
        FloodCovers(blocks, component, queue, position);
      }
      FloodEnds(blocks, start, component);
    }

    // The nested loops over the ring and interior, as ignition and the frame test run them.
    method RingFits(f: Frame, inside: BlockKind) returns (fits: bool)
      requires Valid() && f.Sized()
      ensures fits <==> Framed(blocks, f, inside)
    {
      FitsEverywhere(blocks, f, inside);
      hide Framed, RowFits;
      for j := -1 to f.height + 1
        invariant forall m :: -1 <= m < j ==> RowFits(blocks, f, inside, m)
      {
        var row := CheckRow(f, inside, j);
        if !row {
          return false;
        }
      }
      return true;
    }

    method CheckRow(f: Frame, inside: BlockKind, j: int) returns (fits: bool)
      requires f.Sized()
      ensures fits <==> RowFits(blocks, f, inside, j)
    {
      hide At, BlockAt, InI32, FitsAt;
      for i := -1 to f.width + 1
        invariant forall k :: -1 <= k < i ==> FitsAt(blocks, f, inside, k, j)
      {
        FitsMeans(blocks, f, inside, i, j);
        var side := i == -1 || i == f.width;
        var cap := j == -1 || j == f.height;
        if side && cap {
          continue;
        }
        var position := f.Cell(i, j);
        if !InI32(position) || BlockAt(blocks, position) != (if side || cap then Obsidian else inside) {
          return false;
        }
      }
      return true;
    }

    method NetherPortalComponentHasFrame(component: set<BlockPosition>) returns (framed: bool)
      requires Valid() && component != {}
      ensures framed <==> HasFrame(blocks, component)
    {
      var b := FindBounds(component);
      var f := FrameOf(b);
      forall g: Frame | Framed(blocks, g, NetherPortal) && Interior(g) == component
        ensures g == f && (f.alongX || b.min.x == b.max.x) && |component| == g.width * g.height
      {
        BoundsOfInterior(b, g);
        InteriorSize(g);
      }
      hide Interior, Bounding, FrameOf;
      if !f.alongX && b.min.x != b.max.x {
        return false;
      }
      if !(2 <= f.width <= 21) || !(3 <= f.height <= 21) || |component| != f.width * f.height {
        return false;
      }
      CellsWithinBounds(b, component);
      InteriorSize(f);
      EqualBySize(component, Interior(f));
      framed := RingFits(f, NetherPortal);
    }

    method SetBlock(p: BlockPosition, kind: BlockKind) returns (changed: bool)
      requires Valid() && InI32(p)
      modifies this`blocks
      ensures Valid()
      ensures changed <==> BlockAt(old(blocks), p) != kind
      ensures blocks == AfterSet(old(blocks), p, kind)
      decreases SetRank(BlockAt(blocks, p)), I32_MAX - p.y, 1
    {
      var previous := BlockAt(blocks, p);
      if previous == kind {
        return false;
      }
      changed := true;
      blocks := blocks[p := kind];
      assert blocks[p := kind] == blocks;
      DropUnsupportedPlant(p, kind, SetRank(previous));
      assert blocks == Placed(old(blocks), p, kind);
      if previous == Obsidian && kind != Obsidian {
        hide Placed, Clear, DoomedCells;
        var _ := CollapseNetherPortalNear(p);
      }
    }

    /** A write into a chunk that is not loaded generates it. What was there before is then read as air, so the
        write starts no collapse, whatever it replaces; whether it changed anything is judged by what was
        generated. */
    method SetUnloadedBlock(p: BlockPosition, kind: BlockKind, generated: BlockMap) returns (changed: bool)
      requires Valid() && InI32(p) && InWorld(generated)
      requires forall q <- blocks :: ChunkOf(q) != ChunkOf(p)
      modifies this`blocks
      ensures Valid()
      ensures changed <==> BlockAt(old(blocks) + generated, p) != kind
      ensures blocks == if changed then Placed(old(blocks) + generated, p, kind) else old(blocks) + generated
    {
      var previous := BlockAt(blocks, p);
      blocks := blocks + generated;
      changed := BlockAt(blocks, p) != kind;
      if changed {
        ghost var now := blocks;
        blocks := blocks[p := kind];
        assert blocks[p := kind] == blocks;
        DropUnsupportedPlant(p, kind, 2);
        assert blocks == Placed(now, p, kind);
        assert previous == Air;  // so no collapse
      }
    }

    // The part of set_block that removes a plant its new support cannot carry.
    method DropUnsupportedPlant(p: BlockPosition, kind: BlockKind, ghost rank: nat)
      requires Valid() && InI32(p) && p in blocks && blocks[p] == kind
      modifies this`blocks
      ensures Valid() && blocks == Placed(old(blocks), p, kind)
      decreases rank, I32_MAX - p.y, 0
    {
      assert blocks[p := kind] == blocks;
      if p.y < I32_MAX {
        var above := p.Up();
        var plant := BlockAt(blocks, above);
        if plant.IsSurfacePlant() && !plant.PlantSurvivesOn(kind) {
          PlacingAirClears(blocks, above);
          var _ := SetBlock(above, Air);
        }
      }
    }

    method ScanForPortal(broken: BlockPosition) returns (pending: seq<BlockPosition>)
      requires Valid() && InI32(broken)
      ensures forall p :: p in pending <==> InScanBox(broken, p) && IsPortal(blocks, p)
    {
      pending := [];
      var lowX, highX := SaturatingI32(broken.x - 3), SaturatingI32(broken.x + 3);
      var lowY, highY := SaturatingI32(broken.y - 4), SaturatingI32(broken.y + 4);
      var lowZ, highZ := SaturatingI32(broken.z - 3), SaturatingI32(broken.z + 3);
      for y := lowY to highY + 1
        invariant PendingBefore(blocks, broken, pending, y, lowZ, lowX)
      {
        for z := lowZ to highZ + 1
          invariant PendingBefore(blocks, broken, pending, y, z, lowX)
        {
          for x := lowX to highX + 1
            invariant PendingBefore(blocks, broken, pending, y, z, x)
          {
            var position := BlockPosition(x, y, z);
            if BlockAt(blocks, position) == NetherPortal {
              pending := pending + [position];
            }
          }
        }
      }
    }

    method CollapseNetherPortalNear(broken: BlockPosition) returns (removed: nat)
      requires Valid() && InI32(broken)
      modifies this`blocks
      ensures Valid()
      ensures blocks == Clear(old(blocks), DoomedCells(old(blocks), broken))
      ensures removed == |DoomedCells(old(blocks), broken)|
      decreases 2, 0
    {
      hide *;
      ghost var before := blocks;
      ValidIsInWorld();
      var pending := ScanForPortal(broken);
      var visited: set<BlockPosition> := {};
      removed := 0;
      ghost var gone: set<BlockPosition> := {};
      ClearNothing(blocks);
      NothingSwept(before, broken);
      while pending != []
        invariant Valid() && blocks == Clear(before, gone)
        invariant Swept(before, broken, visited, gone) && removed == |gone|
        invariant forall s <- pending :: InScanBox(broken, s) && IsPortal(before, s)
        invariant forall s :: InScanBox(broken, s) && IsPortal(before, s) ==> s in visited || s in pending
        decreases |pending|
      {
        var start := pending[0];
        pending := pending[1..];
        if start in visited {
          continue;
        }
        SweepComponent(before, broken, visited, gone, start);
        SweptComponentIsThere(before, broken, visited, gone, start);
        var component := FloodComponent(start);
        visited := visited + component;
        var framed := NetherPortalComponentHasFrame(component);
        if framed {
          continue;
        }
        ClearComponent(component, before, gone);
        removed := removed + |component|;
        gone := gone + component;
      }
      SweptAllIsDoomed(before, broken, visited, gone);
    }

    // The loop that sets every cell of one component to air.
    method ClearComponent(component: set<BlockPosition>, ghost before: BlockMap, ghost gone: set<BlockPosition>)
      requires Valid() && InWorld(before) && blocks == Clear(before, gone) && component !! gone
      requires AllPortal(before, component) && AllPortal(before, gone)
      modifies this`blocks
      ensures Valid() && blocks == Clear(before, gone + component)
      decreases 1, I32_MAX - I32_MIN + 1, 1
    {
      hide *;
      var rest := component;
      assert gone + (component - rest) == gone;
      while rest != {}
        invariant rest <= component && Valid()
        invariant blocks == Clear(before, gone + (component - rest))
        decreases rest
      {
        var position :| position in rest;
        ValidIsInWorld();
        NextCellToClear(blocks, before, component, gone, rest, position);
        var _ := SetBlock(position, Air);
        rest := rest - {position};
      }
      assert component - rest == component;
    }

    method FindNotAir(ray: Ray, low: int, high: int) returns (n: Option<int>)
      requires low <= high + 1
      ensures FirstNotAir(blocks, ray, low, high, n)
      ensures n.Some? ==> low <= n.value <= high
    {
      for k := low to high + 1
        invariant forall m :: low <= m < k ==> IsAir(blocks, ray.Point(m))
      {
        if !IsAir(blocks, ray.Point(k)) {
          return Some(k);
        }
      }
      return None;
    }

    method FindLightable(ignition: BlockPosition, alongX: bool) returns (f: Option<Frame>)
      requires Valid() && IsAir(blocks, ignition)
      ensures f.Some? ==> Lightable(blocks, f.value, alongX, ignition)
      ensures f.None? ==> forall g :: !Lightable(blocks, g, alongX, ignition)
    {
      hide *;
      ValidIsInWorld();
      var left, bottom := FindLowCorner(ignition, alongX);
      if left.None? || bottom.None? {
        return None;
      }
      var x0, y0 := -left.value, -bottom.value;
      var width := FindNotAir(Ray(ignition, alongX, x0, y0 + 1, Forth), 2, 22);
      var height := FindNotAir(Ray(ignition, alongX, x0 + 1, y0, Up), 2, 22);
      forall g | Lightable(blocks, g, alongX, ignition)
        ensures IsFrameSeen(g, ignition, alongX, left.value, bottom.value, width, height)
      {
        ScansSeeFrame(blocks, g, ignition, alongX, left.value, bottom.value, width, height);
      }
      SeenFramesFit(blocks, ignition, alongX, left.value, bottom.value, width, height);
      if width.None? || height.None? {
        return None;
      }
      if width.value < 3 || height.value < 4 || left.value >= width.value || bottom.value >= height.value {
        return None;
      }
      f := CheckLightable(ignition, alongX, left.value, bottom.value, width.value - 1, height.value - 1);
    }

    method FindLowCorner(ignition: BlockPosition, alongX: bool) returns (left: Option<int>, bottom: Option<int>)
      requires Valid()
      ensures left.Some? ==> 1 <= left.value <= 21
      ensures bottom.Some? ==> 1 <= bottom.value <= 21
      ensures forall g, a, c :: Lightable(blocks, g, alongX, ignition) && SeenFrom(blocks, g, ignition, a, c) ==>
        left == Some(a + 1) && bottom == Some(c + 1)
      ensures forall g :: Lightable(blocks, g, alongX, ignition) ==> left.Some? && bottom.Some?
    {
      var toLeft := Ray(ignition, alongX, 0, 0, Back);
      left := FindNotAir(toLeft, 1, 21);
      var toBottom := Ray(ignition, alongX, 0, 0, Down);
      bottom := FindNotAir(toBottom, 1, 21);
      forall g, a, c | Lightable(blocks, g, alongX, ignition) && SeenFrom(blocks, g, ignition, a, c)
        ensures left == Some(a + 1) && bottom == Some(c + 1)
      {
        ScanMeetsEdge(blocks, g, ignition, a, c, toLeft, 1, 21, a + 1);
        ScanMeetsEdge(blocks, g, ignition, a, c, toBottom, 1, 21, c + 1);
      }
      forall g | Lightable(blocks, g, alongX, ignition) ensures left.Some? && bottom.Some? {
        var a, c := LookFromInside(blocks, g, alongX, ignition);
      }
    }

    method CheckLightable(ignition: BlockPosition, alongX: bool, left: int, bottom: int, width: int, height: int)
      returns (f: Option<Frame>)
      requires Valid() && 2 <= width <= 21 && 3 <= height <= 21 && 1 <= left <= width && 1 <= bottom <= height
      ensures var g := Frame(At(ignition, alongX, 1 - left, 1 - bottom), alongX, width, height);
        f == if Lightable(blocks, g, alongX, ignition) then Some(g) else None
    {
      var candidate := Frame(At(ignition, alongX, 1 - left, 1 - bottom), alongX, width, height);
      var complete := RingFits(candidate, Air);
      assert candidate.Cell(left - 1, bottom - 1) == ignition;
      f := if complete then Some(candidate) else None;
    }

    lemma ValidIsInWorld()
      requires Valid()
      ensures InWorld(blocks)
    {
    }

    // One row of the nested loops that light an interior.
    method LightRow(f: Frame, j: int, ghost before: BlockMap)
      requires Valid() && InWorld(before) && Framed(before, f, Air) && 0 <= j < f.height
      requires LitUpTo(blocks, before, f, j, 0)
      modifies this`blocks
      ensures Valid() && LitUpTo(blocks, before, f, j + 1, 0)
    {
      hide *;
      FramedIsSized(before, f);
      for i := 0 to f.width
        invariant Valid() && LitUpTo(blocks, before, f, j, i)
      {
        NextCellToLight(blocks, before, f, i, j);
        var _ := SetBlock(f.Cell(i, j), NetherPortal);
      }
      RowIsLit(blocks, before, f, j);
    }

    method LightInterior(f: Frame)
      requires Valid() && Framed(blocks, f, Air)
      modifies this`blocks
      ensures Valid() && blocks == Lit(old(blocks), Interior(f))
    {
      ghost var before := blocks;
      hide *;
      FramedIsSized(before, f);
      ValidIsInWorld();
      NothingIsLit(before, f);
      for j := 0 to f.height
        invariant Valid() && LitUpTo(blocks, before, f, j, 0)
      {
        LightRow(f, j, before);
      }
      AllIsLit(blocks, before, f);
    }

    method ActivateNetherPortalNear(ignition: BlockPosition) returns (lit: bool)
      requires Valid() && InI32(ignition)
      modifies this`blocks
      ensures Valid()
      // A portal lights exactly when the ignition lies in the all-air interior of an obsidian frame.
      ensures lit <==> kind != End && exists f: Frame :: Lightable(old(blocks), f, f.alongX, ignition)
      ensures !lit ==> blocks == old(blocks)
      // Exactly that interior becomes portal; a frame along x takes precedence.
      ensures lit ==> exists f: Frame ::
        && Lightable(old(blocks), f, f.alongX, ignition)
        && (f.alongX || forall g: Frame :: !Lightable(old(blocks), g, true, ignition))
        && blocks == Lit(old(blocks), Interior(f))
    {
      if kind == End {
        return false;
      }
      if BlockAt(blocks, ignition) != Air {
        assert forall f: Frame :: !Lightable(blocks, f, f.alongX, ignition);
        return false;
      }
      var f := FindLightable(ignition, true);
      if f.None? {
        f := FindLightable(ignition, false);
        if f.None? {
          assert forall g: Frame :: !Lightable(blocks, g, g.alongX, ignition);
          return false;
        }
      }
      LightInterior(f.value);
      return true;
    }
  }

  // ----- What lighting and breaking a portal do

  /** In one orientation there is at most one frame to light around a cell. */
  lemma LightableIsUnique(blocks: BlockMap, f: Frame, g: Frame, alongX: bool, ignition: BlockPosition)
    requires InWorld(blocks) && Lightable(blocks, f, alongX, ignition) && Lightable(blocks, g, alongX, ignition)
    ensures f == g
  {
    var a, c := LookFromInside(blocks, f, alongX, ignition);
    var d, e := LookFromInside(blocks, g, alongX, ignition);
    hide Lightable, At, IsAir, FirstNotAir;
    var left, down := Ray(ignition, alongX, 0, 0, Back), Ray(ignition, alongX, 0, 0, Heading.Down);
    ScanMeetsEdge(blocks, f, ignition, a, c, left, 1, 21, a + 1);
    ScanMeetsEdge(blocks, g, ignition, d, e, left, 1, 21, d + 1);
    ScanMeetsEdge(blocks, f, ignition, a, c, down, 1, 21, c + 1);
    ScanMeetsEdge(blocks, g, ignition, d, e, down, 1, 21, e + 1);
    var right, up := Ray(ignition, alongX, -a - 1, -c, Forth), Ray(ignition, alongX, -a, -c - 1, Heading.Up);
    ScanMeetsEdge(blocks, f, ignition, a, c, right, 2, 22, f.width + 1);
    ScanMeetsEdge(blocks, g, ignition, d, e, right, 2, 22, g.width + 1);
    ScanMeetsEdge(blocks, f, ignition, a, c, up, 2, 22, f.height + 1);
    ScanMeetsEdge(blocks, g, ignition, d, e, up, 2, 22, g.height + 1);
  }

  /** A lit interior makes a complete portal. */
  lemma LitFrameIsComplete(blocks: BlockMap, f: Frame)
    requires Framed(blocks, f, Air)
    ensures Framed(Lit(blocks, Interior(f)), f, NetherPortal)
  {
    forall i, j | InInterior(f, i, j) ensures f.Cell(i, j) in Interior(f) {}
    forall i, j | OnEdge(f, i, j) ensures f.Cell(i, j) !in Interior(f) {
      assert BlockAt(blocks, f.Cell(i, j)) == Obsidian;
    }
  }
}
