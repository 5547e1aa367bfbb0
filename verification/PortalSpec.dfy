/** What a Nether portal is: frames, connected portal fields, and what breaking one clears. */
module PortalSpec {
  import opened Blocks

  /** The blocks of one dimension; a missing entry is air. */
  type BlockMap = map<BlockPosition, BlockKind>

  function BlockAt(blocks: BlockMap, p: BlockPosition): BlockKind {
    if p in blocks then blocks[p] else Air
  }

  predicate IsPortal(blocks: BlockMap, p: BlockPosition) {
    BlockAt(blocks, p) == NetherPortal
  }

  ghost predicate InWorld(blocks: BlockMap) {
    forall p <- blocks :: InI32(p)
  }

  // ----- Frames

  function At(base: BlockPosition, alongX: bool, along: int, up: int): BlockPosition {
    BlockPosition(if alongX then base.x + along else base.x,
                  base.y + up,
                  if alongX then base.z else base.z + along)
  }

  /** An interior of width by height cells in a vertical plane, named by its lowest corner. */
  datatype Frame = Frame(corner: BlockPosition, alongX: bool, width: int, height: int) {
    function Cell(i: int, j: int): BlockPosition { At(corner, alongX, i, j) }
    predicate Sized() { 2 <= width <= 21 && 3 <= height <= 21 }
  }

  predicate InInterior(f: Frame, i: int, j: int) { 0 <= i < f.width && 0 <= j < f.height }

  // The required edge: the ring around the interior without its four corners.
  predicate OnEdge(f: Frame, i: int, j: int) {
    || ((i == -1 || i == f.width) && 0 <= j < f.height)
    || ((j == -1 || j == f.height) && 0 <= i < f.width)
  }

  ghost function Interior(f: Frame): set<BlockPosition> {
    set i, j | 0 <= i < f.width && 0 <= j < f.height :: f.Cell(i, j)
  }

  ghost predicate Framed(blocks: BlockMap, f: Frame, inside: BlockKind) {
    && f.Sized()
    && (forall i, j {:trigger f.Cell(i, j)} :: InInterior(f, i, j) ==> BlockAt(blocks, f.Cell(i, j)) == inside)
    && (forall i, j {:trigger f.Cell(i, j)} :: OnEdge(f, i, j) ==> BlockAt(blocks, f.Cell(i, j)) == Obsidian)
  }

  // ----- Connected portal fields

  predicate IsTrail(blocks: BlockMap, trail: seq<BlockPosition>) {
    && |trail| > 0
    && IsPortal(blocks, trail[|trail| - 1])
    && (|trail| > 1 ==>
          && IsTrail(blocks, trail[..|trail| - 1])
          && Adjacent(trail[|trail| - 2], trail[|trail| - 1]))
  }

  ghost predicate Linked(blocks: BlockMap, p: BlockPosition, q: BlockPosition) {
    exists trail :: IsTrail(blocks, trail) && trail[0] == p && trail[|trail| - 1] == q
  }

  ghost function Component(blocks: BlockMap, start: BlockPosition): set<BlockPosition> {
    set q | q in blocks && Linked(blocks, start, q)
  }

  ghost predicate HasFrame(blocks: BlockMap, component: set<BlockPosition>) {
    exists f: Frame :: Framed(blocks, f, NetherPortal) && Interior(f) == component
  }

  ghost predicate Closed(blocks: BlockMap, cells: set<BlockPosition>) {
    forall p, q :: p in cells && Adjacent(p, q) && IsPortal(blocks, q) ==> q in cells
  }

  lemma {:induction false} ClosedHoldsTrails(blocks: BlockMap, cells: set<BlockPosition>, trail: seq<BlockPosition>)
    requires Closed(blocks, cells) && IsTrail(blocks, trail)
    ensures trail[0] in cells <==> trail[|trail| - 1] in cells
  {
    if |trail| > 1 {
      ClosedHoldsTrails(blocks, cells, trail[..|trail| - 1]);
      assert Adjacent(trail[|trail| - 1], trail[|trail| - 2]);
      TrailIsPortal(blocks, trail, |trail| - 2);
    }
  }

  lemma {:induction false} TrailIsPortal(blocks: BlockMap, trail: seq<BlockPosition>, k: nat)
    requires IsTrail(blocks, trail) && k < |trail|
    ensures IsPortal(blocks, trail[k])
  {
    if k < |trail| - 1 {
      TrailIsPortal(blocks, trail[..|trail| - 1], k);
    }
  }

  lemma ExtendTrail(blocks: BlockMap, start: BlockPosition, p: BlockPosition, q: BlockPosition)
    requires Linked(blocks, start, p) && Adjacent(p, q) && IsPortal(blocks, q)
    ensures Linked(blocks, start, q)
  {
    var trail :| IsTrail(blocks, trail) && trail[0] == start && trail[|trail| - 1] == p;
    assert (trail + [q])[..|trail + [q]| - 1] == trail;
    assert IsTrail(blocks, trail + [q]);
  }

  /** A component is closed, and it lies inside every closed set that meets it. */
  lemma ComponentIsLeastClosed(blocks: BlockMap, start: BlockPosition, cells: set<BlockPosition>)
    requires IsPortal(blocks, start)
    ensures start in Component(blocks, start) && Closed(blocks, Component(blocks, start))
    ensures Closed(blocks, cells) && start in cells ==> Component(blocks, start) <= cells
    ensures Closed(blocks, cells) && start !in cells ==> Component(blocks, start) !! cells
  {
    assert IsTrail(blocks, [start]);
    forall p, q | p in Component(blocks, start) && Adjacent(p, q) && IsPortal(blocks, q)
      ensures q in Component(blocks, start)
    {
      ExtendTrail(blocks, start, p, q);
    }
    if Closed(blocks, cells) {
      forall q | q in Component(blocks, start) ensures q in cells <==> start in cells {
        var trail :| IsTrail(blocks, trail) && trail[0] == start && trail[|trail| - 1] == q;
        ClosedHoldsTrails(blocks, cells, trail);
      }
    }
  }

  // ----- Clearing cells to air, with the plants that stood on them

  // A plant whose support, some plants further down, is cleared.
  predicate Wilts(blocks: BlockMap, cleared: set<BlockPosition>, p: BlockPosition)
    decreases if p.y > I32_MIN then p.y - I32_MIN else 0
  {
    && p.y > I32_MIN
    && BlockAt(blocks, p).IsSurfacePlant()
    && (p.Down() in cleared || Wilts(blocks, cleared, p.Down()))
  }

  function Clear(blocks: BlockMap, cleared: set<BlockPosition>): BlockMap {
    map p | p in blocks :: if p in cleared || Wilts(blocks, cleared, p) then Air else blocks[p]
  }

  lemma {:induction false} WiltStep(blocks: BlockMap, cleared: set<BlockPosition>, p: BlockPosition, q: BlockPosition)
    requires !BlockAt(blocks, p).IsSurfacePlant()
    requires forall c <- cleared :: !BlockAt(blocks, c).IsSurfacePlant()
    ensures Wilts(blocks, cleared + {p}, q) <==>
      Wilts(blocks, cleared, q) || Wilts(Clear(blocks, cleared), {p}, q)
    decreases if q.y > I32_MIN then q.y - I32_MIN else 0
  {
    if q.y > I32_MIN {
      WiltStep(blocks, cleared, p, q.Down());
    }
  }

  /** Clearing one more cell after others is clearing them together. */
  lemma ClearOneMore(blocks: BlockMap, cleared: set<BlockPosition>, p: BlockPosition)
    requires !BlockAt(blocks, p).IsSurfacePlant()
    requires forall c <- cleared :: !BlockAt(blocks, c).IsSurfacePlant()
    ensures Clear(Clear(blocks, cleared), {p}) == Clear(blocks, cleared + {p})
  {
    forall q | q in blocks
      ensures Clear(Clear(blocks, cleared), {p})[q] == Clear(blocks, cleared + {p})[q]
    {
      WiltStep(blocks, cleared, p, q);
    }
  }

  // ----- What collapse clears

  /** The cells scanned around a broken frame block. */
  predicate InScanBox(broken: BlockPosition, p: BlockPosition) {
    && InI32(p)
    && -3 <= p.x - broken.x <= 3
    && -4 <= p.y - broken.y <= 4
    && -3 <= p.z - broken.z <= 3
  }

  ghost predicate Doomed(blocks: BlockMap, broken: BlockPosition, p: BlockPosition) {
    exists start ::
      && InScanBox(broken, start)
      && IsPortal(blocks, start)
      && p in Component(blocks, start)
      && !HasFrame(blocks, Component(blocks, start))
  }

  ghost function DoomedCells(blocks: BlockMap, broken: BlockPosition): set<BlockPosition> {
    set p | p in blocks && Doomed(blocks, broken, p)
  }
}
