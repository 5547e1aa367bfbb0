/** The life of a portal: a lit frame is complete, a complete portal stands while its
    field touches no other, and breaking any required edge block empties its interior. */
module PortalLife {
  import opened Blocks
  import opened PortalSpec
  import opened Portals

  // ----- What a frame is

  // An interior's size, and obsidian along a row below and above it and a column on either side.
  ghost predicate Ring(blocks: BlockMap, f: Frame) {
    && 2 <= f.width <= 21 && 3 <= f.height <= 21
    && (forall i {:trigger f.Cell(i, -1)} :: 0 <= i < f.width ==> BlockAt(blocks, f.Cell(i, -1)) == Obsidian)
    && (forall i {:trigger f.Cell(i, f.height)} ::
          0 <= i < f.width ==> BlockAt(blocks, f.Cell(i, f.height)) == Obsidian)
    && (forall j {:trigger f.Cell(-1, j)} :: 0 <= j < f.height ==> BlockAt(blocks, f.Cell(-1, j)) == Obsidian)
    && (forall j {:trigger f.Cell(f.width, j)} ::
          0 <= j < f.height ==> BlockAt(blocks, f.Cell(f.width, j)) == Obsidian)
  }

  /** A frame is the four sides around 2 to 21 by 3 to 21 cells, all of the wanted kind; its corners do not matter. */
  lemma FrameIsRing(blocks: BlockMap, f: Frame, inside: BlockKind)
    ensures Framed(blocks, f, inside) <==>
      && Ring(blocks, f)
      && forall i, j {:trigger f.Cell(i, j)} ::
           0 <= i < f.width && 0 <= j < f.height ==> BlockAt(blocks, f.Cell(i, j)) == inside
  {
    hide At, BlockAt;
  }

  // ----- The interior is one connected field

  ghost predicate Filled(blocks: BlockMap, f: Frame) {
    f.Sized() && forall i, j {:trigger f.Cell(i, j)} :: InInterior(f, i, j) ==> IsPortal(blocks, f.Cell(i, j))
  }

  lemma {:induction false} InteriorInClosedSet(blocks: BlockMap, f: Frame, cells: set<BlockPosition>,
                                               i: int, j: int, k: int, m: int)
    requires Filled(blocks, f) && Closed(blocks, cells)
    requires InInterior(f, i, j) && InInterior(f, k, m) && f.Cell(i, j) in cells
    ensures f.Cell(k, m) in cells
    decreases (if i < k then k - i else i - k) + (if j < m then m - j else j - m)
  {
    if i != k {
      var next := if i < k then i + 1 else i - 1;
      assert Adjacent(f.Cell(i, j), f.Cell(next, j)) && InInterior(f, next, j);
      InteriorInClosedSet(blocks, f, cells, next, j, k, m);
    } else if j != m {
      var next := if j < m then j + 1 else j - 1;
      assert Adjacent(f.Cell(i, j), f.Cell(i, next)) && InInterior(f, i, next);
      InteriorInClosedSet(blocks, f, cells, i, next, k, m);
    }
  }

  lemma InteriorInComponent(blocks: BlockMap, f: Frame, start: BlockPosition)
    requires Filled(blocks, f) && start in Interior(f)
    ensures IsPortal(blocks, start)
    ensures Interior(f) <= Component(blocks, start)
  {
    var i, j :| 0 <= i < f.width && 0 <= j < f.height && f.Cell(i, j) == start;
    assert InInterior(f, i, j);
    ComponentIsLeastClosed(blocks, start, {});
    forall p | p in Interior(f) ensures p in Component(blocks, start) {
      var k, m :| 0 <= k < f.width && 0 <= m < f.height && f.Cell(k, m) == p;
      InteriorInClosedSet(blocks, f, Component(blocks, start), i, j, k, m);
    }
  }

  // ----- Two frames over the same field

  // Where a cell of f's plane lies in g's plane, when both share a plane.
  lemma SharedPlane(f: Frame, g: Frame)
    requires f.Sized() && g.Sized() && Interior(f) <= Interior(g)
    ensures f.alongX == g.alongX
    ensures f.corner == At(g.corner, g.alongX,
                           if g.alongX then f.corner.x - g.corner.x else f.corner.z - g.corner.z,
                           f.corner.y - g.corner.y)
  {
    var p, q := f.Cell(0, 0), f.Cell(1, 0);
    assert p in Interior(f) && q in Interior(f);
    assert p in Interior(g) && q in Interior(g);
    var i, j :| 0 <= i < g.width && 0 <= j < g.height && g.Cell(i, j) == p;
    var k, m :| 0 <= k < g.width && 0 <= m < g.height && g.Cell(k, m) == q;
  }

  // f's interior with every required edge block that is not a portal cannot sit inside a larger field.
  lemma LargerInteriorCrossesEdge(f: Frame, g: Frame)
    requires f.Sized() && g.Sized() && Interior(f) <= Interior(g) && f != g
    ensures exists i, j :: OnEdge(f, i, j) && f.Cell(i, j) in Interior(g)
  {
    SharedPlane(f, g);
    var d := if g.alongX then f.corner.x - g.corner.x else f.corner.z - g.corner.z;
    var e := f.corner.y - g.corner.y;
    forall i, j ensures f.Cell(i, j) == g.Cell(i + d, j + e) {}
    var last := f.Cell(f.width - 1, f.height - 1);
    assert f.Cell(0, 0) in Interior(f) && last in Interior(f);
    WithinFrame(g, 0 + d, 0 + e);
    WithinFrame(g, f.width - 1 + d, f.height - 1 + e);
    var i, j := if d > 0 then -1 else if f.width + d < g.width then f.width else 0,
                if d > 0 || f.width + d < g.width then 0 else if e > 0 then -1 else f.height;
    assert OnEdge(f, i, j);
    assert InInterior(g, i + d, j + e);
    WithinFrame(g, i + d, j + e);
  }

  lemma WithinFrame(g: Frame, i: int, j: int)
    ensures g.Cell(i, j) in Interior(g) <==> InInterior(g, i, j)
  {
    if g.Cell(i, j) in Interior(g) {
      var k, m :| 0 <= k < g.width && 0 <= m < g.height && g.Cell(k, m) == g.Cell(i, j);
    }
  }

  // ----- A complete portal stands while it touches no other field

  // The neighbour of an interior cell in front of the frame's plane (side 1) or behind it (side -1).
  function Beside(f: Frame, i: int, j: int, side: int): BlockPosition {
    var p := f.Cell(i, j);
    if f.alongX then p.(z := p.z + side) else p.(x := p.x + side)
  }

  ghost predicate Touched(blocks: BlockMap, f: Frame) {
    exists i, j ::
      InInterior(f, i, j) && (IsPortal(blocks, Beside(f, i, j, 1)) || IsPortal(blocks, Beside(f, i, j, -1)))
  }

  lemma NeighbourOfCell(f: Frame, i: int, j: int, q: BlockPosition)
    requires Adjacent(f.Cell(i, j), q)
    ensures q in [f.Cell(i - 1, j), f.Cell(i + 1, j), f.Cell(i, j - 1), f.Cell(i, j + 1),
                  Beside(f, i, j, 1), Beside(f, i, j, -1)]
  {
  }

  lemma UntouchedBeside(blocks: BlockMap, f: Frame, i: int, j: int)
    requires !Touched(blocks, f) && InInterior(f, i, j)
    ensures !IsPortal(blocks, Beside(f, i, j, 1)) && !IsPortal(blocks, Beside(f, i, j, -1))
  {
    hide IsPortal, Beside;
  }

  // A portal block in the frame's plane, next to its interior, is in the interior.
  lemma PortalIsInside(blocks: BlockMap, f: Frame, i: int, j: int)
    requires Framed(blocks, f, NetherPortal) && (InInterior(f, i, j) || OnEdge(f, i, j))
    requires IsPortal(blocks, f.Cell(i, j))
    ensures f.Cell(i, j) in Interior(f)
  {
    hide At;
    assert InInterior(f, i, j);
  }

  lemma CellInside(f: Frame, p: BlockPosition) returns (i: int, j: int)
    requires p in Interior(f)
    ensures InInterior(f, i, j) && f.Cell(i, j) == p
  {
    i, j :| 0 <= i < f.width && 0 <= j < f.height && f.Cell(i, j) == p;
  }

  lemma UntouchedInteriorIsClosed(blocks: BlockMap, f: Frame)
    requires Framed(blocks, f, NetherPortal) && !Touched(blocks, f)
    ensures Closed(blocks, Interior(f))
  {
    hide At, Adjacent, Beside, BlockAt, Touched, Framed, Interior, IsPortal;
    forall p, q | p in Interior(f) && Adjacent(p, q) && IsPortal(blocks, q) ensures q in Interior(f) {
      var i, j := CellInside(f, p);
      NeighbourOfCell(f, i, j, q);
      UntouchedBeside(blocks, f, i, j);
      var (k, m) := if q == f.Cell(i - 1, j) then (i - 1, j) else if q == f.Cell(i + 1, j) then (i + 1, j)
                    else if q == f.Cell(i, j - 1) then (i, j - 1) else (i, j + 1);
      PortalIsInside(blocks, f, k, m);
    }
  }

  /** A complete portal's field passes the frame test exactly when no portal block
      touches it front or back. */
  lemma CompletePortalStands(blocks: BlockMap, f: Frame, start: BlockPosition)
    requires Framed(blocks, f, NetherPortal) && start in Interior(f)
    ensures HasFrame(blocks, Component(blocks, start)) <==> !Touched(blocks, f)
  {
    var component := Component(blocks, start);
    InteriorInComponent(blocks, f, start);
    ComponentIsLeastClosed(blocks, start, Interior(f));
    if !Touched(blocks, f) {
      UntouchedInteriorIsClosed(blocks, f);
      assert component == Interior(f);
    } else {
      var i, j :| InInterior(f, i, j)
        && (IsPortal(blocks, Beside(f, i, j, 1)) || IsPortal(blocks, Beside(f, i, j, -1)));
      var q := Beside(f, i, j, if IsPortal(blocks, Beside(f, i, j, 1)) then 1 else -1);
      assert f.Cell(i, j) in Interior(f) && Adjacent(f.Cell(i, j), q) && q in component;
      forall g: Frame | g.Sized() && Interior(g) == component ensures false {
        SharedPlane(f, g);
      }
    }
  }

  // ----- Two portals back to back

  // The frame one block behind a frame.
  function Behind(f: Frame): Frame {
    f.(corner := if f.alongX then f.corner.(z := f.corner.z + 1) else f.corner.(x := f.corner.x + 1))
  }

  lemma TwinsAreLinked(blocks: BlockMap, f: Frame, start: BlockPosition)
    requires Filled(blocks, f) && Filled(blocks, Behind(f)) && start in Interior(f) + Interior(Behind(f))
    ensures IsPortal(blocks, start) && Interior(f) + Interior(Behind(f)) <= Component(blocks, start)
  {
    var g, front, back := Behind(f), f.Cell(0, 0), Behind(f).Cell(0, 0);
    assert front in Interior(f) && back in Interior(g) && Adjacent(front, back) && Adjacent(back, front);
    InteriorInComponent(blocks, f, front);
    InteriorInComponent(blocks, g, back);
    hide Interior, Adjacent, Filled;
    InteriorInComponent(blocks, if start in Interior(f) then f else g, start);
    ComponentIsLeastClosed(blocks, start, {});
    hide Component;
    ComponentsMeet(blocks, start, front, back);
    ComponentsMeet(blocks, start, back, front);
  }

  // A component that holds a portal cell holds its neighbour's component.
  lemma ComponentsMeet(blocks: BlockMap, start: BlockPosition, p: BlockPosition, q: BlockPosition)
    requires IsPortal(blocks, start) && IsPortal(blocks, p) && IsPortal(blocks, q) && Adjacent(p, q)
    requires p in Component(blocks, start)
    ensures q in Component(blocks, start) && Component(blocks, q) == Component(blocks, start)
    ensures Component(blocks, p) == Component(blocks, start)
  {
    hide Component, Linked, IsTrail, Adjacent;
    ComponentIsLeastClosed(blocks, start, {});
    ComponentIsLeastClosed(blocks, p, {});
    ComponentIsLeastClosed(blocks, q, {});
    ComponentsCoincide(blocks, start, p, p);
    ComponentsCoincide(blocks, start, q, q);
  }

  /** Two portals back to back, whatever stands around them, are one field, which fails the frame test. */
  lemma TwinsFall(blocks: BlockMap, f: Frame, start: BlockPosition)
    requires Filled(blocks, f) && Filled(blocks, Behind(f)) && start in Interior(f) + Interior(Behind(f))
    ensures Interior(f) + Interior(Behind(f)) <= Component(blocks, start)
    ensures !HasFrame(blocks, Component(blocks, start))
  {
    TwinsAreLinked(blocks, f, start);
    assert Behind(f).Cell(0, 0) in Interior(Behind(f));
    forall g: Frame | g.Sized() && Interior(g) == Component(blocks, start) ensures false {
      SharedPlane(f, g);
    }
  }

  /** So any obsidian block taken out of reach of either, of their frames or not, empties both. */
  lemma BreakingClearsTwins(blocks: BlockMap, f: Frame, broken: BlockPosition, kind: BlockKind, start: BlockPosition,
                            p: BlockPosition)
    requires Filled(blocks, f) && Filled(blocks, Behind(f))
    requires BlockAt(blocks, broken) == Obsidian && kind != Obsidian
    requires start in Interior(f) + Interior(Behind(f)) && InScanBox(broken, start)
    requires p in Interior(f) + Interior(Behind(f))
    ensures BlockAt(AfterSet(blocks, broken, kind), p) == Air
  {
    var placed := Placed(blocks, broken, kind);
    PlacedKeepsFilled(blocks, f, broken, kind);
    PlacedKeepsFilled(blocks, Behind(f), broken, kind);
    hide Filled, Interior, Placed, Component, HasFrame, InScanBox;
    TwinsFall(placed, f, start);
    TwinsAreLinked(placed, f, start);
    TwinsAreLinked(placed, f, p);
    assert Doomed(placed, broken, p);
    ClearKeeps(placed, DoomedCells(placed, broken), p);
  }

  lemma PlacedKeeps(blocks: BlockMap, p: BlockPosition, kind: BlockKind, q: BlockPosition)
    requires q != p && !BlockAt(blocks, q).IsSurfacePlant()
    ensures BlockAt(Placed(blocks, p, kind), q) == BlockAt(blocks, q)
  {
  }

  lemma PlacedKeepsFilled(blocks: BlockMap, f: Frame, broken: BlockPosition, kind: BlockKind)
    requires Filled(blocks, f) && BlockAt(blocks, broken) == Obsidian
    ensures Filled(Placed(blocks, broken, kind), f)
  {
    forall i, j | InInterior(f, i, j) ensures IsPortal(Placed(blocks, broken, kind), f.Cell(i, j)) {
      PlacedKeeps(blocks, broken, kind, f.Cell(i, j));
    }
  }

  lemma TwinsApart(f: Frame, i: int, j: int)
    ensures f.Cell(i, j) !in Interior(Behind(f)) && Behind(f).Cell(i, j) !in Interior(f)
  {
  }

  lemma LitElsewhere(blocks: BlockMap, cells: set<BlockPosition>, f: Frame, inside: BlockKind)
    requires Framed(blocks, f, inside) && forall i, j {:trigger f.Cell(i, j)} :: f.Cell(i, j) !in cells
    ensures Framed(Lit(blocks, cells), f, inside)
  {
  }

  /** Such portals are lit one after the other wherever the two frames stand. */
  lemma LightingTwins(blocks: BlockMap, f: Frame, p: BlockPosition, q: BlockPosition)
    requires InWorld(blocks) && Framed(blocks, f, Air) && Framed(blocks, Behind(f), Air)
    requires p in Interior(f) && q in Interior(Behind(f))
    ensures Lightable(blocks, f, f.alongX, p)
    ensures var first := Lit(blocks, Interior(f));
      && Lightable(first, Behind(f), f.alongX, q)
      && var both := Lit(first, Interior(Behind(f)));
      && Framed(both, f, NetherPortal) && Framed(both, Behind(f), NetherPortal)
      && !HasFrame(both, Component(both, p))
  {
    hide Framed, Lit, Interior, HasFrame, Component;
    var g, first := Behind(f), Lit(blocks, Interior(f));
    forall i, j ensures f.Cell(i, j) !in Interior(g) && g.Cell(i, j) !in Interior(f) {
      TwinsApart(f, i, j);
    }
    LitFrameIsComplete(blocks, f);
    LitElsewhere(blocks, Interior(f), g, Air);
    LitFrameIsComplete(first, g);
    LitElsewhere(first, Interior(g), f, NetherPortal);
    TwinsFall(Lit(first, Interior(g)), f, p);
  }

  // An obsidian frame and the one behind it, in an otherwise empty world.
  function TwinFrames(f: Frame): BlockMap {
    map p | p in EdgeCells(f) + EdgeCells(Behind(f)) :: Obsidian
  }

  function EdgeCells(f: Frame): set<BlockPosition> {
    set i, j | -1 <= i <= f.width && -1 <= j <= f.height && OnEdge(f, i, j) :: f.Cell(i, j)
  }

  lemma TwinFramesStand(f: Frame)
    requires 2 <= f.width <= 21 && 3 <= f.height <= 21
    ensures Framed(TwinFrames(f), f, Air) && Framed(TwinFrames(f), Behind(f), Air)
  {
  }

  // ----- Breaking a frame

  lemma PlacedPuts(blocks: BlockMap, p: BlockPosition, kind: BlockKind)
    ensures BlockAt(Placed(blocks, p, kind), p) in {kind, Air}
  {
  }

  // The interior cell next to an edge position.
  function Inward(f: Frame, i: int, j: int): (int, int) {
    (if i == -1 then 0 else if i == f.width then f.width - 1 else i,
     if j == -1 then 0 else if j == f.height then f.height - 1 else j)
  }

  lemma BrokenFieldIsDoomed(blocks: BlockMap, f: Frame, i: int, j: int, p: BlockPosition)
    requires InWorld(blocks) && Filled(blocks, f) && OnEdge(f, i, j) && p in Interior(f)
    requires InI32(f.Cell(Inward(f, i, j).0, Inward(f, i, j).1))
    requires forall k, m {:trigger f.Cell(k, m)} :: OnEdge(f, k, m) ==> BlockAt(blocks, f.Cell(k, m)) != NetherPortal
    requires BlockAt(blocks, f.Cell(i, j)) != Obsidian
    ensures p in DoomedCells(blocks, f.Cell(i, j))
  {
    var (a, c) := Inward(f, i, j);
    var start := f.Cell(a, c);
    assert start in Interior(f) && InScanBox(f.Cell(i, j), start);
    InteriorInComponent(blocks, f, start);
    forall g: Frame | Framed(blocks, g, NetherPortal) && Interior(g) == Component(blocks, start) ensures false {
      if f != g {
        LargerInteriorCrossesEdge(f, g);
      }
    }
    assert Doomed(blocks, f.Cell(i, j), p);
  }

  /** Replacing any required edge block of a complete portal by a block that is neither
      obsidian nor portal empties its interior. */
  lemma BreakingEmptiesInterior(blocks: BlockMap, f: Frame, i: int, j: int, kind: BlockKind, p: BlockPosition)
    requires InWorld(blocks) && Framed(blocks, f, NetherPortal) && OnEdge(f, i, j) && p in Interior(f)
    requires kind != Obsidian && kind != NetherPortal
    ensures BlockAt(AfterSet(blocks, f.Cell(i, j), kind), p) == Air
  {
    var broken := f.Cell(i, j);
    var placed := Placed(blocks, broken, kind);
    assert BlockAt(blocks, broken) == Obsidian;
    assert InWorld(placed);
    forall k, m | InInterior(f, k, m) || OnEdge(f, k, m)
      ensures InInterior(f, k, m) ==> IsPortal(placed, f.Cell(k, m))
      ensures OnEdge(f, k, m) ==> BlockAt(placed, f.Cell(k, m)) != NetherPortal
    {
      PlacedPuts(blocks, broken, kind);
      if f.Cell(k, m) != broken {
        PlacedKeeps(blocks, broken, kind, f.Cell(k, m));
      }
    }
    PlacedPuts(blocks, broken, kind);
    var (a, c) := Inward(f, i, j);
    FramedInWorld(blocks, f, NetherPortal, a, c);
    BrokenFieldIsDoomed(placed, f, i, j, p);
    ClearKeeps(placed, DoomedCells(placed, broken), p);
  }

  lemma InteriorIsAir(blocks: BlockMap, f: Frame, p: BlockPosition)
    requires Framed(blocks, f, Air) && p in Interior(f)
    ensures BlockAt(blocks, p) == Air
  {
    var k, m :| 0 <= k < f.width && 0 <= m < f.height && f.Cell(k, m) == p;
    assert InInterior(f, k, m);
  }

  lemma LitStaysInWorld(blocks: BlockMap, f: Frame)
    requires InWorld(blocks) && Framed(blocks, f, Air)
    ensures InWorld(Lit(blocks, Interior(f)))
  {
    forall q | q in Interior(f) ensures InI32(q) {
      var k, m :| 0 <= k < f.width && 0 <= m < f.height && f.Cell(k, m) == q;
      assert InInterior(f, k, m);
      FramedInWorld(blocks, f, Air, k, m);
    }
    hide InI32, Interior, Framed;
  }

  /** Lighting a frame and then breaking it gives the air back. */
  lemma LightThenBreak(blocks: BlockMap, f: Frame, i: int, j: int, kind: BlockKind, p: BlockPosition)
    requires InWorld(blocks) && Framed(blocks, f, Air) && OnEdge(f, i, j) && p in Interior(f)
    requires kind != Obsidian && kind != NetherPortal
    ensures BlockAt(AfterSet(Lit(blocks, Interior(f)), f.Cell(i, j), kind), p) == BlockAt(blocks, p) == Air
  {
    hide *;
    LitFrameIsComplete(blocks, f);
    LitStaysInWorld(blocks, f);
    BreakingEmptiesInterior(Lit(blocks, Interior(f)), f, i, j, kind, p);
    InteriorIsAir(blocks, f, p);
  }
}
