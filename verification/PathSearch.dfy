/** The mob path search of world.rs: A* over surface columns with 10/14 step costs,
    an octile estimate, lazy deletion of stale heap entries and an expansion budget. */
module PathSearch {
  import opened Wrappers
  import opened Bits

  datatype Cell = Cell(x: int, z: int)

  /** The loaded columns: their surface heights, and the (column, y) pairs whose block is passable. */
  datatype Ground = Ground(surface: map<Cell, int>, passable: set<(Cell, int)>) {

    predicate CanStep(from: Cell, to: Cell) {
      && from in surface
      && to in surface
      && -3 <= surface[to] - surface[from] <= 1
      && (to, surface[to] + 1) in passable
      && (to, surface[to] + 2) in passable
    }
  }

  // ----- Legal walks and their cost: the specification

  // A step to one of the eight neighbours, as on open ground.
  predicate KingStep(a: Cell, b: Cell) {
    a != b && -1 <= b.x - a.x <= 1 && -1 <= b.z - a.z <= 1
  }

  predicate LegalStep(ground: Ground, a: Cell, b: Cell) {
    && KingStep(a, b)
    && ground.CanStep(a, b)
    && (a.x != b.x && a.z != b.z ==>
          ground.CanStep(a, Cell(b.x, a.z)) && ground.CanStep(a, Cell(a.x, b.z)))
  }

  function StepCost(a: Cell, b: Cell): nat {
    if a.x == b.x || a.z == b.z then 10 else 14
  }

  predicate IsWalk(ground: Ground, walk: seq<Cell>) {
    |walk| <= 1 ||
    (IsWalk(ground, walk[..|walk| - 1]) && LegalStep(ground, walk[|walk| - 2], walk[|walk| - 1]))
  }

  // The cells a step touches besides the one it leaves: where it arrives, and both corners of a diagonal.
  function Touched(a: Cell, b: Cell): set<Cell> {
    {b, Cell(b.x, a.z), Cell(a.x, b.z)} - {a}
  }

  /** The walking rule: whatever cell a step touches is loaded, at most one block higher and three lower,
      and has two passable blocks over its ground. */
  predicate StepFits(ground: Ground, a: Cell, b: Cell) {
    && Touched(a, b) != {} && a in ground.surface
    && forall c <- Touched(a, b) ::
         && (a.x - c.x) in {-1, 0, 1} && (a.z - c.z) in {-1, 0, 1}
         && c in ground.surface && ground.surface[a] - 3 <= ground.surface[c] <= ground.surface[a] + 1
         && (c, ground.surface[c] + 1) in ground.passable && (c, ground.surface[c] + 2) in ground.passable
  }

  lemma LegalStepFits(ground: Ground, a: Cell, b: Cell)
    ensures LegalStep(ground, a, b) <==> StepFits(ground, a, b)
  {
    var sides := {b, Cell(b.x, a.z), Cell(a.x, b.z)};
    assert Touched(a, b) == sides - {a};
    assert a != b ==> b in Touched(a, b);
    assert a.x != b.x && a.z != b.z ==> Cell(b.x, a.z) in Touched(a, b) && Cell(a.x, b.z) in Touched(a, b);
    assert a == b ==> Touched(a, b) == {};
  }

  function Cost(walk: seq<Cell>): nat {
    if |walk| <= 1 then 0
    else Cost(walk[..|walk| - 1]) + StepCost(walk[|walk| - 2], walk[|walk| - 1])
  }

  datatype Query = Query(ground: Ground, start: Cell, goal: Cell)

  predicate WalkTo(q: Query, walk: seq<Cell>, to: Cell) {
    |walk| >= 1 && walk[0] == q.start && walk[|walk| - 1] == to && IsWalk(q.ground, walk)
  }

  ghost predicate Cheapest(q: Query, cost: int, to: Cell) {
    forall walk :: WalkTo(q, walk, to) ==> cost <= Cost(walk)
  }

  // ----- The estimate, in the width the source uses

  function SaturatingAdd(a: nat, b: nat): nat {
    if a + b < U32_RANGE then a + b else U32_RANGE - 1
  }

  function AbsDiff(a: int, b: int): nat { if a <= b then b - a else a - b }

  function Octile(from: Cell, to: Cell): nat {
    var dx, dz := AbsDiff(from.x, to.x), AbsDiff(from.z, to.z);
    var diagonal := if dx <= dz then dx else dz;
    diagonal * 14 + ((if dx <= dz then dz else dx) - diagonal) * 10
  }

  function PathHeuristic(from: Cell, to: Cell): nat {
    Octile(from, to) % U32_RANGE
  }

  /** No u32 sum the search forms can overflow. */
  predicate FitsU32(q: Query, maxVisited: nat) {
    forall cell <- q.ground.surface.Keys :: 14 * maxVisited + Octile(cell, q.goal) < U32_RANGE
  }

  // ----- The cost of reaching the goal over open ground

  predicate IsOpenWalk(walk: seq<Cell>) {
    |walk| <= 1 || (IsOpenWalk(walk[..|walk| - 1]) && KingStep(walk[|walk| - 2], walk[|walk| - 1]))
  }

  predicate OpenWalk(walk: seq<Cell>, from: Cell, to: Cell) {
    |walk| >= 1 && walk[0] == from && walk[|walk| - 1] == to && IsOpenWalk(walk)
  }

  lemma OctileOfStep(from: Cell, a: Cell, b: Cell)
    requires KingStep(a, b)
    ensures Octile(from, b) <= Octile(from, a) + StepCost(a, b)
  {
  }

  lemma {:induction false} OpenWalkCosts(walk: seq<Cell>, from: Cell, to: Cell)
    requires OpenWalk(walk, from, to)
    ensures Octile(from, to) <= Cost(walk)
  {
    hide Octile, StepCost;
    if |walk| == 1 {
      OctileOfNothing(from);
    } else {
      var before := walk[..|walk| - 1];
      var last := before[|before| - 1];
      OpenWalkCosts(before, from, last);
      OctileOfStep(from, last, to);
    }
  }

  lemma OctileOfNothing(a: Cell)
    ensures Octile(a, a) == 0
  {
  }

  function Toward(from: int, to: int): int {
    if from < to then from + 1 else if from > to then from - 1 else from
  }

  // The last step of a cheapest walk: diagonal while both axes differ, then straight.
  lemma LastStep(from: Cell, to: Cell)
    requires from != to
    ensures var before := Cell(Toward(to.x, from.x), Toward(to.z, from.z));
      && KingStep(before, to)
      && Octile(from, to) == Octile(from, before) + StepCost(before, to)
      && AbsDiff(from.x, before.x) + AbsDiff(from.z, before.z) < AbsDiff(from.x, to.x) + AbsDiff(from.z, to.z)
  {
  }

  lemma {:induction false} OpenWalkExists(from: Cell, to: Cell) returns (walk: seq<Cell>)
    ensures OpenWalk(walk, from, to) && Cost(walk) == Octile(from, to)
    decreases AbsDiff(from.x, to.x) + AbsDiff(from.z, to.z)
  {
    hide Octile, KingStep, StepCost, AbsDiff, Toward;
    if from == to {
      OctileOfNothing(from);
      walk := [from];
    } else {
      LastStep(from, to);
      var before := Cell(Toward(to.x, from.x), Toward(to.z, from.z));
      var shorter := OpenWalkExists(from, before);
      walk := shorter + [to];
      assert walk[..|walk| - 1] == shorter;
    }
  }

  /** The estimate is exactly the cost of a cheapest walk over open ground. */
  lemma OctileIsOpenCost(from: Cell, to: Cell)
    ensures forall walk :: OpenWalk(walk, from, to) ==> Octile(from, to) <= Cost(walk)
    ensures exists walk :: OpenWalk(walk, from, to) && Cost(walk) == Octile(from, to)
  {
    forall walk | OpenWalk(walk, from, to) ensures Octile(from, to) <= Cost(walk) {
      OpenWalkCosts(walk, from, to);
    }
    var walk := OpenWalkExists(from, to);
  }

  // A cell a search has to expand before it can be sure of the goal: its cheapest
  // cost plus the estimate stays within (or strictly below) every walk to the goal.
  ghost predicate NoDearerThanGoal(q: Query, cost: nat, cell: Cell) {
    forall walk :: WalkTo(q, walk, q.goal) ==> cost + Octile(cell, q.goal) <= Cost(walk)
  }

  // No walk to the goal beats one through the cell that goes on over open ground.
  ghost predicate Contender(q: Query, cell: Cell) {
    exists walk, open ::
      && WalkTo(q, walk, cell) && OpenWalk(open, cell, q.goal)
      && forall other :: WalkTo(q, other, q.goal) ==> Cost(walk) + Cost(open) <= Cost(other)
  }

  ghost predicate OverBudget(q: Query, maxVisited: nat) {
    exists cells: set<Cell> :: |cells| > maxVisited && forall cell <- cells :: Contender(q, cell)
  }

  // A walk through the cell that goes on over open ground is cheaper than a bound.
  ghost predicate StrictContender(q: Query, bound: nat, cell: Cell) {
    exists walk, open ::
      WalkTo(q, walk, cell) && OpenWalk(open, cell, q.goal) && Cost(walk) + Cost(open) < bound
  }

  // ----- The open list

  datatype Entry = Entry(estimate: nat, cost: nat, cell: Cell)

  // The order of the (Reverse(estimate), Reverse(cost), cell) tuples on the binary heap.
  predicate Before(a: Entry, b: Entry) {
    || a.estimate < b.estimate
    || (a.estimate == b.estimate && a.cost < b.cost)
    || (a.estimate == b.estimate && a.cost == b.cost && a.cell.x > b.cell.x)
    || (a.estimate == b.estimate && a.cost == b.cost && a.cell.x == b.cell.x && a.cell.z > b.cell.z)
  }

  predicate IsTop(open: multiset<Entry>, top: Entry) {
    top in open && forall other <- open :: !Before(other, top)
  }

  lemma {:induction false} TopExists(open: multiset<Entry>)
    requires |open| > 0
    ensures exists top :: IsTop(open, top)
    decreases |open|
  {
    var some :| some in open;
    var rest := open - multiset{some};
    if |rest| == 0 {
      assert open == multiset{some};
      assert IsTop(open, some);
    } else {
      TopExists(rest);
      var best :| IsTop(rest, best);
      assert forall e <- open :: e == some || e in rest;
      assert IsTop(open, if Before(some, best) then some else best);
    }
  }

  method Pop(open: multiset<Entry>) returns (top: Entry, rest: multiset<Entry>)
    requires |open| > 0
    ensures IsTop(open, top) && rest == open - multiset{top}
  {
    TopExists(open);
    top :| IsTop(open, top);
    rest := open - multiset{top};
  }

  // ----- The search state and its invariant

  datatype Search = Search(open: multiset<Entry>, costs: map<Cell, nat>, cameFrom: map<Cell, Cell>)

  ghost predicate TreeInv(q: Query, s: Search, closed: set<Cell>, walks: map<Cell, seq<Cell>>) {
    && closed <= s.costs.Keys == walks.Keys <= q.ground.surface.Keys
    && q.start in s.costs
    && walks[q.start] == [q.start]
    && (forall c <- s.costs :: WalkTo(q, walks[c], c) && Cost(walks[c]) == s.costs[c])
    && (forall c <- s.costs :: c != q.start ==>
          c in s.cameFrom && s.cameFrom[c] in closed && walks[c] == walks[s.cameFrom[c]] + [c])
  }

  ghost predicate ClosedInv(q: Query, s: Search, closed: set<Cell>)
    requires closed <= s.costs.Keys
  {
    forall c <- closed :: Cheapest(q, s.costs[c], c) && NoDearerThanGoal(q, s.costs[c], c)
  }

  function FreshEntry(q: Query, s: Search, cell: Cell): Entry
    requires cell in s.costs
  {
    Entry(s.costs[cell] + Octile(cell, q.goal), s.costs[cell], cell)
  }

  // An entry on the heap was correct when pushed; it is stale once its cell was improved or closed.
  predicate SoundEntry(q: Query, s: Search, closed: set<Cell>, e: Entry) {
    && e.cell in s.costs
    && e.estimate == e.cost + Octile(e.cell, q.goal)
    && s.costs[e.cell] <= e.cost
    && (e.cell in closed ==> s.costs[e.cell] < e.cost)
    && (s.costs[e.cell] == e.cost ==> s.open[e] == 1)
  }

  ghost predicate OpenInv(q: Query, s: Search, closed: set<Cell>) {
    && (forall c <- s.costs :: c !in closed ==> FreshEntry(q, s, c) in s.open)
    && (forall e <- s.open :: SoundEntry(q, s, closed, e))
  }

  predicate Relaxed(s: Search, a: Cell, b: Cell) {
    a in s.costs && b in s.costs && s.costs[b] <= s.costs[a] + StepCost(a, b)
  }

  ghost predicate Expanded(q: Query, s: Search, a: Cell) {
    forall b :: LegalStep(q.ground, a, b) ==> Relaxed(s, a, b)
  }

  ghost predicate CostsWithin(s: Search, limit: nat) {
    forall c <- s.costs :: s.costs[c] <= limit
  }

  ghost predicate Inv(q: Query, s: Search, closed: set<Cell>, walks: map<Cell, seq<Cell>>) {
    TreeInv(q, s, closed, walks) && ClosedInv(q, s, closed) && OpenInv(q, s, closed)
  }

  // ----- Facts about walks and the estimate

  lemma OctileConsistent(ground: Ground, a: Cell, b: Cell, goal: Cell)
    requires LegalStep(ground, a, b)
    ensures Octile(a, goal) <= StepCost(a, b) + Octile(b, goal)
  {
  }

  lemma ExtendWalk(q: Query, walk: seq<Cell>, a: Cell, b: Cell)
    requires WalkTo(q, walk, a) && LegalStep(q.ground, a, b)
    ensures WalkTo(q, walk + [b], b) && Cost(walk + [b]) == Cost(walk) + StepCost(a, b)
  {
    assert (walk + [b])[..|walk + [b]| - 1] == walk;
  }

  /** Every walk from the start either ends in a closed cell, already at its cheapest,
      or leaves the closed cells through an open one whose estimate bounds the walk. */
  lemma {:induction false} Frontier(q: Query, s: Search, closed: set<Cell>,
                                    walks: map<Cell, seq<Cell>>, walk: seq<Cell>, to: Cell)
    returns (exit: Cell)
    requires Inv(q, s, closed, walks)
    requires forall c <- closed :: Expanded(q, s, c)
    requires WalkTo(q, walk, to)
    ensures to !in closed ==>
      exit in s.costs && exit !in closed && FreshEntry(q, s, exit) in s.open
      && s.costs[exit] + Octile(exit, q.goal) <= Cost(walk) + Octile(to, q.goal)
    decreases |walk|
  {
    hide Octile, StepCost, LegalStep, SoundEntry;
    exit := to;
    if |walk| > 1 {
      var before := walk[..|walk| - 1];
      var last := before[|before| - 1];
      assert WalkTo(q, before, last);
      OctileConsistent(q.ground, last, to, q.goal);
      if last in closed {
        assert Relaxed(s, last, to);
        assert Cheapest(q, s.costs[last], last);
      } else {
        exit := Frontier(q, s, closed, walks, before, last);
      }
    }
  }

  // ----- The step taken when a fresh entry is popped

  lemma CloseCell(q: Query, s: Search, closed: set<Cell>, walks: map<Cell, seq<Cell>>, top: Entry)
    requires Inv(q, s, closed, walks)
    requires forall c <- closed :: Expanded(q, s, c)
    requires q.goal !in closed
    requires IsTop(s.open, top) && top.cell in s.costs && top.cost == s.costs[top.cell]
    ensures top.cell !in closed
    ensures Cheapest(q, s.costs[top.cell], top.cell) && NoDearerThanGoal(q, s.costs[top.cell], top.cell)
  {
    forall walk | WalkTo(q, walk, top.cell) ensures s.costs[top.cell] <= Cost(walk) {
      var exit := Frontier(q, s, closed, walks, walk, top.cell);
      assert !Before(FreshEntry(q, s, exit), top);
    }
    forall walk | WalkTo(q, walk, q.goal)
      ensures s.costs[top.cell] + Octile(top.cell, q.goal) <= Cost(walk)
    {
      var exit := Frontier(q, s, closed, walks, walk, q.goal);
      assert !Before(FreshEntry(q, s, exit), top);
    }
  }

  lemma PopKeepsOpen(q: Query, s: Search, closed: set<Cell>, top: Entry)
    requires OpenInv(q, s, closed)
    requires top in s.open
    ensures OpenInv(q, s.(open := s.open - multiset{top}),
                    if top.cost == s.costs[top.cell] then closed + {top.cell} else closed)
  {
    hide Octile;
    var s' := s.(open := s.open - multiset{top});
    var closed' := if top.cost == s.costs[top.cell] then closed + {top.cell} else closed;
    forall e | e in s'.open ensures SoundEntry(q, s', closed', e) {
      assert e in s.open && SoundEntry(q, s, closed, e);
    }
    forall c | c in s'.costs && c !in closed' ensures FreshEntry(q, s', c) in s'.open {
      assert FreshEntry(q, s', c) == FreshEntry(q, s, c) != top;
    }
  }

  lemma PopKeepsInv(q: Query, s: Search, closed: set<Cell>, walks: map<Cell, seq<Cell>>, top: Entry, limit: nat)
    requires Inv(q, s, closed, walks) && CostsWithin(s, limit)
    requires forall c <- closed :: Expanded(q, s, c)
    requires q.goal !in closed && IsTop(s.open, top)
    ensures top.cell in s.costs && s.costs[top.cell] <= limit
    ensures var s' := s.(open := s.open - multiset{top});
      && CostsWithin(s', limit)
      && (forall c <- closed :: Expanded(q, s', c))
      && if top.cost == s.costs[top.cell]
         then top.cell !in closed && Cheapest(q, top.cost, top.cell) && Inv(q, s', closed + {top.cell}, walks)
         else Inv(q, s', closed, walks)
  {
    assert SoundEntry(q, s, closed, top);
    PopKeepsOpen(q, s, closed, top);
    var s' := s.(open := s.open - multiset{top});
    forall c | c in closed ensures Expanded(q, s', c) {
      PopKeepsExpanded(q, s, s', c);
    }
    if top.cost == s.costs[top.cell] {
      CloseCell(q, s, closed, walks, top);
      CloseKeepsTree(q, s, s', closed, walks, top.cell);
    } else {
      hide OpenInv, WalkTo, Cheapest, NoDearerThanGoal, Expanded;
      assert TreeInv(q, s', closed, walks) && ClosedInv(q, s', closed);
    }
    hide OpenInv, TreeInv, ClosedInv, Expanded;
  }

  lemma PopKeepsExpanded(q: Query, s: Search, s': Search, c: Cell)
    requires s'.costs == s.costs && Expanded(q, s, c)
    ensures Expanded(q, s', c)
  {
    hide LegalStep, StepCost;
    forall b | LegalStep(q.ground, c, b) ensures Relaxed(s', c, b) {
      assert Relaxed(s, c, b);
    }
  }

  lemma CloseKeepsTree(q: Query, s: Search, s': Search, closed: set<Cell>, walks: map<Cell, seq<Cell>>, cell: Cell)
    requires TreeInv(q, s, closed, walks) && ClosedInv(q, s, closed)
    requires s'.costs == s.costs && s'.cameFrom == s.cameFrom && cell in s.costs
    requires Cheapest(q, s.costs[cell], cell) && NoDearerThanGoal(q, s.costs[cell], cell)
    ensures TreeInv(q, s', closed + {cell}, walks) && ClosedInv(q, s', closed + {cell})
  {
    hide WalkTo, Cheapest, NoDearerThanGoal;
  }

  // ----- The step that relaxes one neighbour of the cell being expanded

  function Improve(q: Query, s: Search, current: Cell, next: Cell, cost: nat): Search {
    Search(s.open + multiset{Entry(cost + Octile(next, q.goal), cost, next)},
           s.costs[next := cost],
           s.cameFrom[next := current])
  }

  lemma ImprovedCellIsOpen(q: Query, s: Search, closed: set<Cell>, walks: map<Cell, seq<Cell>>,
                           current: Cell, next: Cell)
    requires TreeInv(q, s, closed, walks) && ClosedInv(q, s, closed)
    requires current in closed && LegalStep(q.ground, current, next)
    requires next in s.costs ==> s.costs[current] + StepCost(current, next) < s.costs[next]
    ensures next !in closed && next != q.start
  {
    hide LegalStep, StepCost, WalkTo, Octile, NoDearerThanGoal, Cheapest, Cost;
    var walk := walks[current];
    assert WalkTo(q, walk, current) && Cost(walk) == s.costs[current];
    ExtendWalk(q, walk, current, next);
    if next in closed {
      assert Cheapest(q, s.costs[next], next);
      CheapestBound(q, s.costs[next], walk + [next], next);
    }
    StartCostsNothing(q, s, closed, walks);
  }

  lemma CheapestBound(q: Query, cost: int, walk: seq<Cell>, to: Cell)
    requires Cheapest(q, cost, to) && WalkTo(q, walk, to)
    ensures cost <= Cost(walk)
  {
  }

  lemma StartCostsNothing(q: Query, s: Search, closed: set<Cell>, walks: map<Cell, seq<Cell>>)
    requires TreeInv(q, s, closed, walks)
    ensures q.start in s.costs && s.costs[q.start] == 0
  {
    hide WalkTo;
    assert Cost(walks[q.start]) == 0;
  }

  lemma ImproveKeepsTree(q: Query, s: Search, closed: set<Cell>, walks: map<Cell, seq<Cell>>,
                         current: Cell, next: Cell, cost: nat)
    requires TreeInv(q, s, closed, walks)
    requires current in closed && LegalStep(q.ground, current, next)
    requires cost == s.costs[current] + StepCost(current, next)
    requires next !in closed && next != q.start
    ensures TreeInv(q, Improve(q, s, current, next, cost), closed, walks[next := walks[current] + [next]])
  {
    ExtendWalk(q, walks[current], current, next);
    hide WalkTo, Octile, StepCost, Cost;
    assert next in q.ground.surface by { hide StepCost; }
  }

  lemma ImproveKeepsSoundEntry(q: Query, s: Search, closed: set<Cell>, current: Cell, next: Cell, cost: nat, e: Entry)
    requires next !in closed
    requires next in s.costs ==> cost < s.costs[next]
    requires forall prior <- s.open :: SoundEntry(q, s, closed, prior)
    requires e in Improve(q, s, current, next, cost).open
    ensures SoundEntry(q, Improve(q, s, current, next, cost), closed, e)
  {
    hide Octile;
    var pushed := Entry(cost + Octile(next, q.goal), cost, next);
    assert pushed in s.open ==> SoundEntry(q, s, closed, pushed);
    assert e == pushed || (e in s.open && SoundEntry(q, s, closed, e));
  }

  lemma ImproveKeepsOpen(q: Query, s: Search, closed: set<Cell>, current: Cell, next: Cell, cost: nat)
    requires OpenInv(q, s, closed)
    requires next !in closed
    requires next in s.costs ==> cost < s.costs[next]
    ensures OpenInv(q, Improve(q, s, current, next, cost), closed)
  {
    var s' := Improve(q, s, current, next, cost);
    forall e | e in s'.open ensures SoundEntry(q, s', closed, e) {
      ImproveKeepsSoundEntry(q, s, closed, current, next, cost, e);
    }
    hide SoundEntry, Octile;
    forall c | c in s'.costs && c !in closed ensures FreshEntry(q, s', c) in s'.open {
      assert c != next ==> FreshEntry(q, s', c) == FreshEntry(q, s, c);
    }
  }

  lemma ImproveKeepsInv(q: Query, s: Search, closed: set<Cell>, walks: map<Cell, seq<Cell>>,
                        current: Cell, next: Cell, cost: nat)
    requires Inv(q, s, closed, walks)
    requires current in closed && LegalStep(q.ground, current, next)
    requires cost == s.costs[current] + StepCost(current, next)
    requires next in s.costs ==> cost < s.costs[next]
    ensures next !in closed
    ensures Inv(q, Improve(q, s, current, next, cost), closed, walks[next := walks[current] + [next]])
  {
    ImprovedCellIsOpen(q, s, closed, walks, current, next);
    ImproveKeepsTree(q, s, closed, walks, current, next, cost);
    ImproveKeepsOpen(q, s, closed, current, next, cost);
    hide TreeInv, OpenInv, StepCost, Cheapest, NoDearerThanGoal, LegalStep;
    var s' := Improve(q, s, current, next, cost);
    assert forall c <- closed :: s'.costs[c] == s.costs[c];
  }

  lemma ImproveKeepsExpanded(q: Query, s: Search, current: Cell, next: Cell, cost: nat, a: Cell)
    requires a != next && Expanded(q, s, a)
    requires next in s.costs ==> cost <= s.costs[next]
    ensures Expanded(q, Improve(q, s, current, next, cost), a)
  {
    hide StepCost, LegalStep;
    var s' := Improve(q, s, current, next, cost);
    forall b | LegalStep(q.ground, a, b) ensures Relaxed(s', a, b) {
      assert Relaxed(s, a, b);
    }
  }

  const DIRECTIONS: seq<(int, int)> := [(-1, 0), (1, 0), (0, -1), (0, 1), (-1, -1), (-1, 1), (1, -1), (1, 1)]

  function Neighbour(current: Cell, k: nat): Cell
    requires k < 8
  {
    Cell(current.x + DIRECTIONS[k].0, current.z + DIRECTIONS[k].1)
  }

  lemma NeighboursComplete(ground: Ground, a: Cell, b: Cell)
    requires LegalStep(ground, a, b)
    ensures exists k: nat :: k < 8 && b == Neighbour(a, k)
  {
    var k := match (b.x - a.x, b.z - a.z)
      case (-1, 0) => 0
      case (1, 0) => 1
      case (0, -1) => 2
      case (0, 1) => 3
      case (-1, -1) => 4
      case (-1, 1) => 5
      case (1, -1) => 6
      case _ => 7;
    assert b == Neighbour(a, k);
  }

  // The corner-cutting test of the source agrees with LegalStep.
  lemma LegalNeighbour(ground: Ground, current: Cell, k: nat)
    requires k < 8
    ensures var (dx, dz) := DIRECTIONS[k]; var next := Neighbour(current, k);
      && LegalStep(ground, current, next) ==
           (&& ground.CanStep(current, next)
            && (dx != 0 && dz != 0 ==>
                  && ground.CanStep(current, Cell(current.x + dx, current.z))
                  && ground.CanStep(current, Cell(current.x, current.z + dz))))
      && (ground.CanStep(current, next) ==> next in ground.surface)
      && StepCost(current, next) == (if dx == 0 || dz == 0 then 10 else 14)
  {
  }

  lemma AllRelaxed(q: Query, s: Search, a: Cell)
    requires forall b :: LegalStep(q.ground, a, b) ==> Relaxed(s, a, b)
    ensures Expanded(q, s, a)
  {
  }

  lemma InvKeys(q: Query, s: Search, closed: set<Cell>, walks: map<Cell, seq<Cell>>)
    requires Inv(q, s, closed, walks)
    ensures closed <= s.costs.Keys == walks.Keys <= q.ground.surface.Keys
  {
  }

  lemma EstimateFits(cost: nat, limit: nat, step: nat, next: Cell, goal: Cell)
    requires cost <= limit && step <= 14 && limit + 14 + Octile(next, goal) < U32_RANGE
    ensures SaturatingAdd(cost, step) == cost + step
    ensures SaturatingAdd(cost + step, PathHeuristic(next, goal)) == cost + step + Octile(next, goal)
  {
    hide Octile;
  }

  // The cell being expanded keeps its cost, and its first few neighbours are relaxed.
  ghost predicate Expanding(q: Query, s: Search, closed: set<Cell>, walks: map<Cell, seq<Cell>>, current: Cell,
                            cost: nat, limit: nat, count: int)
  {
    && Inv(q, s, closed, walks)
    && current in closed && current in s.costs && s.costs[current] == cost <= limit
    && CostsWithin(s, limit + 14)
    && (forall c <- closed :: c != current ==> Expanded(q, s, c))
    && (forall j: nat :: j < count && j < 8 && LegalStep(q.ground, current, Neighbour(current, j)) ==>
          Relaxed(s, current, Neighbour(current, j)))
  }

  // A neighbour that is no legal step, or costs no less than it did, needs nothing.
  lemma ExpandSkips(q: Query, s: Search, closed: set<Cell>, walks: map<Cell, seq<Cell>>, current: Cell,
                    cost: nat, limit: nat, k: nat)
    requires k < 8 && Expanding(q, s, closed, walks, current, cost, limit, k)
    requires var next := Neighbour(current, k);
      LegalStep(q.ground, current, next) ==> next in s.costs && s.costs[next] <= cost + StepCost(current, next)
    ensures Expanding(q, s, closed, walks, current, cost, limit, k + 1)
  {
    hide Inv, CostsWithin, Expanded, LegalStep, Neighbour, StepCost;
  }

  lemma ExpandImproves(q: Query, s: Search, closed: set<Cell>, walks: map<Cell, seq<Cell>>, current: Cell,
                       cost: nat, limit: nat, k: nat)
    requires k < 8 && Expanding(q, s, closed, walks, current, cost, limit, k)
    requires var next := Neighbour(current, k);
      && LegalStep(q.ground, current, next)
      && (next in s.costs ==> cost + StepCost(current, next) < s.costs[next])
    ensures current in walks
    ensures var next := Neighbour(current, k);
      Expanding(q, Improve(q, s, current, next, cost + StepCost(current, next)), closed,
                walks[next := walks[current] + [next]], current, cost, limit, k + 1)
  {
    hide Inv, Expanded, LegalStep, Neighbour, Octile;
    var next := Neighbour(current, k);
    var nextCost := cost + StepCost(current, next);
    var s' := Improve(q, s, current, next, nextCost);
    InvKeys(q, s, closed, walks);
    ImproveKeepsInv(q, s, closed, walks, current, next, nextCost);
    forall c | c in closed && c != current ensures Expanded(q, s', c) {
      ImproveKeepsExpanded(q, s, current, next, nextCost, c);
    }
  }

  lemma ExpandEnds(q: Query, s: Search, closed: set<Cell>, walks: map<Cell, seq<Cell>>, current: Cell,
                   cost: nat, limit: nat)
    requires Expanding(q, s, closed, walks, current, cost, limit, 8)
    ensures Inv(q, s, closed, walks) && CostsWithin(s, limit + 14) && forall c <- closed :: Expanded(q, s, c)
  {
    hide Inv, CostsWithin, Expanded, Relaxed, LegalStep, Neighbour, Octile;
    forall b | LegalStep(q.ground, current, b) ensures Relaxed(s, current, b) {
      NeighboursComplete(q.ground, current, b);
    }
    AllRelaxed(q, s, current);
  }

  lemma ExpandStarts(q: Query, s: Search, closed: set<Cell>, walks: map<Cell, seq<Cell>>, current: Cell,
                     cost: nat, limit: nat)
    requires Inv(q, s, closed, walks)
    requires current in closed && current in s.costs && cost == s.costs[current] <= limit && CostsWithin(s, limit)
    requires forall c <- closed :: c != current ==> Expanded(q, s, c)
    ensures Expanding(q, s, closed, walks, current, cost, limit, 0)
  {
    hide Inv, Expanded, Relaxed, LegalStep, Neighbour, Octile;
  }

  // The tail of the loop body: a legal step that makes its cell cheaper is taken up.
  method RelaxNeighbour(q: Query, s: Search, current: Cell, cost: nat, limit: nat, k: nat, stepCost: nat,
                        ghost closed: set<Cell>, ghost walks: map<Cell, seq<Cell>>)
    returns (s': Search, ghost walks': map<Cell, seq<Cell>>)
    requires k < 8 && Expanding(q, s, closed, walks, current, cost, limit, k) && cost <= limit
    requires LegalStep(q.ground, current, Neighbour(current, k))
    requires stepCost == StepCost(current, Neighbour(current, k)) <= 14
    requires limit + 14 + Octile(Neighbour(current, k), q.goal) < U32_RANGE
    ensures Expanding(q, s', closed, walks', current, cost, limit, k + 1)
  {
    hide Inv, StepCost, LegalStep, Expanded, Expanding, Octile, CostsWithin, SaturatingAdd, PathHeuristic, Neighbour;
    s', walks' := s, walks;
    var next := Neighbour(current, k);
    EstimateFits(cost, limit, stepCost, next, q.goal);
    var nextCost := SaturatingAdd(cost, stepCost);
    if next !in s.costs || nextCost < s.costs[next] {
      ExpandImproves(q, s, closed, walks, current, cost, limit, k);
      var estimate := SaturatingAdd(nextCost, PathHeuristic(next, q.goal));
      s' := Search(s.open + multiset{Entry(estimate, nextCost, next)}, s.costs[next := nextCost],
                   s.cameFrom[next := current]);
      walks' := walks[next := walks[current] + [next]];
    } else {
      ExpandSkips(q, s, closed, walks, current, cost, limit, k);
    }
  }

  method Expand(q: Query, s: Search, current: Cell, cost: nat, limit: nat,
                ghost closed: set<Cell>, ghost walks: map<Cell, seq<Cell>>)
    returns (s': Search, ghost walks': map<Cell, seq<Cell>>)
    requires Inv(q, s, closed, walks)
    requires current in closed && current in s.costs && cost == s.costs[current] && cost <= limit
    requires CostsWithin(s, limit)
    requires forall cell <- q.ground.surface.Keys :: limit + 14 + Octile(cell, q.goal) < U32_RANGE
    requires forall c <- closed :: c != current ==> Expanded(q, s, c)
    ensures Inv(q, s', closed, walks')
    ensures forall c <- closed :: Expanded(q, s', c)
    ensures CostsWithin(s', limit + 14)
  {
    hide Inv, StepCost, LegalStep, Expanded, Expanding, Octile, CostsWithin, Ground.CanStep, Neighbour;
    s', walks' := s, walks;
    ExpandStarts(q, s, closed, walks, current, cost, limit);
    for k := 0 to 8
      invariant Expanding(q, s', closed, walks', current, cost, limit, k)
    {
      var (dx, dz) := DIRECTIONS[k];
      var next := Neighbour(current, k);
      LegalNeighbour(q.ground, current, k);
      if !q.ground.CanStep(current, next) {
        ExpandSkips(q, s', closed, walks', current, cost, limit, k);
        continue;
      }
      if dx != 0 && dz != 0
         && (!q.ground.CanStep(current, Cell(current.x + dx, current.z))
             || !q.ground.CanStep(current, Cell(current.x, current.z + dz))) {
        ExpandSkips(q, s', closed, walks', current, cost, limit, k);
        continue;
      }
      s', walks' := RelaxNeighbour(q, s', current, cost, limit, k, if dx == 0 || dz == 0 then 10 else 14,
                                   closed, walks');
    }
    ExpandEnds(q, s', closed, walks', current, cost, limit);
  }

  // ----- The search

  lemma StartInv(q: Query)
    requires q.start in q.ground.surface
    ensures Inv(q, Search(multiset{FreshEntry(q, Search(multiset{}, map[q.start := 0], map[]), q.start)},
                          map[q.start := 0], map[]), {}, map[q.start := [q.start]])
    ensures CostsWithin(Search(multiset{FreshEntry(q, Search(multiset{}, map[q.start := 0], map[]), q.start)},
                               map[q.start := 0], map[]), 0)
  {
  }

  lemma AllClosedMeansUnreachable(q: Query, s: Search, closed: set<Cell>, walks: map<Cell, seq<Cell>>)
    requires Inv(q, s, closed, walks)
    requires forall c <- closed :: Expanded(q, s, c)
    requires s.open == multiset{} && q.goal !in closed
    ensures forall walk :: !WalkTo(q, walk, q.goal)
  {
    forall walk ensures !WalkTo(q, walk, q.goal) {
      if WalkTo(q, walk, q.goal) {
        var _ := Frontier(q, s, closed, walks, walk, q.goal);
        assert false;
      }
    }
  }

  lemma ContenderWalk(q: Query, walk: seq<Cell>, cell: Cell)
    requires WalkTo(q, walk, cell) && NoDearerThanGoal(q, Cost(walk), cell)
    ensures Contender(q, cell)
  {
    hide Octile, WalkTo, OpenWalk, Cost;
    var open := OpenWalkExists(cell, q.goal);
    assert WalkTo(q, walk, cell) && OpenWalk(open, cell, q.goal);
  }

  lemma StrictContenderWalk(q: Query, bound: nat, cell: Cell) returns (walk: seq<Cell>)
    requires StrictContender(q, bound, cell)
    ensures WalkTo(q, walk, cell) && Cost(walk) + Octile(cell, q.goal) < bound
  {
    hide Octile, WalkTo, OpenWalk, Cost;
    var open;
    walk, open :| WalkTo(q, walk, cell) && OpenWalk(open, cell, q.goal) && Cost(walk) + Cost(open) < bound;
    OpenWalkCosts(open, cell, q.goal);
  }

  lemma ClosedAreContenders(q: Query, s: Search, closed: set<Cell>, walks: map<Cell, seq<Cell>>, maxVisited: nat)
    requires Inv(q, s, closed, walks) && |closed| > maxVisited
    ensures OverBudget(q, maxVisited)
  {
    forall c | c in closed ensures Contender(q, c) {
      assert WalkTo(q, walks[c], c);
      ContenderWalk(q, walks[c], c);
    }
  }

  lemma StrictContendersAreClosed(q: Query, s: Search, closed: set<Cell>, walks: map<Cell, seq<Cell>>,
                                  top: Entry, cells: set<Cell>)
    requires Inv(q, s, closed, walks)
    requires forall c <- closed :: Expanded(q, s, c)
    requires IsTop(s.open, top) && top.cell == q.goal && q.goal in s.costs && top.cost == s.costs[q.goal]
    requires forall cell <- cells :: StrictContender(q, top.cost, cell)
    ensures cells <= closed
  {
    assert SoundEntry(q, s, closed, top) && Octile(q.goal, q.goal) == 0;
    forall cell | cell in cells ensures cell in closed {
      var walk := StrictContenderWalk(q, top.cost, cell);
      var exit := Frontier(q, s, closed, walks, walk, cell);
      assert cell !in closed ==> !Before(FreshEntry(q, s, exit), top);
    }
  }

  lemma WalksStart(q: Query, s: Search, closed: set<Cell>, walks: map<Cell, seq<Cell>>)
    requires Inv(q, s, closed, walks) && q.goal in s.costs
    ensures s.costs.Keys == walks.Keys && q.start in walks && walks[q.start] == [q.start]
    ensures WalkTo(q, walks[q.goal], q.goal) && Cost(walks[q.goal]) == s.costs[q.goal]
  {
    hide WalkTo, Cost, OpenInv, ClosedInv;
  }

  lemma CameFrom(q: Query, s: Search, closed: set<Cell>, walks: map<Cell, seq<Cell>>, c: Cell)
    requires Inv(q, s, closed, walks) && c in s.costs && c != q.start
    ensures c in walks && c in s.cameFrom && s.cameFrom[c] in s.costs && s.cameFrom[c] in walks
    ensures walks[c] == walks[s.cameFrom[c]] + [c]
  {
    hide WalkTo, Cost, OpenInv, ClosedInv;
  }

  method Reconstruct(q: Query, s: Search, ghost closed: set<Cell>, ghost walks: map<Cell, seq<Cell>>)
    returns (path: Option<seq<Cell>>)
    requires Inv(q, s, closed, walks) && q.goal in s.costs
    ensures path.Some?
    ensures WalkTo(q, [q.start] + path.value, q.goal) && Cost([q.start] + path.value) == s.costs[q.goal]
  {
    hide Inv, WalkTo, Cost;
    WalksStart(q, s, closed, walks);
    var cells: seq<Cell> := [];
    var cursor := q.goal;
    assert walks[q.goal] + [] == walks[q.goal];
    while cursor != q.start
      invariant cursor in s.costs && walks[cursor] + cells == walks[q.goal]
      decreases |walks[cursor]|
    {
      CameFrom(q, s, closed, walks, cursor);
      assert walks[cursor] + cells == walks[s.cameFrom[cursor]] + ([cursor] + cells);
      cells := [cursor] + cells;
      if cursor !in s.cameFrom {
        return None;
      }
      cursor := s.cameFrom[cursor];
    }
    return Some(cells);
  }

  lemma StayingPut(q: Query)
    requires q.start == q.goal
    ensures WalkTo(q, [q.start] + [], q.goal) && Cheapest(q, Cost([q.start] + []), q.goal)
  {
    assert [q.start] + [] == [q.start];
  }

  method FindPath(ground: Ground, start: Cell, goal: Cell, maxVisited: nat) returns (path: Option<seq<Cell>>)
    requires FitsU32(Query(ground, start, goal), maxVisited)
    // A returned path is a legal walk to the goal, and no legal walk is cheaper.
    ensures path.Some? ==> var q := Query(ground, start, goal);
      && WalkTo(q, [start] + path.value, goal)
      && Cheapest(q, Cost([start] + path.value), goal)
    // The goal is missed only when it cannot be reached or the budget is too small for it.
    ensures path.None? ==> var q := Query(ground, start, goal);
      && start != goal
      && (|| start !in ground.surface
          || goal !in ground.surface
          || (forall walk :: !WalkTo(q, walk, goal))
          || OverBudget(q, maxVisited))
    // And the budget was enough for every cell that might have led to something cheaper.
    ensures path.Some? && start != goal ==> var q := Query(ground, start, goal);
      forall cells: set<Cell> ::
        (forall cell <- cells :: StrictContender(q, Cost([start] + path.value), cell)) ==> |cells| <= maxVisited
  {
    hide Inv, CostsWithin, Expanded, Octile, WalkTo, Cost, Cheapest, OverBudget, IsTop, StrictContender;
    if start == goal {
      StayingPut(Query(ground, start, goal));
      return Some([]);
    }
    if start !in ground.surface || goal !in ground.surface {
      return None;
    }
    var q := Query(ground, start, goal);
    var s := Search(multiset{Entry(PathHeuristic(start, goal), 0, start)}, map[start := 0], map[]);
    ghost var closed: set<Cell>, walks := {}, map[start := [start]];
    var visited := 0;
    assert PathHeuristic(start, goal) == Octile(start, goal);
    StartInv(q);
    while |s.open| > 0
      invariant Inv(q, s, closed, walks)
      invariant forall c <- closed :: Expanded(q, s, c)
      invariant goal !in closed && visited == |closed| <= maxVisited
      invariant CostsWithin(s, 14 * visited)
      decreases maxVisited - visited, |s.open|
    {
      var top, rest := Pop(s.open);
      PopKeepsInv(q, s, closed, walks, top, 14 * visited);
      if top.cost != s.costs[top.cell] {
        s := s.(open := rest);
        continue;
      }
      if top.cell == goal {
        path := Reconstruct(q, s, closed, walks);
        forall cells: set<Cell> | forall cell <- cells :: StrictContender(q, Cost([start] + path.value), cell)
          ensures |cells| <= maxVisited
        {
          StrictContendersAreClosed(q, s, closed, walks, top, cells);
          SubsetSize(cells, closed);
        }
        return;
      }
      visited := visited + 1;
      s := s.(open := rest);
      closed := closed + {top.cell};
      if visited > maxVisited {
        ClosedAreContenders(q, s, closed, walks, maxVisited);
        return None;
      }
      s, walks := Expand(q, s, top.cell, top.cost, 14 * (visited - 1), closed, walks);
    }
    AllClosedMeansUnreachable(q, s, closed, walks);
    return None;
  }

  lemma SubsetSize<T>(a: set<T>, b: set<T>)
    requires a <= b
    ensures |a| <= |b|
  {
    assert b == a + (b - a);
  }

  /** With loaded endpoints and a reachable region no larger than the budget, the search
      cannot run out of budget: FindPath then returns a path exactly when one exists. */
  lemma SmallRegionIsWithinBudget(q: Query, region: set<Cell>, maxVisited: nat)
    requires forall walk, cell :: WalkTo(q, walk, cell) ==> cell in region
    requires |region| <= maxVisited
    ensures !OverBudget(q, maxVisited)
  {
    forall cells: set<Cell> | forall cell <- cells :: Contender(q, cell)
      ensures |cells| <= maxVisited
    {
      assert cells <= region;
      SubsetSize(cells, region);
    }
  }
}
