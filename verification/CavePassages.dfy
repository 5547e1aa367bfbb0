/** Any two cave junctions of the infinite network are joined by a passage one can walk:
    face-adjacent positions, each with carved room for feet and head. */
module CavePassages {
  import opened Arithmetic
  import opened Blocks
  import opened Caves

  ghost predicate Standable(t: Terrain, p: BlockPosition) {
    Carved(t, p) && Carved(t, p.Up())
  }

  ghost predicate IsPassage(t: Terrain, path: seq<BlockPosition>) {
    && |path| > 0
    && Standable(t, path[|path| - 1])
    && (|path| > 1 ==>
          && IsPassage(t, path[..|path| - 1])
          && Adjacent(path[|path| - 2], path[|path| - 1]))
  }

  /** Step by step: every position of a passage and the one above it are carved, and each shares a face with
      the next. */
  lemma {:induction false} PassageStepByStep(t: Terrain, path: seq<BlockPosition>, k: nat)
    requires IsPassage(t, path) && k < |path|
    ensures Carved(t, path[k]) && Carved(t, path[k].Up())
    ensures k + 1 < |path| ==> Adjacent(path[k], path[k + 1])
  {
    hide Carved, Adjacent;
    if k + 1 < |path| {
      PassageStepByStep(t, path[..|path| - 1], k);
    }
  }

  ghost predicate Joined(t: Terrain, a: BlockPosition, b: BlockPosition) {
    exists path :: IsPassage(t, path) && path[0] == a && path[|path| - 1] == b
  }

  // ----- Passages compose

  lemma JoinedToSelf(t: Terrain, a: BlockPosition)
    requires Standable(t, a)
    ensures Joined(t, a, a)
  {
    assert IsPassage(t, [a]);
  }

  lemma Move(t: Terrain, a: BlockPosition, p: BlockPosition, q: BlockPosition)
    requires Joined(t, a, p) && Standable(t, q) && (p == q || Adjacent(p, q))
    ensures Joined(t, a, q)
  {
    if p != q {
      var path :| IsPassage(t, path) && path[0] == a && path[|path| - 1] == p;
      assert (path + [q])[..|path + [q]| - 1] == path;
      assert IsPassage(t, path + [q]);
    }
  }

  lemma {:induction false} AppendPassage(t: Terrain, a: BlockPosition, b: BlockPosition, path: seq<BlockPosition>)
    requires Joined(t, a, b) && IsPassage(t, path) && path[0] == b
    ensures Joined(t, a, path[|path| - 1])
    decreases |path|
  {
    if |path| > 1 {
      AppendPassage(t, a, b, path[..|path| - 1]);
      Move(t, a, path[|path| - 2], path[|path| - 1]);
    }
  }

  lemma JoinedThrough(t: Terrain, a: BlockPosition, b: BlockPosition, c: BlockPosition)
    requires Joined(t, a, b) && Joined(t, b, c)
    ensures Joined(t, a, c)
  {
    var path :| IsPassage(t, path) && path[0] == b && path[|path| - 1] == c;
    AppendPassage(t, a, b, path);
  }

  lemma {:induction false} ReversePassage(t: Terrain, path: seq<BlockPosition>)
    requires IsPassage(t, path)
    ensures Joined(t, path[|path| - 1], path[0])
    decreases |path|
  {
    JoinedToSelf(t, path[|path| - 1]);
    if |path| > 1 {
      ReversePassage(t, path[..|path| - 1]);
      var last, previous := path[|path| - 1], path[|path| - 2];
      assert Adjacent(last, previous);
      assert IsPassage(t, path[..|path| - 1]);
      Move(t, last, last, previous);
      JoinedThrough(t, last, previous, path[0]);
    }
  }

  lemma JoinedBack(t: Terrain, a: BlockPosition, b: BlockPosition)
    requires Joined(t, a, b)
    ensures Joined(t, b, a)
  {
    var path :| IsPassage(t, path) && path[0] == a && path[|path| - 1] == b;
    ReversePassage(t, path);
  }

  // ----- One tunnel

  // The junction a cell's east or south tunnel leads to.
  function TunnelEnd(t: Terrain, cellX: int, cellZ: int, east: bool): BlockPosition {
    if east then CaveNetworkNode(t, cellX + 1, cellZ) else CaveNetworkNode(t, cellX, cellZ + 1)
  }

  /** Around every tunnel sample one block of slack on each axis leaves room to stand:
      the roof and floor clips never cut it. */
  lemma RoomAroundSample(t: Terrain, cellX: int, cellZ: int, east: bool, step: nat, p: BlockPosition)
    requires SurfaceClamped(t)
    requires var start, end := CaveNetworkNode(t, cellX, cellZ), TunnelEnd(t, cellX, cellZ, east);
      && step <= TunnelSteps(start, end)
      && var c := TunnelSample(start, end, step);
         -1 <= p.x - c.x <= 1 && -1 <= p.y - c.y <= 1 && -1 <= p.z - c.z <= 1
    ensures Standable(t, p)
  {
    var start, end := CaveNetworkNode(t, cellX, cellZ), TunnelEnd(t, cellX, cellZ, east);
    var c := TunnelSample(start, end, step);
    SampleWithin(start, end, step);
    SmallOffsetsInBall(c, p);
    assert InTunnel(start, end, p) && InTunnel(start, end, p.Up());
    assert CellReaches(t, cellX, cellZ, p) && CellReaches(t, cellX, cellZ, p.Up());
  }

  lemma SmallOffsetsInBall(c: BlockPosition, p: BlockPosition)
    requires -1 <= p.x - c.x <= 1 && -1 <= p.y - c.y <= 1 && -1 <= p.z - c.z <= 1
    ensures InBall(c, CAVE_TUNNEL_RADIUS, p) && InBall(c, CAVE_TUNNEL_RADIUS, p.Up())
  {
    SmallSquare(p.x - c.x);
    SmallSquare(p.y - c.y);
    SmallSquare(p.y + 1 - c.y);
    SmallSquare(p.z - c.z);
  }

  lemma SmallSquare(n: int)
    requires -2 <= n <= 2
    ensures Square(n) <= 4 && (-1 <= n <= 1 ==> Square(n) <= 1)
  {
  }

  lemma OneSampleFurther(t: Terrain, cellX: int, cellZ: int, east: bool, step: nat)
    requires SurfaceClamped(t)
    requires step + 1 <= TunnelSteps(CaveNetworkNode(t, cellX, cellZ), TunnelEnd(t, cellX, cellZ, east))
    requires Joined(t, CaveNetworkNode(t, cellX, cellZ),
                    TunnelSample(CaveNetworkNode(t, cellX, cellZ), TunnelEnd(t, cellX, cellZ, east), step))
    ensures Joined(t, CaveNetworkNode(t, cellX, cellZ),
                   TunnelSample(CaveNetworkNode(t, cellX, cellZ), TunnelEnd(t, cellX, cellZ, east), step + 1))
  {
    hide CaveNetworkNode, TunnelEnd, TunnelSteps, TunnelSample, SurfaceClamped, Standable, Joined;
    var start, end := CaveNetworkNode(t, cellX, cellZ), TunnelEnd(t, cellX, cellZ, east);
    SamplesAreClose(start, end, step);
    var a, b := TunnelSample(start, end, step), TunnelSample(start, end, step + 1);
    var p, q := a.(x := b.x), a.(x := b.x, z := b.z);
    RoomAroundSample(t, cellX, cellZ, east, step, p);
    RoomAroundSample(t, cellX, cellZ, east, step, q);
    RoomAroundSample(t, cellX, cellZ, east, step, b);
    Move(t, start, a, p);
    Move(t, start, p, q);
    Move(t, start, q, b);
  }

  lemma {:induction false} AlongTunnel(t: Terrain, cellX: int, cellZ: int, east: bool, step: nat)
    requires SurfaceClamped(t)
    requires step <= TunnelSteps(CaveNetworkNode(t, cellX, cellZ), TunnelEnd(t, cellX, cellZ, east))
    ensures Joined(t, CaveNetworkNode(t, cellX, cellZ),
                   TunnelSample(CaveNetworkNode(t, cellX, cellZ), TunnelEnd(t, cellX, cellZ, east), step))
  {
    hide CaveNetworkNode, TunnelEnd, TunnelSteps, TunnelSample, SurfaceClamped, Standable, Joined;
    var start, end := CaveNetworkNode(t, cellX, cellZ), TunnelEnd(t, cellX, cellZ, east);
    if step == 0 {
      SampleEnds(start, end);
      RoomAroundSample(t, cellX, cellZ, east, 0, start);
      JoinedToSelf(t, start);
    } else {
      AlongTunnel(t, cellX, cellZ, east, step - 1);
      OneSampleFurther(t, cellX, cellZ, east, step - 1);
    }
  }

  lemma NeighboursJoined(t: Terrain, cellX: int, cellZ: int, east: bool)
    requires SurfaceClamped(t)
    ensures Joined(t, CaveNetworkNode(t, cellX, cellZ), TunnelEnd(t, cellX, cellZ, east))
  {
    var start, end := CaveNetworkNode(t, cellX, cellZ), TunnelEnd(t, cellX, cellZ, east);
    AlongTunnel(t, cellX, cellZ, east, TunnelSteps(start, end));
    SampleEnds(start, end);
  }

  // ----- The whole network

  /** For every seed, the junctions of any two cells of the infinite grid are joined. */
  lemma {:induction false} AnyTwoJunctionsJoined(t: Terrain, fromX: int, fromZ: int, toX: int, toZ: int)
    requires SurfaceClamped(t)
    ensures Joined(t, CaveNetworkNode(t, fromX, fromZ), CaveNetworkNode(t, toX, toZ))
    decreases Abs(toX - fromX) + Abs(toZ - fromZ)
  {
    var from, to := CaveNetworkNode(t, fromX, fromZ), CaveNetworkNode(t, toX, toZ);
    if fromX == toX && fromZ == toZ {
      NeighboursJoined(t, fromX, fromZ, true);
      JoinedBack(t, from, TunnelEnd(t, fromX, fromZ, true));
      JoinedThrough(t, from, TunnelEnd(t, fromX, fromZ, true), from);
    } else {
      var east := fromX != toX;
      var nextX := if fromX < toX then fromX + 1 else if fromX > toX then fromX - 1 else fromX;
      var nextZ := if east then fromZ else if fromZ < toZ then fromZ + 1 else fromZ - 1;
      var next := CaveNetworkNode(t, nextX, nextZ);
      if nextX > fromX || nextZ > fromZ {
        NeighboursJoined(t, fromX, fromZ, east);
      } else {
        NeighboursJoined(t, nextX, nextZ, east);
        JoinedBack(t, next, from);
      }
      AnyTwoJunctionsJoined(t, nextX, nextZ, toX, toZ);
      JoinedThrough(t, from, next, to);
    }
  }
}
