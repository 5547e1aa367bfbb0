/** One 16-block section of a chunk on the wire (chunk.rs). */
module Sections {
  import opened Wrappers
  import opened Bits
  import opened Blocks
  import opened VarInt
  import opened Container

  const AIR_STATE := 0

  datatype TerrainStates = TerrainStates(surface: int, filler: int, foundation: int, bedrock: int)

  /** The override key: local x, height, local z. */
  type Key = (int, int, int)

  function BlockState(y: int, surface: int, terrain: TerrainStates): int {
    if y > surface then AIR_STATE
    else if y == surface then terrain.surface
    else if y == MIN_Y then terrain.bedrock
    else if y >= surface - 3 then terrain.filler
    else terrain.foundation
  }

  /** What a chunk's arrays and overrides say of one cell. */
  function CellState(surfaceY: seq<int>, terrain: TerrainStates, overrides: map<Key, int>, x: int, y: int, z: int): int
    requires |surfaceY| == 256 && 0 <= x < 16 && 0 <= z < 16
  {
    if (x, y, z) in overrides then overrides[(x, y, z)]
    else BlockState(y, surfaceY[z * 16 + x], terrain)
  }

  function SectionCell(section: int, surfaceY: seq<int>, terrain: TerrainStates, overrides: map<Key, int>, k: nat): int
    requires |surfaceY| == 256
  {
    CellState(surfaceY, terrain, overrides, k % 16, MIN_Y + section * 16 + k / 256, (k / 16) % 16)
  }

  function SectionStates(section: int, surfaceY: seq<int>, terrain: TerrainStates, overrides: map<Key, int>): seq<int>
    requires |surfaceY| == 256
  {
    seq(4096, k requires 0 <= k < 4096 => SectionCell(section, surfaceY, terrain, overrides, k))
  }

  function CountNonEmpty(states: seq<int>): (n: nat)
    ensures n <= |states|
  {
    if states == [] then 0
    else CountNonEmpty(states[..|states| - 1]) + (if states[|states| - 1] != AIR_STATE then 1 else 0)
  }

  ghost predicate StatesFit(terrain: TerrainStates, overrides: map<Key, int>) {
    && IsI32(terrain.surface) && IsI32(terrain.filler) && IsI32(terrain.foundation) && IsI32(terrain.bedrock)
    && forall key <- overrides :: IsI32(overrides[key])
  }

  lemma StatesEncodable(section: int, surfaceY: seq<int>, terrain: TerrainStates, overrides: map<Key, int>)
    requires |surfaceY| == 256 && StatesFit(terrain, overrides)
    ensures Encodable(SectionStates(section, surfaceY, terrain, overrides))
  {
    hide PaletteOf;
    PaletteIsDistinct(SectionStates(section, surfaceY, terrain, overrides));
  }

  ghost function SectionBytes(states: seq<int>, biomeId: int): seq<byte>
    requires Encodable(states)
  {
    BigEndian(CountNonEmpty(states), 2) + BigEndian(0, 2) + ContainerBytes(states, 4) + ([0] + Bytes(biomeId))
  }

  /** Reading a section back: skip the two counts, then the block container. */
  function ReadSection(source: seq<byte>): Option<Taken<seq<int>>> {
    if |source| < 4 then None else ReadContainer(source[4..], 4096)
  }

  /** The first count is how many cells are not air. */
  lemma {:induction false} CountIsOfCells(states: seq<int>)
    ensures CountNonEmpty(states) == |set i | 0 <= i < |states| && states[i] != AIR_STATE|
  {
    var cells := set i | 0 <= i < |states| && states[i] != AIR_STATE;
    if states == [] {
      assert cells == {};
    } else {
      var last, earlier := |states| - 1, states[..|states| - 1];
      CountIsOfCells(earlier);
      var before := set i | 0 <= i < |earlier| && earlier[i] != AIR_STATE;
      assert cells == if states[last] != AIR_STATE then before + {last} else before;
    }
  }

  lemma CountReadsBack(states: seq<int>, biomeId: int)
    requires Encodable(states) && |states| == 4096
    ensures |SectionBytes(states, biomeId)| >= 4
    ensures FromBigEndian(SectionBytes(states, biomeId)[..2])
         == |set i | 0 <= i < |states| && states[i] != AIR_STATE|
    ensures FromBigEndian(SectionBytes(states, biomeId)[2..4]) == 0
  {
    hide ContainerBytes, BigEndian, FromBigEndian, CountNonEmpty;
    CountIsOfCells(states);
    var count := CountNonEmpty(states);
    assert Pow2(16) == 0x1_0000 by {
      assert Pow2(8) == 256;
      Pow2Sum(8, 8);
    }
    hide Pow2;
    BigEndianReadsBack(count, 2);
    BigEndianReadsBack(0, 2);
    assert SectionBytes(states, biomeId)[..2] == BigEndian(count, 2);
    assert SectionBytes(states, biomeId)[2..4] == BigEndian(0, 2);
  }

  lemma SectionReadsBack(states: seq<int>, biomeId: int)
    requires Encodable(states) && |states| == 4096
    ensures ReadSection(SectionBytes(states, biomeId)) == Some(Taken(states, [0] + Bytes(biomeId)))
  {
    hide ReadContainer, ContainerBytes;
    var source := SectionBytes(states, biomeId);
    assert |BigEndian(CountNonEmpty(states), 2)| == 2 && |BigEndian(0, 2)| == 2;
    assert source[4..] == ContainerBytes(states, 4) + ([0] + Bytes(biomeId));
    ContainerReadsBack(states, 4, [0] + Bytes(biomeId));
  }

  // ----- The loops of the source

  lemma StateAt(section: int, surfaceY: seq<int>, terrain: TerrainStates, overrides: map<Key, int>, localX: int,
                localY: int, localZ: int)
    requires |surfaceY| == 256 && 0 <= localX < 16 && 0 <= localY < 16 && 0 <= localZ < 16
    ensures |SectionStates(section, surfaceY, terrain, overrides)| == 4096
    ensures SectionStates(section, surfaceY, terrain, overrides)[localY * 256 + localZ * 16 + localX]
      == CellState(surfaceY, terrain, overrides, localX, MIN_Y + section * 16 + localY, localZ)
  {
    hide CellState;
    IndexParts(localX, localY, localZ);
  }

  lemma IndexParts(localX: int, localY: int, localZ: int)
    requires 0 <= localX < 16 && 0 <= localY < 16 && 0 <= localZ < 16
    ensures var k := localY * 256 + localZ * 16 + localX;
      0 <= k < 4096 && k % 16 == localX && (k / 16) % 16 == localZ && k / 256 == localY
  {
  }

  method GatherStates(section: int, surfaceY: seq<int>, terrain: TerrainStates, overrides: map<Key, int>)
    returns (states: seq<int>)
    requires |surfaceY| == 256
    ensures states == SectionStates(section, surfaceY, terrain, overrides)
  {
    hide *;
    StateAt(section, surfaceY, terrain, overrides, 0, 0, 0);
    states := [];
    for localY := 0 to 16
      invariant |states| == localY * 256
      invariant states <= SectionStates(section, surfaceY, terrain, overrides)
    {
      for localZ := 0 to 16
        invariant |states| == localY * 256 + localZ * 16
        invariant states <= SectionStates(section, surfaceY, terrain, overrides)
      {
        for localX := 0 to 16
          invariant |states| == localY * 256 + localZ * 16 + localX
          invariant states <= SectionStates(section, surfaceY, terrain, overrides)
        {
          StateAt(section, surfaceY, terrain, overrides, localX, localY, localZ);
          states := states + [CellState(surfaceY, terrain, overrides, localX, MIN_Y + section * 16 + localY, localZ)];
        }
      }
    }
  }

  method EncodeSection(section: int, surfaceY: seq<int>, terrain: TerrainStates, overrides: map<Key, int>,
                       biomeId: int, output: seq<byte>) returns (extended: seq<byte>)
    requires |surfaceY| == 256 && StatesFit(terrain, overrides) && IsI32(biomeId)
    ensures Encodable(SectionStates(section, surfaceY, terrain, overrides))
    ensures extended == output + SectionBytes(SectionStates(section, surfaceY, terrain, overrides), biomeId)
  {
    hide ContainerBytes, BigEndian, SectionStates;
    StatesEncodable(section, surfaceY, terrain, overrides);
    var states := GatherStates(section, surfaceY, terrain, overrides);
    extended := output + BigEndian(CountNonEmpty(states), 2) + BigEndian(0, 2);
    extended := EncodePalettedContainer(states, 4, extended);
    extended := EncodeSingleValueContainer(biomeId, extended);
  }
}
