/** Block light from its definition: the brightest source at each cell, falling off by one
    per block of Manhattan distance; and the nibble arrays that hold it (chunk.rs). */
module LightSpec {
  import opened Arithmetic
  import opened Bits
  import opened Blocks

  const MAX_Y := 320
  const REACH := 14

  /** A light source, in chunk-local x and z; it may lie outside the chunk. */
  datatype LightSource = LightSource(x: int, y: int, z: int, level: nat)

  datatype Cell = Cell(x: int, y: int, z: int)

  function Distance(s: LightSource, c: Cell): nat {
    Abs(c.x - s.x) + Abs(c.y - s.y) + Abs(c.z - s.z)
  }

  function LightFrom(s: LightSource, c: Cell): nat {
    if s.level >= Distance(s, c) then s.level - Distance(s, c) else 0
  }

  /** The definition: the maximum over all sources. */
  function LightAt(sources: seq<LightSource>, c: Cell): nat {
    if sources == [] then 0
    else Max(LightAt(sources[..|sources| - 1], c), LightFrom(sources[|sources| - 1], c))
  }

  predicate InChunk(c: Cell) {
    0 <= c.x < 16 && 0 <= c.z < 16 && MIN_Y <= c.y < MAX_Y
  }

  ghost predicate LevelsFit(sources: seq<LightSource>) {
    forall s <- sources :: s.level <= 15
  }

  lemma {:induction false} LightFits(sources: seq<LightSource>, c: Cell)
    requires LevelsFit(sources)
    ensures LightAt(sources, c) <= 15
  {
    if sources != [] {
      LightFits(sources[..|sources| - 1], c);
      assert sources[|sources| - 1] in sources;
    }
  }

  /** A cell is at least as bright as a level exactly when some source is that much brighter than it is blocks
      away, counted along the axes. */
  lemma {:induction false} LitBySource(sources: seq<LightSource>, c: Cell, level: nat)
    requires level > 0
    ensures LightAt(sources, c) >= level <==>
      exists s <- sources :: s.level >= level + Abs(c.x - s.x) + Abs(c.y - s.y) + Abs(c.z - s.z)
  {
    if sources != [] {
      var earlier, last := sources[..|sources| - 1], sources[|sources| - 1];
      LitBySource(earlier, c, level);
      assert forall s :: s in sources <==> s in earlier || s == last;
    }
  }

  // ----- Nibble arrays

  type Nibbles = data: seq<byte> | |data| == 2048 witness seq(2048, _ => 0)

  function SectionOf(c: Cell): int { c.y / 16 }

  function IndexOf(c: Cell): (k: nat)
    requires InChunk(c)
    ensures k < 4096
  {
    (c.y % 16) * 256 + c.z * 16 + c.x
  }

  function CellOf(section: int, index: nat): Cell {
    Cell(index % 16, section * 16 + index / 256, (index / 16) % 16)
  }

  lemma CellIndex(c: Cell)
    requires InChunk(c)
    ensures CellOf(SectionOf(c), IndexOf(c)) == c && -4 <= SectionOf(c) < 20
  {
  }

  lemma IndexCell(section: int, index: nat)
    requires -4 <= section < 20 && index < 4096
    ensures InChunk(CellOf(section, index))
    ensures SectionOf(CellOf(section, index)) == section && IndexOf(CellOf(section, index)) == index
  {
  }

  // The even cells are in the low halves of the bytes, the odd ones in the high halves.
  function Nibble(data: Nibbles, index: nat): (n: nat)
    requires index < 4096
    ensures n < 16
  {
    if index % 2 == 0 then data[index / 2] % 16 else data[index / 2] / 16
  }

  // One half of a byte cleared and replaced by a level.
  function WithNibble(previous: byte, high: bool, level: nat): nat
    requires level < 16
  {
    if high then Or(previous % 16, level * 16) else Or(level, (previous / 16) * 16)
  }

  /** A nibble write puts its level and does not disturb its neighbour. */
  lemma NibbleWrite(previous: byte, high: bool, level: nat)
    requires level < 16
    ensures WithNibble(previous, high, level) < 256
    ensures WithNibble(previous, high, level) % 16 == if high then previous % 16 else level
    ensures WithNibble(previous, high, level) / 16 == if high then level else previous / 16
  {
    hide Or, Pow2;
    if high {
      OrNibbles(previous % 16, level);
    } else {
      OrNibbles(level, previous / 16);
    }
  }

  lemma OrNibbles(low: nat, high: nat)
    requires low < 16 && high < 16
    ensures Or(low, high * 16) == low + high * 16 < 256
    ensures Or(low, high * 16) % 16 == low && Or(low, high * 16) / 16 == high
  {
    hide Or;
    assert Pow2(4) == 16;
    OrDisjoint(low, high, 4);
  }

  // ----- The light sections of a chunk

  type LightMap = map<int, Nibbles>

  function Lit(sections: LightMap, c: Cell): nat
    requires InChunk(c)
  {
    if SectionOf(c) in sections then Nibble(sections[SectionOf(c)], IndexOf(c)) else 0
  }

  // A section gets an array as soon as some source's diamond reaches into it.
  ghost predicate Reaches(sources: seq<LightSource>, section: int) {
    exists s, c :: s in sources && InChunk(c) && SectionOf(c) == section && Distance(s, c) <= REACH
  }

  predicate WithinReach(sources: seq<LightSource>, s: LightSource, c: Cell) {
    s in sources && InChunk(c) && Abs(c.x - s.x) + Abs(c.y - s.y) + Abs(c.z - s.z) <= 14
  }

  /** A section has an array exactly when some source is within 14 blocks, along the axes, of one of its cells. */
  lemma SectionsReached(sources: seq<LightSource>, section: int)
    requires LevelsFit(sources)
    ensures section in LightSections(sources) <==>
      exists s, c :: WithinReach(sources, s, c) && c.y / 16 == section
  {
    hide LightByte, InChunk;
    if section in LightSections(sources) {
      var s, c :| s in sources && InChunk(c) && SectionOf(c) == section && Distance(s, c) <= REACH;
      assert WithinReach(sources, s, c) && c.y / 16 == section;
    }
    if s, c :| WithinReach(sources, s, c) && c.y / 16 == section {
      assert Distance(s, c) <= REACH && SectionOf(c) == section;
      CellIndex(c);
    }
  }

  function LightByte(sources: seq<LightSource>, section: int, k: nat): byte
    requires LevelsFit(sources)
  {
    LightFits(sources, CellOf(section, 2 * k));
    LightFits(sources, CellOf(section, 2 * k + 1));
    LightAt(sources, CellOf(section, 2 * k)) + 16 * LightAt(sources, CellOf(section, 2 * k + 1))
  }

  /** The light arrays by definition. */
  ghost function LightSections(sources: seq<LightSource>): LightMap
    requires LevelsFit(sources)
  {
    map section | -4 <= section < 20 && Reaches(sources, section) ::
      seq(2048, k requires 0 <= k < 2048 => LightByte(sources, section, k))
  }

  lemma ByteIsLight(sources: seq<LightSource>, sections: LightMap, section: int, k: nat)
    requires LevelsFit(sources) && section in sections && -4 <= section < 20 && k < 2048
    requires forall c :: InChunk(c) ==> Lit(sections, c) == LightAt(sources, c)
    ensures sections[section][k] == LightByte(sources, section, k)
  {
    hide LightAt, IndexOf, CellOf, SectionOf, InChunk;
    var low, high := CellOf(section, 2 * k), CellOf(section, 2 * k + 1);
    IndexCell(section, 2 * k);
    IndexCell(section, 2 * k + 1);
    assert Lit(sections, low) == sections[section][k] % 16;
    assert Lit(sections, high) == sections[section][k] / 16;
  }

  /** Arrays with the defined light at every cell are the defined arrays. */
  lemma LightSectionsUnique(sources: seq<LightSource>, sections: LightMap)
    requires LevelsFit(sources)
    requires forall section :: section in sections <==> -4 <= section < 20 && Reaches(sources, section)
    requires forall c :: InChunk(c) ==> Lit(sections, c) == LightAt(sources, c)
    ensures sections == LightSections(sources)
  {
    hide LightByte, Lit, LightAt, Reaches;
    forall section | section in sections ensures sections[section] == LightSections(sources)[section] {
      forall k | 0 <= k < 2048 ensures sections[section][k] == LightByte(sources, section, k) {
        ByteIsLight(sources, sections, section, k);
      }
    }
  }

  lemma {:induction false} DarkOutsideReach(sources: seq<LightSource>, c: Cell)
    requires LevelsFit(sources) && forall s <- sources :: Distance(s, c) > REACH
    ensures LightAt(sources, c) == 0
  {
    hide Distance;
    if sources != [] {
      assert forall s :: s in sources[..|sources| - 1] ==> s in sources;
      assert sources[|sources| - 1] in sources;
      DarkOutsideReach(sources[..|sources| - 1], c);
    }
  }

  lemma NibbleIsLight(sources: seq<LightSource>, section: int, index: nat)
    requires LevelsFit(sources) && section in LightSections(sources) && index < 4096
    ensures Nibble(LightSections(sources)[section], index) == LightAt(sources, CellOf(section, index))
  {
    hide LightAt, CellOf, LevelsFit;
    var k := index / 2;
    LightFits(sources, CellOf(section, 2 * k));
    LightFits(sources, CellOf(section, 2 * k + 1));
    assert LightSections(sources)[section][k] == LightByte(sources, section, k);
    assert index == 2 * k || index == 2 * k + 1;
  }

  /** The arrays by definition hold the defined light, and a section without one is dark. */
  lemma SectionsHoldLight(sources: seq<LightSource>, c: Cell)
    requires LevelsFit(sources) && InChunk(c)
    ensures Lit(LightSections(sources), c) == LightAt(sources, c)
  {
    hide Nibble, LightAt, LightByte, Distance, SectionOf, IndexOf, CellOf;
    CellIndex(c);
    if SectionOf(c) in LightSections(sources) {
      NibbleIsLight(sources, SectionOf(c), IndexOf(c));
    } else {
      DarkOutsideReach(sources, c);
    }
  }

  /** The byte and the half of it that hold a cell: 128 bytes to a layer, 8 to a row, the even cell in the low half. */
  lemma CellInArray(sections: LightMap, c: Cell)
    requires InChunk(c) && c.y / 16 in sections
    ensures var byte := sections[c.y / 16][(c.y % 16) * 128 + c.z * 8 + c.x / 2];
      Lit(sections, c) == if c.x % 2 == 0 then byte % 16 else byte / 16
  {
  }
}
