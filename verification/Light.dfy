/** encode_lightless (chunk.rs): flooding sources into nibble arrays, and the light payload. */
module Light {
  import opened Arithmetic
  import opened Bits
  import opened LightSpec

  // ----- Flooding one source

  /** One source's light was put into some cells; the others are as before. */
  ghost predicate Raised(s: LightSource, before: LightMap, after: LightMap, cells: iset<Cell>) {
    && (forall section :: section in after <==>
          section in before || exists c :: c in cells && InChunk(c) && SectionOf(c) == section)
    && (forall c :: InChunk(c) ==>
          Lit(after, c) == if c in cells then Max(Lit(before, c), LightFrom(s, c)) else Lit(before, c))
  }

  lemma RaisedNothing(s: LightSource, sections: LightMap, cells: iset<Cell>)
    requires cells == iset{}
    ensures Raised(s, sections, sections, cells)
  {
  }

  lemma RaiseMore(s: LightSource, a: LightMap, b: LightMap, c: LightMap,
                  first: iset<Cell>, second: iset<Cell>, both: iset<Cell>)
    requires Raised(s, a, b, first) && Raised(s, b, c, second)
    requires both == first + second
    ensures Raised(s, a, c, both)
  {
    hide InChunk, SectionOf, Lit, LightFrom;
  }

  lemma CellsApart(c: Cell, cell: Cell)
    requires InChunk(c) && InChunk(cell) && c != cell && SectionOf(c) == SectionOf(cell)
    ensures IndexOf(c) != IndexOf(cell)
  {
    CellIndex(c);
    CellIndex(cell);
    hide IndexOf, CellOf, SectionOf, InChunk;
  }

  // Only the cell's own nibble differs.
  lemma OneNibbleChanged(before: LightMap, after: LightMap, cell: Cell, data: Nibbles, level: nat)
    requires InChunk(cell) && level < 16
    requires data == if SectionOf(cell) in before then before[SectionOf(cell)] else seq(2048, _ => 0)
    requires var k := IndexOf(cell);
      after == before[SectionOf(cell) := data[k / 2 := WriteByte(data[k / 2], k % 2 == 1, level)]]
    ensures forall c :: InChunk(c) ==> Lit(after, c) == if c == cell then level else Lit(before, c)
  {
    hide WithNibble;
    var k := IndexOf(cell);
    NibbleWrite(data[k / 2], k % 2 == 1, level);
    forall c | InChunk(c) ensures Lit(after, c) == if c == cell then level else Lit(before, c) {
      if c != cell && SectionOf(c) == SectionOf(cell) {
        CellsApart(c, cell);
      }
      hide IndexOf, SectionOf, InChunk;
    }
  }

  function WriteByte(previous: byte, high: bool, level: nat): byte
    requires level < 16
  {
    NibbleWrite(previous, high, level);
    WithNibble(previous, high, level)
  }

  method PutLight(s: LightSource, sections: LightMap, cell: Cell) returns (raised: LightMap)
    requires InChunk(cell) && s.level <= 15
    ensures Raised(s, sections, raised, iset{cell})
  {
    var level := LightFrom(s, cell);
    var section, index := SectionOf(cell), IndexOf(cell);
    var data: Nibbles := if section in sections then sections[section] else seq(2048, _ => 0);
    var current := Nibble(data, index);
    var entered := sections[section := data];
    if level > current {
      raised := entered[section := data[index / 2 := WriteByte(data[index / 2], index % 2 == 1, level)]];
      OneNibbleChanged(sections, raised, cell, data, level);
    } else {
      raised := entered;
    }
    hide Nibble, IndexOf, LightFrom;
  }

  // The cells the three nested loops visit: a row, a layer, the whole diamond.
  ghost function RowCells(s: LightSource, dy: int, dz: int, dx: int): iset<Cell> {
    iset c: Cell | c.y == s.y + dy && c.z == s.z + dz && Distance(s, c) <= REACH && c.x < s.x + dx
  }

  ghost function LayerCells(s: LightSource, dy: int, dz: int): iset<Cell> {
    iset c: Cell | c.y == s.y + dy && Distance(s, c) <= REACH && c.z < s.z + dz
  }

  ghost function DiamondCells(s: LightSource, dy: int): iset<Cell> {
    iset c: Cell | Distance(s, c) <= REACH && c.y < s.y + dy
  }

  lemma RowEnds(s: LightSource, dy: int, dz: int)
    requires Abs(dy) + Abs(dz) <= REACH
    ensures var remaining := REACH - Abs(dy) - Abs(dz);
      && RowCells(s, dy, dz, -remaining) == iset{}
      && RowCells(s, dy, dz, remaining + 1) == RowCells(s, dy, dz, REACH + 1)
  {
  }

  lemma NextInRow(s: LightSource, dy: int, dz: int, dx: int)
    requires var remaining := REACH - Abs(dy) - Abs(dz); -remaining <= dx <= remaining
    ensures RowCells(s, dy, dz, dx + 1) == RowCells(s, dy, dz, dx) + iset{Cell(s.x + dx, s.y + dy, s.z + dz)}
  {
  }

  method FloodRow(s: LightSource, sections: LightMap, dy: int, dz: int) returns (raised: LightMap)
    requires s.level <= 15 && Abs(dy) + Abs(dz) <= REACH
    ensures Raised(s, sections, raised, RowCells(s, dy, dz, REACH + 1))
  {
    hide Raised, RowCells, InChunk;
    var remaining := REACH - Abs(dy) - Abs(dz);
    raised := sections;
    RowEnds(s, dy, dz);
    RaisedNothing(s, sections, RowCells(s, dy, dz, -remaining));
    for dx := -remaining to remaining + 1
      invariant Raised(s, sections, raised, RowCells(s, dy, dz, dx))
    {
      var cell := Cell(s.x + dx, s.y + dy, s.z + dz);
      ghost var before := raised;
      if InChunk(cell) {
        raised := PutLight(s, raised, cell);
      } else {
        SkipOutside(s, raised, cell);
      }
      NextInRow(s, dy, dz, dx);
      RaiseMore(s, sections, before, raised, RowCells(s, dy, dz, dx), iset{cell}, RowCells(s, dy, dz, dx + 1));
    }
  }

  lemma SkipOutside(s: LightSource, sections: LightMap, cell: Cell)
    requires !InChunk(cell)
    ensures Raised(s, sections, sections, iset{cell})
  {
  }

  method FloodLayer(s: LightSource, sections: LightMap, dy: int) returns (raised: LightMap)
    requires s.level <= 15 && Abs(dy) <= REACH
    ensures Raised(s, sections, raised, LayerCells(s, dy, REACH + 1))
  {
    var remaining := REACH - Abs(dy);
    raised := sections;
    RaisedNothing(s, sections, LayerCells(s, dy, -remaining));
    hide Raised;
    for dz := -remaining to remaining + 1
      invariant Raised(s, sections, raised, LayerCells(s, dy, dz))
    {
      ghost var before := raised;
      raised := FloodRow(s, raised, dy, dz);
      RaiseMore(s, sections, before, raised, LayerCells(s, dy, dz), RowCells(s, dy, dz, REACH + 1),
                LayerCells(s, dy, dz + 1));
    }
    assert LayerCells(s, dy, remaining + 1) == LayerCells(s, dy, REACH + 1);
  }

  method FloodSource(s: LightSource, sections: LightMap) returns (raised: LightMap)
    requires s.level <= 15
    ensures Raised(s, sections, raised, iset c: Cell | Distance(s, c) <= REACH)
  {
    raised := sections;
    RaisedNothing(s, sections, DiamondCells(s, -REACH));
    hide Raised;
    for dy := -REACH to REACH + 1
      invariant Raised(s, sections, raised, DiamondCells(s, dy))
    {
      ghost var before := raised;
      raised := FloodLayer(s, raised, dy);
      RaiseMore(s, sections, before, raised, DiamondCells(s, dy), LayerCells(s, dy, REACH + 1),
                DiamondCells(s, dy + 1));
    }
    assert DiamondCells(s, REACH + 1) == iset c: Cell | Distance(s, c) <= REACH;
  }

  // ----- All sources

  ghost predicate Flooded(sources: seq<LightSource>, sections: LightMap) {
    && (forall section :: section in sections <==> -4 <= section < 20 && Reaches(sources, section))
    && (forall c :: InChunk(c) ==> Lit(sections, c) == LightAt(sources, c))
  }

  lemma FloodOneMore(sources: seq<LightSource>, s: LightSource, before: LightMap, after: LightMap)
    requires Flooded(sources, before) && s.level <= 15
    requires Raised(s, before, after, iset c: Cell | Distance(s, c) <= REACH)
    ensures Flooded(sources + [s], after)
  {
    var more := sources + [s];
    assert more[..|more| - 1] == sources;
    forall section ensures section in after <==> -4 <= section < 20 && Reaches(more, section) {
      ReachesOneMore(sources, s, section);
    }
    hide Reaches;
  }

  lemma ReachesOneMore(sources: seq<LightSource>, s: LightSource, section: int)
    ensures Reaches(sources + [s], section) <==>
      Reaches(sources, section)
      || exists c :: c in (iset c: Cell | Distance(s, c) <= REACH) && InChunk(c) && SectionOf(c) == section
    ensures (exists c :: InChunk(c) && SectionOf(c) == section) ==> -4 <= section < 20
  {
    hide InChunk, SectionOf, Distance;
    if Reaches(sources, section) {
      var t, c :| t in sources && InChunk(c) && SectionOf(c) == section && Distance(t, c) <= REACH;
      assert t in sources + [s];
    }
    if exists c :: c in (iset c: Cell | Distance(s, c) <= REACH) && InChunk(c) && SectionOf(c) == section {
      var c :| c in (iset c: Cell | Distance(s, c) <= REACH) && InChunk(c) && SectionOf(c) == section;
      assert s in sources + [s] && Distance(s, c) <= REACH;
    }
    forall c | InChunk(c) && SectionOf(c) == section ensures -4 <= section < 20 {
      CellIndex(c);
    }
  }

  /** The flood gives every cell the light its definition does. */
  method FloodSources(sources: seq<LightSource>) returns (sections: LightMap)
    requires LevelsFit(sources)
    ensures sections == LightSections(sources)
    ensures forall c :: InChunk(c) ==> Lit(sections, c) == LightAt(sources, c)
  {
    sections := map[];
    for k := 0 to |sources|
      invariant Flooded(sources[..k], sections)
    {
      assert sources[k] in sources && sources[..k + 1] == sources[..k] + [sources[k]];
      hide Flooded, Raised;
      ghost var before := sections;
      sections := FloodSource(sources[k], sections);
      FloodOneMore(sources[..k], sources[k], before, sections);
    }
    assert sources[..|sources|] == sources;
    LightSectionsUnique(sources, sections);
  }
}
