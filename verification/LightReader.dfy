/** A reader of the light payload: the masks, and the arrays they assign to sections. */
module LightReader {
  import opened Wrappers
  import opened Bits
  import opened Blocks
  import opened VarInt
  import opened LightSpec
  import opened LightPayload
  import opened Container

  datatype LightData = LightData(skyMask: nat, blockMask: nat, emptySkyMask: nat, emptyBlockMask: nat,
                                 skyArrays: seq<Nibbles>, blockArrays: seq<Nibbles>)

  // ----- The reader

  // Longs make a bit set, the first one holding the lowest bits.
  function Word(longs: seq<nat>): nat {
    if longs == [] then 0 else longs[0] + Pow2(64) * Word(longs[1..])
  }

  function TakeVarInt(source: seq<byte>): Option<Taken<int>> {
    ParsedFits(source, 0);
    match Parse(source)
    case Invalid(_) => None
    case Value(value, length) => Some(Taken(value, source[length..]))
  }

  function TakeBitset(source: seq<byte>): Option<Taken<nat>> {
    match TakeVarInt(source)
    case None => None
    case Some(Taken(count, longs)) =>
      if count < 0 then None
      else match TakeLongs(longs, count)
        case None => None
        case Some(Taken(items, rest)) => Some(Taken(Word(items), rest))
  }

  function TakeArray(source: seq<byte>): Option<Taken<Nibbles>> {
    match TakeVarInt(source)
    case None => None
    case Some(Taken(length, data)) =>
      if length != 2048 || |data| < 2048 then None
      else
        var one: Nibbles := data[..2048];
        Some(Taken(one, data[2048..]))
  }

  function TakeArrays(source: seq<byte>, count: nat): Option<Taken<seq<Nibbles>>>
    decreases count
  {
    if count == 0 then Some(Taken([], source))
    else match TakeArray(source)
      case None => None
      case Some(Taken(one, tail)) =>
        match TakeArrays(tail, count - 1)
        case None => None
        case Some(Taken(arrays, rest)) => Some(Taken([one] + arrays, rest))
  }

  function TakeArrayList(source: seq<byte>): Option<Taken<seq<Nibbles>>> {
    match TakeVarInt(source)
    case None => None
    case Some(Taken(count, arrays)) => if count < 0 then None else TakeArrays(arrays, count)
  }

  function ReadLight(source: seq<byte>): Option<Taken<LightData>> {
    match TakeBitset(source)
    case None => None
    case Some(Taken(skyMask, afterSky)) =>
      match TakeBitset(afterSky)
      case None => None
      case Some(Taken(blockMask, afterBlock)) =>
        match TakeBitset(afterBlock)
        case None => None
        case Some(Taken(emptySky, afterEmptySky)) =>
          match TakeBitset(afterEmptySky)
          case None => None
          case Some(Taken(emptyBlock, afterMasks)) =>
            match TakeArrayList(afterMasks)
            case None => None
            case Some(Taken(skyArrays, afterSkyArrays)) =>
              match TakeArrayList(afterSkyArrays)
              case None => None
              case Some(Taken(blockArrays, rest)) =>
                Some(Taken(LightData(skyMask, blockMask, emptySky, emptyBlock, skyArrays, blockArrays), rest))
  }

  /** The arrays belong to the set bits of their mask in ascending order; bit 1 is the lowest section. */
  function Assigned(mask: nat, arrays: seq<Nibbles>, bit: nat): Option<LightMap>
    decreases SECTION_COUNT + 2 - bit
  {
    if bit >= SECTION_COUNT + 2 then (if arrays == [] then Some(map[]) else None)
    else if !HasBit(mask, bit) then Assigned(mask, arrays, bit + 1)
    else if arrays == [] then None
    else match Assigned(mask, arrays[1..], bit + 1)
      case None => None
      case Some(sections) => Some(sections[bit - 5 := arrays[0]])
  }

  // ----- The masks fit one long

  lemma {:induction false} OrBound(a: nat, b: nat, k: nat)
    requires a < Pow2(k) && b < Pow2(k)
    ensures Or(a, b) < Pow2(k)
  {
    if k > 0 && a > 0 && b > 0 {
      OrBound(a / 2, b / 2, k - 1);
    }
  }

  lemma {:induction false} AndNotBound(a: nat, b: nat)
    ensures AndNot(a, b) <= a
  {
    if a > 0 {
      AndNotBound(a / 2, b / 2);
    }
  }

  lemma {:induction false} BitRangeBound(first: nat, last: int, k: nat)
    requires last < k
    ensures BitRange(first, last) < Pow2(k)
    decreases last - first
  {
    if first <= last {
      BitRangeBound(first, last - 1, k);
      Pow2Monotone(last + 1, k);
      OrBound(BitRange(first, last - 1), Pow2(last), k);
    }
  }

  lemma {:induction false} BlockMaskBound(lit: seq<int>, k: nat)
    requires LightPayload.Sections(lit) && k >= 25
    ensures BlockMask(lit) < Pow2(k)
  {
    hide Or;
    if lit != [] {
      var n := |lit| - 1;
      BlockMaskBound(lit[..n], k);
      Pow2Monotone(lit[n] + 6, k);
      OrBound(BlockMask(lit[..n]), Pow2(lit[n] + 5), k);
    }
  }

  lemma MasksFitLong(sections: LightMap)
    requires LightPayload.InRange(sections)
    ensures BlockMask(LitSections(sections)) < Pow2(64) && EmptyMask(sections) < Pow2(64)
  {
    hide Pow2, Or, AndNot, BlockMask, BitRange, LitSections;
    BlockMaskBound(LitSections(sections), 64);
    BitRangeBound(0, SECTION_COUNT + 1, 64);
    AndNotBound(BitRange(0, SECTION_COUNT + 1), BlockMask(LitSections(sections)));
  }

  // ----- Each field reads back

  lemma TakeOneValue(value: int, rest: seq<byte>)
    requires IsI32(value)
    ensures TakeVarInt(Bytes(value) + rest) == Some(Taken(value, rest))
  {
    hide Parse, Bytes;
    ParseBytes(value, rest);
    assert (Bytes(value) + rest)[|Bytes(value)|..] == rest;
  }

  lemma TakeOneBitset(bits: nat, rest: seq<byte>)
    requires bits < Pow2(64)
    ensures TakeBitset(BitsetBytes(bits) + rest) == Some(Taken(bits, rest))
  {
    hide Pow2, Bytes, TakeVarInt, BigEndian;
    if bits == 0 {
      TakeOneValue(0, rest);
      assert Word([]) == 0;
    } else {
      assert BitsetBytes(bits) + rest == Bytes(1) + (BigEndian(bits, 8) + rest);
      TakeOneValue(1, BigEndian(bits, 8) + rest);
      TakeOneLong(bits, rest, 0);
      assert TakeLongs(rest, 0) == Some(Taken([], rest)) && [bits] + [] == [bits];
      assert [bits][1..] == [] && Word([bits]) == bits;
    }
  }

  function ArraysOf(sections: LightMap, lit: seq<int>): seq<Nibbles>
    requires Listed(sections, lit)
  {
    if lit == [] then [] else [sections[lit[0]]] + ArraysOf(sections, lit[1..])
  }

  lemma {:induction false} ArrayBytesFront(sections: LightMap, lit: seq<int>)
    requires Listed(sections, lit) && lit != []
    ensures ArrayBytes(sections, lit) == Bytes(2048) + sections[lit[0]] + ArrayBytes(sections, lit[1..])
  {
    hide Bytes;
    var n := |lit| - 1;
    if n > 0 {
      ArrayBytesFront(sections, lit[..n]);
      assert lit[..n][1..] == lit[1..][..n - 1];
    }
  }

  lemma TakeOneArray(one: Nibbles, rest: seq<byte>)
    ensures TakeArray(Bytes(2048) + one + rest) == Some(Taken(one, rest))
  {
    hide Bytes, TakeVarInt;
    assert Bytes(2048) + one + rest == Bytes(2048) + (one + rest);
    TakeOneValue(2048, one + rest);
    assert (one + rest)[..2048] == one && (one + rest)[2048..] == rest;
  }

  lemma {:induction false} ArraysReadBack(sections: LightMap, lit: seq<int>, rest: seq<byte>)
    requires Listed(sections, lit)
    ensures TakeArrays(ArrayBytes(sections, lit) + rest, |lit|) == Some(Taken(ArraysOf(sections, lit), rest))
  {
    hide Bytes, TakeArray;
    if lit == [] {
      assert ArrayBytes(sections, lit) + rest == rest;
    } else {
      ArrayBytesFront(sections, lit);
      var tail := ArrayBytes(sections, lit[1..]) + rest;
      assert ArrayBytes(sections, lit) + rest == Bytes(2048) + sections[lit[0]] + tail;
      TakeOneArray(sections[lit[0]], tail);
      ArraysReadBack(sections, lit[1..], rest);
    }
  }

  lemma ArrayListReadsBack(sections: LightMap, lit: seq<int>, rest: seq<byte>)
    requires Listed(sections, lit) && |lit| <= 24
    ensures TakeArrayList(Bytes(|lit|) + (ArrayBytes(sections, lit) + rest))
         == Some(Taken(ArraysOf(sections, lit), rest))
  {
    hide Bytes, TakeVarInt, TakeArrays, ArrayBytes, ArraysOf;
    TakeOneValue(|lit|, ArrayBytes(sections, lit) + rest);
    ArraysReadBack(sections, lit, rest);
  }

  lemma NoArrays(rest: seq<byte>)
    ensures TakeArrayList(Bytes(0) + rest) == Some(Taken([], rest))
  {
    hide Bytes, TakeVarInt;
    TakeOneValue(0, rest);
  }

  // ----- The arrays find their sections

  // The sections from one on.
  function From(sections: LightMap, low: int): LightMap {
    map section | section in sections && section >= low :: sections[section]
  }

  lemma FromNext(sections: LightMap, low: int)
    ensures low in sections ==> From(sections, low) == From(sections, low + 1)[low := sections[low]]
    ensures low !in sections ==> From(sections, low) == From(sections, low + 1)
    ensures (forall section <- sections :: section < low) ==> From(sections, low) == map[]
    ensures (forall section <- sections :: section >= low) ==> From(sections, low) == sections
  {
  }

  lemma AscendingNext(keys: set<int>, low: int, high: int)
    requires low !in keys
    ensures Ascending(keys, low, high) == Ascending(keys, low + 1, high)
  {
  }

  lemma {:induction false} ArraysFindSections(mask: nat, sections: LightMap, bit: nat)
    requires LightPayload.InRange(sections) && bit <= SECTION_COUNT + 2
    requires forall k: nat :: HasBit(mask, k) <==> k - 5 in sections
    requires Listed(sections, Ascending(sections.Keys, bit - 5, 20))
    ensures Assigned(mask, ArraysOf(sections, Ascending(sections.Keys, bit - 5, 20)), bit)
         == Some(From(sections, bit - 5))
    decreases SECTION_COUNT + 2 - bit
  {
    hide HasBit, From;
    var lit := Ascending(sections.Keys, bit - 5, 20);
    FromNext(sections, bit - 5);
    if bit < SECTION_COUNT + 2 {
      var rest := Ascending(sections.Keys, bit - 4, 20);
      assert HasBit(mask, bit) <==> bit - 5 in sections;
      if bit - 5 in sections {
        assert lit == [bit - 5] + rest && lit[1..] == rest;
        assert forall i :: 0 <= i < |rest| ==> rest[i] == lit[i + 1];
      } else {
        assert lit == rest;
      }
      ArraysFindSections(mask, sections, bit + 1);
    }
  }

  lemma SectionsFound(sections: LightMap)
    requires LightPayload.InRange(sections)
    ensures Assigned(BlockMask(LitSections(sections)), ArraysOf(sections, LitSections(sections)), 0) == Some(sections)
  {
    hide BlockMask, HasBit, ArraysOf, Assigned, Ascending, From;
    var mask := BlockMask(LitSections(sections));
    forall k: nat ensures HasBit(mask, k) <==> k - 5 in sections {
      MasksPartition(sections, k);
    }
    AscendingNext(sections.Keys, -5, 20);
    ArraysFindSections(mask, sections, 0);
    FromNext(sections, -5);
  }

  // ----- The light reads back

  lemma PayloadParts(output: seq<byte>, sections: LightMap, rest: seq<byte>)
    requires LightPayload.InRange(sections)
    ensures var lit := LitSections(sections);
      |output| <= |WithPayload(output, sections)|
      && WithPayload(output, sections)[|output|..] + rest
           == BitsetBytes(0) + (BitsetBytes(BlockMask(lit)) + (BitsetBytes(0) + (BitsetBytes(EmptyMask(sections))
              + (Bytes(0) + (Bytes(|lit|) + (ArrayBytes(sections, lit) + rest))))))
  {
    hide BitsetBytes, Bytes, ArrayBytes, BlockMask, EmptyMask, LitSections;
  }

  /** A reader of the masks and arrays gets back exactly the light sections, whatever follows them. */
  lemma SectionsReadBack(output: seq<byte>, sections: LightMap, rest: seq<byte>)
    requires LightPayload.InRange(sections)
    ensures |output| <= |WithPayload(output, sections)|
    ensures var lit := LitSections(sections);
      ReadLight(WithPayload(output, sections)[|output|..] + rest)
      == Some(Taken(LightData(0, BlockMask(lit), 0, EmptyMask(sections), [], ArraysOf(sections, lit)), rest))
  {
    hide BitsetBytes, Bytes, ArrayBytes, BlockMask, EmptyMask, LitSections, WithPayload, TakeBitset, TakeArrayList,
         ArraysOf, Pow2;
    PayloadParts(output, sections, rest);
    LitSectionsAscend(sections);
    MasksFitLong(sections);
    var lit := LitSections(sections);
    var blockArrays := Bytes(|lit|) + (ArrayBytes(sections, lit) + rest);
    var empty := BitsetBytes(0) + (BitsetBytes(EmptyMask(sections)) + (Bytes(0) + blockArrays));
    TakeOneBitset(0, BitsetBytes(BlockMask(lit)) + empty);
    TakeOneBitset(BlockMask(lit), empty);
    TakeOneBitset(0, BitsetBytes(EmptyMask(sections)) + (Bytes(0) + blockArrays));
    TakeOneBitset(EmptyMask(sections), Bytes(0) + blockArrays);
    NoArrays(blockArrays);
    ArrayListReadsBack(sections, lit, rest);
  }

  /** What the reader makes of a chunk's payload is the defined light at every cell of the chunk. */
  lemma PayloadReadsBack(sources: seq<LightSource>, output: seq<byte>, rest: seq<byte>, c: Cell)
    requires LevelsFit(sources) && InChunk(c)
    ensures LightPayload.InRange(LightSections(sources))
    ensures |output| <= |WithPayload(output, LightSections(sources))|
    ensures var read := ReadLight(WithPayload(output, LightSections(sources))[|output|..] + rest);
      && read.Some? && read.value.rest == rest
      && var found := Assigned(read.value.items.blockMask, read.value.items.blockArrays, 0);
      && found.Some? && Lit(found.value, c) == LightAt(sources, c)
      && (HasBit(read.value.items.emptyBlockMask, SectionOf(c) + 5) ==> LightAt(sources, c) == 0)
  {
    hide *;
    var sections := LightSections(sources);
    LightSectionsInRange(sources);
    SectionsReadBack(output, sections, rest);
    SectionsFound(sections);
    SectionsHoldLight(sources, c);
    EmptyIsDark(sections, c);
  }

  lemma EmptyIsDark(sections: LightMap, c: Cell)
    requires LightPayload.InRange(sections) && InChunk(c)
    ensures SectionOf(c) >= -4
    ensures HasBit(EmptyMask(sections), SectionOf(c) + 5) ==> Lit(sections, c) == 0
  {
    CellIndex(c);
    hide EmptyMask, HasBit;
    MasksPartition(sections, SectionOf(c) + 5);
  }
}
