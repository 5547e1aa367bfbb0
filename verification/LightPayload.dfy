/** The masks and arrays of a chunk without sky light (chunk.rs). */
module LightPayload {
  import opened Bits
  import opened Blocks
  import opened VarInt
  import opened LightSpec
  import opened Light
  import Container

  // ----- Bit masks

  predicate HasBit(mask: nat, k: nat) {
    if k == 0 then mask % 2 == 1 else HasBit(mask / 2, k - 1)
  }

  // The bits of a that b does not have.
  function AndNot(a: nat, b: nat): nat {
    if a == 0 then 0 else 2 * AndNot(a / 2, b / 2) + (if a % 2 == 1 && b % 2 == 0 then 1 else 0)
  }

  lemma {:induction false} OrBits(a: nat, b: nat, k: nat)
    ensures HasBit(Or(a, b), k) <==> HasBit(a, k) || HasBit(b, k)
  {
    hide Or;
    OrHalves(a, b);
    if k > 0 {
      OrBits(a / 2, b / 2, k - 1);
    }
  }

  lemma {:induction false} NoBits(k: nat)
    ensures !HasBit(0, k)
  {
    if k > 0 {
      NoBits(k - 1);
    }
  }

  lemma {:induction false} AndNotBits(a: nat, b: nat, k: nat)
    ensures HasBit(AndNot(a, b), k) <==> HasBit(a, k) && !HasBit(b, k)
  {
    if a == 0 {
      NoBits(k);
    } else if k > 0 {
      AndNotBits(a / 2, b / 2, k - 1);
    }
  }

  lemma {:induction false} ShiftedOne(j: nat, k: nat)
    ensures HasBit(Pow2(j), k) <==> j == k
  {
    if j == 0 && k > 0 {
      NoBits(k - 1);
    } else if j > 0 && k > 0 {
      ShiftedOne(j - 1, k - 1);
    }
  }

  /** One bit for every index from first to last. */
  function BitRange(first: nat, last: int): nat
    decreases last - first
  {
    if last < first then 0 else Or(BitRange(first, last - 1), Pow2(last))
  }

  lemma {:induction false} BitRangeBits(first: nat, last: int, k: nat)
    ensures HasBit(BitRange(first, last), k) <==> first <= k <= last
    decreases last - first
  {
    if last < first {
      NoBits(k);
    } else {
      BitRangeBits(first, last - 1, k);
      OrBits(BitRange(first, last - 1), Pow2(last), k);
      ShiftedOne(last, k);
    }
  }

  predicate Sections(lit: seq<int>) {
    forall i :: 0 <= i < |lit| ==> -4 <= lit[i] < 20
  }

  // One bit for each lit section, the lowest possible section at bit 1.
  function BlockMask(lit: seq<int>): nat
    requires Sections(lit)
  {
    if lit == [] then 0 else Or(BlockMask(lit[..|lit| - 1]), Pow2(lit[|lit| - 1] + 5))
  }

  lemma {:induction false} BlockMaskBits(lit: seq<int>, k: nat)
    requires Sections(lit)
    ensures HasBit(BlockMask(lit), k) <==> k - 5 in lit
  {
    if lit == [] {
      NoBits(k);
    } else {
      var n := |lit| - 1;
      BlockMaskBits(lit[..n], k);
      OrBits(BlockMask(lit[..n]), Pow2(lit[n] + 5), k);
      ShiftedOne(lit[n] + 5, k);
      assert lit == lit[..n] + [lit[n]];
    }
  }

  // ----- Sections in order

  // The sections of the map from the lowest to the highest.
  function Ascending(keys: set<int>, low: int, high: int): seq<int>
    decreases high - low
  {
    if low >= high then []
    else (if low in keys then [low] else []) + Ascending(keys, low + 1, high)
  }

  predicate Increasing(keys: seq<int>) {
    forall i, j :: 0 <= i < j < |keys| ==> keys[i] < keys[j]
  }

  lemma {:induction false} AscendingHolds(keys: set<int>, low: int, high: int)
    ensures forall k :: k in Ascending(keys, low, high) <==> k in keys && low <= k < high
    decreases high - low
  {
    if low < high {
      AscendingHolds(keys, low + 1, high);
    }
  }

  lemma {:induction false} AscendingSorts(keys: set<int>, low: int, high: int)
    ensures Increasing(Ascending(keys, low, high))
    decreases high - low
  {
    if low < high {
      AscendingSorts(keys, low + 1, high);
      AscendingHolds(keys, low + 1, high);
      var rest := Ascending(keys, low + 1, high);
      assert forall j :: 0 <= j < |rest| ==> rest[j] in rest;
    }
  }

  predicate Listed(sections: LightMap, lit: seq<int>) {
    forall i :: 0 <= i < |lit| ==> lit[i] in sections
  }

  ghost predicate InRange(sections: LightMap) {
    forall section <- sections :: -4 <= section < 20
  }

  function LitSections(sections: LightMap): (lit: seq<int>)
    requires InRange(sections)
    ensures forall section :: section in lit <==> section in sections
    ensures Sections(lit) && Listed(sections, lit)
  {
    AscendingHolds(sections.Keys, -4, 20);
    var lit := Ascending(sections.Keys, -4, 20);
    assert forall i :: 0 <= i < |lit| ==> lit[i] in lit;
    lit
  }

  function EmptyMask(sections: LightMap): nat
    requires InRange(sections)
  {
    AndNot(BitRange(0, SECTION_COUNT + 1), BlockMask(LitSections(sections)))
  }

  lemma LitSectionsAscend(sections: LightMap)
    requires InRange(sections)
    ensures var lit := LitSections(sections); |lit| <= 24 && forall i, j :: 0 <= i < j < |lit| ==> lit[i] < lit[j]
  {
    AscendingSorts(sections.Keys, -4, 20);
    AscendingIsShort(sections.Keys, -4, 20);
  }

  /** The lit and the empty mask split the 26 light sections between them. */
  lemma MasksPartition(sections: LightMap, k: nat)
    requires InRange(sections)
    ensures HasBit(BlockMask(LitSections(sections)), k) <==> k - 5 in sections
    ensures HasBit(EmptyMask(sections), k) <==> k <= 25 && k - 5 !in sections
  {
    BlockMaskBits(LitSections(sections), k);
    BitRangeBits(0, SECTION_COUNT + 1, k);
    AndNotBits(BitRange(0, SECTION_COUNT + 1), BlockMask(LitSections(sections)), k);
  }

  // ----- The bytes

  function BitsetBytes(bits: nat): seq<byte> {
    if bits == 0 then Bytes(0) else Bytes(1) + Container.BigEndian(bits, 8)
  }

  function ArrayBytes(sections: LightMap, lit: seq<int>): seq<byte>
    requires Listed(sections, lit)
  {
    if lit == [] then []
    else ArrayBytes(sections, lit[..|lit| - 1]) + (Bytes(2048) + sections[lit[|lit| - 1]])
  }

  /** The light payload appended to an output: no sky light, the lit mask, no empty sky
      sections, the empty mask, no sky arrays, then the block-light arrays in mask order. */
  function WithPayload(output: seq<byte>, sections: LightMap): seq<byte>
    requires InRange(sections)
  {
    var lit := LitSections(sections);
    output + BitsetBytes(0) + BitsetBytes(BlockMask(lit)) + BitsetBytes(0) + BitsetBytes(EmptyMask(sections))
    + Bytes(0) + Bytes(|lit|) + ArrayBytes(sections, lit)
  }

  method EncodeBitset(bits: nat, output: seq<byte>) returns (extended: seq<byte>)
    ensures extended == output + BitsetBytes(bits)
  {
    hide Bytes, Container.BigEndian;
    if bits == 0 {
      extended := EncodeVarint(0, output);
    } else {
      extended := EncodeVarint(1, output);
      extended := extended + Container.BigEndian(bits, 8);
    }
  }

  method EncodeArrays(sections: LightMap, lit: seq<int>, output: seq<byte>) returns (extended: seq<byte>)
    requires Listed(sections, lit)
    ensures extended == output + ArrayBytes(sections, lit)
  {
    hide Bytes;
    extended := output;
    for k := 0 to |lit|
      invariant extended == output + ArrayBytes(sections, lit[..k])
    {
      assert lit[..k + 1][..k] == lit[..k] && lit[k] in lit;
      extended := EncodeVarint(2048, extended);
      extended := extended + sections[lit[k]];
      assert extended == output + (ArrayBytes(sections, lit[..k]) + (Bytes(2048) + sections[lit[k]]));
    }
    assert lit[..|lit|] == lit;
  }

  lemma LightSectionsInRange(sources: seq<LightSource>)
    requires LevelsFit(sources)
    ensures InRange(LightSections(sources))
  {
  }

  /** The payload is that of the light sections as defined by the sources. */
  method EncodeLightless(sources: seq<LightSource>, output: seq<byte>) returns (extended: seq<byte>)
    requires LevelsFit(sources)
    ensures InRange(LightSections(sources))
    ensures extended == WithPayload(output, LightSections(sources))
  {
    LightSectionsInRange(sources);
    hide LightSections, BitsetBytes, BlockMask, Bytes, ArrayBytes, LitSections, EmptyMask;
    var sections := FloodSources(sources);
    var lit := LitSections(sections);
    LitSectionsAscend(sections);
    extended := EncodeBitset(0, output);
    extended := EncodeBitset(BlockMask(lit), extended);
    extended := EncodeBitset(0, extended);
    extended := EncodeBitset(EmptyMask(sections), extended);
    extended := EncodeVarint(0, extended);
    extended := EncodeVarint(|lit|, extended);
    extended := EncodeArrays(sections, lit, extended);
  }

  lemma {:induction false} AscendingIsShort(keys: set<int>, low: int, high: int)
    requires low <= high
    ensures |Ascending(keys, low, high)| <= high - low
    decreases high - low
  {
    if low < high {
      AscendingIsShort(keys, low + 1, high);
    }
  }
}
