/** The bytes of a paletted container (chunk.rs), and a reader that takes them back. */
module Container {
  import opened Wrappers
  import opened Arithmetic
  import opened Bits
  import opened VarInt
  import opened Palette

  // ----- The palette: distinct values in order of first appearance

  function PaletteOf(values: seq<int>): (p: seq<int>)
    ensures forall v :: v in p <==> v in values
  {
    if values == [] then []
    else
      var n := |values| - 1;
      var earlier := PaletteOf(values[..n]);
      assert values == values[..n] + [values[n]];
      if values[n] in earlier then earlier else earlier + [values[n]]
  }

  predicate Distinct(palette: seq<int>) {
    forall i, j :: 0 <= i < j < |palette| ==> palette[i] != palette[j]
  }

  lemma {:induction false} PaletteIsDistinct(values: seq<int>)
    ensures Distinct(PaletteOf(values)) && |PaletteOf(values)| <= |values|
    ensures values != [] ==> PaletteOf(values) != []
  {
    if values != [] {
      PaletteIsDistinct(values[..|values| - 1]);
      assert values[0] in values;
    }
  }

  function IndexOf(palette: seq<int>, value: int): (k: nat)
    requires value in palette
    ensures k < |palette| && palette[k] == value
  {
    if palette[0] == value then 0 else 1 + IndexOf(palette[1..], value)
  }

  lemma OnlyIndex(palette: seq<int>, value: int, k: nat)
    requires Distinct(palette) && k < |palette| && palette[k] == value
    ensures IndexOf(palette, value) == k
  {
  }

  function Indices(values: seq<int>): seq<nat> {
    seq(|values|, i requires 0 <= i < |values| => IndexOf(PaletteOf(values), values[i]))
  }

  function BitLength(n: nat): nat {
    if n == 0 then 0 else 1 + BitLength(n / 2)
  }

  lemma {:induction false} BitLengthSuffices(n: nat, limit: nat)
    ensures n < Pow2(BitLength(n))
    ensures n < Pow2(limit) ==> BitLength(n) <= limit
  {
    if n > 0 {
      BitLengthSuffices(n / 2, if limit > 0 then limit - 1 else 0);
    }
  }

  function ContainerBits(paletteSize: nat, minimumBits: nat): nat
    requires paletteSize >= 1
  {
    var needed := BitLength(paletteSize - 1);
    if needed >= minimumBits then needed else minimumBits
  }

  /** The width is the least one, from the minimum on, that tells all entries of the palette apart. */
  lemma WidthIsLeast(paletteSize: nat, minimumBits: nat)
    requires paletteSize >= 1
    ensures var bits := ContainerBits(paletteSize, minimumBits);
      && bits >= minimumBits && paletteSize <= Pow2(bits)
      && (bits > minimumBits ==> paletteSize > Pow2(bits - 1))
  {
    var bits := ContainerBits(paletteSize, minimumBits);
    BitLengthSuffices(paletteSize - 1, if bits > 0 then bits - 1 else 0);
    Pow2Monotone(BitLength(paletteSize - 1), bits);
  }

  /** Values join the palette in the order they first appear. */
  lemma {:induction false} PaletteInOrder(values: seq<int>, n: nat)
    requires n <= |values|
    ensures PaletteOf(values[..n]) <= PaletteOf(values)
  {
    if n < |values| {
      var shorter := values[..|values| - 1];
      PaletteInOrder(shorter, n);
      assert shorter[..n] == values[..n];
    } else {
      assert values[..n] == values;
    }
  }

  // ----- The bytes

  function BigEndian(word: nat, count: nat): seq<byte> {
    if count == 0 then [] else BigEndian(word / 256, count - 1) + [word % 256]
  }

  function LongBytes(longs: seq<nat>): seq<byte> {
    if longs == [] then [] else BigEndian(longs[0], 8) + LongBytes(longs[1..])
  }

  function VarIntBytes(values: seq<int>): seq<byte> {
    if values == [] then [] else Bytes(values[0]) + VarIntBytes(values[1..])
  }

  ghost predicate Encodable(values: seq<int>) {
    values != [] && IsI32(|PaletteOf(values)|) && forall v <- values :: IsI32(v)
  }

  lemma BitsFit(values: seq<int>, minimumBits: nat)
    requires Encodable(values) && 1 <= minimumBits <= 32
    ensures PaletteOf(values) != []
    ensures 1 <= ContainerBits(|PaletteOf(values)|, minimumBits) <= 32
    ensures |PaletteOf(values)| <= Pow2(ContainerBits(|PaletteOf(values)|, minimumBits))
  {
    PaletteIsDistinct(values);
    var size := |PaletteOf(values)|;
    Pow2Of31();
    BitLengthSuffices(size - 1, 31);
    Pow2Monotone(BitLength(size - 1), ContainerBits(size, minimumBits));
  }

  ghost function ContainerBytes(values: seq<int>, minimumBits: nat): seq<byte>
    requires Encodable(values) && 1 <= minimumBits <= 32
  {
    BitsFit(values, minimumBits);
    var palette := PaletteOf(values);
    if |palette| == 1 then [0] + Bytes(palette[0])
    else
      var bits := ContainerBits(|palette|, minimumBits);
      [bits] + Bytes(|palette|) + VarIntBytes(palette) + LongBytes(PackValues(Indices(values), bits))
  }

  // ----- The reader

  datatype Taken<T> = Taken(items: T, rest: seq<byte>)

  function TakeLongs(source: seq<byte>, count: nat): Option<Taken<seq<nat>>> {
    if count == 0 then Some(Taken([], source))
    else if |source| < 8 then None
    else match TakeLongs(source[8..], count - 1)
      case Some(Taken(longs, rest)) => Some(Taken([FromBigEndian(source[..8])] + longs, rest))
      case None => None
  }

  function TakeVarInts(source: seq<byte>, count: nat): Option<Taken<seq<int>>>
    decreases count
  {
    if count == 0 then Some(Taken([], source))
    else
      ParsedFits(source, 0);
      match Parse(source)
      case Invalid(_) => None
      case Value(value, length) =>
        match TakeVarInts(source[length..], count - 1)
        case Some(Taken(values, rest)) => Some(Taken([value] + values, rest))
        case None => None
  }

  function ReadContainer(source: seq<byte>, count: nat): Option<Taken<seq<int>>> {
    if source == [] then None
    else
      var bits := source[0];
      ParsedFits(source[1..], 0);
      match Parse(source[1..])
      case Invalid(_) => None
      case Value(value, length) =>
        var rest := source[1..][length..];
        if bits == 0 then Some(Taken(seq(count, _ => value), rest))
        else if bits > 64 || value < 0 then None
        else match TakeVarInts(rest, value)
          case None => None
          case Some(Taken(palette, afterPalette)) =>
            match TakeLongs(afterPalette, LongCount(count, bits))
            case None => None
            case Some(Taken(longs, afterLongs)) =>
              if InRange(longs, bits, count, |palette|)
              then Some(Taken(LookUp(palette, longs, bits, count), afterLongs))
              else None
  }

  predicate InRange(longs: seq<nat>, bits: nat, count: nat, size: nat)
    requires 1 <= bits <= 64
  {
    forall k: nat :: k < count ==> k / PerLong(bits) < |longs| && EntryAt(longs, bits, k) < size
  }

  function LookUp(palette: seq<int>, longs: seq<nat>, bits: nat, count: nat): seq<int>
    requires 1 <= bits <= 64 && InRange(longs, bits, count, |palette|)
  {
    seq(count, k requires 0 <= k < count => palette[EntryAt(longs, bits, k)])
  }

  // ----- The round trip

  lemma {:induction false} BigEndianReadsBack(word: nat, count: nat)
    requires word < Pow2(8 * count)
    ensures |BigEndian(word, count)| == count && FromBigEndian(BigEndian(word, count)) == word
  {
    if count > 0 {
      Pow2Sum(8, 8 * (count - 1));
      assert Pow2(8) == 256;
      BigEndianReadsBack(word / 256, count - 1);
      assert BigEndian(word, count)[..count - 1] == BigEndian(word / 256, count - 1);
    }
  }

  lemma TakeOneLong(long: nat, tail: seq<byte>, count: nat)
    requires long < Pow2(64)
    ensures TakeLongs(BigEndian(long, 8) + tail, count + 1)
      == (match TakeLongs(tail, count)
          case Some(Taken(longs, rest)) => Some(Taken([long] + longs, rest))
          case None => None)
  {
    hide Pow2, FromBigEndian, BigEndian;
    BigEndianReadsBack(long, 8);
    var source := BigEndian(long, 8) + tail;
    assert source[..8] == BigEndian(long, 8) && source[8..] == tail;
  }

  lemma SplitLongBytes(longs: seq<nat>, rest: seq<byte>)
    ensures longs == [] ==> TakeLongs(LongBytes(longs) + rest, 0) == Some(Taken([], rest))
    ensures longs != [] ==> LongBytes(longs) + rest == BigEndian(longs[0], 8) + (LongBytes(longs[1..]) + rest)
  {
    hide BigEndian;
    assert longs == [] ==> LongBytes(longs) + rest == rest;
  }

  lemma {:induction false} LongsReadBack(longs: seq<nat>, rest: seq<byte>)
    requires forall long <- longs :: long < Pow2(64)
    ensures TakeLongs(LongBytes(longs) + rest, |longs|) == Some(Taken(longs, rest))
  {
    hide *;
    SplitLongBytes(longs, rest);
    if longs != [] {
      assert longs[0] in longs && forall long :: long in longs[1..] ==> long in longs;
      TakeOneLong(longs[0], LongBytes(longs[1..]) + rest, |longs| - 1);
      LongsReadBack(longs[1..], rest);
      assert [longs[0]] + longs[1..] == longs;
    }
  }

  lemma SplitVarIntBytes(values: seq<int>, rest: seq<byte>)
    ensures values == [] ==> TakeVarInts(VarIntBytes(values) + rest, 0) == Some(Taken([], rest))
    ensures values != [] ==> VarIntBytes(values) + rest == Bytes(values[0]) + (VarIntBytes(values[1..]) + rest)
  {
    hide Bytes, Parse;
    assert values == [] ==> VarIntBytes(values) + rest == rest;
  }

  lemma TakeOneVarInt(value: int, tail: seq<byte>, count: nat)
    requires IsI32(value)
    ensures TakeVarInts(Bytes(value) + tail, count + 1)
      == (match TakeVarInts(tail, count)
          case Some(Taken(values, rest)) => Some(Taken([value] + values, rest))
          case None => None)
  {
    hide Parse, Bytes;
    ParseBytes(value, tail);
    assert (Bytes(value) + tail)[|Bytes(value)|..] == tail;
  }

  lemma {:induction false} VarIntsReadBack(values: seq<int>, rest: seq<byte>)
    requires forall v <- values :: IsI32(v)
    ensures TakeVarInts(VarIntBytes(values) + rest, |values|) == Some(Taken(values, rest))
  {
    hide *;
    SplitVarIntBytes(values, rest);
    if values != [] {
      assert values[0] in values && forall v :: v in values[1..] ==> v in values;
      TakeOneVarInt(values[0], VarIntBytes(values[1..]) + rest, |values| - 1);
      VarIntsReadBack(values[1..], rest);
      assert [values[0]] + values[1..] == values;
    }
  }

  lemma IndicesFit(values: seq<int>, bits: nat)
    requires |PaletteOf(values)| <= Pow2(bits)
    ensures forall i <- Indices(values) :: i < Pow2(bits)
  {
    hide Pow2;
  }

  /** Every list of states comes back from its container, whatever follows it. */
  lemma ContainerReadsBack(values: seq<int>, minimumBits: nat, rest: seq<byte>)
    requires Encodable(values) && 1 <= minimumBits <= 32
    ensures ReadContainer(ContainerBytes(values, minimumBits) + rest, |values|) == Some(Taken(values, rest))
  {
    BitsFit(values, minimumBits);
    var palette := PaletteOf(values);
    var source := ContainerBytes(values, minimumBits) + rest;
    if |palette| == 1 {
      assert ContainerBytes(values, minimumBits) == [0] + Bytes(palette[0]);
      assert source[1..] == Bytes(palette[0]) + rest;
      assert palette[0] in palette;
      ParseBytes(palette[0], rest);
      assert source[1..][|Bytes(palette[0])|..] == rest;
      forall k | 0 <= k < |values| ensures values[k] == palette[0] {
        assert values[k] in values && values[k] in palette;
      }
      assert seq(|values|, _ => palette[0]) == values;
    } else {
      ManyReadBack(values, ContainerBits(|palette|, minimumBits), source, rest);
    }
  }

  lemma ManyReadBack(values: seq<int>, bits: nat, source: seq<byte>, rest: seq<byte>)
    requires Encodable(values) && 1 <= bits <= 32 && |PaletteOf(values)| <= Pow2(bits)
    requires source == [bits] + Bytes(|PaletteOf(values)|) + VarIntBytes(PaletteOf(values))
                       + LongBytes(PackValues(Indices(values), bits)) + rest
    ensures ReadContainer(source, |values|) == Some(Taken(values, rest))
  {
    hide Parse, Bytes, TakeLongs, TakeVarInts, PackValues, EntryAt, Pow2, PaletteOf, LongCount, LongBytes, VarIntBytes;
    var palette, longs := PaletteOf(values), PackValues(Indices(values), bits);
    var afterPalette := LongBytes(longs) + rest;
    var afterLength := VarIntBytes(palette) + afterPalette;
    assert source[1..] == Bytes(|palette|) + afterLength;
    ParseBytes(|palette|, afterLength);
    assert source[1..][|Bytes(|palette|)|..] == afterLength;
    assert forall v <- palette :: IsI32(v);
    VarIntsReadBack(palette, afterPalette);
    PackedSize(Indices(values), bits);
    LongsReadBack(longs, rest);
    IndicesFit(values, bits);
    forall k: nat | k < |values|
      ensures k / PerLong(bits) < |longs| && EntryAt(longs, bits, k) < |palette|
      ensures palette[EntryAt(longs, bits, k)] == values[k]
    {
      EntryReadsBack(Indices(values), bits, k);
      assert Indices(values)[k] in Indices(values);
      SmallQuotient(Indices(values)[k], Pow2(bits));
    }
    assert LookUp(palette, longs, bits, |values|) == values;
  }

  // ----- The loops of the source

  method FindPosition(palette: seq<int>, value: int) returns (position: Option<nat>)
    ensures position.None? ==> value !in palette
    ensures position.Some? ==> position.value < |palette| && palette[position.value] == value
  {
    for k := 0 to |palette|
      invariant value !in palette[..k]
    {
      if palette[k] == value {
        return Some(k);
      }
    }
    return None;
  }

  method BuildPalette(values: seq<int>) returns (palette: seq<int>, indices: seq<nat>)
    ensures palette == PaletteOf(values) && indices == Indices(values)
  {
    palette, indices := [], [];
    for k := 0 to |values|
      invariant palette == PaletteOf(values[..k]) && |indices| == k
      invariant forall i :: 0 <= i < k ==> indices[i] < |palette| && palette[indices[i]] == values[i]
    {
      assert values[..k + 1][..k] == values[..k];
      var position := FindPosition(palette, values[k]);
      if position.Some? {
        indices := indices + [position.value];
      } else {
        palette := palette + [values[k]];
        indices := indices + [|palette| - 1];
      }
    }
    assert values[..|values|] == values;
    PaletteIsDistinct(values);
    forall i | 0 <= i < |values| ensures indices[i] == Indices(values)[i] {
      OnlyIndex(palette, values[i], indices[i]);
    }
  }

  method EncodeVarInts(values: seq<int>, output: seq<byte>) returns (extended: seq<byte>)
    requires forall v <- values :: IsI32(v)
    ensures extended == output + VarIntBytes(values)
  {
    extended := output;
    for k := 0 to |values|
      invariant extended + VarIntBytes(values[k..]) == output + VarIntBytes(values)
    {
      assert values[k..][1..] == values[k + 1..];
      extended := EncodeVarint(values[k], extended);
    }
  }

  method PutLongs(longs: seq<nat>, output: seq<byte>) returns (extended: seq<byte>)
    ensures extended == output + LongBytes(longs)
  {
    extended := output;
    for k := 0 to |longs|
      invariant extended + LongBytes(longs[k..]) == output + LongBytes(longs)
    {
      assert longs[k..][1..] == longs[k + 1..];
      extended := extended + BigEndian(longs[k], 8);
    }
  }

  lemma ContainerParts(values: seq<int>, minimumBits: nat)
    requires Encodable(values) && 1 <= minimumBits <= 32
    ensures var palette := PaletteOf(values);
      && palette != [] && IsI32(palette[0]) && IsI32(|palette|) && (forall v <- palette :: IsI32(v))
      && 1 <= ContainerBits(|palette|, minimumBits) <= 32
      && ContainerBytes(values, minimumBits)
           == (if |palette| == 1 then [0] + Bytes(palette[0])
               else
                 var bits := ContainerBits(|palette|, minimumBits);
                 [bits] + Bytes(|palette|) + VarIntBytes(palette) + LongBytes(PackValues(Indices(values), bits)))
  {
    hide PackValues, VarIntBytes, LongBytes, Bytes, Indices, Pow2, ContainerBits, BitLength, PaletteOf;
    BitsFit(values, minimumBits);
    PaletteIsDistinct(values);
    assert forall v <- PaletteOf(values) :: v in values;
    assert PaletteOf(values)[0] in PaletteOf(values);
  }

  method EncodePalettedContainer(values: seq<int>, minimumBits: nat, output: seq<byte>) returns (extended: seq<byte>)
    requires Encodable(values) && 1 <= minimumBits <= 32
    ensures extended == output + ContainerBytes(values, minimumBits)
  {
    hide PackValues, VarIntBytes, LongBytes, Bytes, PaletteOf, Indices, Pow2, ContainerBits, BitLength, ContainerBytes,
         Encodable, IsI32;
    BitsFit(values, minimumBits);
    ContainerParts(values, minimumBits);
    var palette, indices := BuildPalette(values);
    if |palette| == 1 {
      extended := EncodeSingleValueContainer(palette[0], output);
      return;
    }
    var bits := ContainerBits(|palette|, minimumBits);
    extended := EncodeVarint(|palette|, output + [bits]);
    extended := EncodeVarInts(palette, extended);
    extended := PutLongs(PackValues(indices, bits), extended);
  }

  method EncodeSingleValueContainer(value: int, output: seq<byte>) returns (extended: seq<byte>)
    requires IsI32(value)
    ensures extended == output + ([0] + Bytes(value))
  {
    extended := EncodeVarint(value, output + [0]);
    assert output + [0] + Bytes(value) == output + ([0] + Bytes(value));
  }
}
