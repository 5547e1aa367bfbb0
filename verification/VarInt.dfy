/** Minecraft VarInts (varint.rs): seven bits a byte, least significant first, at most five bytes. */
module VarInt {
  import opened Arithmetic
  import opened Bits

  predicate IsI32(value: int) { -0x8000_0000 <= value < 0x8000_0000 }

  // A 32-bit word seen as unsigned and as signed.
  function ToU32(value: int): nat { value % U32_RANGE }
  function ToI32(word: nat): int { if word < 0x8000_0000 then word else word - U32_RANGE }

  datatype VarIntError = Incomplete | TooLarge
  datatype Decoded = Value(value: int, length: nat) | Invalid(error: VarIntError)

  // ----- The format

  /** The bytes of an unsigned word. */
  function WordBytes(word: nat): seq<byte> {
    if word < 128 then [word] else [word % 128 + 128] + WordBytes(word / 128)
  }

  function Bytes(value: int): seq<byte> {
    WordBytes(ToU32(value))
  }

  /** Reading a word from byte position index of a VarInt. */
  function ParseWord(source: seq<byte>, index: nat): Decoded
    requires index <= 4
    decreases 4 - index
  {
    if source == [] then Invalid(Incomplete)
    else if index == 4 && source[0] >= 16 then Invalid(TooLarge)
    else if source[0] < 128 then Value(source[0], 1)
    else match ParseWord(source[1..], index + 1)
      case Value(high, length) => Value(source[0] - 128 + 128 * high, length + 1)
      case Invalid(error) => Invalid(error)
  }

  function Parse(source: seq<byte>): Decoded {
    match ParseWord(source, 0)
    case Value(word, length) => if word >= 0 then Value(ToI32(word), length) else Value(word, length)
    case Invalid(error) => Invalid(error)
  }

  // 2 to the number of bits left at a byte position.
  function RoomAt(index: nat): nat
    requires index <= 4
  {
    match index
    case 0 => 0x1_0000_0000
    case 1 => 0x200_0000
    case 2 => 0x4_0000
    case 3 => 0x800
    case _ => 0x10
  }

  lemma {:induction false} ParsedFits(source: seq<byte>, index: nat)
    requires index <= 4
    ensures ParseWord(source, index).Value? ==>
      && 0 <= ParseWord(source, index).value < RoomAt(index)
      && 1 <= ParseWord(source, index).length <= |source|
      && ParseWord(source, index).length <= 5 - index
    decreases 4 - index
  {
    if source != [] && index < 4 {
      ParsedFits(source[1..], index + 1);
    }
  }

  // ----- The round trip

  lemma {:induction false} ParseWordBytes(word: nat, index: nat, rest: seq<byte>)
    requires index <= 4 && word < RoomAt(index)
    ensures ParseWord(WordBytes(word) + rest, index) == Value(word, |WordBytes(word)|)
    decreases 4 - index
  {
    if word >= 128 {
      ParseWordBytes(word / 128, index + 1, rest);
      assert (WordBytes(word) + rest)[1..] == WordBytes(word / 128) + rest;
    }
  }

  /** Every i32 decodes from its encoding, whatever follows it. */
  lemma ParseBytes(value: int, rest: seq<byte>)
    requires IsI32(value)
    ensures Parse(Bytes(value) + rest) == Value(value, |Bytes(value)|)
    ensures 1 <= |Bytes(value)| <= 5
  {
    ParseWordBytes(ToU32(value), 0, rest);
    ParsedFits(Bytes(value) + rest, 0);
  }

  lemma {:induction false} NoShorterWord(source: seq<byte>, index: nat)
    requires index <= 4 && ParseWord(source, index).Value?
    ensures ParseWord(source, index).value >= 0
    ensures ParseWord(source, index).length >= |WordBytes(ParseWord(source, index).value)|
    decreases 4 - index
  {
    ParsedFits(source, index);
    if source[0] >= 128 {
      NoShorterWord(source[1..], index + 1);
    }
  }

  /** No bytes that read as a value are fewer than its encoding. */
  lemma NoShorterEncoding(source: seq<byte>)
    requires Parse(source).Value?
    ensures IsI32(Parse(source).value) && |Bytes(Parse(source).value)| <= Parse(source).length
  {
    hide ParseWord, WordBytes;
    ParsedFits(source, 0);
    NoShorterWord(source, 0);
  }

  // 128 to the number of bytes before a position.
  function Weight(index: nat): (w: nat)
    ensures w >= 1
  {
    if index == 0 then 1 else 128 * Weight(index - 1)
  }

  /** Byte by byte: the seven bits of each place, lowest place first, and a mark on all bytes but the last. */
  lemma {:induction false} ByteOfWord(word: nat, k: nat)
    requires k < |WordBytes(word)|
    ensures WordBytes(word)[k] % 128 == (word / Weight(k)) % 128
    ensures WordBytes(word)[k] >= 128 <==> k + 1 < |WordBytes(word)|
  {
    if k > 0 {
      ByteOfWord(word / 128, k - 1);
      QuotientOfQuotient(word, Weight(k - 1));
    }
  }

  lemma QuotientOfQuotient(word: nat, n: nat)
    requires n >= 1
    ensures (word / 128) / n == word / (128 * n)
  {
    var q := word / (128 * n);
    assert word == q * (128 * n) + word % (128 * n);
    assert q * (128 * n) == 128 * (q * n);
    assert (q + 1) * n == q * n + n;
    QuotientBounds(word / 128, n, q, q);
  }

  /** Decoding looks no further than the VarInt itself. */
  lemma {:induction false} ParseWordLocal(source: seq<byte>, index: nat, rest: seq<byte>)
    requires index <= 4
    ensures ParseWord(source, index) != Invalid(Incomplete) ==>
      ParseWord(source + rest, index) == ParseWord(source, index)
    ensures ParseWord(source, index) == Invalid(Incomplete) <==>
      |source| < 5 - index && forall b <- source :: b >= 128
    decreases 4 - index
  {
    if source != [] {
      assert source[0] in source && forall b :: b in source <==> b == source[0] || b in source[1..];
      if index < 4 && source[0] >= 128 {
        ParseWordLocal(source[1..], index + 1, rest);
        assert (source + rest)[1..] == source[1..] + rest;
      }
    }
  }

  // ----- The loops of the source

  method EncodeVarint(value: int, target: seq<byte>) returns (extended: seq<byte>)
    requires IsI32(value)
    ensures extended == target + Bytes(value)
  {
    extended := target;
    var word: nat := ToU32(value);
    while true
      invariant extended + WordBytes(word) == target + Bytes(value)
      decreases word
    {
      if word < 128 {
        extended := extended + [word];
        return;
      }
      extended := extended + [word % 128 + 128];
      word := word / 128;
    }
  }

  // What a partly read word and the rest of the source make of the whole.
  function Completed(result: nat, index: nat, rest: Decoded): Decoded {
    match rest
    case Value(high, length) => Value(result + Pow2(7 * index) * high, length + index)
    case Invalid(error) => Invalid(error)
  }

  lemma WeightStep(index: nat)
    ensures Pow2(7 * (index + 1)) == 128 * Pow2(7 * index)
  {
    var k := 7 * index;
    assert Pow2(k + 1) == 2 * Pow2(k);
    assert Pow2(k + 2) == 2 * Pow2(k + 1);
    assert Pow2(k + 3) == 2 * Pow2(k + 2);
    assert Pow2(k + 4) == 2 * Pow2(k + 3);
    assert Pow2(k + 5) == 2 * Pow2(k + 4);
    assert Pow2(k + 6) == 2 * Pow2(k + 5);
    assert Pow2(k + 7) == 2 * Pow2(k + 6);
  }

  lemma Scaled(weight: nat, low: nat)
    requires low < 128
    ensures weight * low <= weight * 127
  {
  }

  lemma Regroup(weight: nat, high: int)
    ensures weight * (128 * high) == (128 * weight) * high
  {
  }

  lemma Digits(weight: nat, result: nat, low: nat, high: int)
    requires result < weight && low < 128
    ensures result + weight * low < 128 * weight
    ensures result + weight * (low + 128 * high) == result + weight * low + (128 * weight) * high
  {
    Scaled(weight, low);
    assert weight * (low + 128 * high) == weight * low + weight * (128 * high);
    Regroup(weight, high);
  }

  lemma WordStep(result: nat, index: nat, b: byte, high: int)
    requires result < Pow2(7 * index)
    ensures Or(result, (b % 128) * Pow2(7 * index)) == result + Pow2(7 * index) * (b % 128) < Pow2(7 * (index + 1))
    ensures b >= 128 ==> (result + Pow2(7 * index) * (b - 128 + 128 * high)
                          == result + Pow2(7 * index) * (b % 128) + Pow2(7 * (index + 1)) * high)
  {
    hide Pow2, Or;
    OrDisjoint(result, b % 128, 7 * index);
    WeightStep(index);
    Digits(Pow2(7 * index), result, b % 128, high);
  }

  // One turn of the decoding loop.
  lemma ReadByte(result: nat, index: nat, source: seq<byte>)
    requires index <= 4 && result < Pow2(7 * index)
    requires source != [] && !(index == 4 && source[0] >= 16)
    ensures var more := Or(result, (source[0] % 128) * Pow2(7 * index));
      && more < Pow2(7 * (index + 1))
      && Completed(result, index, ParseWord(source, index)) ==
           if source[0] < 128 then Value(more, index + 1)
           else Completed(more, index + 1, ParseWord(source[1..], index + 1))
  {
    hide Pow2, Or;
    if source[0] < 128 {
      WordStep(result, index, source[0], 0);
    } else {
      var rest := ParseWord(source[1..], index + 1);
      WordStep(result, index, source[0], if rest.Value? then rest.value else 0);
    }
  }

  lemma ReadStops(result: nat, index: nat, source: seq<byte>)
    requires index <= 4
    ensures source == [] ==> Completed(result, index, ParseWord(source, index)) == Invalid(Incomplete)
    ensures source != [] && index == 4 && source[0] >= 16 ==>
      Completed(result, index, ParseWord(source, index)) == Invalid(TooLarge)
  {
  }

  lemma ReadBegins(source: seq<byte>)
    ensures Pow2(0) == 1
    ensures Completed(0, 0, ParseWord(source, 0)) == ParseWord(source, 0)
    ensures ParseWord(source, 0).Value? ==> ParseWord(source, 0).value >= 0
  {
    ParsedFits(source, 0);
  }

  method DecodeVarint(source: seq<byte>) returns (decoded: Decoded)
    ensures decoded == Parse(source)
  {
    hide Or, Pow2, Completed, ParseWord, ToI32;
    var result: nat := 0;
    ghost var whole := ParseWord(source, 0);
    ReadBegins(source);
    assert source[0..] == source;
    for index := 0 to 5
      invariant result < Pow2(7 * index)
      invariant index <= 4 && index <= |source|
      invariant whole == Completed(result, index, ParseWord(source[index..], index))
    {
      ReadStops(result, index, source[index..]);
      if index >= |source| {
        return Invalid(Incomplete);
      }
      var b := source[index];
      if index == 4 && b >= 16 {
        return Invalid(TooLarge);
      }
      assert source[index..][1..] == source[index + 1..];
      ReadByte(result, index, source[index..]);
      result := Or(result, (b % 128) * Pow2(7 * index));
      if b < 128 {
        return Value(ToI32(result), index + 1);
      }
    }
    return Invalid(TooLarge);
  }
}
