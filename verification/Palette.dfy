/** Packing the entries of a paletted container into 64-bit words, whole entries only (chunk.rs). */
module Palette {
  import opened Arithmetic
  import opened Bits

  // ----- Packing entries into 64-bit words

  /** The fold of pack_values over one word's entries, lowest entry first. */
  function PackLong(entries: seq<nat>, bits: nat): nat {
    if entries == [] then 0
    else Or(PackLong(entries[..|entries| - 1], bits),
            (entries[|entries| - 1] % Pow2(bits)) * Pow2((|entries| - 1) * bits))
  }

  /** How many whole entries a word holds. */
  function PerLong(bits: nat): (count: nat)
    requires 1 <= bits <= 64
    ensures 1 <= count <= 64 && count * bits <= 64
  {
    64 / bits
  }

  function PackValues(values: seq<nat>, bits: nat): seq<nat>
    requires 1 <= bits <= 64
    decreases |values|
  {
    var perLong := PerLong(bits);
    if values == [] then []
    else if |values| <= perLong then [PackLong(values, bits)]
    else [PackLong(values[..perLong], bits)] + PackValues(values[perLong..], bits)
  }

  /** Reading entry k: entries never straddle two words. */
  function EntryAt(longs: seq<nat>, bits: nat, k: nat): nat
    requires 1 <= bits <= 64 && k / PerLong(bits) < |longs|
  {
    var perLong := PerLong(bits);
    (longs[k / perLong] / Pow2((k % perLong) * bits)) % Pow2(bits)
  }

  function LongCount(count: nat, bits: nat): nat
    requires 1 <= bits <= 64
  {
    (count + PerLong(bits) - 1) / PerLong(bits)
  }

  lemma MulSucc(n: nat, bits: nat)
    ensures (n + 1) * bits == n * bits + bits
  {
  }

  lemma {:induction false} PackLongBound(entries: seq<nat>, bits: nat)
    ensures PackLong(entries, bits) < Pow2(|entries| * bits)
    ensures entries != [] ==> (PackLong(entries, bits) == PackLong(entries[..|entries| - 1], bits)
                                + (entries[|entries| - 1] % Pow2(bits)) * Pow2((|entries| - 1) * bits))
  {
    if entries != [] {
      var n := |entries| - 1;
      var low, high := PackLong(entries[..n], bits), entries[n] % Pow2(bits);
      PackLongBound(entries[..n], bits);
      OrDisjoint(low, high, n * bits);
      MulSucc(n, bits);
      Pow2Sum(bits, n * bits);
      FitsAbove(low, high, Pow2(n * bits), Pow2(bits));
    }
  }

  lemma FitsAbove(low: nat, high: nat, unit: nat, count: nat)
    requires low < unit && high < count
    ensures low + high * unit < count * unit
  {
    assert (high + 1) * unit <= count * unit;
  }

  lemma {:induction false} EntryInLong(entries: seq<nat>, bits: nat, i: nat)
    requires i < |entries|
    ensures (PackLong(entries, bits) / Pow2(i * bits)) % Pow2(bits) == entries[i] % Pow2(bits)
  {
    hide Or, Pow2;
    var n := |entries| - 1;
    var low, high := PackLong(entries[..n], bits), entries[n] % Pow2(bits);
    PackLongBound(entries, bits);
    PackLongBound(entries[..n], bits);
    if i == n {
      AddMultiple(low, high, Pow2(n * bits));
      SmallQuotient(low, Pow2(n * bits));
      SmallQuotient(high, Pow2(bits));
    } else {
      EntryInLong(entries[..n], bits, i);
      var j := n - i - 1;
      var above, middle := Pow2(j * bits), Pow2(j * bits + bits);
      MulSplit(n, j, i, bits);
      SplitExponent(n * bits, j * bits, bits, i * bits);
      RegroupFactors(high, middle, Pow2(i * bits));
      RegroupFactors(high, above, Pow2(bits));
      AddMultiple(low, high * middle, Pow2(i * bits));
      AddMultiple(low / Pow2(i * bits), high * above, Pow2(bits));
    }
  }

  lemma SplitExponent(whole: nat, high: nat, bits: nat, low: nat)
    requires whole == high + bits + low
    ensures Pow2(whole) == Pow2(high + bits) * Pow2(low)
    ensures Pow2(high + bits) == Pow2(high) * Pow2(bits)
  {
    Pow2Sum(high, bits);
    Pow2Sum(high + bits, low);
  }

  lemma MulSplit(n: nat, j: nat, i: nat, bits: nat)
    requires n == j + 1 + i
    ensures n * bits == j * bits + bits + i * bits
    ensures j * bits >= 0 && i * bits >= 0
  {
  }

  lemma RegroupFactors(a: int, b: int, c: int)
    ensures a * (b * c) == (a * b) * c
  {
  }

  // ----- Whole arrays

  lemma QuotientStep(k: nat, n: nat)
    requires n >= 1 && k >= n
    ensures k / n == (k - n) / n + 1 && k % n == (k - n) % n
  {
    AddMultiple(k - n, 1, n);
  }

  lemma PackStep(values: seq<nat>, bits: nat)
    requires 1 <= bits <= 64
    ensures var perLong := PerLong(bits);
      && (values == [] ==> PackValues(values, bits) == [])
      && (0 < |values| <= perLong ==> PackValues(values, bits) == [PackLong(values, bits)])
      && (|values| > perLong ==>
            PackValues(values, bits) == [PackLong(values[..perLong], bits)] + PackValues(values[perLong..], bits))
  {
    hide PackLong, PerLong;
  }

  /** Every entry reads back, whatever its position, and the words are just enough. */
  lemma {:induction false} EntryReadsBack(values: seq<nat>, bits: nat, k: nat)
    requires 1 <= bits <= 64 && k < |values|
    ensures k / PerLong(bits) < |PackValues(values, bits)|
    ensures EntryAt(PackValues(values, bits), bits, k) == values[k] % Pow2(bits)
    decreases |values|
  {
    hide PackLong, PackValues, PerLong, Pow2;
    PackStep(values, bits);
    var perLong := PerLong(bits);
    if |values| <= perLong {
      SmallQuotient(k, perLong);
      EntryInLong(values, bits, k);
    } else if k < perLong {
      SmallQuotient(k, perLong);
      EntryInLong(values[..perLong], bits, k);
    } else {
      QuotientStep(k, perLong);
      EntryReadsBack(values[perLong..], bits, k - perLong);
      var rest := PackValues(values[perLong..], bits);
      assert PackValues(values, bits)[k / perLong] == rest[(k - perLong) / perLong];
    }
  }

  lemma {:induction false} PackedSize(values: seq<nat>, bits: nat)
    requires 1 <= bits <= 64
    ensures |PackValues(values, bits)| == LongCount(|values|, bits)
    ensures forall long <- PackValues(values, bits) :: long < Pow2(64)
    decreases |values|
  {
    hide PackLong, PerLong, Pow2;
    var perLong := PerLong(bits);
    assert LongCount(|values|, bits) == (|values| + perLong - 1) / perLong;
    hide LongCount;
    if values == [] {
      SmallQuotient(perLong - 1, perLong);
    } else if |values| <= perLong {
      QuotientStep(|values| + perLong - 1, perLong);
      SmallQuotient(|values| - 1, perLong);
      LongFits(values, bits);
    } else {
      QuotientStep(|values| + perLong - 1, perLong);
      PackedSize(values[perLong..], bits);
      LongFits(values[..perLong], bits);
    }
  }

  lemma LongFits(entries: seq<nat>, bits: nat)
    requires 1 <= bits <= 64 && |entries| <= PerLong(bits)
    ensures PackLong(entries, bits) < Pow2(64)
  {
    hide Pow2, PackLong;
    PackLongBound(entries, bits);
    FilledBits(|entries|, bits);
    Pow2Monotone(|entries| * bits, 64);
  }

  lemma FilledBits(count: nat, bits: nat)
    requires 1 <= bits <= 64 && count <= PerLong(bits)
    ensures count * bits <= 64
  {
    hide PerLong;
    assert count * bits <= PerLong(bits) * bits;
  }

  // ----- The packing in 64-bit terms

  /** Another entry would not fit. */
  lemma WordsAreFull(bits: nat)
    requires 1 <= bits <= 64
    ensures (PerLong(bits) + 1) * bits > 64 && PerLong(bits) == 64 / bits
  {
    assert 64 == (64 / bits) * bits + 64 % bits;
  }

  lemma RoundedUp(count: nat, n: nat, words: nat)
    requires n >= 1 && words == (count + n - 1) / n
    ensures count <= words * n
    ensures forall fewer: nat :: count <= fewer * n ==> words <= fewer
  {
    var total := count + n - 1;
    assert total == words * n + total % n;
    forall fewer: nat | count <= fewer * n ensures words <= fewer {
      assert (fewer + 1) * n == fewer * n + n;
      CancelFactor(words, fewer + 1, n);
    }
  }

  /** Packing uses as few words as hold all entries whole, each of 64 bits. */
  lemma LeastWords(values: seq<nat>, bits: nat)
    requires 1 <= bits <= 64
    ensures |values| <= |PackValues(values, bits)| * (64 / bits)
    ensures forall fewer: nat :: |values| <= fewer * (64 / bits) ==> |PackValues(values, bits)| <= fewer
    ensures forall long <- PackValues(values, bits) :: long < Pow2(64)
  {
    hide PackValues, Pow2;
    WordsAreFull(bits);
    PackedSize(values, bits);
    RoundedUp(|values|, 64 / bits, |PackValues(values, bits)|);
  }

  /** Entry k is the k-th group of bits, counted from the lowest one of each word. */
  lemma EntryPlace(values: seq<nat>, bits: nat, k: nat, word: nat, shift: nat)
    requires 1 <= bits <= 64 && k < |values|
    requires word == k / (64 / bits) && shift == (k % (64 / bits)) * bits
    ensures var longs := PackValues(values, bits);
      word < |longs| && (longs[word] / Pow2(shift)) % Pow2(bits) == values[k] % Pow2(bits)
  {
    hide PackValues, Pow2;
    WordsAreFull(bits);
    EntryReadsBack(values, bits, k);
  }
}
