/** Which slots taking and adding items touches, and in which order (state.rs): the first slots first, stacks
    alike before empty slots; and what each recipe makes out of what. */
module SlotOrder {
  import opened Wrappers
  import opened Arithmetic
  import opened Items
  import opened Crafting

  // ----- Taking

  // A slot with so many of its items taken; an emptied one keeps no sharpness.
  function WithoutItems(slot: Slot, taken: nat): Slot
    requires slot.stack.Some? && taken <= slot.stack.value.count
  {
    var left := slot.stack.value.count - taken;
    if left > 0 then Slot(Some(slot.stack.value.(count := left)), slot.sharpness) else Slot(None, 0)
  }

  function TakenAt(slot: Slot, kind: ItemKind, wanted: nat): Slot {
    if wanted > 0 && slot.stack.Some? && slot.stack.value.kind == kind
    then WithoutItems(slot, Min(slot.stack.value.count, wanted))
    else slot
  }

  lemma TakesAt(slot: Slot, kind: ItemKind, needed: nat)
    requires needed > 0
    ensures AfterTaking(slot, kind, needed) == TakenAt(slot, kind, needed)
    ensures TakenFrom(slot, kind, needed) == Min(CountOf(slot, kind), needed)
  {
    hide MaxStackSize;
  }

  lemma {:induction false} ConsumeLength(slots: seq<Slot>, kind: ItemKind, needed: nat)
    ensures |Consume(slots, kind, needed)| == |slots|
  {
    hide Consume, AfterTaking, TakenFrom;
    ConsumeStep(slots, kind, needed);
    if needed > 0 && slots != [] {
      ConsumeLength(slots[1..], kind, needed - TakenFrom(slots[0], kind, needed));
    }
  }

  /** Each slot gives what the slots before it could not. */
  lemma {:induction false} ConsumeAt(slots: seq<Slot>, kind: ItemKind, needed: nat, k: nat)
    requires k < |slots|
    ensures |Consume(slots, kind, needed)| == |slots|
    ensures Consume(slots, kind, needed)[k] == TakenAt(slots[k], kind, SaturatingSub(needed, Total(slots[..k], kind)))
  {
    hide Consume, AfterTaking, TakenFrom, TakenAt, CountOf, Total;
    ConsumeStep(slots, kind, needed);
    ConsumeLength(slots, kind, needed);
    NothingBefore(slots, kind, ItemStack(kind, 0, 0));
    if needed == 0 {
      NothingWanted(slots[k], kind);
    } else {
      TakesAt(slots[0], kind, needed);
      if k > 0 {
        var rest := slots[1..];
        ConsumeAt(rest, kind, needed - TakenFrom(slots[0], kind, needed), k - 1);
        assert slots[..k] == [slots[0]] + rest[..k - 1];
        SplitTotal(slots[..k], slots[0], rest[..k - 1], kind);
      }
    }
  }

  lemma NothingWanted(slot: Slot, kind: ItemKind)
    ensures TakenAt(slot, kind, 0) == slot
  {
  }

  lemma NothingBefore(slots: seq<Slot>, kind: ItemKind, incoming: ItemStack)
    ensures Total(slots[..0], kind) == EmptyRoom(slots[..0], kind) == JoinRoom(slots[..0], incoming) == 0
  {
    assert slots[..0] == [];
  }

  // ----- Adding

  // A slot with so many of an incoming stack on top of its own; a stack like it has the same kind and damage.
  function JoinedAt(slot: Slot, incoming: ItemStack, arriving: nat): Slot {
    if slot.stack.Some? && slot.stack.value.kind == incoming.kind && slot.stack.value.damage == incoming.damage
       && slot.stack.value.count < MaxStackSize(incoming.kind)
    then
      var joined := Min(MaxStackSize(incoming.kind) - slot.stack.value.count, arriving);
      slot.(stack := Some(slot.stack.value.(count := slot.stack.value.count + joined)))
    else slot
  }

  function FilledAt(slot: Slot, incoming: ItemStack, arriving: nat): Slot {
    if slot.stack.None? && arriving > 0
    then Slot(Some(incoming.(count := Min(MaxStackSize(incoming.kind), arriving))), 0)
    else slot
  }

  lemma NothingArrives(slot: Slot, incoming: ItemStack)
    ensures JoinedAt(slot, incoming, 0) == slot && FilledAt(slot, incoming, 0) == slot
  {
    hide MaxStackSize;
  }

  lemma SlotJoins(slot: Slot, incoming: ItemStack)
    ensures Joined(slot, incoming).0 == JoinedAt(slot, incoming, incoming.count)
    ensures Joined(slot, incoming).1 == Min(incoming.count, SlotJoinRoom(slot, incoming))
    ensures Joins(slot, incoming) <==> SlotJoinRoom(slot, incoming) > 0
    ensures incoming.count > 0 ==> Filled(slot, incoming).0 == FilledAt(slot, incoming, incoming.count)
    ensures Filled(slot, incoming).1 == Min(incoming.count, if slot.stack.None? then MaxStackSize(incoming.kind) else 0)
  {
    hide MaxStackSize;
  }

  lemma SameJoinedAt(slot: Slot, incoming: ItemStack, count: nat, arriving: nat)
    ensures JoinedAt(slot, incoming.(count := count), arriving) == JoinedAt(slot, incoming, arriving)
    ensures FilledAt(slot, incoming.(count := count), arriving) == FilledAt(slot, incoming, arriving)
  {
    hide MaxStackSize;
  }

  lemma {:induction false} MergeAt(slots: seq<Slot>, incoming: ItemStack, k: nat)
    requires k < |slots|
    ensures |Merge(slots, incoming).slots| == |slots|
    ensures Merge(slots, incoming).slots[k]
      == JoinedAt(slots[k], incoming, SaturatingSub(incoming.count, JoinRoom(slots[..k], incoming)))
  {
    hide Merge, Joined, JoinedAt, Joins, Filled, FilledAt, SlotJoinRoom, JoinRoom, EmptyRoom, Total, MaxStackSize;
    MergeStep(slots, incoming);
    MergePours(slots, incoming, incoming.kind);
    NothingBefore(slots, incoming.kind, incoming);
    SlotJoins(slots[0], incoming);
    if k > 0 {
      var rest, less := slots[1..], incoming.(count := incoming.count - Joined(slots[0], incoming).1);
      assert slots[..k] == [slots[0]] + rest[..k - 1];
      SplitJoinRoom(slots[..k], slots[0], rest[..k - 1], incoming);
      if Joins(slots[0], incoming) && less.count == 0 {
        NothingArrives(slots[k], incoming);
      } else {
        MergeAt(rest, less, k - 1);
        SameJoinRoom(rest[..k - 1], incoming, less.count);
        SameJoinedAt(slots[k], incoming, less.count, SaturatingSub(less.count, JoinRoom(rest[..k - 1], incoming)));
      }
    }
  }

  lemma {:induction false} FillAt(slots: seq<Slot>, incoming: ItemStack, k: nat)
    requires k < |slots| && incoming.count > 0
    ensures |Fill(slots, incoming).slots| == |slots|
    ensures Fill(slots, incoming).slots[k]
      == FilledAt(slots[k], incoming, SaturatingSub(incoming.count, EmptyRoom(slots[..k], incoming.kind)))
  {
    hide Fill, Joined, JoinedAt, Joins, Filled, FilledAt, SlotJoinRoom, JoinRoom, EmptyRoom, Total, MaxStackSize;
    FillStep(slots, incoming);
    FillPours(slots, incoming, incoming.kind);
    NothingBefore(slots, incoming.kind, incoming);
    SlotJoins(slots[0], incoming);
    if k > 0 {
      var rest, less := slots[1..], incoming.(count := incoming.count - Filled(slots[0], incoming).1);
      assert slots[..k] == [slots[0]] + rest[..k - 1];
      SplitEmptyRoom(slots[..k], slots[0], rest[..k - 1], incoming.kind);
      if slots[0].stack.None? && less.count == 0 {
        NothingArrives(slots[k], incoming);
      } else {
        FillAt(rest, less, k - 1);
        SameJoinedAt(slots[k], incoming, less.count,
                     SaturatingSub(less.count, EmptyRoom(rest[..k - 1], incoming.kind)));
      }
    }
  }

  lemma JoinedStaysEmpty(slot: Slot, incoming: ItemStack, arriving: nat)
    ensures slot.stack.None? ==> JoinedAt(slot, incoming, arriving) == slot
    ensures slot.stack.Some? ==> JoinedAt(slot, incoming, arriving).stack.Some?
  {
    hide MaxStackSize;
  }

  lemma {:induction false} MergeKeepsEmptyRoom(slots: seq<Slot>, merged: seq<Slot>, kind: ItemKind)
    requires |slots| == |merged| && forall i :: 0 <= i < |slots| ==> (slots[i].stack.None? <==> merged[i].stack.None?)
    ensures EmptyRoom(slots, kind) == EmptyRoom(merged, kind)
  {
    hide MaxStackSize;
    if slots != [] {
      MergeKeepsEmptyRoom(slots[1..], merged[1..], kind);
    }
  }

  /** A stack joins those alike first, each with what the ones before had no room for; what is left fills the empty
      slots in the same way, and carries no sharpness there. */
  lemma AddStackAt(slots: seq<Slot>, incoming: ItemStack, k: nat)
    requires k < |slots| && incoming.count > 0
    ensures |AddStack(slots, incoming).slots| == |slots|
    ensures AddStack(slots, incoming).slots[k]
      == if slots[k].stack.Some?
         then JoinedAt(slots[k], incoming, SaturatingSub(incoming.count, JoinRoom(slots[..k], incoming)))
         else FilledAt(slots[k], incoming, SaturatingSub(SaturatingSub(incoming.count, JoinRoom(slots, incoming)),
                                                         EmptyRoom(slots[..k], incoming.kind)))
  {
    hide Merge, Fill, JoinedAt, FilledAt, JoinRoom, EmptyRoom, Total, MaxStackSize;
    var merged := Merge(slots, incoming);
    MergePours(slots, incoming, incoming.kind);
    forall i | 0 <= i < |slots| ensures slots[i].stack.None? <==> merged.slots[i].stack.None? {
      MergeAt(slots, incoming, i);
      JoinedStaysEmpty(slots[i], incoming, SaturatingSub(incoming.count, JoinRoom(slots[..i], incoming)));
    }
    MergeAt(slots, incoming, k);
    JoinedStaysEmpty(slots[k], incoming, SaturatingSub(incoming.count, JoinRoom(slots[..k], incoming)));
    NothingArrives(slots[k], incoming);
    MergeKeepsEmptyRoom(slots[..k], merged.slots[..k], incoming.kind);
    if merged.done {
      StillNothing(slots[k], incoming, EmptyRoom(slots[..k], incoming.kind));
    } else {
      FillAt(merged.slots, incoming.(count := merged.left), k);
      SameJoinedAt(merged.slots[k], incoming, merged.left,
                   SaturatingSub(merged.left, EmptyRoom(merged.slots[..k], incoming.kind)));
      OnlyEmptyFills(merged.slots[k], incoming,
                     SaturatingSub(merged.left, EmptyRoom(merged.slots[..k], incoming.kind)));
    }
  }

  lemma StillNothing(slot: Slot, incoming: ItemStack, before: nat)
    ensures FilledAt(slot, incoming, SaturatingSub(0, before)) == slot
  {
    hide MaxStackSize;
  }

  lemma OnlyEmptyFills(slot: Slot, incoming: ItemStack, arriving: nat)
    ensures slot.stack.Some? ==> FilledAt(slot, incoming, arriving) == slot
  {
    hide MaxStackSize;
  }

  // ----- Recipes

  predicate SameLetters(a: char, b: char) {
    a == b || ('A' <= a <= 'Z' && b == a + ' ') || ('A' <= b <= 'Z' && a == b + ' ')
  }

  /** Names that differ only in the case of letters name the same recipe. */
  lemma CaseDoesNotMatter(a: string, b: string)
    requires |a| == |b| && forall i :: 0 <= i < |a| ==> SameLetters(a[i], b[i])
    ensures RecipeDefinition(a) == RecipeDefinition(b)
  {
    assert Lowercase(a) == Lowercase(b);
    hide Lowercase;
  }

  /** What each product is made from, and how many a craft makes. */
  lemma MadeFrom(name: string)
    requires RecipeDefinition(name).Some?
    ensures var Recipe(ingredients, output) := RecipeDefinition(name).value;
      && output.damage == 0
      && (output.kind, output.count, ingredients) in {
           (OakPlanks, 4, [(OakLog, 1)]), (Stick, 4, [(OakPlanks, 2)]), (CraftingTable, 1, [(OakPlanks, 4)]),
           (WoodenPickaxe, 1, [(OakPlanks, 3), (Stick, 2)]), (WoodenAxe, 1, [(OakPlanks, 3), (Stick, 2)]),
           (WoodenShovel, 1, [(OakPlanks, 1), (Stick, 2)]), (WoodenSword, 1, [(OakPlanks, 2), (Stick, 1)]),
           (Shield, 1, [(OakPlanks, 6), (IronIngot, 1)]), (FlintAndSteel, 1, [(IronIngot, 1), (Flint, 1)])}
  {
    hide Lowercase;
  }
}
