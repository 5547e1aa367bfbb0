/** Crafting and adding stacks over a row of slots (state.rs), as functions of the slots. */
module Crafting {
  import opened Wrappers
  import opened Arithmetic
  import opened Items

  /** A slot and the sharpness kept beside it. */
  datatype Slot = Slot(stack: Option<ItemStack>, sharpness: nat)

  predicate AllWellFormed(slots: seq<Slot>) {
    forall slot <- slots :: WellFormed(slot.stack)
  }

  function CountOf(slot: Slot, kind: ItemKind): nat {
    if slot.stack.Some? && slot.stack.value.kind == kind then slot.stack.value.count else 0
  }

  function Total(slots: seq<Slot>, kind: ItemKind): nat {
    if slots == [] then 0 else CountOf(slots[0], kind) + Total(slots[1..], kind)
  }

  // A stack of the kind and damage of an incoming one.
  predicate Like(slot: Slot, incoming: ItemStack) {
    slot.stack.Some? && slot.stack.value.kind == incoming.kind && slot.stack.value.damage == incoming.damage
  }

  // The room crafting counts in a slot: a stack over its limit, as only a save can hold one, wraps around.
  function Room(slot: Slot, incoming: ItemStack): nat {
    if slot.stack.None? then MaxStackSize(incoming.kind)
    else if Like(slot, incoming) then WrappingSub(MaxStackSize(incoming.kind), slot.stack.value.count)
    else 0
  }

  function Capacity(slots: seq<Slot>, incoming: ItemStack): nat {
    if slots == [] then 0 else Room(slots[0], incoming) + Capacity(slots[1..], incoming)
  }

  // The room there is: on stacks an incoming one can join, and in empty slots.
  function SlotJoinRoom(slot: Slot, incoming: ItemStack): nat {
    if Like(slot, incoming) then SaturatingSub(MaxStackSize(incoming.kind), slot.stack.value.count) else 0
  }

  function JoinRoom(slots: seq<Slot>, incoming: ItemStack): nat {
    if slots == [] then 0 else SlotJoinRoom(slots[0], incoming) + JoinRoom(slots[1..], incoming)
  }

  function EmptyRoom(slots: seq<Slot>, kind: ItemKind): nat {
    if slots == [] then 0
    else (if slots[0].stack.None? then MaxStackSize(kind) else 0) + EmptyRoom(slots[1..], kind)
  }

  function FreeRoom(slots: seq<Slot>, incoming: ItemStack): nat {
    JoinRoom(slots, incoming) + EmptyRoom(slots, incoming.kind)
  }

  /** No stack like an incoming one is over its limit. */
  predicate NoneOverfull(slots: seq<Slot>, incoming: ItemStack) {
    forall slot <- slots :: Like(slot, incoming) ==> slot.stack.value.count <= MaxStackSize(incoming.kind)
  }

  // ----- One slot and the rest of a row

  lemma SplitTotal(slots: seq<Slot>, first: Slot, rest: seq<Slot>, kind: ItemKind)
    requires slots == [first] + rest
    ensures Total(slots, kind) == CountOf(first, kind) + Total(rest, kind)
  {
    hide CountOf;
    assert slots[1..] == rest;
  }

  lemma SplitEmptyRoom(slots: seq<Slot>, first: Slot, rest: seq<Slot>, kind: ItemKind)
    requires slots == [first] + rest
    ensures EmptyRoom(slots, kind) == (if first.stack.None? then MaxStackSize(kind) else 0) + EmptyRoom(rest, kind)
  {
    hide MaxStackSize;
    assert slots[1..] == rest;
  }

  lemma SplitJoinRoom(slots: seq<Slot>, first: Slot, rest: seq<Slot>, incoming: ItemStack)
    requires slots == [first] + rest
    ensures JoinRoom(slots, incoming) == SlotJoinRoom(first, incoming) + JoinRoom(rest, incoming)
  {
    hide SlotJoinRoom;
    assert slots[1..] == rest;
  }

  lemma SplitWellFormed(slots: seq<Slot>, first: Slot, rest: seq<Slot>)
    requires slots == [first] + rest
    ensures AllWellFormed(slots) <==> WellFormed(first.stack) && AllWellFormed(rest)
  {
    hide WellFormed;
    assert forall slot :: slot in slots <==> slot == first || slot in rest;
  }

  lemma SplitCapacity(slots: seq<Slot>, first: Slot, rest: seq<Slot>, incoming: ItemStack)
    requires slots == [first] + rest
    ensures Capacity(slots, incoming) == Room(first, incoming) + Capacity(rest, incoming)
  {
    hide Room;
    assert slots[1..] == rest;
  }

  lemma NothingInNone(kind: ItemKind, incoming: ItemStack)
    ensures Total([], kind) == EmptyRoom([], kind) == JoinRoom([], incoming) == 0
  {
  }

  /** The capacity crafting counts is the room there is, unless a stack like the output is over its limit. */
  lemma {:induction false} CapacityIsRoom(slots: seq<Slot>, incoming: ItemStack)
    requires NoneOverfull(slots, incoming)
    ensures Capacity(slots, incoming) == FreeRoom(slots, incoming)
  {
    hide MaxStackSize;
    if slots != [] {
      assert slots[0] in slots;
      assert forall slot <- slots[1..] :: slot in slots;
      CapacityIsRoom(slots[1..], incoming);
    }
  }

  // ----- Taking ingredients

  // Taking some of a slot's items; an emptied slot keeps no sharpness.
  function Reduced(slot: Slot, removed: nat): Slot
    requires slot.stack.Some? && removed <= slot.stack.value.count
  {
    var left := NonEmpty(slot.stack.value.(count := slot.stack.value.count - removed));
    Slot(left, if left.None? then 0 else slot.sharpness)
  }

  function Consume(slots: seq<Slot>, kind: ItemKind, needed: nat): seq<Slot> {
    if needed == 0 || slots == [] then slots
    else if slots[0].stack.Some? && slots[0].stack.value.kind == kind then
      var removed := Min(slots[0].stack.value.count, needed);
      [Reduced(slots[0], removed)] + Consume(slots[1..], kind, needed - removed)
    else [slots[0]] + Consume(slots[1..], kind, needed)
  }

  // How many of a slot's items are taken, and what is left of the slot.
  function TakenFrom(slot: Slot, kind: ItemKind, needed: nat): (n: nat)
    ensures n <= needed && n <= CountOf(slot, kind) && (n == needed || n == CountOf(slot, kind))
  {
    Min(CountOf(slot, kind), needed)
  }

  function AfterTaking(slot: Slot, kind: ItemKind, needed: nat): Slot {
    if slot.stack.Some? && slot.stack.value.kind == kind then Reduced(slot, TakenFrom(slot, kind, needed)) else slot
  }

  lemma ConsumeStep(slots: seq<Slot>, kind: ItemKind, needed: nat)
    ensures needed == 0 || slots == [] ==> Consume(slots, kind, needed) == slots
    ensures needed > 0 && slots != [] ==>
      Consume(slots, kind, needed)
      == [AfterTaking(slots[0], kind, needed)] + Consume(slots[1..], kind, needed - TakenFrom(slots[0], kind, needed))
  {
    hide MaxStackSize;
  }

  lemma ReducedSlot(slot: Slot, removed: nat, other: ItemKind)
    requires slot.stack.Some? && removed <= slot.stack.value.count
    ensures WellFormed(slot.stack) ==> WellFormed(Reduced(slot, removed).stack)
    ensures CountOf(Reduced(slot, removed), other)
      == CountOf(slot, other) - (if other == slot.stack.value.kind then removed else 0)
  {
    hide MaxStackSize;
  }

  lemma TakingIsReducing(slot: Slot, kind: ItemKind, needed: nat)
    ensures slot.stack.Some? && slot.stack.value.kind == kind ==>
      && TakenFrom(slot, kind, needed) <= slot.stack.value.count
      && AfterTaking(slot, kind, needed) == Reduced(slot, TakenFrom(slot, kind, needed))
    ensures !(slot.stack.Some? && slot.stack.value.kind == kind) ==>
      AfterTaking(slot, kind, needed) == slot && TakenFrom(slot, kind, needed) == 0
  {
    hide MaxStackSize, WellFormed, Reduced;
  }

  lemma AfterTakingSlot(slot: Slot, kind: ItemKind, needed: nat, other: ItemKind)
    ensures WellFormed(slot.stack) ==> WellFormed(AfterTaking(slot, kind, needed).stack)
    ensures CountOf(AfterTaking(slot, kind, needed), other)
      == CountOf(slot, other) - (if other == kind then TakenFrom(slot, kind, needed) else 0)
  {
    hide *;
    TakingIsReducing(slot, kind, needed);
    if slot.stack.Some? && slot.stack.value.kind == kind {
      ReducedSlot(slot, TakenFrom(slot, kind, needed), other);
    }
  }

  /** Taking an available amount takes exactly it. */
  lemma {:induction false} ConsumeTakes(slots: seq<Slot>, kind: ItemKind, needed: nat, other: ItemKind)
    requires needed <= Total(slots, kind)
    ensures |Consume(slots, kind, needed)| == |slots|
    ensures AllWellFormed(slots) ==> AllWellFormed(Consume(slots, kind, needed))
    ensures Total(Consume(slots, kind, needed), other) == Total(slots, other) - (if other == kind then needed else 0)
  {
    hide *;
    NothingInNone(kind, ItemStack(kind, 0, 0));
    ConsumeStep(slots, kind, needed);
    if needed > 0 && slots != [] {
      var first, rest := slots[0], slots[1..];
      var taken, newFirst := TakenFrom(first, kind, needed), AfterTaking(first, kind, needed);
      var newRest := Consume(rest, kind, needed - taken);
      assert slots == [first] + rest;
      SplitTotal(slots, first, rest, kind);
      SplitTotal(slots, first, rest, other);
      SplitWellFormed(slots, first, rest);
      AfterTakingSlot(first, kind, needed, other);
      ConsumeTakes(rest, kind, needed - taken, other);
      SplitTotal(Consume(slots, kind, needed), newFirst, newRest, other);
      SplitWellFormed(Consume(slots, kind, needed), newFirst, newRest);
    }
  }

  lemma TakingKeepsSlotRoom(slot: Slot, kind: ItemKind, needed: nat, output: ItemStack)
    requires output.kind != kind
    ensures SlotJoinRoom(AfterTaking(slot, kind, needed), output) == SlotJoinRoom(slot, output)
    ensures slot.stack.None? ==> AfterTaking(slot, kind, needed).stack.None?
  {
    hide MaxStackSize;
  }

  /** Taking items of one kind leaves at least as much room for any other. */
  lemma {:induction false} ConsumeKeepsRoom(slots: seq<Slot>, kind: ItemKind, needed: nat, output: ItemStack)
    requires output.kind != kind
    ensures FreeRoom(Consume(slots, kind, needed), output) >= FreeRoom(slots, output)
  {
    hide MaxStackSize, SlotJoinRoom, AfterTaking, TakenFrom, Consume, JoinRoom, EmptyRoom;
    ConsumeStep(slots, kind, needed);
    if needed > 0 && slots != [] {
      var first, rest := slots[0], slots[1..];
      var newFirst := AfterTaking(first, kind, needed);
      var newRest := Consume(rest, kind, needed - TakenFrom(first, kind, needed));
      assert slots == [first] + rest;
      SplitJoinRoom(slots, first, rest, output);
      SplitEmptyRoom(slots, first, rest, output.kind);
      TakingKeepsSlotRoom(first, kind, needed, output);
      ConsumeKeepsRoom(rest, kind, needed - TakenFrom(first, kind, needed), output);
      SplitJoinRoom(Consume(slots, kind, needed), newFirst, newRest, output);
      SplitEmptyRoom(Consume(slots, kind, needed), newFirst, newRest, output.kind);
    }
  }

  // ----- Adding a stack

  /** The slots after pouring items in, how many did not fit, and whether a pour ended with none left. */
  datatype Poured = Poured(slots: seq<Slot>, left: nat, done: bool)

  predicate Joins(slot: Slot, incoming: ItemStack) {
    Like(slot, incoming) && slot.stack.value.count < MaxStackSize(incoming.kind)
  }

  // How much of an incoming stack joins a slot, or fills it if it is empty, and the slot after that.
  function Joined(slot: Slot, incoming: ItemStack): (Slot, nat) {
    if Joins(slot, incoming) then
      var stack := slot.stack.value;
      var moved := Min(incoming.count, MaxStackSize(incoming.kind) - stack.count);
      (slot.(stack := Some(stack.(count := stack.count + moved))), moved)
    else (slot, 0)
  }

  function Filled(slot: Slot, incoming: ItemStack): (Slot, nat) {
    if slot.stack.None? then
      var moved := Min(incoming.count, MaxStackSize(incoming.kind));
      (Slot(Some(incoming.(count := moved)), 0), moved)
    else (slot, 0)
  }

  // First onto stacks of the same kind and damage.
  function Merge(slots: seq<Slot>, incoming: ItemStack): Poured {
    if slots == [] then Poured([], incoming.count, false)
    else
      var (slot, moved) := Joined(slots[0], incoming);
      if Joins(slots[0], incoming) && moved == incoming.count then Poured([slot] + slots[1..], 0, true)
      else
        var more := Merge(slots[1..], incoming.(count := incoming.count - moved));
        Poured([slot] + more.slots, more.left, more.done)
  }

  // Then into empty slots.
  function Fill(slots: seq<Slot>, incoming: ItemStack): Poured {
    if slots == [] then Poured([], incoming.count, false)
    else
      var (slot, moved) := Filled(slots[0], incoming);
      if slots[0].stack.None? && moved == incoming.count then Poured([slot] + slots[1..], 0, true)
      else
        var more := Fill(slots[1..], incoming.(count := incoming.count - moved));
        Poured([slot] + more.slots, more.left, more.done)
  }

  function AddStack(slots: seq<Slot>, incoming: ItemStack): Poured {
    var merged := Merge(slots, incoming);
    if merged.done then merged else Fill(merged.slots, incoming.(count := merged.left))
  }

  lemma MergeStep(slots: seq<Slot>, incoming: ItemStack)
    ensures slots == [] ==> Merge(slots, incoming) == Poured([], incoming.count, false)
    ensures slots != [] ==>
      var (slot, moved) := Joined(slots[0], incoming);
      && moved <= incoming.count
      && if Joins(slots[0], incoming) && moved == incoming.count
         then Merge(slots, incoming) == Poured([slot] + slots[1..], 0, true)
         else
           var more := Merge(slots[1..], incoming.(count := incoming.count - moved));
           Merge(slots, incoming) == Poured([slot] + more.slots, more.left, more.done)
  {
    hide MaxStackSize;
  }

  lemma FillStep(slots: seq<Slot>, incoming: ItemStack)
    ensures slots == [] ==> Fill(slots, incoming) == Poured([], incoming.count, false)
    ensures slots != [] ==>
      var (slot, moved) := Filled(slots[0], incoming);
      && moved <= incoming.count
      && if slots[0].stack.None? && moved == incoming.count
         then Fill(slots, incoming) == Poured([slot] + slots[1..], 0, true)
         else
           var more := Fill(slots[1..], incoming.(count := incoming.count - moved));
           Fill(slots, incoming) == Poured([slot] + more.slots, more.left, more.done)
  {
    hide MaxStackSize;
  }

  lemma JoinedSlot(slot: Slot, incoming: ItemStack, other: ItemKind)
    ensures var (after, moved) := Joined(slot, incoming);
      && (WellFormed(slot.stack) ==> WellFormed(after.stack)) && (after.stack.None? <==> slot.stack.None?)
      && moved == Min(incoming.count, SlotJoinRoom(slot, incoming))
      && (Joins(slot, incoming) <==> SlotJoinRoom(slot, incoming) > 0)
      && CountOf(after, other) == CountOf(slot, other) + (if other == incoming.kind then moved else 0)
  {
    hide MaxStackSize;
  }

  lemma FilledSlot(slot: Slot, incoming: ItemStack, other: ItemKind)
    ensures var (after, moved) := Filled(slot, incoming);
      && (WellFormed(slot.stack) && incoming.count > 0 ==> WellFormed(after.stack))
      && moved == Min(incoming.count, if slot.stack.None? then MaxStackSize(incoming.kind) else 0)
      && CountOf(after, other) == CountOf(slot, other) + (if other == incoming.kind then moved else 0)
  {
    hide MaxStackSize;
  }

  lemma {:induction false} SameJoinRoom(slots: seq<Slot>, incoming: ItemStack, count: nat)
    ensures JoinRoom(slots, incoming.(count := count)) == JoinRoom(slots, incoming)
  {
    hide MaxStackSize;
    if slots != [] {
      SameJoinRoom(slots[1..], incoming, count);
    }
  }

  lemma {:induction false} MergePours(slots: seq<Slot>, incoming: ItemStack, other: ItemKind)
    ensures var m := Merge(slots, incoming);
      && |m.slots| == |slots| && (AllWellFormed(slots) ==> AllWellFormed(m.slots))
      && m.left == incoming.count - Min(incoming.count, JoinRoom(slots, incoming))
      && (incoming.count > 0 ==> (m.done <==> m.left == 0)) && (m.done ==> m.left == 0)
      && Total(m.slots, other) == Total(slots, other) + (if other == incoming.kind then incoming.count - m.left else 0)
      && EmptyRoom(m.slots, incoming.kind) == EmptyRoom(slots, incoming.kind)
  {
    hide *;
    MergeStep(slots, incoming);
    if slots == [] {
      NothingInNone(other, incoming);
    } else {
      var first, rest := slots[0], slots[1..];
      assert slots == [first] + rest;
      SplitTotal(slots, first, rest, other);
      SplitEmptyRoom(slots, first, rest, incoming.kind);
      SplitJoinRoom(slots, first, rest, incoming);
      SplitWellFormed(slots, first, rest);
      JoinedSlot(first, incoming, other);
      var (newFirst, moved) := Joined(first, incoming);
      var less := incoming.(count := incoming.count - moved);
      var newRest := if Joins(first, incoming) && moved == incoming.count then rest else Merge(rest, less).slots;
      SameJoinRoom(rest, incoming, less.count);
      MergePours(rest, less, other);
      SplitTotal([newFirst] + newRest, newFirst, newRest, other);
      SplitEmptyRoom([newFirst] + newRest, newFirst, newRest, incoming.kind);
      SplitWellFormed([newFirst] + newRest, newFirst, newRest);
    }
  }

  lemma {:induction false} FillPours(slots: seq<Slot>, incoming: ItemStack, other: ItemKind)
    ensures var f := Fill(slots, incoming);
      && |f.slots| == |slots| && (incoming.count > 0 && AllWellFormed(slots) ==> AllWellFormed(f.slots))
      && f.left == incoming.count - Min(incoming.count, EmptyRoom(slots, incoming.kind))
      && (incoming.count > 0 ==> (f.done <==> f.left == 0)) && (f.done ==> f.left == 0)
      && Total(f.slots, other) == Total(slots, other) + (if other == incoming.kind then incoming.count - f.left else 0)
  {
    hide *;
    FillStep(slots, incoming);
    if slots == [] {
      NothingInNone(other, incoming);
      NothingInNone(incoming.kind, incoming);
    } else {
      var first, rest := slots[0], slots[1..];
      assert slots == [first] + rest;
      SplitTotal(slots, first, rest, other);
      SplitEmptyRoom(slots, first, rest, incoming.kind);
      SplitWellFormed(slots, first, rest);
      FilledSlot(first, incoming, other);
      var (newFirst, moved) := Filled(first, incoming);
      var less := incoming.(count := incoming.count - moved);
      var newRest := if first.stack.None? && moved == incoming.count then rest else Fill(rest, less).slots;
      FillPours(rest, less, other);
      SplitTotal([newFirst] + newRest, newFirst, newRest, other);
      SplitWellFormed([newFirst] + newRest, newFirst, newRest);
    }
  }

  /** Adding a stack pours in as much as there is room for, and nothing else changes. */
  lemma AddStackPours(slots: seq<Slot>, incoming: ItemStack, other: ItemKind)
    ensures var a := AddStack(slots, incoming);
      && |a.slots| == |slots| && (incoming.count > 0 && AllWellFormed(slots) ==> AllWellFormed(a.slots))
      && a.left == incoming.count - Min(incoming.count, FreeRoom(slots, incoming))
      && (incoming.count > 0 ==> (a.done <==> a.left == 0))
      && Total(a.slots, other) == Total(slots, other) + (if other == incoming.kind then incoming.count - a.left else 0)
  {
    hide AllWellFormed, Total, EmptyRoom, JoinRoom, Merge, Fill;
    var merged := Merge(slots, incoming);
    MergePours(slots, incoming, other);
    FillPours(merged.slots, incoming.(count := merged.left), other);
  }

  // ----- Recipes

  datatype Recipe = Recipe(ingredients: seq<(ItemKind, nat)>, output: ItemStack)

  function Lowercase(text: string): string {
    seq(|text|, i requires 0 <= i < |text| => if 'A' <= text[i] <= 'Z' then text[i] + ' ' else text[i])
  }

  predicate Distinct(ingredients: seq<(ItemKind, nat)>) {
    forall i, j :: 0 <= i < j < |ingredients| ==> ingredients[i].0 != ingredients[j].0
  }

  /** Something is made, and nothing of what it is made from. */
  predicate SoundRecipe(recipe: Recipe) {
    && recipe.output.count > 0
    && (forall i :: 0 <= i < |recipe.ingredients| ==>
          recipe.ingredients[i].1 > 0 && recipe.ingredients[i].0 != recipe.output.kind)
    && Distinct(recipe.ingredients)
  }

  function Using(kind: ItemKind, needed: nat, output: ItemKind, count: nat): (recipe: Recipe)
    requires needed > 0 && count > 0 && kind != output
    ensures SoundRecipe(recipe)
  {
    Recipe([(kind, needed)], ItemStack(output, count, 0))
  }

  function UsingTwo(first: ItemKind, needed: nat, second: ItemKind, neededToo: nat, output: ItemKind): (recipe: Recipe)
    requires needed > 0 && neededToo > 0 && first != second && first != output && second != output
    ensures SoundRecipe(recipe)
  {
    Recipe([(first, needed), (second, neededToo)], ItemStack(output, 1, 0))
  }

  function RecipeDefinition(name: string): (recipe: Option<Recipe>)
    ensures recipe.Some? ==> SoundRecipe(recipe.value)
  {
    var lower := Lowercase(name);
    if lower in ["planks", "oak_planks"] then Some(Using(OakLog, 1, OakPlanks, 4))
    else if lower in ["sticks", "stick"] then Some(Using(OakPlanks, 2, Stick, 4))
    else if lower in ["crafting_table", "table"] then Some(Using(OakPlanks, 4, CraftingTable, 1))
    else if lower in ["wooden_pickaxe", "pickaxe"] then Some(UsingTwo(OakPlanks, 3, Stick, 2, WoodenPickaxe))
    else if lower in ["wooden_axe", "axe"] then Some(UsingTwo(OakPlanks, 3, Stick, 2, WoodenAxe))
    else if lower in ["wooden_shovel", "shovel"] then Some(UsingTwo(OakPlanks, 1, Stick, 2, WoodenShovel))
    else if lower in ["wooden_sword", "sword"] then Some(UsingTwo(OakPlanks, 2, Stick, 1, WoodenSword))
    else if lower == "shield" then Some(UsingTwo(OakPlanks, 6, IronIngot, 1, Shield))
    else if lower in ["flint_and_steel", "flintsteel"] then Some(UsingTwo(IronIngot, 1, Flint, 1, FlintAndSteel))
    else None
  }

  function Needed(ingredients: seq<(ItemKind, nat)>, kind: ItemKind): nat {
    if ingredients == [] then 0
    else (if ingredients[0].0 == kind then ingredients[0].1 else 0) + Needed(ingredients[1..], kind)
  }

  function ConsumeAll(slots: seq<Slot>, ingredients: seq<(ItemKind, nat)>): seq<Slot>
    decreases |ingredients|
  {
    if ingredients == [] then slots
    else ConsumeAll(Consume(slots, ingredients[0].0, ingredients[0].1), ingredients[1..])
  }

  predicate Available(slots: seq<Slot>, ingredients: seq<(ItemKind, nat)>) {
    forall i :: 0 <= i < |ingredients| ==> Total(slots, ingredients[i].0) >= ingredients[i].1
  }

  /** The slots after an accepted craft, and how much of the output was lost for want of room. */
  function Craft(slots: seq<Slot>, name: string): Option<Poured> {
    var definition := RecipeDefinition(name);
    if definition.None? || !Available(slots, definition.value.ingredients)
       || Capacity(slots, definition.value.output) < definition.value.output.count
    then None
    else Some(AddStack(ConsumeAll(slots, definition.value.ingredients), definition.value.output))
  }

  // The first ingredient is there, and taking it leaves the others where they were.
  lemma TakeFirst(slots: seq<Slot>, ingredients: seq<(ItemKind, nat)>, other: ItemKind)
    requires ingredients != [] && Distinct(ingredients) && Available(slots, ingredients)
    ensures var after := Consume(slots, ingredients[0].0, ingredients[0].1);
      && |after| == |slots| && (AllWellFormed(slots) ==> AllWellFormed(after))
      && Available(after, ingredients[1..]) && Distinct(ingredients[1..])
      && Total(after, other) == Total(slots, other) - (if other == ingredients[0].0 then ingredients[0].1 else 0)
  {
    hide AllWellFormed, Total, Consume;
    var (kind, count) := ingredients[0];
    ConsumeTakes(slots, kind, count, other);
    forall i | 0 <= i < |ingredients[1..]|
      ensures Total(Consume(slots, kind, count), ingredients[1..][i].0) >= ingredients[1..][i].1
    {
      assert ingredients[1..][i] == ingredients[i + 1];
      ConsumeTakes(slots, kind, count, ingredients[i + 1].0);
    }
  }

  /** Taking all ingredients removes exactly them, and leaves at least the room there was for the output. */
  lemma {:induction false} ConsumeAllTakes(slots: seq<Slot>, ingredients: seq<(ItemKind, nat)>, output: ItemStack,
                                          other: ItemKind)
    requires Distinct(ingredients) && Available(slots, ingredients)
    requires forall i :: 0 <= i < |ingredients| ==> ingredients[i].0 != output.kind
    ensures var after := ConsumeAll(slots, ingredients);
      && |after| == |slots| && (AllWellFormed(slots) ==> AllWellFormed(after))
      && Total(after, other) == Total(slots, other) - Needed(ingredients, other)
      && FreeRoom(after, output) >= FreeRoom(slots, output)
    decreases |ingredients|
  {
    hide AllWellFormed, Total, FreeRoom, Consume, Distinct, Available;
    if ingredients != [] {
      var (kind, count) := ingredients[0];
      TakeFirst(slots, ingredients, other);
      ConsumeKeepsRoom(slots, kind, count, output);
      ConsumeAllTakes(Consume(slots, kind, count), ingredients[1..], output, other);
    }
  }

  /** A craft changes the total of each kind by the recipe's amounts exactly, less what of the output the room
      left after taking the ingredients does not hold. That is nothing when no stack like the output is over its
      limit: then the capacity check is enough. Stacks within their limits stay there. */
  lemma CraftConserves(slots: seq<Slot>, name: string, kind: ItemKind)
    requires Craft(slots, name).Some?
    ensures RecipeDefinition(name).Some?
    ensures var recipe, crafted := RecipeDefinition(name).value, Craft(slots, name).value;
      && |crafted.slots| == |slots| && (AllWellFormed(slots) ==> AllWellFormed(crafted.slots))
      && crafted.left
           == SaturatingSub(recipe.output.count, FreeRoom(ConsumeAll(slots, recipe.ingredients), recipe.output))
      && (NoneOverfull(slots, recipe.output) ==> crafted.left == 0)
      && Total(crafted.slots, kind) + Needed(recipe.ingredients, kind)
           == Total(slots, kind) + (if kind == recipe.output.kind then recipe.output.count - crafted.left else 0)
  {
    hide AllWellFormed, Total, Capacity, FreeRoom, RecipeDefinition, AddStack, ConsumeAll, Needed, Available,
         NoneOverfull, Distinct;
    var recipe := RecipeDefinition(name).value;
    ConsumeAllTakes(slots, recipe.ingredients, recipe.output, kind);
    AddStackPours(ConsumeAll(slots, recipe.ingredients), recipe.output, kind);
    if NoneOverfull(slots, recipe.output) {
      CapacityIsRoom(slots, recipe.output);
    }
  }

  lemma WellFormedIsNotOverfull(slots: seq<Slot>, incoming: ItemStack)
    requires AllWellFormed(slots)
    ensures NoneOverfull(slots, incoming)
  {
    hide MaxStackSize;
  }

  // ----- What an overfull stack does

  predicate AllStone(slots: seq<Slot>) {
    forall slot <- slots :: slot.stack == Some(ItemStack(Stone, 64, 0))
  }

  lemma StoneSlot(slot: Slot, kind: ItemKind, incoming: ItemStack)
    requires slot.stack == Some(ItemStack(Stone, 64, 0)) && kind != Stone && incoming.kind != Stone
    ensures CountOf(slot, kind) == Room(slot, incoming) == SlotJoinRoom(slot, incoming) == 0
  {
    hide MaxStackSize;
  }

  lemma {:induction false} StoneIsInert(slots: seq<Slot>, kind: ItemKind, incoming: ItemStack)
    requires AllStone(slots) && kind != Stone && incoming.kind != Stone
    ensures Total(slots, kind) == Capacity(slots, incoming) == 0
    ensures JoinRoom(slots, incoming) == EmptyRoom(slots, incoming.kind) == 0
  {
    hide MaxStackSize, CountOf, Room, SlotJoinRoom;
    if slots != [] {
      assert slots[0] in slots;
      assert forall slot <- slots[1..] :: slot in slots;
      StoneSlot(slots[0], kind, incoming);
      StoneIsInert(slots[1..], kind, incoming);
    }
  }

  lemma PlanksRecipe()
    ensures RecipeDefinition("planks") == Some(Recipe([(OakLog, 1)], ItemStack(OakPlanks, 4, 0)))
  {
    assert Lowercase("planks") == "planks";
  }

  /** It can happen: with two logs, 65 planks in one slot, as a save may hold them, and stone in all others,
      planks are crafted and lost. */
  lemma OverfullStackLosesPlanks(slots: seq<Slot>, rest: seq<Slot>)
    requires AllStone(rest)
    requires slots == [Slot(Some(ItemStack(OakLog, 2, 0)), 0), Slot(Some(ItemStack(OakPlanks, 65, 0)), 0)] + rest
    ensures Craft(slots, "planks").Some? && Craft(slots, "planks").value.left == 4
  {
    hide *;
    var logs, planks, output := slots[0], slots[1], ItemStack(OakPlanks, 4, 0);
    var log := Slot(Some(ItemStack(OakLog, 1, 0)), 0);
    assert slots == [logs] + ([planks] + rest);
    PlanksRecipe();
    OverfullNumbers(logs, log, planks, output);
    StoneIsInert(rest, OakLog, output);
    SplitTotal(slots, logs, [planks] + rest, OakLog);
    SplitCapacity(slots, logs, [planks] + rest, output);
    SplitCapacity([planks] + rest, planks, rest, output);
    var after := [log] + ([planks] + rest);
    SplitJoinRoom(after, log, [planks] + rest, output);
    SplitJoinRoom([planks] + rest, planks, rest, output);
    SplitEmptyRoom(after, log, [planks] + rest, OakPlanks);
    SplitEmptyRoom([planks] + rest, planks, rest, OakPlanks);
    ConsumeStep(slots, OakLog, 1);
    ConsumeStep([planks] + rest, OakLog, 0);
    CraftsFrom(slots, "planks", OakLog, 1, output);
  }

  lemma OverfullNumbers(logs: Slot, log: Slot, planks: Slot, output: ItemStack)
    requires logs == Slot(Some(ItemStack(OakLog, 2, 0)), 0) && log == Slot(Some(ItemStack(OakLog, 1, 0)), 0)
    requires planks == Slot(Some(ItemStack(OakPlanks, 65, 0)), 0) && output == ItemStack(OakPlanks, 4, 0)
    ensures CountOf(logs, OakLog) == 2 && Room(planks, output) == 255
    ensures AfterTaking(logs, OakLog, 1) == log && TakenFrom(logs, OakLog, 1) == 1
    ensures SlotJoinRoom(log, output) == SlotJoinRoom(planks, output) == 0
  {
  }

  // A recipe of one ingredient, as far as it goes.
  lemma CraftsFrom(slots: seq<Slot>, name: string, kind: ItemKind, needed: nat, output: ItemStack)
    requires RecipeDefinition(name) == Some(Recipe([(kind, needed)], output))
    requires Total(slots, kind) >= needed && Capacity(slots, output) >= output.count
    ensures Craft(slots, name) == Some(AddStack(Consume(slots, kind, needed), output))
    ensures var after := Consume(slots, kind, needed);
      JoinRoom(after, output) == EmptyRoom(after, output.kind) == 0 ==> AddStack(after, output).left == output.count
  {
    hide RecipeDefinition, Total, Capacity, Consume, AddStack, JoinRoom, EmptyRoom;
    AddStackPours(Consume(slots, kind, needed), output, kind);
    var recipe := RecipeDefinition(name).value;
    assert ConsumeAll(slots, recipe.ingredients) == ConsumeAll(Consume(slots, kind, needed), []);
  }
}
