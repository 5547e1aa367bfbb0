/** Clicks and crafts over an inventory, a chest and a cursor (state.rs): what any run of them conserves. */
module InventoryRuns {
  import opened Wrappers
  import opened Arithmetic
  import opened Items
  import opened Crafting

  const STORAGE_SLOTS := 36
  const CHEST_SLOTS := 27

  predicate AcceptsAny(kind: ItemKind) { true }

  /** A click on one slot of a row; an index past the end changes nothing. */
  function ClickRow(slots: seq<Slot>, index: nat, cursor: Cursor, rightClick: bool): (seq<Slot>, Cursor) {
    if index >= |slots| then (slots, cursor)
    else
      var clicked := ClickStack(slots[index].stack, slots[index].sharpness, cursor, rightClick, AcceptsAny);
      (slots[index := Slot(clicked.slot, clicked.sharpness)], clicked.cursor)
  }

  /** Everything the items can be in. */
  datatype Store = Store(inventory: seq<Slot>, chest: seq<Slot>, cursor: Cursor)

  datatype Action =
    | ClickStorage(index: nat, rightClick: bool)
    | ClickChest(index: nat, rightClick: bool)
    | CraftRecipe(name: string)

  predicate Sound(store: Store) {
    && AllWellFormed(store.inventory) && |store.inventory| == STORAGE_SLOTS
    && AllWellFormed(store.chest) && |store.chest| == CHEST_SLOTS
    && WellFormed(store.cursor.stack)
  }

  function Step(store: Store, action: Action): Store {
    match action
    case ClickStorage(index, rightClick) =>
      var (slots, cursor) := ClickRow(store.inventory, index, store.cursor, rightClick);
      store.(inventory := slots, cursor := cursor)
    case ClickChest(index, rightClick) =>
      var (slots, cursor) := ClickRow(store.chest, index, store.cursor, rightClick);
      store.(chest := slots, cursor := cursor)
    case CraftRecipe(name) =>
      var crafted := Craft(store.inventory, name);
      if crafted.Some? then store.(inventory := crafted.value.slots) else store
  }

  // ----- What there is of a kind, and of a variety

  function CountIn(stack: Option<ItemStack>, kind: ItemKind): nat {
    CountOf(Slot(stack, 0), kind)
  }

  function Stock(store: Store, kind: ItemKind): nat {
    Total(store.inventory, kind) + Total(store.chest, kind) + CountIn(store.cursor.stack, kind)
  }

  function HeldIn(slots: seq<Slot>, v: Variety): nat {
    if slots == [] then 0 else Held(slots[0].stack, slots[0].sharpness, v) + HeldIn(slots[1..], v)
  }

  function Holdings(store: Store, v: Variety): nat {
    HeldIn(store.inventory, v) + HeldIn(store.chest, v) + Held(store.cursor.stack, store.cursor.sharpness, v)
  }

  /** What an action makes of a kind: only an accepted craft makes or uses anything. */
  function Made(store: Store, action: Action, kind: ItemKind): int {
    if action.CraftRecipe? && Craft(store.inventory, action.name).Some? then
      var recipe := RecipeDefinition(action.name).value;
      (if kind == recipe.output.kind then recipe.output.count else 0) - Needed(recipe.ingredients, kind)
    else 0
  }

  // ----- One click

  lemma {:induction false} TotalUpdate(slots: seq<Slot>, index: nat, slot: Slot, kind: ItemKind)
    requires index < |slots|
    ensures Total(slots[index := slot], kind) + CountOf(slots[index], kind) == Total(slots, kind) + CountOf(slot, kind)
  {
    hide CountOf;
    if index == 0 {
      assert slots[0 := slot][1..] == slots[1..];
    } else {
      assert slots[index := slot][1..] == slots[1..][index - 1 := slot];
      TotalUpdate(slots[1..], index - 1, slot, kind);
    }
  }

  lemma {:induction false} HeldUpdate(slots: seq<Slot>, index: nat, slot: Slot, v: Variety)
    requires index < |slots|
    ensures HeldIn(slots[index := slot], v) + Held(slots[index].stack, slots[index].sharpness, v)
         == HeldIn(slots, v) + Held(slot.stack, slot.sharpness, v)
  {
    hide Held;
    if index == 0 {
      assert slots[0 := slot][1..] == slots[1..];
    } else {
      assert slots[index := slot][1..] == slots[1..][index - 1 := slot];
      HeldUpdate(slots[1..], index - 1, slot, v);
    }
  }

  lemma ClickKeepsKinds(slot: Option<ItemStack>, sharpness: nat, cursor: Cursor, rightClick: bool, kind: ItemKind)
    ensures var c := ClickStack(slot, sharpness, cursor, rightClick, AcceptsAny);
      var mints := Underflows(slot, sharpness, cursor, rightClick, AcceptsAny) && cursor.stack.value.kind == kind;
      CountIn(c.slot, kind) + CountIn(c.cursor.stack, kind)
        == CountIn(slot, kind) + CountIn(cursor.stack, kind) + (if mints then 256 else 0)
  {
    hide *;
    if slot.Some? && cursor.stack.Some? {
      TwoStacksKeepKinds(slot.value, sharpness, cursor, rightClick, kind);
    } else {
      OneStackKeepsKinds(slot, sharpness, cursor, rightClick, kind);
    }
  }

  lemma OneStackKeepsKinds(slot: Option<ItemStack>, sharpness: nat, cursor: Cursor, rightClick: bool, kind: ItemKind)
    requires slot.None? || cursor.stack.None?
    ensures var c := ClickStack(slot, sharpness, cursor, rightClick, AcceptsAny);
      var mints := Underflows(slot, sharpness, cursor, rightClick, AcceptsAny) && cursor.stack.value.kind == kind;
      CountIn(c.slot, kind) + CountIn(c.cursor.stack, kind)
        == CountIn(slot, kind) + CountIn(cursor.stack, kind) + (if mints then 256 else 0)
  {
    hide MaxStackSize;
  }

  lemma TwoStacksKeepKinds(held: ItemStack, sharpness: nat, cursor: Cursor, rightClick: bool, kind: ItemKind)
    requires cursor.stack.Some?
    ensures var c := ClickStack(Some(held), sharpness, cursor, rightClick, AcceptsAny);
      var mints := Underflows(Some(held), sharpness, cursor, rightClick, AcceptsAny) && cursor.stack.value.kind == kind;
      CountIn(c.slot, kind) + CountIn(c.cursor.stack, kind)
        == CountIn(Some(held), kind) + CountIn(cursor.stack, kind) + (if mints then 256 else 0)
  {
    hide MaxStackSize, CountIn, NonEmpty, SaturatingSub, WrappingSub;
    var carried := cursor.stack.value;
    if Alike(held, sharpness, carried, cursor.sharpness) {
      var space := SaturatingSub(MaxStackSize(held.kind), held.count);
      PouredKinds(held, carried, Min(if rightClick then 1 else carried.count, space), kind);
      SpaceLeft(MaxStackSize(held.kind), held.count);
    }
  }

  lemma SpaceLeft(limit: nat, count: nat)
    ensures SaturatingSub(limit, count) > 0 <==> count < limit
  {
  }

  lemma PouredKinds(held: ItemStack, carried: ItemStack, moved: nat, kind: ItemKind)
    requires held.kind == carried.kind && (moved <= carried.count || (moved == 1 && carried.count == 0))
    ensures CountIn(Some(held.(count := held.count + moved)), kind)
            + CountIn(NonEmpty(carried.(count := WrappingSub(carried.count, moved))), kind)
      == CountIn(Some(held), kind) + CountIn(Some(carried), kind)
         + (if moved > carried.count && kind == carried.kind then 256 else 0)
  {
    hide MaxStackSize;
  }

  // The click on a row runs into a stack of nothing.
  predicate RowUnderflows(slots: seq<Slot>, index: nat, cursor: Cursor, rightClick: bool) {
    index < |slots| && Underflows(slots[index].stack, slots[index].sharpness, cursor, rightClick, AcceptsAny)
  }

  lemma SameCount(slot: Slot, kind: ItemKind)
    ensures CountOf(slot, kind) == CountIn(slot.stack, kind)
  {
  }

  /** A click on a row conserves every variety and every kind over row and cursor, unless it runs into a stack
      of nothing; within their limits, stacks stay there. */
  lemma ClickRowConserves(slots: seq<Slot>, index: nat, cursor: Cursor, rightClick: bool, v: Variety, kind: ItemKind)
    requires !RowUnderflows(slots, index, cursor, rightClick)
    ensures var (after, next) := ClickRow(slots, index, cursor, rightClick);
      && |after| == |slots|
      && (AllWellFormed(slots) && WellFormed(cursor.stack) ==> AllWellFormed(after) && WellFormed(next.stack))
      && HeldIn(after, v) + Held(next.stack, next.sharpness, v)
           == HeldIn(slots, v) + Held(cursor.stack, cursor.sharpness, v)
      && Total(after, kind) + CountIn(next.stack, kind) == Total(slots, kind) + CountIn(cursor.stack, kind)
  {
    hide ClickStack, Underflows, WellFormed, Held, CountOf, Total, HeldIn;
    if index < |slots| {
      var slot := slots[index];
      assert slot in slots;
      var c := ClickStack(slot.stack, slot.sharpness, cursor, rightClick, AcceptsAny);
      ClickConserves(slot.stack, slot.sharpness, cursor, rightClick, AcceptsAny, v);
      ClickKeepsKinds(slot.stack, slot.sharpness, cursor, rightClick, kind);
      TotalUpdate(slots, index, Slot(c.slot, c.sharpness), kind);
      HeldUpdate(slots, index, Slot(c.slot, c.sharpness), v);
      SameCount(slot, kind);
      SameCount(Slot(c.slot, c.sharpness), kind);
    }
  }

  lemma CarriedIsPositive(slots: seq<Slot>, index: nat, cursor: Cursor, rightClick: bool)
    requires WellFormed(cursor.stack)
    ensures !RowUnderflows(slots, index, cursor, rightClick)
  {
    hide MaxStackSize;
  }

  // ----- Any run

  lemma ClickStorageStep(store: Store, index: nat, rightClick: bool, kind: ItemKind, v: Variety)
    requires Sound(store)
    ensures var action := ClickStorage(index, rightClick);
      && Sound(Step(store, action))
      && Stock(Step(store, action), kind) == Stock(store, kind) && Made(store, action, kind) == 0
      && Holdings(Step(store, action), v) == Holdings(store, v)
  {
    hide AllWellFormed, WellFormed, ClickRow, Craft, Total, HeldIn, Held, CountIn, Needed, RecipeDefinition,
         RowUnderflows;
    CarriedIsPositive(store.inventory, index, store.cursor, rightClick);
    ClickRowConserves(store.inventory, index, store.cursor, rightClick, v, kind);
  }

  lemma ClickChestStep(store: Store, index: nat, rightClick: bool, kind: ItemKind, v: Variety)
    requires Sound(store)
    ensures var action := ClickChest(index, rightClick);
      && Sound(Step(store, action))
      && Stock(Step(store, action), kind) == Stock(store, kind) && Made(store, action, kind) == 0
      && Holdings(Step(store, action), v) == Holdings(store, v)
  {
    hide AllWellFormed, WellFormed, ClickRow, Craft, Total, HeldIn, Held, CountIn, Needed, RecipeDefinition,
         RowUnderflows;
    CarriedIsPositive(store.chest, index, store.cursor, rightClick);
    ClickRowConserves(store.chest, index, store.cursor, rightClick, v, kind);
  }

  lemma CraftStep(store: Store, name: string, kind: ItemKind)
    requires Sound(store)
    ensures Sound(Step(store, CraftRecipe(name)))
    ensures Stock(Step(store, CraftRecipe(name)), kind) == Stock(store, kind) + Made(store, CraftRecipe(name), kind)
  {
    hide AllWellFormed, WellFormed, ClickRow, Craft, Total, HeldIn, Held, CountIn, Needed, RecipeDefinition,
         FreeRoom, ConsumeAll, NoneOverfull;
    if Craft(store.inventory, name).Some? {
      CraftConserves(store.inventory, name, kind);
      WellFormedIsNotOverfull(store.inventory, RecipeDefinition(name).value.output);
    }
  }

  /** One action keeps every stack within its limit and changes the stock of a kind by the recipe's
      amounts, or not at all; a click also leaves damage and sharpness with the items they belong to. */
  lemma StepConserves(store: Store, action: Action, kind: ItemKind, v: Variety)
    requires Sound(store)
    ensures Sound(Step(store, action))
    ensures Stock(Step(store, action), kind) == Stock(store, kind) + Made(store, action, kind)
    ensures !action.CraftRecipe? ==> Holdings(Step(store, action), v) == Holdings(store, v)
  {
    hide *;
    match action
    case ClickStorage(index, rightClick) => ClickStorageStep(store, index, rightClick, kind, v);
    case ClickChest(index, rightClick) => ClickChestStep(store, index, rightClick, kind, v);
    case CraftRecipe(name) => CraftStep(store, name, kind);
  }

  function Run(store: Store, actions: seq<Action>): Store
    decreases |actions|
  {
    if actions == [] then store else Run(Step(store, actions[0]), actions[1..])
  }

  function MadeOver(store: Store, actions: seq<Action>, kind: ItemKind): int
    decreases |actions|
  {
    if actions == [] then 0
    else Made(store, actions[0], kind) + MadeOver(Step(store, actions[0]), actions[1..], kind)
  }

  predicate OnlyClicks(actions: seq<Action>) {
    forall i :: 0 <= i < |actions| ==> !actions[i].CraftRecipe?
  }

  /** Over any run of clicks and crafts the stock of each kind changes only by the accepted recipes' amounts,
      and no stack outgrows its limit; a run of clicks conserves each variety. */
  lemma {:induction false} RunConserves(store: Store, actions: seq<Action>, kind: ItemKind, v: Variety)
    requires Sound(store)
    ensures Sound(Run(store, actions))
    ensures Stock(Run(store, actions), kind) == Stock(store, kind) + MadeOver(store, actions, kind)
    ensures OnlyClicks(actions) ==> Holdings(Run(store, actions), v) == Holdings(store, v)
    decreases |actions|
  {
    hide Sound, Step, Made, Stock, Holdings;
    if actions != [] {
      StepConserves(store, actions[0], kind, v);
      RunConserves(Step(store, actions[0]), actions[1..], kind, v);
    }
  }

  lemma TwoClicks(store: Store, first: Action, second: Action)
    ensures Run(store, [first, second]) == Step(Step(store, first), second)
  {
    hide Step;
    assert [first, second][1..] == [second] && [second][1..] == [];
    assert Run(Step(store, first), [second]) == Run(Step(Step(store, first), second), []);
  }

  /** A stack of nothing, as a save may hold one, is 256 items two clicks later: picked up, and put down
      with the right button on a free slot, it leaves one there and 255 on the cursor. */
  lemma EmptyStackMints(store: Store, from: nat, to: nat, stack: ItemStack, sharpness: nat)
    requires from < |store.inventory| && to < |store.inventory| && from != to && stack.count == 0
    requires store.inventory[from] == Slot(Some(stack), sharpness)
    requires store.inventory[to] == Slot(None, 0) && store.cursor == Cursor(None, 0)
    ensures var after := Run(store, [ClickStorage(from, false), ClickStorage(to, true)]);
      var v := Variety(stack.kind, stack.damage, sharpness);
      && after.inventory == store.inventory[from := Slot(None, 0)][to := Slot(Some(stack.(count := 1)), sharpness)]
      && after.chest == store.chest && after.cursor == Cursor(Some(stack.(count := 255)), sharpness)
      && Holdings(after, v) == Holdings(store, v) + 256
  {
    TwoClicks(store, ClickStorage(from, false), ClickStorage(to, true));
    var v := Variety(stack.kind, stack.damage, sharpness);
    var once := store.inventory[from := Slot(None, 0)];
    HeldUpdate(store.inventory, from, Slot(None, 0), v);
    HeldUpdate(once, to, Slot(Some(stack.(count := 1)), sharpness), v);
    hide HeldIn, MaxStackSize;
  }

  /** Two left clicks move a stack from the chest to a free slot of the inventory, sharpness and all. */
  lemma MovingStack(store: Store, from: nat, to: nat, stack: ItemStack, sharpness: nat)
    requires from < |store.chest| && to < |store.inventory|
    requires store.chest[from] == Slot(Some(stack), sharpness) && 1 <= stack.count <= MaxStackSize(stack.kind)
    requires store.inventory[to] == Slot(None, 0) && store.cursor == Cursor(None, 0)
    ensures Run(store, [ClickChest(from, false), ClickStorage(to, false)])
      == store.(chest := store.chest[from := Slot(None, 0)],
                inventory := store.inventory[to := Slot(Some(stack), sharpness)])
  {
    TwoClicks(store, ClickChest(from, false), ClickStorage(to, false));
    hide MaxStackSize;
  }

  /** A right click and a left one on another slot split a stack: the smaller half stays. */
  lemma SplittingStack(store: Store, from: nat, to: nat, stack: ItemStack, sharpness: nat)
    requires from < |store.inventory| && to < |store.inventory| && from != to
    requires store.inventory[from] == Slot(Some(stack), sharpness) && 2 <= stack.count <= MaxStackSize(stack.kind)
    requires store.inventory[to] == Slot(None, 0) && store.cursor == Cursor(None, 0)
    ensures var half := stack.count / 2;
      Run(store, [ClickStorage(from, true), ClickStorage(to, false)])
      == store.(inventory := store.inventory[from := Slot(Some(stack.(count := half)), sharpness)]
                                            [to := Slot(Some(stack.(count := stack.count - half)), sharpness)])
  {
    TwoClicks(store, ClickStorage(from, true), ClickStorage(to, false));
    hide MaxStackSize;
  }

  // ----- Clicks that undo each other

  // Nothing keeps no sharpness.
  predicate Tidy(stack: Option<ItemStack>, sharpness: nat) {
    stack.None? ==> sharpness == 0
  }

  // Two stacks alike, of which the one in the slot has room for more.
  predicate Mergeable(slot: Slot, cursor: Cursor) {
    && slot.stack.Some? && cursor.stack.Some?
    && Alike(slot.stack.value, slot.sharpness, cursor.stack.value, cursor.sharpness)
    && slot.stack.value.count < MaxStackSize(slot.stack.value.kind)
  }

  lemma ClickStackTwice(slot: Slot, cursor: Cursor, rightFirst: bool)
    requires WellFormed(slot.stack) && WellFormed(cursor.stack)
    requires Tidy(slot.stack, slot.sharpness) && Tidy(cursor.stack, cursor.sharpness)
    requires rightFirst ==> slot.stack.Some? && cursor.stack.None?
    ensures var first := ClickStack(slot.stack, slot.sharpness, cursor, rightFirst, AcceptsAny);
      var second := ClickStack(first.slot, first.sharpness, first.cursor, false, AcceptsAny);
      (second == Clicked(slot.stack, slot.sharpness, cursor)) <==> !Mergeable(slot, cursor)
  {
    hide MaxStackSize;
  }

  /** Clicking a slot twice with the left button, or picking half of a stack up with the right one and putting
      it back with the left, restores everything, except when the first click poured a stack onto one alike. */
  lemma SecondClickUndoes(store: Store, index: nat, rightFirst: bool)
    requires Sound(store) && index < STORAGE_SLOTS
    requires Tidy(store.inventory[index].stack, store.inventory[index].sharpness)
    requires Tidy(store.cursor.stack, store.cursor.sharpness)
    requires rightFirst ==> store.inventory[index].stack.Some? && store.cursor.stack.None?
    ensures Run(store, [ClickStorage(index, rightFirst), ClickStorage(index, false)]) == store
      <==> !Mergeable(store.inventory[index], store.cursor)
  {
    hide ClickStack, WellFormed, Tidy, Mergeable;
    var actions := [ClickStorage(index, rightFirst), ClickStorage(index, false)];
    var slot := store.inventory[index];
    assert slot in store.inventory;
    ClickStackTwice(slot, store.cursor, rightFirst);
    var first := ClickStack(slot.stack, slot.sharpness, store.cursor, rightFirst, AcceptsAny);
    var second := ClickStack(first.slot, first.sharpness, first.cursor, false, AcceptsAny);
    var once := Step(store, actions[0]);
    var twice := Step(once, actions[1]);
    TwoClicks(store, actions[0], actions[1]);
    assert once.inventory[index] == Slot(first.slot, first.sharpness);
    assert twice.inventory == store.inventory[index := Slot(second.slot, second.sharpness)];
    assert twice.inventory == store.inventory <==> twice.inventory[index] == slot;
  }
}
