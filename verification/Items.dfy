/** Items, stacks and the one-slot click (state.rs). */
module Items {
  import opened Wrappers
  import opened Arithmetic

  datatype ItemKind =
    | Stone | Cobblestone | Dirt | Sand | Gravel | Sandstone | SnowBlock | Netherrack | SoulSand | Basalt
    | EndStone | Obsidian | StoneBricks | OakLog | BirchLog | SpruceLog | OakPlanks | Stick | Apple
    | CraftingTable | Furnace | Chest | IronIngot | CopperIngot | GoldIngot | Flint | FlintAndSteel | Bucket
    | MilkBucket | WoodenPickaxe | WoodenAxe | WoodenShovel | WoodenSword | StonePickaxe | StoneAxe
    | StoneShovel | StoneSword | IronPickaxe | IronAxe | IronShovel | IronSword | DiamondPickaxe
    | DiamondAxe | DiamondShovel | DiamondSword | Shield | RawBeef | Porkchop | CookedBeef | CookedPorkchop
    | RottenFlesh | Coal | Charcoal | RawIron | RawCopper | RawGold | Redstone | LapisLazuli | Diamond
    | IronHelmet | IronChestplate | IronLeggings | IronBoots | DiamondHelmet | DiamondChestplate
    | DiamondLeggings | DiamondBoots

  datatype ItemStack = ItemStack(kind: ItemKind, count: nat, damage: nat)

  /** The stack on the mouse, with the sharpness kept beside it. */
  datatype Cursor = Cursor(stack: Option<ItemStack>, sharpness: nat)

  function MaxStackSize(kind: ItemKind): (n: nat)
    ensures n in {1, 16, 64}
  {
    if kind in {WoodenPickaxe, WoodenAxe, WoodenShovel, WoodenSword, StonePickaxe, StoneAxe, StoneShovel,
                StoneSword, IronPickaxe, IronAxe, IronShovel, IronSword, DiamondPickaxe, DiamondAxe,
                DiamondShovel, DiamondSword, Shield, IronHelmet, IronChestplate, IronLeggings, IronBoots,
                DiamondHelmet, DiamondChestplate, DiamondLeggings, DiamondBoots, FlintAndSteel, MilkBucket}
    then 1
    else if kind == Bucket then 16
    else 64
  }

  // Blocks, materials and food.
  predicate Material(kind: ItemKind) {
    || kind.Stone? || kind.Cobblestone? || kind.Dirt? || kind.Sand? || kind.Gravel? || kind.Sandstone?
    || kind.SnowBlock? || kind.Netherrack? || kind.SoulSand? || kind.Basalt? || kind.EndStone? || kind.Obsidian?
    || kind.StoneBricks? || kind.OakLog? || kind.BirchLog? || kind.SpruceLog? || kind.OakPlanks? || kind.Stick?
    || kind.Apple? || kind.CraftingTable? || kind.Furnace? || kind.Chest? || kind.IronIngot? || kind.CopperIngot?
    || kind.GoldIngot? || kind.Flint? || kind.RawBeef? || kind.Porkchop? || kind.CookedBeef?
    || kind.CookedPorkchop? || kind.RottenFlesh? || kind.Coal? || kind.Charcoal? || kind.RawIron?
    || kind.RawCopper? || kind.RawGold? || kind.Redstone? || kind.LapisLazuli? || kind.Diamond?
  }

  /** Blocks, materials and food stack to 64 and empty buckets to 16; tools, armour and full buckets do not stack. */
  lemma StackLimits(kind: ItemKind)
    ensures MaxStackSize(kind) == if Material(kind) then 64 else if kind.Bucket? then 16 else 1
  {
  }

  predicate WellFormed(stack: Option<ItemStack>) {
    stack.Some? ==> 1 <= stack.value.count <= MaxStackSize(stack.value.kind)
  }

  function SaturatingSub(a: nat, b: nat): nat { if b <= a then a - b else 0 }

  // Counts are bytes: taking more than there is wraps around.
  function WrappingSub(a: nat, b: nat): nat { if b <= a then a - b else (a - b) % 256 }

  // Some(stack) unless nothing is left of it.
  function NonEmpty(stack: ItemStack): Option<ItemStack> {
    if stack.count > 0 then Some(stack) else None
  }

  // ----- Clicking one slot

  datatype Clicked = Clicked(slot: Option<ItemStack>, sharpness: nat, cursor: Cursor)

  predicate Alike(held: ItemStack, sharpness: nat, carried: ItemStack, cursorSharpness: nat) {
    held.kind == carried.kind && held.damage == carried.damage && sharpness == cursorSharpness
  }

  function ClickStack(slot: Option<ItemStack>, sharpness: nat, cursor: Cursor, rightClick: bool,
                      accepts: ItemKind -> bool): Clicked
  {
    match (slot, cursor.stack)
    case (Some(held), None) =>
      var taken := if rightClick then (held.count + 1) / 2 else held.count;
      var left := NonEmpty(held.(count := held.count - taken));
      Clicked(left, if left.None? then 0 else sharpness, Cursor(Some(held.(count := taken)), sharpness))
    case (None, Some(carried)) =>
      if !accepts(carried.kind) then Clicked(slot, sharpness, cursor)
      else
        var moved := Min(if rightClick then 1 else carried.count, MaxStackSize(carried.kind));
        var left := NonEmpty(carried.(count := WrappingSub(carried.count, moved)));
        Clicked(Some(carried.(count := moved)), cursor.sharpness,
                Cursor(left, if left.None? then 0 else cursor.sharpness))
    case (Some(held), Some(carried)) =>
      if Alike(held, sharpness, carried, cursor.sharpness) && accepts(carried.kind) then
        var moved := Min(if rightClick then 1 else carried.count, SaturatingSub(MaxStackSize(held.kind), held.count));
        var left := NonEmpty(carried.(count := WrappingSub(carried.count, moved)));
        Clicked(Some(held.(count := held.count + moved)), sharpness,
                Cursor(left, if left.None? then 0 else cursor.sharpness))
      else if accepts(carried.kind) && carried.count <= MaxStackSize(carried.kind)
      then Clicked(Some(carried), cursor.sharpness, Cursor(Some(held), sharpness))
      else Clicked(slot, sharpness, cursor)
    case (None, None) => Clicked(slot, sharpness, cursor)
  }

  function Count(stack: Option<ItemStack>): nat {
    if stack.Some? then stack.value.count else 0
  }

  /** Picking up: the left button takes all, the right one the larger half. */
  lemma PickingUp(held: ItemStack, sharpness: nat, rightClick: bool, accepts: ItemKind -> bool)
    ensures var c := ClickStack(Some(held), sharpness, Cursor(None, 0), rightClick, accepts);
      var left := if rightClick then held.count / 2 else 0;
      && c.cursor == Cursor(Some(held.(count := held.count - left)), sharpness)
      && c.slot == (if left > 0 then Some(held.(count := left)) else None)
      && c.sharpness == if left > 0 then sharpness else 0
  {
  }

  /** Putting down on a free slot that takes the kind: the left button puts down all, up to the limit of a stack,
      and the right one a single item. */
  lemma PuttingDown(carried: ItemStack, sharpness: nat, rightClick: bool, accepts: ItemKind -> bool)
    requires carried.count >= 1
    ensures var c := ClickStack(None, 0, Cursor(Some(carried), sharpness), rightClick, accepts);
      var moved := if !accepts(carried.kind) then 0
                   else if rightClick then 1
                   else if carried.count < MaxStackSize(carried.kind) then carried.count
                   else MaxStackSize(carried.kind);
      && c.slot == (if moved > 0 then Some(carried.(count := moved)) else None)
      && c.sharpness == (if moved > 0 then sharpness else 0)
      && Count(c.cursor.stack) == carried.count - moved
      && (moved < carried.count ==> c.cursor == Cursor(Some(carried.(count := carried.count - moved)), sharpness))
  {
    hide MaxStackSize;
  }

  /** On a stack alike, the left button adds as many as there is room for, and the right one a single item; on any
      other, the stacks change places when the slot takes the kind and the carried one is within its limit. */
  lemma MeetingStack(held: ItemStack, sharpness: nat, carried: ItemStack, carriedSharpness: nat, rightClick: bool,
                     accepts: ItemKind -> bool)
    requires held.count <= MaxStackSize(held.kind) && carried.count >= 1
    ensures var c := ClickStack(Some(held), sharpness, Cursor(Some(carried), carriedSharpness), rightClick, accepts);
      if !accepts(carried.kind) then c == Clicked(Some(held), sharpness, Cursor(Some(carried), carriedSharpness))
      else if held.(count := 0) == carried.(count := 0) && sharpness == carriedSharpness then
        var wanted := if rightClick then 1 else carried.count;
        var added := Min(wanted, MaxStackSize(held.kind) - held.count);
        && c.slot == Some(held.(count := held.count + added)) && c.sharpness == sharpness
        && Count(c.cursor.stack) == carried.count - added
        && (added < carried.count ==> c.cursor == Cursor(Some(carried.(count := carried.count - added)), sharpness))
      else if carried.count <= MaxStackSize(carried.kind) then
        c == Clicked(Some(carried), carriedSharpness, Cursor(Some(held), sharpness))
      else c == Clicked(Some(held), sharpness, Cursor(Some(carried), carriedSharpness))
  {
    hide MaxStackSize;
  }

  /** Items that are alike in every respect. */
  datatype Variety = Variety(kind: ItemKind, damage: nat, sharpness: nat)

  function Held(stack: Option<ItemStack>, sharpness: nat, v: Variety): nat {
    if stack.Some? && Variety(stack.value.kind, stack.value.damage, sharpness) == v then stack.value.count else 0
  }

  /** A right click with a stack of nothing, as only a save can hold one, onto room for it. */
  predicate Underflows(slot: Option<ItemStack>, sharpness: nat, cursor: Cursor, rightClick: bool,
                       accepts: ItemKind -> bool)
  {
    && rightClick && cursor.stack.Some? && cursor.stack.value.count == 0 && accepts(cursor.stack.value.kind)
    && (slot.Some? ==>
          && Alike(slot.value, sharpness, cursor.stack.value, cursor.sharpness)
          && slot.value.count < MaxStackSize(slot.value.kind))
  }

  lemma ClickMovesItems(slot: Option<ItemStack>, sharpness: nat, cursor: Cursor, rightClick: bool,
                        accepts: ItemKind -> bool, v: Variety)
    ensures var c := ClickStack(slot, sharpness, cursor, rightClick, accepts);
      var mints := Underflows(slot, sharpness, cursor, rightClick, accepts)
        && v == Variety(cursor.stack.value.kind, cursor.stack.value.damage, cursor.sharpness);
      Held(c.slot, c.sharpness, v) + Held(c.cursor.stack, c.cursor.sharpness, v)
        == Held(slot, sharpness, v) + Held(cursor.stack, cursor.sharpness, v) + (if mints then 256 else 0)
  {
    hide MaxStackSize;
  }

  lemma ClickKeepsLimits(slot: Option<ItemStack>, sharpness: nat, cursor: Cursor, rightClick: bool,
                         accepts: ItemKind -> bool)
    ensures var c := ClickStack(slot, sharpness, cursor, rightClick, accepts);
      && (WellFormed(slot) && WellFormed(cursor.stack) ==> WellFormed(c.slot) && WellFormed(c.cursor.stack))
      && (c.slot.None? ==> c.sharpness == 0 || (slot.None? && c.sharpness == sharpness))
  {
    hide MaxStackSize;
  }

  /** A click moves items between slot and cursor and neither makes, loses nor changes one, even when a
      stack is over its limit, with one exception: a right click with a stack of nothing puts one item down
      and leaves 255 on the cursor. Within their limits, the stacks stay there. */
  lemma ClickConserves(slot: Option<ItemStack>, sharpness: nat, cursor: Cursor, rightClick: bool,
                       accepts: ItemKind -> bool, v: Variety)
    ensures var c := ClickStack(slot, sharpness, cursor, rightClick, accepts);
      var mints := Underflows(slot, sharpness, cursor, rightClick, accepts)
        && v == Variety(cursor.stack.value.kind, cursor.stack.value.damage, cursor.sharpness);
      && Held(c.slot, c.sharpness, v) + Held(c.cursor.stack, c.cursor.sharpness, v)
           == Held(slot, sharpness, v) + Held(cursor.stack, cursor.sharpness, v) + (if mints then 256 else 0)
      && (WellFormed(slot) && WellFormed(cursor.stack) ==> WellFormed(c.slot) && WellFormed(c.cursor.stack))
      && (c.slot.None? ==> c.sharpness == 0 || (slot.None? && c.sharpness == sharpness))
  {
    hide *;
    ClickMovesItems(slot, sharpness, cursor, rightClick, accepts, v);
    ClickKeepsLimits(slot, sharpness, cursor, rightClick, accepts);
  }
}
