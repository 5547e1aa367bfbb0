/** One tick of a furnace as a function, its closed form, and what any run of ticks and clicks keeps (state.rs). */
module FurnaceSpec {
  import opened Wrappers
  import opened Arithmetic
  import opened Items

  const COOK_TOTAL := 200

  datatype FurnaceSnapshot = FurnaceSnapshot(
    input: Option<ItemStack>, fuel: Option<ItemStack>, output: Option<ItemStack>,
    burnRemaining: nat, burnTotal: nat, cookProgress: nat, cookTotal: nat)

  function SmeltingResult(kind: ItemKind): Option<ItemKind> {
    match kind
    case RawIron => Some(IronIngot)
    case RawCopper => Some(CopperIngot)
    case RawGold => Some(GoldIngot)
    case Cobblestone => Some(Stone)
    case RawBeef => Some(CookedBeef)
    case Porkchop => Some(CookedPorkchop)
    case OakLog | BirchLog | SpruceLog => Some(Charcoal)
    case _ => None
  }

  function FuelBurnTicks(kind: ItemKind): (ticks: nat)
    ensures ticks in {0, 100, 300, 1600}
  {
    match kind
    case Coal | Charcoal => 1600
    case OakLog | BirchLog | SpruceLog | OakPlanks => 300
    case Stick => 100
    case _ => 0
  }

  predicate CanAccept(slot: Option<ItemStack>, kind: ItemKind) {
    slot.Some? ==> slot.value.kind == kind && slot.value.damage == 0 && slot.value.count < 64
  }

  function TakeOne(slot: Option<ItemStack>): Option<ItemStack> {
    if slot.Some? then NonEmpty(slot.value.(count := SaturatingSub(slot.value.count, 1))) else None
  }

  // ----- One tick

  function Recipe(f: FurnaceSnapshot): Option<ItemKind> {
    if f.input.Some? then SmeltingResult(f.input.value.kind) else None
  }

  predicate CanSmelt(f: FurnaceSnapshot) {
    Recipe(f).Some? && CanAccept(f.output, Recipe(f).value)
  }

  // A unit of fuel is lit on this tick.
  predicate Lights(f: FurnaceSnapshot) {
    f.burnRemaining == 0 && CanSmelt(f) && f.fuel.Some? && FuelBurnTicks(f.fuel.value.kind) > 0
  }

  // The furnace burns during this tick.
  predicate Lit(f: FurnaceSnapshot) {
    f.burnRemaining > 0 || Lights(f)
  }

  // An item comes out on this tick.
  predicate Finishes(f: FurnaceSnapshot) {
    Lit(f) && CanSmelt(f) && f.cookProgress + 1 >= (if f.cookTotal > 1 then f.cookTotal else 1)
  }

  function WithOneMore(output: Option<ItemStack>, kind: ItemKind): Option<ItemStack> {
    if output.Some? then Some(output.value.(count := output.value.count + 1)) else Some(ItemStack(kind, 1, 0))
  }

  function Tick(f: FurnaceSnapshot): FurnaceSnapshot {
    var lit := if Lights(f) then FuelBurnTicks(f.fuel.value.kind) else f.burnRemaining;
    FurnaceSnapshot(
      if Finishes(f) then TakeOne(f.input) else f.input,
      if Lights(f) then TakeOne(f.fuel) else f.fuel,
      if Finishes(f) then WithOneMore(f.output, Recipe(f).value) else f.output,
      if Lit(f) then lit - 1 else lit,
      if Lights(f) then lit else f.burnTotal,
      if Finishes(f) || !CanSmelt(f) then 0 else if Lit(f) then f.cookProgress + 1 else f.cookProgress,
      f.cookTotal)
  }

  function Ticks(f: FurnaceSnapshot, n: nat): FurnaceSnapshot {
    if n == 0 then f else Tick(Ticks(f, n - 1))
  }

  // ----- The closed form

  // An idle furnace with nothing in its output.
  function Idle(input: ItemStack, fuel: ItemStack): FurnaceSnapshot {
    FurnaceSnapshot(NonEmpty(input), NonEmpty(fuel), None, 0, 0, 0, COOK_TOTAL)
  }

  // The ticks out of n during which something cooks.
  function Cooking(input: ItemStack, fuel: ItemStack, n: nat): nat {
    Min(n, Min(fuel.count * FuelBurnTicks(fuel.kind), COOK_TOTAL * input.count))
  }

  // The units of fuel that t lit ticks take.
  function Units(t: nat, burn: nat): nat
    requires burn > 0
  {
    (t + burn - 1) / burn
  }

  // What fuel burns after n ticks of which t were needed.
  function BurnLeft(t: nat, burn: nat, n: nat): nat
    requires burn > 0
  {
    SaturatingSub(burn * Units(t, burn), n)
  }

  predicate Matches(f: FurnaceSnapshot, input: ItemStack, fuel: ItemStack, n: nat)
    requires SmeltingResult(input.kind).Some? && FuelBurnTicks(fuel.kind) > 0
  {
    var burn := FuelBurnTicks(fuel.kind);
    var t := Cooking(input, fuel, n);
    && t / COOK_TOTAL <= input.count && Units(t, burn) <= fuel.count
    && f.input == NonEmpty(input.(count := input.count - t / COOK_TOTAL))
    && f.output == NonEmpty(ItemStack(SmeltingResult(input.kind).value, t / COOK_TOTAL, 0))
    && f.fuel == NonEmpty(fuel.(count := fuel.count - Units(t, burn)))
    && f.cookProgress == t % COOK_TOTAL && f.cookTotal == COOK_TOTAL
    && f.burnRemaining == BurnLeft(t, burn, n)
  }

  lemma UnitsGrow(t: nat, burn: nat)
    requires burn in {100, 300, 1600}
    ensures Units(t + 1, burn) == Units(t, burn) + (if t % burn == 0 then 1 else 0)
    ensures burn * Units(t, burn) == t <==> t % burn == 0
    ensures t <= burn * Units(t, burn) < t + burn
  {
    hide Units;
    var q, r := t / burn, t % burn;
    assert t == burn * q + r && burn * (q + 1) == burn * q + burn;
    if r == 0 {
      RoundsUp(t, burn, q);
      RoundsUp(t + 1, burn, q + 1);
    } else {
      RoundsUp(t, burn, q + 1);
      RoundsUp(t + 1, burn, q + 1);
    }
  }

  lemma RoundsUp(t: nat, burn: nat, units: nat)
    requires burn in {100, 300, 1600} && t <= burn * units < t + burn
    ensures Units(t, burn) == units
  {
    QuotientBounds(t + burn - 1, burn, units, units);
  }

  // The numbers while the furnace runs.
  lemma RunningStep(n: nat, burn: nat, units: nat, items: nat)
    requires burn in {100, 300, 1600} && n < units * burn && n < COOK_TOTAL * items
    ensures n / COOK_TOTAL < items
    ensures Units(n, burn) <= units && (BurnLeft(n, burn, n) == 0 ==> Units(n, burn) < units)
    ensures Units(n + 1, burn) == Units(n, burn) + (if BurnLeft(n, burn, n) == 0 then 1 else 0)
    ensures BurnLeft(n + 1, burn, n + 1) == (if BurnLeft(n, burn, n) == 0 then burn else BurnLeft(n, burn, n)) - 1
  {
    UnitsGrow(n, burn);
  }

  // The numbers once the fuel is spent or the items are.
  lemma StoppedStep(t: nat, n: nat, burn: nat, units: nat, items: nat)
    requires burn in {100, 300, 1600} && t <= n
    requires t == Min(units * burn, COOK_TOTAL * items)
    ensures t < COOK_TOTAL * items ==> t / COOK_TOTAL < items && Units(t, burn) == units && BurnLeft(t, burn, n) == 0
    ensures t == COOK_TOTAL * items ==> t / COOK_TOTAL == items && t % COOK_TOTAL == 0
    ensures BurnLeft(t, burn, n + 1) == SaturatingSub(BurnLeft(t, burn, n), 1)
  {
    UnitsGrow(t, burn);
  }

  lemma MatchesStep(f: FurnaceSnapshot, input: ItemStack, fuel: ItemStack, n: nat)
    requires SmeltingResult(input.kind).Some? && FuelBurnTicks(fuel.kind) > 0 && input.count <= 64
    requires Matches(f, input, fuel, n)
    ensures Matches(Tick(f), input, fuel, n + 1)
  {
    var burn := FuelBurnTicks(fuel.kind);
    hide SmeltingResult, FuelBurnTicks, Units, BurnLeft;
    var t := Cooking(input, fuel, n);
    if n < fuel.count * burn && n < COOK_TOTAL * input.count {
      RunningStep(n, burn, fuel.count, input.count);
    } else {
      StoppedStep(t, n, burn, fuel.count, input.count);
    }
  }

  /** From idle with n items and m units of fuel, after any number of ticks: with t the ticks that cook,
      exactly t / 200 items have come out, t mod 200 is the progress, t / burn rounded up units are gone,
      and the last of them burns for what is left of it. */
  lemma {:induction false} ClosedForm(input: ItemStack, fuel: ItemStack, n: nat)
    requires SmeltingResult(input.kind).Some? && FuelBurnTicks(fuel.kind) > 0 && input.count <= 64
    ensures Matches(Ticks(Idle(input, fuel), n), input, fuel, n)
  {
    hide SmeltingResult, FuelBurnTicks;
    if n == 0 {
      assert Cooking(input, fuel, 0) == 0;
      hide Cooking;
    } else {
      hide Matches;
      ClosedForm(input, fuel, n - 1);
      MatchesStep(Ticks(Idle(input, fuel), n - 1), input, fuel, n - 1);
    }
  }

  // ----- What smelts, what burns, and how far it goes

  /** What each product is smelted from. */
  lemma SmeltedFrom(kind: ItemKind)
    ensures SmeltingResult(kind) == Some(IronIngot) <==> kind == RawIron
    ensures SmeltingResult(kind) == Some(CopperIngot) <==> kind == RawCopper
    ensures SmeltingResult(kind) == Some(GoldIngot) <==> kind == RawGold
    ensures SmeltingResult(kind) == Some(Stone) <==> kind == Cobblestone
    ensures SmeltingResult(kind) == Some(CookedBeef) <==> kind == RawBeef
    ensures SmeltingResult(kind) == Some(CookedPorkchop) <==> kind == Porkchop
    ensures SmeltingResult(kind) == Some(Charcoal) <==> kind.OakLog? || kind.BirchLog? || kind.SpruceLog?
  {
  }

  predicate Smeltable(kind: ItemKind) {
    || kind.RawIron? || kind.RawCopper? || kind.RawGold? || kind.Cobblestone? || kind.RawBeef? || kind.Porkchop?
    || kind.OakLog? || kind.BirchLog? || kind.SpruceLog?
  }

  lemma NothingElseSmelts(kind: ItemKind)
    ensures SmeltingResult(kind).Some? <==> Smeltable(kind)
  {
  }

  /** What burns, and how long. */
  lemma BurnsFor(kind: ItemKind)
    ensures FuelBurnTicks(kind)
      == if kind.Coal? || kind.Charcoal? then 1600
         else if kind.OakLog? || kind.BirchLog? || kind.SpruceLog? || kind.OakPlanks? then 300
         else if kind.Stick? then 100
         else 0
  {
  }

  // How many items a stack of fuel smelts.
  function Worth(fuel: ItemStack): nat {
    if fuel.kind.Coal? || fuel.kind.Charcoal? then 8 * fuel.count
    else if fuel.kind.Stick? then fuel.count / 2
    else 3 * fuel.count / 2
  }

  /** Once the fuel has burned out, coal has smelted eight items, two logs or planks three, and two sticks one,
      as far as there were items to smelt. */
  lemma FuelIsWorth(input: ItemStack, fuel: ItemStack, n: nat)
    requires SmeltingResult(input.kind).Some? && FuelBurnTicks(fuel.kind) > 0 && input.count <= 64
    requires n >= fuel.count * FuelBurnTicks(fuel.kind)
    ensures Ticks(Idle(input, fuel), n).output
      == NonEmpty(ItemStack(SmeltingResult(input.kind).value, Min(input.count, Worth(fuel)), 0))
  {
    hide SmeltingResult, Ticks, Units, BurnLeft, FuelBurnTicks;
    ClosedForm(input, fuel, n);
    BurnsFor(fuel.kind);
    ItemsCooked(fuel.count, FuelBurnTicks(fuel.kind), input.count);
    hide Worth, Min;
    assert Cooking(input, fuel, n) == Min(n, Min(fuel.count * FuelBurnTicks(fuel.kind), COOK_TOTAL * input.count));
  }

  lemma ItemsCooked(units: nat, burn: nat, items: nat)
    requires burn in {100, 300, 1600}
    ensures Min(units * burn, 200 * items) / 200
      == Min(items, if burn == 1600 then 8 * units else if burn == 100 then units / 2 else 3 * units / 2)
  {
  }

  /** A furnace can smelt when its output has room for what the input makes; when it cannot, progress is lost;
      when only the fire is missing, it waits; and the 200th tick of a fire makes the item. */
  lemma TickProgress(f: FurnaceSnapshot)
    requires f.cookTotal == 200
    ensures CanSmelt(f) <==>
      && f.input.Some? && SmeltingResult(f.input.value.kind).Some?
      && (f.output.Some? ==>
            && Some(f.output.value.kind) == SmeltingResult(f.input.value.kind)
            && f.output.value.damage == 0 && f.output.value.count <= 63)
    ensures !CanSmelt(f) ==> Tick(f).cookProgress == 0 && Tick(f).input == f.input && Tick(f).output == f.output
    ensures CanSmelt(f) && !Lit(f) ==> Tick(f) == f
    ensures CanSmelt(f) && Lit(f) && f.cookProgress < 199 ==>
      Tick(f).cookProgress == f.cookProgress + 1 && Tick(f).input == f.input && Tick(f).output == f.output
    ensures CanSmelt(f) && Lit(f) && f.cookProgress >= 199 ==>
      && Tick(f).cookProgress == 0
      && Tick(f).output == Some(ItemStack(SmeltingResult(f.input.value.kind).value,
                                          if f.output.Some? then f.output.value.count + 1 else 1, 0))
  {
    hide SmeltingResult, FuelBurnTicks;
  }
}
