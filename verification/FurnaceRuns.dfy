/** Ticks of a furnace interleaved with clicks on its slots (state.rs): what any run of them keeps. */
module FurnaceRuns {
  import opened Wrappers
  import opened Items
  import opened FurnaceSpec

  datatype FurnaceSlot = InputSlot | FuelSlot | OutputSlot

  predicate SlotAccepts(slot: FurnaceSlot, kind: ItemKind) {
    match slot
    case InputSlot => SmeltingResult(kind).Some?
    case FuelSlot => FuelBurnTicks(kind) > 0
    case OutputSlot => false
  }

  function StackIn(f: FurnaceSnapshot, slot: FurnaceSlot): Option<ItemStack> {
    match slot
    case InputSlot => f.input
    case FuelSlot => f.fuel
    case OutputSlot => f.output
  }

  function WithStack(f: FurnaceSnapshot, slot: FurnaceSlot, stack: Option<ItemStack>): FurnaceSnapshot {
    match slot
    case InputSlot => f.(input := stack)
    case FuelSlot => f.(fuel := stack)
    case OutputSlot => f.(output := stack)
  }

  function ClickSlot(f: FurnaceSnapshot, slot: FurnaceSlot, cursor: Cursor, rightClick: bool): (FurnaceSnapshot, Cursor)
  {
    var clicked := ClickStack(StackIn(f, slot), 0, cursor, rightClick, kind => SlotAccepts(slot, kind));
    (WithStack(f, slot, clicked.slot), clicked.cursor)
  }

  /** A stack put down on a free slot with the left button: the input takes what smelts, the fuel slot what
      burns, and the output nothing. */
  lemma SlotsTake(f: FurnaceSnapshot, carried: ItemStack)
    requires WellFormed(Some(carried))
    ensures f.input.None? ==>
      (ClickSlot(f, InputSlot, Cursor(Some(carried), 0), false)
       == if Smeltable(carried.kind) then (f.(input := Some(carried)), Cursor(None, 0))
          else (f, Cursor(Some(carried), 0)))
    ensures f.fuel.None? ==>
      (ClickSlot(f, FuelSlot, Cursor(Some(carried), 0), false)
       == if FuelBurnTicks(carried.kind) > 0 then (f.(fuel := Some(carried)), Cursor(None, 0))
          else (f, Cursor(Some(carried), 0)))
    ensures f.output.None? ==>
      ClickSlot(f, OutputSlot, Cursor(Some(carried), 0), false) == (f, Cursor(Some(carried), 0))
  {
    NothingElseSmelts(carried.kind);
    hide MaxStackSize, SmeltingResult, FuelBurnTicks, Smeltable;
  }

  /** A stack picked up with the left button comes from the slot clicked. */
  lemma SlotsGive(f: FurnaceSnapshot)
    ensures ClickSlot(f, InputSlot, Cursor(None, 0), false) == (f.(input := None), Cursor(f.input, 0))
    ensures ClickSlot(f, FuelSlot, Cursor(None, 0), false) == (f.(fuel := None), Cursor(f.fuel, 0))
    ensures ClickSlot(f, OutputSlot, Cursor(None, 0), false) == (f.(output := None), Cursor(f.output, 0))
  {
    hide MaxStackSize, SmeltingResult, FuelBurnTicks;
  }

  // ----- A session: the furnace and what has happened to it so far

  /** A tick, or a click by a player with some stack on the cursor. */
  datatype Event = TickEvent | ClickEvent(slot: FurnaceSlot, cursor: Cursor, rightClick: bool)

  /** smelted: items that came out. litTicks: ticks the furnace burned. energy: ticks bought by the fuel
      lit so far. burned: units of fuel lit. delivered: items put in by clicks, less those taken out. */
  datatype Session = Session(furnace: FurnaceSnapshot, smelted: nat, litTicks: nat, energy: nat, burned: nat,
                             delivered: int)

  function Placed(): Session {
    Session(FurnaceSnapshot(None, None, None, 0, 0, 0, COOK_TOTAL), 0, 0, 0, 0, 0)
  }

  predicate Possible(event: Event) {
    event.ClickEvent? ==> WellFormed(event.cursor.stack)
  }

  function Step(s: Session, event: Event): Session
  {
    match event
    case TickEvent =>
      var f := s.furnace;
      Session(Tick(f),
              if Finishes(f) then s.smelted + 1 else s.smelted,
              if Lit(f) then s.litTicks + 1 else s.litTicks,
              if Lights(f) then s.energy + FuelBurnTicks(f.fuel.value.kind) else s.energy,
              if Lights(f) then s.burned + 1 else s.burned,
              s.delivered)
    case ClickEvent(slot, cursor, rightClick) =>
      var (furnace, next) := ClickSlot(s.furnace, slot, cursor, rightClick);
      s.(furnace := furnace, delivered := s.delivered + Count(cursor.stack) - Count(next.stack))
  }

  function Contents(f: FurnaceSnapshot): nat {
    Count(f.input) + Count(f.fuel) + Count(f.output)
  }

  /** A tick ticks the furnace, and what came out since shows in its output; a click clicks the slot. */
  lemma EventHappens(s: Session, event: Event)
    ensures event.TickEvent? ==>
      && Step(s, event).furnace == Tick(s.furnace)
      && Step(s, event).smelted - s.smelted == Count(Step(s, event).furnace.output) - Count(s.furnace.output)
    ensures event.ClickEvent? ==>
      Step(s, event).furnace == ClickSlot(s.furnace, event.slot, event.cursor, event.rightClick).0
  {
    hide SmeltingResult, FuelBurnTicks, ClickSlot;
  }

  predicate Kept(s: Session) {
    && WellFormed(s.furnace.input) && WellFormed(s.furnace.fuel) && WellFormed(s.furnace.output)
    && s.furnace.burnRemaining <= s.furnace.burnTotal && s.furnace.burnTotal in {0, 100, 300, 1600}
    && s.furnace.cookTotal == COOK_TOTAL && s.furnace.cookProgress < COOK_TOTAL
    && COOK_TOTAL * s.smelted + s.furnace.cookProgress <= s.litTicks
    && s.litTicks + s.furnace.burnRemaining == s.energy
    && Contents(s.furnace) + s.burned == s.delivered
  }

  lemma SmeltedStackLimit(kind: ItemKind)
    requires SmeltingResult(kind).Some?
    ensures MaxStackSize(SmeltingResult(kind).value) == 64
  {
  }

  lemma TickKeeps(s: Session)
    requires Kept(s)
    ensures Kept(Step(s, TickEvent))
  {
    var f := s.furnace;
    if Recipe(f).Some? {
      SmeltedStackLimit(f.input.value.kind);
    }
    hide SmeltingResult, FuelBurnTicks, MaxStackSize;
  }

  lemma ClickKeepsCount(slot: Option<ItemStack>, cursor: Cursor, rightClick: bool, accepts: ItemKind -> bool)
    requires WellFormed(cursor.stack)
    ensures var c := ClickStack(slot, 0, cursor, rightClick, accepts);
      Count(c.slot) + Count(c.cursor.stack) == Count(slot) + Count(cursor.stack)
  {
    hide MaxStackSize;
  }

  lemma ClickKeeps(s: Session, slot: FurnaceSlot, cursor: Cursor, rightClick: bool)
    requires Kept(s) && WellFormed(cursor.stack)
    ensures Kept(Step(s, ClickEvent(slot, cursor, rightClick)))
  {
    hide ClickStack, WellFormed, Count;
    var accepts := kind => SlotAccepts(slot, kind);
    ClickConserves(StackIn(s.furnace, slot), 0, cursor, rightClick, accepts, Variety(Stone, 0, 0));
    ClickKeepsCount(StackIn(s.furnace, slot), cursor, rightClick, accepts);
  }

  predicate AllPossible(events: seq<Event>) {
    forall i :: 0 <= i < |events| ==> Possible(events[i])
  }

  function Run(s: Session, events: seq<Event>): Session
    decreases |events|
  {
    if events == [] then s else Run(Step(s, events[0]), events[1..])
  }

  /** A run is its events one after the other. */
  lemma {:induction false} RunInParts(s: Session, events: seq<Event>, k: nat)
    requires k < |events|
    ensures Run(s, events) == Run(Step(Run(s, events[..k]), events[k]), events[k + 1..])
    decreases |events|
  {
    hide Step;
    if k == 0 {
      assert events[..0] == [];
    } else {
      var next, rest := Step(s, events[0]), events[1..];
      RunInParts(next, rest, k - 1);
      assert rest[k - 1] == events[k] && rest[k..] == events[k + 1..];
      assert events[..k][0] == events[0] && events[..k][1..] == rest[..k - 1];
    }
  }

  lemma {:induction false} RunKeeps(s: Session, events: seq<Event>)
    requires Kept(s) && AllPossible(events)
    ensures Kept(Run(s, events))
    decreases |events|
  {
    hide Kept, Step;
    if events != [] {
      match events[0] {
        case TickEvent => TickKeeps(s);
        case ClickEvent(slot, cursor, rightClick) =>
          assert Possible(events[0]);
          ClickKeeps(s, slot, cursor, rightClick);
      }
      RunKeeps(Step(s, events[0]), events[1..]);
    }
  }

  lemma PlacedKept()
    ensures Kept(Placed())
  {
  }

  lemma KeptMeans(s: Session)
    requires Kept(s)
    ensures Count(s.furnace.output) <= 64
    ensures s.furnace.burnRemaining <= s.furnace.burnTotal && s.furnace.burnTotal in {0, 100, 300, 1600}
    ensures COOK_TOTAL * s.smelted + s.furnace.cookProgress <= s.litTicks
    ensures s.litTicks + s.furnace.burnRemaining == s.energy
    ensures Contents(s.furnace) + s.burned == s.delivered
  {
    hide MaxStackSize;
  }

  /** Over any run of ticks and clicks on a furnace just placed: the output stays within 64, every item that
      came out took 200 lit ticks and the progress is no more than is left of them, the fire has no more left than
      its fuel gave, every tick of fuel is burned or still to burn, and what was put in is there, was taken out,
      or was burned. */
  lemma PlacedRun(events: seq<Event>)
    requires AllPossible(events)
    ensures var s := Run(Placed(), events);
      && Count(s.furnace.output) <= 64
      && s.furnace.burnRemaining <= s.furnace.burnTotal && s.furnace.burnTotal in {0, 100, 300, 1600}
      && COOK_TOTAL * s.smelted + s.furnace.cookProgress <= s.litTicks
      && s.litTicks + s.furnace.burnRemaining == s.energy
      && Contents(s.furnace) + s.burned == s.delivered
  {
    PlacedKept();
    hide *;
    RunKeeps(Placed(), events);
    KeptMeans(Run(Placed(), events));
  }
}
