/** The furnaces of the server, ticked and clicked in place (state.rs). */
module Furnaces {
  import opened Wrappers
  import opened Blocks
  import opened Items
  import opened FurnaceSpec
  import opened FurnaceRuns

  datatype FurnaceKey = FurnaceKey(dimension: DimensionKind, position: BlockPosition)

  const EMPTY_FURNACE := FurnaceSnapshot(None, None, None, 0, 0, 0, COOK_TOTAL)

  // One furnace's tick, field by field.
  method TickFurnace(start: FurnaceSnapshot) returns (f: FurnaceSnapshot)
    ensures f == Tick(start)
  {
    hide MaxStackSize, SmeltingResult, FuelBurnTicks;
    f := start;
    var recipe := if f.input.Some? then SmeltingResult(f.input.value.kind) else None;
    var canSmelt := recipe.Some? && CanAccept(f.output, recipe.value);
    if f.burnRemaining == 0 && canSmelt {
      var burnTicks := if f.fuel.Some? then FuelBurnTicks(f.fuel.value.kind) else 0;
      if burnTicks > 0 {
        f := f.(fuel := TakeOne(f.fuel), burnRemaining := burnTicks, burnTotal := burnTicks);
      }
    }
    var burning := f.burnRemaining > 0;
    if burning {
      f := f.(burnRemaining := f.burnRemaining - 1);
    }
    if burning && canSmelt {
      f := f.(cookProgress := f.cookProgress + 1);
      if f.cookProgress >= (if f.cookTotal > 1 then f.cookTotal else 1) {
        f := f.(input := TakeOne(f.input), output := WithOneMore(f.output, recipe.value), cookProgress := 0);
      }
    } else if !canSmelt && f.cookProgress != 0 {
      f := f.(cookProgress := 0);
    }
  }

  class FurnaceBank {
    var furnaces: map<FurnaceKey, FurnaceSnapshot>

    constructor ()
      ensures furnaces == map[]
    {
      furnaces := map[];
    }

    /** Ticks every furnace once. */
    method TickFurnaces()
      modifies this
      ensures furnaces == map key <- old(furnaces).Keys :: Tick(old(furnaces)[key])
    {
      hide Tick;
      ghost var before := furnaces;
      var pending := furnaces.Keys;
      while pending != {}
        invariant pending <= furnaces.Keys == before.Keys
        invariant forall key <- before.Keys ::
          furnaces[key] == (if key in pending then before[key] else Tick(before[key]))
        decreases |pending|
      {
        var key :| key in pending;
        var ticked := TickFurnace(furnaces[key]);
        furnaces := furnaces[key := ticked];
        pending := pending - {key};
      }
    }

    /** Clicks a slot of the furnace at a position; None when there is no furnace block there.
        A furnace not seen before starts empty. */
    method ClickFurnaceSlot(isFurnace: bool, key: FurnaceKey, slot: FurnaceSlot, cursor: Cursor, rightClick: bool)
      returns (next: Option<Cursor>)
      modifies this
      ensures next.Some? <==> isFurnace
      ensures !isFurnace ==> furnaces == old(furnaces)
      ensures isFurnace ==>
        var f := if key in old(furnaces) then old(furnaces)[key] else EMPTY_FURNACE;
        furnaces == old(furnaces)[key := ClickSlot(f, slot, cursor, rightClick).0]
        && next.value == ClickSlot(f, slot, cursor, rightClick).1
    {
      hide ClickStack;
      if !isFurnace { return None; }
      if key !in furnaces {
        furnaces := furnaces[key := EMPTY_FURNACE];
      }
      var f := furnaces[key];
      var clicked := ClickStack(StackIn(f, slot), 0, cursor, rightClick, kind => SlotAccepts(slot, kind));
      if clicked.slot != StackIn(f, slot) {
        furnaces := furnaces[key := WithStack(f, slot, clicked.slot)];
      }
      next := Some(clicked.cursor);
    }
  }
}
