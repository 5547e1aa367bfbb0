/** A row of slots changed in place: the storage of a player, or a chest (state.rs). */
module Inventory {
  import opened Wrappers
  import opened Arithmetic
  import opened Items
  import opened Crafting
  import opened InventoryRuns

  function Zip(slots: seq<Option<ItemStack>>, sharpness: seq<nat>): (row: seq<Slot>)
    requires |slots| == |sharpness|
    ensures |row| == |slots| && forall i :: 0 <= i < |row| ==> row[i] == Slot(slots[i], sharpness[i])
  {
    seq(|slots|, i requires 0 <= i < |slots| => Slot(slots[i], sharpness[i]))
  }

  // What is poured into the first slots, followed by what pouring into the others gives, is what is wanted.
  ghost predicate PouredSoFar(wanted: Poured, first: seq<Slot>, more: Poured) {
    wanted == Poured(first + more.slots, more.left, more.done)
  }

  lemma PourStarts(row: seq<Slot>, wanted: Poured)
    ensures row[..0] == [] && row[0..] == row && PouredSoFar(wanted, [], wanted)
  {
    assert [] + wanted.slots == wanted.slots;
  }

  lemma PourGoesOn(wanted: Poured, first: seq<Slot>, slot: Slot, more: Poured, next: Poured)
    requires PouredSoFar(wanted, first, more) && more == Poured([slot] + next.slots, next.left, next.done)
    ensures PouredSoFar(wanted, first + [slot], next)
  {
    assert first + ([slot] + next.slots) == (first + [slot]) + next.slots;
  }

  lemma PourEnds(wanted: Poured, first: seq<Slot>, more: Poured)
    requires PouredSoFar(wanted, first, more)
    ensures wanted == Poured(first + more.slots, more.left, more.done)
    ensures more.slots == [] ==> wanted.slots == first
  {
    assert first + [] == first;
  }

  lemma UpdatedParts(row: seq<Slot>, after: seq<Slot>, i: nat)
    requires i < |row| == |after| && after == row[i := after[i]]
    ensures row[i..] != [] && row[i..][0] == row[i] && row[i..][1..] == after[i + 1..]
    ensures after[..i + 1] == row[..i] + [after[i]]
    ensures after == row[..i] + ([after[i]] + row[i..][1..])
  {
  }

  class SlotRow {
    const slots: array<Option<ItemStack>>
    const sharpness: array<nat>

    ghost predicate Valid() {
      slots.Length == sharpness.Length
    }

    ghost function Row(): (row: seq<Slot>)
      requires Valid()
      reads slots, sharpness
      ensures |row| == slots.Length
    {
      Zip(slots[..], sharpness[..])
    }

    constructor (size: nat)
      ensures Valid() && fresh(slots) && fresh(sharpness)
      ensures Row() == seq(size, _ => Slot(None, 0))
    {
      slots := new Option<ItemStack>[size](_ => None);
      sharpness := new nat[size](_ => 0);
    }

    /** Clicks one slot; None when the index is past the last slot. */
    method Click(index: nat, cursor: Cursor, rightClick: bool) returns (next: Option<Cursor>)
      requires Valid()
      modifies slots, sharpness
      ensures next.Some? <==> index < slots.Length
      ensures (Row(), if next.Some? then next.value else cursor)
           == ClickRow(old(Row()), index, cursor, rightClick)
    {
      hide ClickStack, MaxStackSize;
      if index >= slots.Length { return None; }
      assert Row()[index] == Slot(slots[index], sharpness[index]);
      var clicked := ClickStack(slots[index], sharpness[index], cursor, rightClick, AcceptsAny);
      ghost var before := Row();
      if clicked.slot != slots[index] || clicked.sharpness != sharpness[index] {
        slots[index] := clicked.slot;
        sharpness[index] := clicked.sharpness;
      }
      assert Row() == before[index := Slot(clicked.slot, clicked.sharpness)];
      next := Some(clicked.cursor);
    }

    method CountKind(kind: ItemKind) returns (count: nat)
      requires Valid()
      ensures count == Total(Row(), kind)
    {
      hide MaxStackSize;
      count := 0;
      for i := 0 to slots.Length
        invariant count + Total(Row()[i..], kind) == Total(Row(), kind)
      {
        assert Row()[i..] == [Row()[i]] + Row()[i + 1..];
        SplitTotal(Row()[i..], Row()[i], Row()[i + 1..], kind);
        if slots[i].Some? && slots[i].value.kind == kind {
          count := count + slots[i].value.count;
        }
      }
    }

    method RoomFor(incoming: ItemStack) returns (room: nat)
      requires Valid()
      ensures room == Capacity(Row(), incoming)
    {
      hide MaxStackSize, Capacity;
      var maximum := MaxStackSize(incoming.kind);
      ghost var row := Row();
      room := 0;
      NoCapacity(incoming);
      for i := 0 to slots.Length
        invariant room + Capacity(row[i..], incoming) == Capacity(row, incoming)
      {
        assert row[i..] == [row[i]] + row[i + 1..];
        SplitCapacity(row[i..], row[i], row[i + 1..], incoming);
        match slots[i]
        case None => room := room + maximum;
        case Some(stack) =>
          if stack.kind == incoming.kind && stack.damage == incoming.damage {
            room := room + WrappingSub(maximum, stack.count);
          }
      }
      assert row[slots.Length..] == [];
    }

    /** Takes what it can of a kind from one slot. */
    method TakeFrom(i: nat, kind: ItemKind, needed: nat) returns (taken: nat)
      requires Valid() && i < slots.Length
      modifies slots, sharpness
      ensures taken == TakenFrom(old(Row())[i], kind, needed)
      ensures Row() == old(Row())[i := AfterTaking(old(Row())[i], kind, needed)]
    {
      hide MaxStackSize;
      ghost var slot := Row()[i];
      taken := 0;
      if slots[i].Some? && slots[i].value.kind == kind {
        var stack := slots[i].value;
        taken := Min(stack.count, needed);
        slots[i] := NonEmpty(stack.(count := stack.count - taken));
        if slots[i].None? { sharpness[i] := 0; }
      }
    }

    /** Takes items of a kind, first slots first, until enough are taken. */
    method Take(kind: ItemKind, needed: nat)
      requires Valid() && needed > 0
      modifies slots, sharpness
      ensures Row() == Consume(old(Row()), kind, needed)
    {
      hide *;
      ghost var before := Row();
      var left := needed;
      var i := 0;
      assert before[0..] == before;
      while i < slots.Length && left > 0
        invariant 0 <= i <= slots.Length
        invariant Row()[i..] == before[i..]
        invariant Consume(before, kind, needed) == Row()[..i] + Consume(before[i..], kind, left)
      {
        ConsumeStep(before[i..], kind, left);
        ghost var now := Row();
        assert now[i] == before[i..][0] == now[i..][0] && before[i..][1..] == before[i + 1..] == now[i..][1..];
        var taken := TakeFrom(i, kind, left);
        left := left - taken;
        i := i + 1;
        assert Row()[..i] == now[..i - 1] + [Row()[i - 1]];
        assert Row()[i..] == now[i..];
      }
      ConsumeStep(before[i..], kind, left);
      assert Row() == Row()[..i] + Row()[i..];
    }

    method JoinAt(i: nat, incoming: ItemStack) returns (moved: nat)
      requires Valid() && i < slots.Length
      modifies slots
      ensures (Row()[i], moved) == Joined(old(Row())[i], incoming) && Row() == old(Row())[i := Row()[i]]
    {
      moved := 0;
      match slots[i]
      case None =>
      case Some(stack) =>
        var maximum := MaxStackSize(incoming.kind);
        if stack.kind == incoming.kind && stack.damage == incoming.damage && stack.count < maximum {
          moved := Min(incoming.count, maximum - stack.count);
          slots[i] := Some(stack.(count := stack.count + moved));
        }
    }

    method FillAt(i: nat, incoming: ItemStack) returns (moved: nat)
      requires Valid() && i < slots.Length
      modifies slots, sharpness
      ensures (Row()[i], moved) == Filled(old(Row())[i], incoming) && Row() == old(Row())[i := Row()[i]]
    {
      moved := 0;
      if slots[i].None? {
        moved := Min(incoming.count, MaxStackSize(incoming.kind));
        slots[i] := Some(incoming.(count := moved));
        sharpness[i] := 0;
      }
    }

    predicate JoinsAt(i: nat, incoming: ItemStack)
      requires Valid() && i < slots.Length
      reads slots, sharpness
      ensures JoinsAt(i, incoming) <==> Joins(Row()[i], incoming)
    {
      Joins(Slot(slots[i], sharpness[i]), incoming)
    }

    predicate EmptyAt(i: nat)
      requires Valid() && i < slots.Length
      reads slots, sharpness
      ensures EmptyAt(i) <==> Row()[i].stack.None?
    {
      slots[i].None?
    }

    /** Pours a stack onto stacks like it. */
    method MergeStack(incoming: ItemStack) returns (left: nat, done: bool)
      requires Valid()
      modifies slots, sharpness
      ensures Poured(Row(), left, done) == Merge(old(Row()), incoming)
    {
      hide *;
      ghost var wanted := Merge(Row(), incoming);
      left, done := incoming.count, false;
      PourStarts(Row(), wanted);
      var i := 0;
      while i < slots.Length
        invariant 0 <= i <= slots.Length
        invariant PouredSoFar(wanted, Row()[..i], Merge(Row()[i..], incoming.(count := left)))
      {
        ghost var now := Row();
        MergeStep(now[i..], incoming.(count := left));
        var fits := JoinsAt(i, incoming.(count := left));
        var moved := JoinAt(i, incoming.(count := left));
        UpdatedParts(now, Row(), i);
        if fits && moved == left {
          PourEnds(wanted, now[..i], Merge(now[i..], incoming.(count := left)));
          return 0, true;
        }
        PourGoesOn(wanted, now[..i], Row()[i], Merge(now[i..], incoming.(count := left)),
                   Merge(Row()[i + 1..], incoming.(count := left - moved)));
        left := left - moved;
        i := i + 1;
      }
      assert Row()[i..] == [] && Row()[..i] == Row();
      MergeStep([], incoming.(count := left));
      PourEnds(wanted, Row(), Merge([], incoming.(count := left)));
    }

    /** Pours a stack into empty slots. */
    method FillEmpty(incoming: ItemStack) returns (left: nat, done: bool)
      requires Valid()
      modifies slots, sharpness
      ensures Poured(Row(), left, done) == Fill(old(Row()), incoming)
    {
      hide *;
      ghost var wanted := Fill(Row(), incoming);
      left, done := incoming.count, false;
      PourStarts(Row(), wanted);
      var i := 0;
      while i < slots.Length
        invariant 0 <= i <= slots.Length
        invariant PouredSoFar(wanted, Row()[..i], Fill(Row()[i..], incoming.(count := left)))
      {
        ghost var now := Row();
        FillStep(now[i..], incoming.(count := left));
        var fits := EmptyAt(i);
        var moved := FillAt(i, incoming.(count := left));
        UpdatedParts(now, Row(), i);
        if fits && moved == left {
          PourEnds(wanted, now[..i], Fill(now[i..], incoming.(count := left)));
          return 0, true;
        }
        PourGoesOn(wanted, now[..i], Row()[i], Fill(now[i..], incoming.(count := left)),
                   Fill(Row()[i + 1..], incoming.(count := left - moved)));
        left := left - moved;
        i := i + 1;
      }
      assert Row()[i..] == [] && Row()[..i] == Row();
      FillStep([], incoming.(count := left));
      PourEnds(wanted, Row(), Fill([], incoming.(count := left)));
    }

    /** Adds a stack, and says how much of it was left over. */
    method AddStack(incoming: ItemStack) returns (left: nat, added: bool)
      requires Valid()
      modifies slots, sharpness
      ensures Poured(Row(), left, added) == Crafting.AddStack(old(Row()), incoming)
    {
      hide Merge, Fill, Zip;
      left, added := MergeStack(incoming);
      if !added {
        left, added := FillEmpty(incoming.(count := left));
      }
    }

    /** Crafts by name: all or nothing. */
    method Craft(name: string) returns (crafted: bool)
      requires Valid()
      modifies slots, sharpness
      ensures crafted <==> Crafting.Craft(old(Row()), name).Some?
      ensures Row() == if crafted then Crafting.Craft(old(Row()), name).value.slots else old(Row())
    {
      hide Total, Capacity, RecipeDefinition, Crafting.AddStack, Consume;
      var definition := RecipeDefinition(name);
      if definition.None? { return false; }
      var ingredients, output := definition.value.ingredients, definition.value.output;
      ghost var before := Row();
      for i := 0 to |ingredients|
        invariant Row() == before
        invariant forall j :: 0 <= j < i ==> Total(before, ingredients[j].0) >= ingredients[j].1
      {
        var count := CountKind(ingredients[i].0);
        if count < ingredients[i].1 { return false; }
      }
      var capacity := RoomFor(output);
      if capacity < output.count { return false; }
      assert ingredients[0..] == ingredients;
      for i := 0 to |ingredients|
        invariant ConsumeAll(before, ingredients) == ConsumeAll(Row(), ingredients[i..])
      {
        assert ingredients[i..][0] == ingredients[i] && ingredients[i..][1..] == ingredients[i + 1..];
        Take(ingredients[i].0, ingredients[i].1);
      }
      var left, added := AddStack(output);
      crafted := true;
    }
  }

  lemma NoCapacity(incoming: ItemStack)
    ensures Capacity([], incoming) == 0
  {
  }
}
