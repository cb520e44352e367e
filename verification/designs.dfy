/** The existing-designs list: the names of the player's design slots
    0 .. max-1 that hold a design, in slot order. The slots and `max` (the
    rule constant MaxShipDesigns or MaxBaseDesigns) come from the game engine. */
module Designs {
  import opened Options

  /** The engine's slot accessor: a slot past the end of `slots` is empty. */
  function Slot(slots: seq<Option<string>>, i: int): Option<string>
  {
    if 0 <= i < |slots| then slots[i] else None
  }

  /** The names of the filled slots with index below `max`, in ascending
      index order. */
  function ExistingNames(slots: seq<Option<string>>, max: int): (names: seq<string>)
    requires max >= 0
    ensures |names| <= max
    decreases max
  {
    if max == 0 then []
    else
      ExistingNames(slots, max - 1)
      + (match Slot(slots, max - 1) case Some(n) => [n] case None => [])
  }

  /** The indices of the filled slots below `max`, ascending: the witness that
      ExistingNames is the in-order subsequence of the filled slots. */
  function FilledSlots(slots: seq<Option<string>>, max: int): (idx: seq<nat>)
    requires max >= 0
    ensures forall k :: 0 <= k < |idx| ==> idx[k] < max && Slot(slots, idx[k]).Some?
    ensures forall k, l :: 0 <= k < l < |idx| ==> idx[k] < idx[l]
    ensures forall i :: 0 <= i < max && Slot(slots, i).Some? ==> i in idx
    decreases max
  {
    if max == 0 then []
    else FilledSlots(slots, max - 1) + (if Slot(slots, max - 1).Some? then [max - 1] else [])
  }

  /** The k-th existing name is the design in the k-th filled slot: every
      filled slot below `max` contributes its name once, in slot order. */
  lemma {:induction false} NamesFollowFilledSlots(slots: seq<Option<string>>, max: int)
    requires max >= 0
    ensures |ExistingNames(slots, max)| == |FilledSlots(slots, max)|
    ensures forall k :: 0 <= k < |FilledSlots(slots, max)| ==>
              Slot(slots, FilledSlots(slots, max)[k]) == Some(ExistingNames(slots, max)[k])
    decreases max
  {
    if max > 0 {
      NamesFollowFilledSlots(slots, max - 1);
      var names, idx := ExistingNames(slots, max), FilledSlots(slots, max);
      var names', idx' := ExistingNames(slots, max - 1), FilledSlots(slots, max - 1);
      match Slot(slots, max - 1)
      case None =>
        assert names == names' && idx == idx';
      case Some(n) =>
        assert names == names' + [n] && idx == idx' + [max - 1];
        forall k | 0 <= k < |idx|
          ensures Slot(slots, idx[k]) == Some(names[k])
        {
          if k < |idx'| {
            assert idx[k] == idx'[k] && names[k] == names'[k];
          }
        }
    }
  }

  /** Slots at or beyond `max` never show up: only the first `max` slots are
      read. */
  lemma {:induction false} OnlyFirstSlotsMatter(slots: seq<Option<string>>, other: seq<Option<string>>, max: int)
    requires max >= 0
    requires forall i :: 0 <= i < max ==> Slot(slots, i) == Slot(other, i)
    ensures ExistingNames(slots, max) == ExistingNames(other, max)
    decreases max
  {
    if max > 0 {
      OnlyFirstSlotsMatter(slots, other, max - 1);
    }
  }

  /** The loop of populateExistingDesigns. Its condition is `i != max`, so it
      ends only for a non-negative `max`. */
  method PopulateExistingDesigns(slots: seq<Option<string>>, max: int) returns (names: seq<string>)
    requires max >= 0
    ensures names == ExistingNames(slots, max)
  {
    names := [];
    var i := 0;
    while i != max
      invariant 0 <= i <= max
      invariant names == ExistingNames(slots, i)
      decreases max - i
    {
      var slot := Slot(slots, i);
      if slot.Some? {
        names := names + [slot.value];
      }
      i := i + 1;
    }
  }
}
