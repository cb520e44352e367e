/** Component records and the filter the dialog applies to the game's component
    list: keep, in order, the names of the components that are buildable and
    whose type shares a bit with a mask. */
module Components {

  /** A bit position of a 64-bit word. */
  newtype Bit = b: int | 0 <= b < 64

  /** A 64-bit word, given by the positions of its set bits: bitwise AND is
      intersection, bitwise OR is union, and the zero word is the empty set. */
  type Word = set<Bit>

  /** `(a & b) != 0`: the two words have a set bit in common. */
  predicate SharesBit(a: Word, b: Word)
  {
    a * b != {}
  }

  /** A component as the game engine reports it. `kind` is the type bit set
      (GetType), `buildable` is the engine's IsBuildable answer for the player
      who owns the dialog. */
  datatype Component = Component(name: string, kind: Word, buildable: bool)

  /** The test applied to every component before it is listed. */
  predicate Listed(c: Component, mask: Word)
  {
    c.buildable && SharesBit(c.kind, mask)
  }

  /** The names listed for `mask`, in the order of `cs`. */
  function ComponentNames(cs: seq<Component>, mask: Word): (names: seq<string>)
    ensures |names| <= |cs|
    ensures forall n :: n in names ==> exists i :: 0 <= i < |cs| && Listed(cs[i], mask) && cs[i].name == n
    decreases |cs|
  {
    if cs == [] then []
    else
      var last := cs[|cs| - 1];
      var front := cs[..|cs| - 1];
      assert forall i :: 0 <= i < |front| ==> front[i] == cs[i];
      ComponentNames(front, mask) + (if Listed(last, mask) then [last.name] else [])
  }

  /** The indices of the listed components, ascending: the witness that
      ComponentNames is the in-order subsequence of the listed components. */
  function Positions(cs: seq<Component>, mask: Word): (idx: seq<nat>)
    ensures forall k :: 0 <= k < |idx| ==> idx[k] < |cs| && Listed(cs[idx[k]], mask)
    ensures forall k, l :: 0 <= k < l < |idx| ==> idx[k] < idx[l]
    ensures forall i :: 0 <= i < |cs| && Listed(cs[i], mask) ==> i in idx
    decreases |cs|
  {
    if cs == [] then []
    else
      var front := cs[..|cs| - 1];
      assert forall i :: 0 <= i < |front| ==> front[i] == cs[i];
      Positions(front, mask) + (if Listed(cs[|cs| - 1], mask) then [|cs| - 1] else [])
  }

  /** The k-th listed name is the name of the component at the k-th listed
      position: every listed component appears, once, in its original order,
      and nothing else does. */
  lemma {:induction false} NamesFollowPositions(cs: seq<Component>, mask: Word)
    ensures |ComponentNames(cs, mask)| == |Positions(cs, mask)|
    ensures forall k :: 0 <= k < |Positions(cs, mask)| ==>
              ComponentNames(cs, mask)[k] == cs[Positions(cs, mask)[k]].name
    decreases |cs|
  {
    if cs != [] {
      var front := cs[..|cs| - 1];
      NamesFollowPositions(front, mask);
      var names, idx := ComponentNames(cs, mask), Positions(cs, mask);
      var names', idx' := ComponentNames(front, mask), Positions(front, mask);
      if Listed(cs[|cs| - 1], mask) {
        assert names == names' + [cs[|cs| - 1].name] && idx == idx' + [|cs| - 1];
        forall k | 0 <= k < |idx|
          ensures names[k] == cs[idx[k]].name
        {
          if k < |idx'| {
            assert idx[k] == idx'[k] && names[k] == names'[k] && front[idx'[k]] == cs[idx'[k]];
          }
        }
      } else {
        assert names == names' && idx == idx';
        forall k | 0 <= k < |idx|
          ensures names[k] == cs[idx[k]].name
        {
          assert front[idx'[k]] == cs[idx'[k]];
        }
      }
    }
  }

  /** A mask that shares no bit with any component type lists nothing; in
      particular the zero mask ({}) lists nothing. */
  lemma {:induction false} DisjointMaskListsNothing(cs: seq<Component>, mask: Word)
    requires forall i :: 0 <= i < |cs| ==> !SharesBit(cs[i].kind, mask)
    ensures ComponentNames(cs, mask) == []
    decreases |cs|
  {
    if cs != [] {
      var front := cs[..|cs| - 1];
      assert forall i :: 0 <= i < |front| ==> front[i] == cs[i];
      DisjointMaskListsNothing(front, mask);
    }
  }

  /** The loop of setComponentCategory and populateAvailableHullTypes: walk the
      components front to back and append the name of each listed one. */
  method ListComponents(cs: seq<Component>, mask: Word) returns (names: seq<string>)
    ensures names == ComponentNames(cs, mask)
  {
    names := [];
    var i := 0;
    while i < |cs|
      invariant 0 <= i <= |cs|
      invariant names == ComponentNames(cs[..i], mask)
    {
      assert cs[..i + 1][..i] == cs[..i];
      if Listed(cs[i], mask) {
        names := names + [cs[i].name];
      }
      i := i + 1;
    }
    assert cs[..i] == cs;
  }
}
