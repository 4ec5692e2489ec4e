/** The driver's handle space: slots 1 to 63 of a 64-entry table, lowest free slot first. */
module Handles {
  const MAX_DESCRIPTORS := 64

  predicate IsSlot(h: int) {
    1 <= h < MAX_DESCRIPTORS
  }

  /** The slot a new descriptor gets while `live` are taken, or -1. */
  function FirstFree(live: set<int>): (h: int)
    ensures h == -1 || (IsSlot(h) && h !in live)
    ensures h == -1 ==> forall i :: IsSlot(i) ==> i in live
    ensures forall i :: 1 <= i < h ==> i in live
  {
    FreeFrom(live, 1)
  }

  function FreeFrom(live: set<int>, from: int): (h: int)
    requires 1 <= from <= MAX_DESCRIPTORS
    ensures h == -1 || (from <= h < MAX_DESCRIPTORS && h !in live)
    ensures h == -1 ==> forall i :: from <= i < MAX_DESCRIPTORS ==> i in live
    ensures forall i :: from <= i < h ==> i in live
    decreases MAX_DESCRIPTORS - from
  {
    if from == MAX_DESCRIPTORS then -1 else if from !in live then from else FreeFrom(live, from + 1)
  }

  lemma FirstFreeIs(live: set<int>, h: int)
    requires IsSlot(h) && h !in live && forall i :: 1 <= i < h ==> i in live
    ensures FirstFree(live) == h
  {
    var f := FirstFree(live);
    assert f == -1 ==> h in live;
    assert f < h ==> f in live;
  }
}
