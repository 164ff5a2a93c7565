/** Which tab content area of a tab group is displayed after the header's
    `change` event. The `class.js` panel compares each area's `name` with
    the tab name at the selected position; the `prop-renderer.js` group
    compares each area's position with the selected position itself. */
module Tabs {
  import opened Dump
  import ClassInspector

  /** `class.js`: the area named `name` is displayed iff it is named like
      `Object.keys($group.tabs)[e.target.value || 0]`; an index outside the
      keys reads `undefined`, which no name equals. */
  predicate ShownByName(tabNames: seq<string>, value: Option<int>, name: string) {
    var k := OrZero(value);
    0 <= k < |tabNames| && tabNames[k] == name
  }

  /** `prop-renderer.js`: the area at position `i` is displayed iff
      `i === (e.target.value || 0)`. */
  predicate ShownByIndex(value: Option<int>, i: nat) {
    i == OrZero(value)
  }

  /** The `class.js` listener's `$contents.forEach`: one display flag per
      content area, in document order. */
  method ToggleByName(tabNames: seq<string>, contents: seq<string>, value: Option<int>) returns (shown: seq<bool>)
    ensures |shown| == |contents|
    ensures forall i :: 0 <= i < |contents| ==> shown[i] == ShownByName(tabNames, value, contents[i])
  {
    var tabName: Option<string> := None;
    var k := OrZero(value);
    if 0 <= k < |tabNames| {
      tabName := Some(tabNames[k]);
    }
    shown := [];
    var i := 0;
    while i < |contents|
      invariant 0 <= i <= |contents| && |shown| == i
      invariant forall j :: 0 <= j < i ==> shown[j] == ShownByName(tabNames, value, contents[j])
    {
      shown := shown + [tabName == Some(contents[i])];
      i := i + 1;
    }
  }

  /** The `prop-renderer.js` listener's `$contents.forEach`. */
  method ToggleByIndex(count: nat, value: Option<int>) returns (shown: seq<bool>)
    ensures |shown| == count
    ensures forall i :: 0 <= i < count ==> shown[i] == ShownByIndex(value, i)
  {
    var idx := OrZero(value);
    shown := [];
    var i := 0;
    while i < count
      invariant 0 <= i <= count && |shown| == i
      invariant forall j :: 0 <= j < i ==> shown[j] == ShownByIndex(value, j)
    {
      shown := shown + [i == idx];
      i := i + 1;
    }
  }

  /** When the content areas carry the tab names in order and the names
      are distinct (they are the keys of one object), the two rules
      display the same area. */
  lemma RulesAgree(tabNames: seq<string>, value: Option<int>, i: nat)
    requires ClassInspector.DistinctNames(tabNames) && i < |tabNames|
    ensures ShownByName(tabNames, value, tabNames[i]) <==> ShownByIndex(value, i)
  {
  }

  /** Exactly one area is displayed when the selected position is one of
      the areas, and none otherwise (a negative or too large index). */
  lemma ShownIsSelected(count: nat, value: Option<int>)
    ensures (exists i: nat :: i < count && ShownByIndex(value, i)) <==> 0 <= OrZero(value) < count
    ensures forall i: nat, j: nat :: ShownByIndex(value, i) && ShownByIndex(value, j) ==> i == j
  {
    if 0 <= OrZero(value) < count {
      var k: nat := OrZero(value);
      assert ShownByIndex(value, k);
    }
  }
}
