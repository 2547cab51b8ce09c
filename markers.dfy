/**
 * The project indicators and the section markers of both scroll-progress
 * components mark entry `index` as active exactly when `index === current`.
 */
module Markers {

  /** The test each indicator makes while rendering. */
  predicate IsActive(index: nat, current: int) {
    index == current
  }

  /** The indices in `[0, count)` whose indicator is drawn as active. */
  function ActiveMarkers(current: int, count: nat): (active: set<nat>)
    ensures 0 <= current < count ==> active == {current as nat}
    ensures !(0 <= current < count) ==> active == {}
  {
    var r := set k: nat | k < count && IsActive(k, current);
    if 0 <= current < count then
      assert IsActive(current as nat, current);
      r
    else
      r
  }

  /** While `current` is a valid index, exactly one indicator is active. */
  lemma ExactlyOneActive(current: int, count: nat)
    requires 0 <= current < count
    ensures |ActiveMarkers(current, count)| == 1
    ensures forall k: nat :: k < count ==> (k in ActiveMarkers(current, count) <==> k == current)
  {
  }
}
