/**
 * The projects page: one project is shown at a time; previous and next step
 * cyclically through the fixed list of projects, and a numbered indicator per
 * project jumps straight to it.
 */
module ProjectsCarousel {
  import Markers

  /** The projects list of the page has four entries (ids "0" to "3"). */
  const ProjectCount: nat := 4

  /** JavaScript's `%`: truncates toward zero, so the result takes the sign of `a`. */
  function JsRem(a: int, n: int): (r: int)
    requires n > 0
    ensures a >= 0 ==> r == a % n
    ensures a < 0 ==> -n < r <= 0
  {
    if a >= 0 then a % n else -((-a) % n)
  }

  /** The updater of `goToNext`. */
  function NextIndex(i: int, n: int): (r: int)
    requires n > 0
    ensures 0 <= i ==> 0 <= r < n
    ensures 0 <= i < n - 1 ==> r == i + 1
    ensures i == n - 1 ==> r == 0
  {
    JsRem(i + 1, n)
  }

  /** The updater of `goToPrevious`. */
  function PreviousIndex(i: int, n: int): (r: int)
    requires n > 0
    ensures 0 <= i < n ==> 0 <= r < n
    ensures 0 < i < n ==> r == i - 1
    ensures i == 0 ==> r == n - 1
  {
    JsRem(i - 1 + n, n)
  }

  /** Stepping forward then back, or back then forward, returns to the same project. */
  lemma NextThenPrevious(i: int, n: int)
    requires 0 <= i < n
    ensures PreviousIndex(NextIndex(i, n), n) == i
    ensures NextIndex(PreviousIndex(i, n), n) == i
  {
  }

  /** The index after `k` presses of next. */
  function Advance(i: int, k: nat, n: int): int
    requires n > 0
  {
    if k == 0 then i else NextIndex(Advance(i, k - 1, n), n)
  }

  /** Presses of next compose: `a` presses then `b` presses are `a + b` presses. */
  lemma {:induction false} AdvanceCompose(i: int, a: nat, b: nat, n: int)
    requires n > 0
    ensures Advance(Advance(i, a, n), b, n) == Advance(i, a + b, n)
  {
    if b > 0 {
      AdvanceCompose(i, a, b - 1, n);
    }
  }

  /** Without reaching the last project, `k` presses of next move exactly `k` projects on. */
  lemma {:induction false} AdvanceWithoutWrap(i: int, k: nat, n: int)
    requires 0 <= i && i + k < n
    ensures Advance(i, k, n) == i + k
  {
    if k > 0 {
      AdvanceWithoutWrap(i, k - 1, n);
    }
  }

  /** A full round of `n` presses of next comes back to the starting project. */
  lemma FullRoundReturns(i: int, n: int)
    requires 0 <= i < n
    ensures Advance(i, n as nat, n) == i
  {
    var toLast: nat := n - 1 - i;
    AdvanceWithoutWrap(i, toLast, n);
    assert Advance(i, toLast + 1, n) == 0;
    AdvanceWithoutWrap(0, i, n);
    AdvanceCompose(i, toLast + 1, i, n);
  }

  /** On the four-project page, four presses of next show the starting project again. */
  lemma FourNextsReturn(i: int)
    requires 0 <= i < ProjectCount
    ensures NextIndex(NextIndex(NextIndex(NextIndex(i, ProjectCount), ProjectCount), ProjectCount), ProjectCount) == i
  {
    FullRoundReturns(i, ProjectCount);
  }

  /** The projects page: `currentProjectIndex` is its only state. */
  class ProjectsSection {
    var currentProjectIndex: int

    ghost predicate Valid()
      reads this
    {
      0 <= currentProjectIndex < ProjectCount
    }

    /** Whether indicator `index` is drawn highlighted. */
    function IndicatorActive(index: nat): bool
      reads this
    {
      Markers.IsActive(index, currentProjectIndex)
    }

    constructor ()
      ensures Valid() && currentProjectIndex == 0
    {
      currentProjectIndex := 0;
    }

    method GoToNext()
      requires Valid()
      modifies this
      ensures Valid()
      ensures currentProjectIndex == NextIndex(old(currentProjectIndex), ProjectCount)
    {
      currentProjectIndex := NextIndex(currentProjectIndex, ProjectCount);
    }

    method GoToPrevious()
      requires Valid()
      modifies this
      ensures Valid()
      ensures currentProjectIndex == PreviousIndex(old(currentProjectIndex), ProjectCount)
    {
      currentProjectIndex := PreviousIndex(currentProjectIndex, ProjectCount);
    }

    /** A click on the indicator of project `index` (one indicator per project). */
    method SelectIndicator(index: nat)
      requires Valid() && index < ProjectCount
      modifies this
      ensures Valid() && currentProjectIndex == index
      ensures forall k: nat :: k < ProjectCount ==> (IndicatorActive(k) <==> k == index)
    {
      currentProjectIndex := index;
    }

    /** The set of highlighted indicators is exactly the current project's. */
    method ActiveIndicators() returns (active: set<nat>)
      requires Valid()
      ensures active == {currentProjectIndex as nat}
      ensures |active| == 1
    {
      active := Markers.ActiveMarkers(currentProjectIndex, ProjectCount);
      Markers.ExactlyOneActive(currentProjectIndex, ProjectCount);
    }
  }
}
