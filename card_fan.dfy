/**
 * The fan-out of the preview cards of an animated folder: the k-th of n cards
 * is rotated and shifted by a linear function of its distance from the middle
 * card, and its transition starts k * 50 ms after the first card's.
 */
module CardFan {

  /** The cards of a folder fan out with a stagger of this many milliseconds. */
  const StaggerMs: int := 50

  function Abs(x: real): (r: real)
    ensures r >= 0.0 && (r == x || r == -x)
  {
    if x < 0.0 then -x else x
  }

  /** Position of a card in the fan: -1 for the leftmost card, 1 for the rightmost, 0 when there is at most one card. */
  function Factor(index: int, totalCount: int): real
  {
    var middleIndex := (totalCount - 1) as real / 2.0;
    if totalCount > 1 then (index as real - middleIndex) / middleIndex else 0.0
  }

  datatype CardPose = CardPose(rotationDeg: real, translationX: real, translationY: real, delayMs: int)

  /** The transform and transition delay of preview card `index` of `totalCount`. */
  function Pose(index: nat, totalCount: nat): (p: CardPose)
    requires index < totalCount
    ensures -25.0 <= p.rotationDeg <= 25.0
    ensures -85.0 <= p.translationX <= 85.0
    ensures 0.0 <= p.translationY <= 12.0
    ensures p.delayMs >= 0 && p.delayMs % StaggerMs == 0
  {
    var f := Factor(index, totalCount);
    FactorBounded(index, totalCount);
    CardPose(f * 25.0, f * 85.0, Abs(f) * 12.0, index * StaggerMs)
  }

  lemma DivBounds(x: real, m: real)
    requires m > 0.0 && -m <= x <= m
    ensures -1.0 <= x / m <= 1.0
  {
    assert x / m * m == x;
  }

  /** A single card (or none) is not fanned out at all. */
  lemma FactorOfLoneCard(index: int, totalCount: int)
    requires totalCount <= 1
    ensures Factor(index, totalCount) == 0.0
  {
  }

  /** Every card of the fan lies between the two outermost ones. */
  lemma FactorBounded(index: int, totalCount: int)
    requires 0 <= index < totalCount
    ensures -1.0 <= Factor(index, totalCount) <= 1.0
  {
    if totalCount > 1 {
      var m := (totalCount - 1) as real / 2.0;
      DivBounds(index as real - m, m);
    }
  }

  /** The first card is the leftmost (-1) and the last the rightmost (1). */
  lemma FactorAtEnds(totalCount: int)
    requires totalCount > 1
    ensures Factor(0, totalCount) == -1.0
    ensures Factor(totalCount - 1, totalCount) == 1.0
  {
  }

  /** The fan is symmetric: card i and card n-1-i mirror each other. */
  lemma FactorMirror(index: int, totalCount: int)
    ensures Factor(index, totalCount) == -Factor(totalCount - 1 - index, totalCount)
  {
    if totalCount > 1 {
      var m := (totalCount - 1) as real / 2.0;
      assert (totalCount - 1 - index) as real - m == -(index as real - m);
    }
  }

  /** Cards further to the right in the list sit further to the right in the fan. */
  lemma FactorIncreasing(i: int, j: int, totalCount: int)
    requires i < j && totalCount > 1
    ensures Factor(i, totalCount) < Factor(j, totalCount)
  {
    var m := (totalCount - 1) as real / 2.0;
    var a, b := i as real - m, j as real - m;
    assert b - a > 0.0;
    assert b / m - a / m == (b - a) / m;
  }

  /** Mirrored cards have opposite rotation and horizontal shift and the same lift. */
  lemma PoseMirror(index: nat, totalCount: nat)
    requires index < totalCount
    ensures var p, q := Pose(index, totalCount), Pose(totalCount - 1 - index, totalCount);
      p.rotationDeg == -q.rotationDeg && p.translationX == -q.translationX && p.translationY == q.translationY
  {
    FactorMirror(index, totalCount);
  }

  /** Each card starts its transition exactly one stagger after the previous card. */
  lemma DelayStaggered(index: nat, totalCount: nat)
    requires index + 1 < totalCount
    ensures Pose(index + 1, totalCount).delayMs == Pose(index, totalCount).delayMs + StaggerMs
  {
  }
}
