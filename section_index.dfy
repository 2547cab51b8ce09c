/**
 * The active section of a page from its scroll progress: with n sections, a
 * progress p (0 at the top of the page, 1 at the bottom) selects section
 * min(floor(p * n), n - 1). Both scroll-progress components compute this.
 */
module SectionIndex {

  /** `Math.min(Math.floor(latest * sectionCount), sectionCount - 1)`. */
  function ActiveSectionIndex(latest: real, sectionCount: int): (index: int)
    ensures index <= sectionCount - 1
    ensures index <= (latest * sectionCount as real).Floor
  {
    var sectionIndex := (latest * sectionCount as real).Floor;
    if sectionIndex < sectionCount - 1 then sectionIndex else sectionCount - 1
  }

  lemma ScaleMonotone(p: real, q: real, n: real)
    requires p <= q && n >= 0.0
    ensures p * n <= q * n
  {
    assert q * n - p * n == (q - p) * n;
  }

  /** Within the range a scroll progress takes, the index names a section. */
  lemma IndexInRange(latest: real, sectionCount: int)
    requires 0.0 <= latest <= 1.0 && sectionCount >= 1
    ensures 0 <= ActiveSectionIndex(latest, sectionCount) < sectionCount
  {
    var n := sectionCount as real;
    ScaleMonotone(0.0, latest, n);
    assert 0.0 <= latest * n;
    assert 0 <= (latest * n).Floor;
  }

  /** The top of the page selects the first section; the bottom, thanks to the clamp, the last. */
  lemma EndsOfPage(sectionCount: int)
    requires sectionCount >= 1
    ensures ActiveSectionIndex(0.0, sectionCount) == 0
    ensures ActiveSectionIndex(1.0, sectionCount) == sectionCount - 1
  {
  }

  /** Scrolling further down never selects an earlier section. */
  lemma Monotone(p: real, q: real, sectionCount: int)
    requires p <= q && sectionCount >= 0
    ensures ActiveSectionIndex(p, sectionCount) <= ActiveSectionIndex(q, sectionCount)
  {
    var n := sectionCount as real;
    ScaleMonotone(p, q, n);
    assert (p * n).Floor as real <= p * n <= q * n < (q * n).Floor as real + 1.0;
    assert (p * n).Floor <= (q * n).Floor;
  }

  /** Section k (other than the last) is active on exactly the progress band [k/n, (k+1)/n). */
  lemma BandSelectsSection(latest: real, k: int, sectionCount: int)
    requires 0 <= k < sectionCount - 1
    requires k as real / sectionCount as real <= latest < (k + 1) as real / sectionCount as real
    ensures ActiveSectionIndex(latest, sectionCount) == k
  {
    var n := sectionCount as real;
    assert k as real / n * n == k as real;
    assert (k + 1) as real / n * n == (k + 1) as real;
    ScaleMonotone(k as real / n, latest, n);
    assert latest * n < (k + 1) as real by {
      var d := (k + 1) as real / n - latest;
      assert d > 0.0;
      assert (k + 1) as real - latest * n == d * n;
    }
  }

  /** Conversely, a section other than the last is selected only from within its band. */
  lemma SelectedSectionLiesInBand(latest: real, k: int, sectionCount: int)
    requires 0 <= k < sectionCount - 1
    requires ActiveSectionIndex(latest, sectionCount) == k
    ensures k as real / sectionCount as real <= latest < (k + 1) as real / sectionCount as real
  {
    var n := sectionCount as real;
    assert (latest * n).Floor == k;
    assert k as real <= latest * n < (k + 1) as real;
    assert k as real / n * n == k as real;
    assert (k + 1) as real / n * n == (k + 1) as real;
    if latest < k as real / n {
      assert false;
    }
    if (k + 1) as real / n <= latest {
      ScaleMonotone((k + 1) as real / n, latest, n);
      assert false;
    }
  }

  /** Any band beyond the last boundary selects the last section, whatever the progress. */
  lemma LastSectionFromItsBand(latest: real, sectionCount: int)
    requires sectionCount >= 1
    requires (sectionCount - 1) as real / sectionCount as real <= latest
    ensures ActiveSectionIndex(latest, sectionCount) == sectionCount - 1
  {
    var n := sectionCount as real;
    assert (sectionCount - 1) as real / n * n == (sectionCount - 1) as real;
    ScaleMonotone((sectionCount - 1) as real / n, latest, n);
  }

  /** There is no lower clamp: a negative progress would select a negative index. */
  lemma NegativeProgressEscapesRange(latest: real, sectionCount: int)
    requires latest < 0.0 && sectionCount >= 1
    ensures ActiveSectionIndex(latest, sectionCount) < 0
  {
    var n := sectionCount as real;
    assert latest * n < 0.0 by {
      assert -latest > 0.0;
      assert (-latest) * n > 0.0;
    }
  }
}
