/** The top progress bar with its list of section names; the active name is highlighted. */
module ScrollProgress {
  import SectionIndex
  import Markers

  /** The section names used when none are passed. */
  const DefaultSections: seq<string> := ["Home", "About", "Projects"]

  class ScrollProgress {
    const sections: seq<string>
    var activeIndex: int

    /** Whether the label and dot of section `index` are highlighted. */
    function Highlighted(index: nat): bool
      reads this
    {
      Markers.IsActive(index, activeIndex)
    }

    constructor (sections: seq<string>)
      ensures this.sections == sections && activeIndex == 0
    {
      this.sections := sections;
      activeIndex := 0;
    }

    /** The component used without a `sections` prop. */
    constructor WithDefaults()
      ensures |sections| == 3 && activeIndex == 0
    {
      sections := DefaultSections;
      activeIndex := 0;
    }

    /** The subscription to the page's scroll progress, called with each new value. */
    method OnScrollChange(latest: real)
      modifies this
      ensures activeIndex == SectionIndex.ActiveSectionIndex(latest, |sections|)
      ensures 0.0 <= latest <= 1.0 && |sections| >= 1 ==> 0 <= activeIndex < |sections|
      ensures forall k: nat :: k < |sections| ==> (Highlighted(k) <==> k == activeIndex)
    {
      activeIndex := SectionIndex.ActiveSectionIndex(latest, |sections|);
      if 0.0 <= latest <= 1.0 && |sections| >= 1 {
        SectionIndex.IndexInRange(latest, |sections|);
      }
    }
  }
}
