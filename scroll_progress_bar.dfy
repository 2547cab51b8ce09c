/** The side progress bar with one marker per section; the active marker is enlarged and labelled. */
module ScrollProgressBar {
  import SectionIndex
  import Markers

  datatype Section = Section(name: string, color: string)

  class ScrollProgressBar {
    const sections: seq<Section>
    var activeIndex: int

    /** Whether the marker of section `index` is drawn as the active one. */
    function Highlighted(index: nat): bool
      reads this
    {
      Markers.IsActive(index, activeIndex)
    }

    constructor (sections: seq<Section>)
      ensures this.sections == sections && activeIndex == 0
    {
      this.sections := sections;
      activeIndex := 0;
    }

    /** The subscription to the page's scroll progress, called with each new value. */
    method OnScrollChange(latest: real)
      modifies this
      ensures activeIndex == SectionIndex.ActiveSectionIndex(latest, |sections|)
      ensures 0.0 <= latest <= 1.0 && |sections| >= 1 ==> 0 <= activeIndex < |sections|
      ensures forall k: nat :: k < |sections| ==> (Highlighted(k) <==> k == activeIndex)
    {
      var sectionIndex := (latest * |sections| as real).Floor;
      activeIndex := if sectionIndex < |sections| - 1 then sectionIndex else |sections| - 1;
      if 0.0 <= latest <= 1.0 && |sections| >= 1 {
        SectionIndex.IndexInRange(latest, |sections|);
      }
    }
  }
}
