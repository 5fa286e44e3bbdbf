/**
  The static dataset of the timeline: sixteen hand-authored events in array
  order. Long prose (the detailed content and the figures' biographies) is
  not part of the model, and descriptions are cut to their opening words
  followed by an ellipsis, except the Manhattan Project's, whose first
  sentence break the kids view depends on; ids, years, titles, categories,
  figures and sources are kept as written.
*/
module TimelineData {
  import opened Wrappers

  /** The closed union `'discovery' | 'technology' | 'policy' | 'event'`. */
  datatype Category = Discovery | Technology | Policy | Event

  /** The string literal a category is stored as. */
  function CategoryName(c: Category): string {
    match c
    case Discovery => "discovery"
    case Technology => "technology"
    case Policy => "policy"
    case Event => "event"
  }

  datatype NotableFigure = NotableFigure(name: string, role: string)

  datatype Source = Source(title: string, url: string)

  /**
    One event record. `impact` and `keyFigures` are not declared by the
    record type, yet the event renderer reads them; as properties of a
    JavaScript object they exist in the model and are absent in every entry.
  */
  datatype TimelineEvent = TimelineEvent(
    id: string,
    year: int,
    title: string,
    description: string,
    category: Category,
    notableFigures: Option<seq<NotableFigure>>,
    sources: Option<seq<Source>>,
    impact: Option<string>,
    keyFigures: Option<seq<string>>)

  /** An entry as the array literal writes it: no `impact`, no `keyFigures`. */
  function Entry(id: string, year: int, title: string, description: string, category: Category,
                 figures: Option<seq<NotableFigure>>, sources: Option<seq<Source>>): (e: TimelineEvent)
    ensures e.impact.None? && e.keyFigures.None?
  {
    TimelineEvent(id, year, title, description, category, figures, sources, None, None)
  }

  /** `timelineEvents`. */
  const Events: seq<TimelineEvent> := [
    Entry("discovery-of-fission", 1938, "Discovery of Nuclear Fission",
      "Otto Hahn and Fritz \U{2026}",
      Discovery,
      Some([NotableFigure("Otto Hahn", "Chemist"), NotableFigure("Lise Meitner", "Physicist")]),
      Some([Source("American Institute of Physics", "https://www.aip.org/history-programs/physics-history/nuclear-fission-discovered")])),
    Entry("einstein-letter", 1939, "Einstein-Szil\U{00E1}rd Letter",
      "Albert Einstein and Leo \U{2026}",
      Policy,
      Some([NotableFigure("Albert Einstein", "Physicist"), NotableFigure("Leo Szil\U{00E1}rd", "Physicist")]),
      None),
    Entry("manhattan-project", 1942, "Manhattan Project Begins",
      // One literal in the data. It is written in pieces so that the verifier sees
      // its first '.' directly, without unfolding the whole sentence; the value is unchanged.
      "The U" + ".S." + " officially launches the Manhattan Project to develop the first nuclear weapons.",
      Technology,
      Some([NotableFigure("J. Robert Oppenheimer", "Scientific Director"), NotableFigure("General Leslie Groves", "Military Leader")]),
      None),
    Entry("first-nuclear-reactor", 1942, "First Nuclear Reactor",
      "Enrico Fermi and his \U{2026}",
      Technology,
      Some([NotableFigure("Enrico Fermi", "Physicist")]),
      None),
    Entry("trinity-test", 1945, "Trinity Test",
      "First detonation of a \U{2026}",
      Event,
      Some([NotableFigure("J. Robert Oppenheimer", "Scientific Director")]),
      None),
    Entry("hiroshima-nagasaki", 1945, "Hiroshima and Nagasaki",
      "Atomic bombs dropped on \U{2026}",
      Event, None, None),
    Entry("atomic-energy-act", 1946, "Atomic Energy Act",
      "U.S. establishes civilian control \U{2026}",
      Policy, None, None),
    Entry("first-nuclear-power", 1951, "First Nuclear Power Generation",
      "Experimental Breeder Reactor I \U{2026}",
      Technology, None, None),
    Entry("atoms-for-peace", 1953, "\"Atoms for Peace\" Speech",
      "President Eisenhower delivers his \U{2026}",
      Policy, None, None),
    Entry("first-commercial-plant", 1957, "First Commercial Nuclear Power Plant",
      "Shippingport Atomic Power Station, \U{2026}",
      Technology, None, None),
    Entry("three-mile-island", 1979, "Three Mile Island Accident",
      "Partial meltdown at Three \U{2026}",
      Event, None, None),
    Entry("nuclear-waste-policy-act", 1982, "Nuclear Waste Policy Act",
      "Legislation establishes a national \U{2026}",
      Policy, None, None),
    Entry("yucca-mountain", 1987, "Yucca Mountain Repository",
      "Congress designates Yucca Mountain, \U{2026}",
      Policy, None, None),
    Entry("nuclear-renaissance", 2005, "Nuclear Renaissance Begins",
      "Energy Policy Act of \U{2026}",
      Policy, None, None),
    Entry("vogtle-construction", 2013, "New Nuclear Construction",
      "Construction begins on new \U{2026}",
      Technology, None, None),
    Entry("small-modular-reactors", 2020, "Small Modular Reactors",
      "NuScale Power receives first \U{2026}",
      Technology, None, None)
  ]

  predicate IdsDistinct(s: seq<TimelineEvent>) {
    forall i, j :: 0 <= i < j < |s| ==> s[i].id != s[j].id
  }

  predicate YearsNonDecreasing(s: seq<TimelineEvent>) {
    forall i, j :: 0 <= i <= j < |s| ==> s[i].year <= s[j].year
  }

  lemma DatasetShape()
    ensures |Events| == 16
    ensures Events[0].year == 1938 && Events[15].year == 2020
  {
  }

  /** The ids of `s`, in order. */
  function IdsOf(s: seq<TimelineEvent>): (ids: seq<string>)
    ensures |ids| == |s| && forall i :: 0 <= i < |s| ==> ids[i] == s[i].id
  {
    seq(|s|, i requires 0 <= i < |s| => s[i].id)
  }

  /** The sixteen ids of the data, in array order. */
  const EventIdList: seq<string> := [
    "discovery-of-fission", "einstein-letter", "manhattan-project", "first-nuclear-reactor",
    "trinity-test", "hiroshima-nagasaki", "atomic-energy-act", "first-nuclear-power",
    "atoms-for-peace", "first-commercial-plant", "three-mile-island", "nuclear-waste-policy-act",
    "yucca-mountain", "nuclear-renaissance", "vogtle-construction", "small-modular-reactors"]

  /** The ids read off the data, in array order. */
  lemma EventIds()
    ensures IdsOf(Events) == EventIdList
  {
  }

  /** No two of the listed ids are equal. */
  lemma EventIdListDistinct()
    ensures forall i, j :: 0 <= i < j < |EventIdList| ==> EventIdList[i] != EventIdList[j]
  {
  }

  /** A sequence whose ids are pairwise different strings has distinct ids. */
  lemma IdsDistinctByList(s: seq<TimelineEvent>, ids: seq<string>)
    requires IdsOf(s) == ids
    requires forall i, j :: 0 <= i < j < |ids| ==> ids[i] != ids[j]
    ensures IdsDistinct(s)
  {
  }

  /** No two events share an id. */
  lemma EventIdsDistinct()
    ensures IdsDistinct(Events)
  {
    EventIds();
    EventIdListDistinct();
    IdsDistinctByList(Events, EventIdList);
  }

  /** The years of `s`, in order. */
  function YearsOf(s: seq<TimelineEvent>): (years: seq<int>)
    ensures |years| == |s| && forall i :: 0 <= i < |s| ==> years[i] == s[i].year
  {
    seq(|s|, i requires 0 <= i < |s| => s[i].year)
  }

  /** The sixteen years of the data, in array order. */
  const EventYearList: seq<int> := [1938, 1939, 1942, 1942, 1945, 1945, 1946, 1951,
                                    1953, 1957, 1979, 1982, 1987, 2005, 2013, 2020]

  /** The years read off the data, in array order. */
  lemma EventYears()
    ensures YearsOf(Events) == EventYearList
  {
  }

  /** A sequence whose years never decrease from one entry to the next. */
  lemma YearsNonDecreasingByList(s: seq<TimelineEvent>, years: seq<int>)
    requires YearsOf(s) == years
    requires forall i, j :: 0 <= i <= j < |years| ==> years[i] <= years[j]
    ensures YearsNonDecreasing(s)
  {
  }

  lemma EventYearsNonDecreasing()
    ensures YearsNonDecreasing(Events)
  {
    EventYears();
    assert forall i, j :: 0 <= i <= j < |EventYearList| ==> EventYearList[i] <= EventYearList[j];
    YearsNonDecreasingByList(Events, EventYearList);
  }

  /** Every figure of `e` has a name and a role, every source a title and a URL. */
  predicate FiguresAndSourcesFilled(e: TimelineEvent) {
    && (e.notableFigures.Some? ==>
         forall k :: 0 <= k < |e.notableFigures.value| ==>
           e.notableFigures.value[k].name != "" && e.notableFigures.value[k].role != "")
    && (e.sources.Some? ==>
         forall k :: 0 <= k < |e.sources.value| ==>
           e.sources.value[k].title != "" && e.sources.value[k].url != "")
  }

  lemma EveryEntryFilled()
    ensures forall i :: 0 <= i < |Events| ==> FiguresAndSourcesFilled(Events[i])
  {
  }

  /** The renderer's undeclared fields are absent from every entry. */
  lemma NoImpactOrKeyFigures()
    ensures forall e :: e in Events ==> e.impact.None? && e.keyFigures.None?
  {
  }
}
