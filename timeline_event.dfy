// The presentation rules of the event card: the category badge, the text
// shown for a reading level, and which of the impact, key-figure and source
// sections appear. The card's markup and styling beyond the badge colour are
// not modelled.

module TimelineEventView {
  import opened Wrappers
  import opened JsString
  import opened ReadingLevels
  import opened TimelineData

  /** The icons of the badge. */
  datatype Icon = Atom | Landmark | Calendar | FileText

  /** `getCategoryIcon`: a switch over the category string with a default. */
  function CategoryIcon(category: string): (icon: Icon)
    ensures icon == Atom <==> category in {"discovery", "technology"}
    ensures icon == FileText <==> category !in {"discovery", "technology", "policy", "event"}
  {
    if category == "discovery" then Atom
    else if category == "technology" then Atom
    else if category == "policy" then Landmark
    else if category == "event" then Calendar
    else FileText
  }

  const DiscoveryColor: string := "bg-blue-100 text-blue-800 dark:bg-blue-900/30 dark:text-blue-300"
  const TechnologyColor: string := "bg-teal-100 text-teal-800 dark:bg-teal-900/30 dark:text-teal-300"
  const PolicyColor: string := "bg-amber-100 text-amber-800 dark:bg-amber-900/30 dark:text-amber-300"
  const EventColor: string := "bg-rose-100 text-rose-800 dark:bg-rose-900/30 dark:text-rose-300"
  const DefaultColor: string := "bg-gray-100 text-gray-800 dark:bg-gray-800 dark:text-gray-300"

  /**
   * `getCategoryColor`: a switch over the category string with a default.
   * Every string gets one of the five colours, and the grey default exactly
   * when it is not one of the four categories.
   */
  function CategoryColor(category: string): (color: string)
    ensures color in {DiscoveryColor, TechnologyColor, PolicyColor, EventColor, DefaultColor}
    ensures color == DefaultColor <==> category !in {"discovery", "technology", "policy", "event"}
  {
    if category == "discovery" then DiscoveryColor
    else if category == "technology" then TechnologyColor
    else if category == "policy" then PolicyColor
    else if category == "event" then EventColor
    else DefaultColor
  }

  /** The four categories of the data never fall to the default, and their colours are pairwise distinct. */
  lemma CategoryColorsDistinct(a: Category, b: Category)
    ensures CategoryColor(CategoryName(a)) != DefaultColor
    ensures CategoryIcon(CategoryName(a)) != FileText
    ensures a != b ==> CategoryColor(CategoryName(a)) != CategoryColor(CategoryName(b))
  {
  }

  /** Discovery and technology share the atom icon but not the colour. */
  lemma DiscoveryAndTechnologyShareIcon()
    ensures CategoryIcon("discovery") == CategoryIcon("technology") == Atom
    ensures CategoryColor("discovery") != CategoryColor("technology")
  {
  }

  /**
   * `s.split('.').slice(0, 1).join('.') + '.'`: the text before the first
   * full stop, with a full stop put back.
   */
  function FirstSentence(s: string): (r: string)
    ensures |r| >= 1 && r[|r| - 1] == '.'
    ensures r[..|r| - 1] <= s && '.' !in r[..|r| - 1]
    ensures |r| - 1 == |s| || s[|r| - 1] == '.'
  {
    var parts := Split(s, '.');
    assert parts[..1] == [parts[0]];
    Join(parts[..1], ".") + "."
  }

  /** The truncated text is at most one character longer than the input, and its only full stop is its last character. */
  lemma FirstSentenceBounds(s: string)
    ensures |FirstSentence(s)| <= |s| + 1
    ensures forall k :: 0 <= k < |FirstSentence(s)| - 1 ==> FirstSentence(s)[k] != '.'
  {
    var r := FirstSentence(s);
    forall k | 0 <= k < |r| - 1 ensures r[k] != '.' {
      assert r[k] == r[..|r| - 1][k];
    }
  }

  /** The truncation is determined by the first full stop: the text before it, then a full stop. */
  lemma FirstSentenceIs(s: string, k: nat)
    requires k <= |s| && '.' !in s[..k] && (k == |s| || s[k] == '.')
    ensures FirstSentence(s) == s[..k] + "."
  {
    SplitHeadIs(s, '.', k);
    var parts := Split(s, '.');
    assert parts[..1] == [parts[0]];
  }

  /** Truncating an already truncated text changes nothing. */
  lemma FirstSentenceIdempotent(s: string)
    ensures FirstSentence(FirstSentence(s)) == FirstSentence(s)
  {
    var r := FirstSentence(s);
    var k := |r| - 1;
    assert r[..k] == r[..|r| - 1];
    FirstSentenceIs(r, k);
    assert r[..k] + "." == r;
  }

  /** A text without a full stop gains one at its end. */
  lemma FirstSentenceWithoutStop(s: string)
    requires '.' !in s
    ensures FirstSentence(s) == s + "."
  {
    assert s[..|s|] == s;
    FirstSentenceIs(s, |s|);
  }

  /** `getContentForReadingLevel`; `None` is the undefined level the timeline passes. */
  function DisplayContent(description: string, level: Option<ReadingLevel>): (content: string)
    ensures level != Some(Kids) ==> content == description
    ensures level == Some(Kids) ==> 1 <= |content| <= |description| + 1 && content[|content| - 1] == '.'
  {
    match level
    case Some(Kids) => FirstSentence(description)
    case Some(Novice) => description
    case Some(College) => description
    case Some(Expert) => description
    case None => description
  }

  /** Every level but kids, and no level at all, shows the description unchanged. */
  lemma ContentUnchangedUnlessKids(description: string, level: Option<ReadingLevel>)
    requires level != Some(Kids)
    ensures DisplayContent(description, level) == description
  {
  }

  /** The kids text is a prefix of the description ending at its first full stop, with the full stop kept. */
  lemma KidsContentIsFirstSentence(description: string)
    ensures var r := DisplayContent(description, Some(Kids));
      r == FirstSentence(description) && |r| <= |description| + 1
  {
    FirstSentenceBounds(description);
  }

  /** The kids text of the Manhattan Project entry stops at the first full stop of "U.S.". */
  lemma ManhattanKidsContent()
    ensures Events[2].id == "manhattan-project"
    ensures DisplayContent(Events[2].description, Some(Kids)) == "The U."
  {
    var d := Events[2].description;
    assert d[..5] == "The U" && d[5] == '.';
    FirstSentenceIs(d, 5);
  }

  /** The impact block: heading, text and whether the heading is highlighted. */
  datatype ImpactSection = ImpactSection(heading: string, text: string, highlighted: bool)

  /** `{event.impact && ...}`: shown only for a truthy impact; kids get a first-sentence text. */
  function ImpactOf(e: TimelineEvent, level: Option<ReadingLevel>): (r: Option<ImpactSection>)
    ensures r.Some? <==> e.impact.Some? && e.impact.value != ""
    ensures r.Some? ==> (r.value.heading == "Why This Matters" <==> level == Some(Kids))
    ensures r.Some? ==> (r.value.heading == "Impact" <==> level != Some(Kids))
    ensures r.Some? ==> r.value.highlighted == (level == Some(Kids))
    ensures r.Some? && level == Some(Kids) ==> r.value.text == FirstSentence(e.impact.value)
    ensures r.Some? && level != Some(Kids) ==> r.value.text == e.impact.value
  {
    match e.impact
    case Some(impact) =>
      if impact == "" then None
      else if level == Some(Kids) then Some(ImpactSection("Why This Matters", FirstSentence(impact), true))
      else Some(ImpactSection("Impact", impact, false))
    case None => None
  }

  /** The key-figure block: heading and names. */
  datatype FiguresSection = FiguresSection(heading: string, figures: seq<string>)

  /** `{event.keyFigures && event.keyFigures.length > 0 && readingLevel !== 'kids' && ...}` */
  function KeyFiguresOf(e: TimelineEvent, level: Option<ReadingLevel>): (r: Option<FiguresSection>)
    ensures r.Some? <==> e.keyFigures.Some? && |e.keyFigures.value| > 0 && level != Some(Kids)
    ensures r.Some? ==> r.value.figures == e.keyFigures.value
    ensures r.Some? ==> (r.value.heading == "Key People" <==> level == Some(Novice))
    ensures r.Some? ==> (r.value.heading == "Notable Figures" <==> level != Some(Novice))
  {
    match e.keyFigures
    case Some(names) =>
      if |names| > 0 && level != Some(Kids) then
        Some(FiguresSection(if level == Some(Novice) then "Key People" else "Notable Figures", names))
      else None
    case None => None
  }

  /** `{event.sources && event.sources.length > 0 && (readingLevel === 'college' || readingLevel === 'expert') && ...}` */
  function SourcesOf(e: TimelineEvent, level: Option<ReadingLevel>): (r: Option<seq<Source>>)
    ensures r.Some? <==> e.sources.Some? && |e.sources.value| > 0 && level in {Some(College), Some(Expert)}
    ensures r.Some? ==> r.value == e.sources.value
  {
    match e.sources
    case Some(list) =>
      if |list| > 0 && (level == Some(College) || level == Some(Expert)) then Some(list) else None
    case None => None
  }

  /** What the card shows. */
  datatype Card = Card(
    color: string,
    icon: Icon,
    category: string,
    year: int,
    title: string,
    content: string,
    impact: Option<ImpactSection>,
    keyFigures: Option<FiguresSection>,
    sources: Option<seq<Source>>)

  /** The `TimelineEvent` component. */
  function Render(e: TimelineEvent, level: Option<ReadingLevel>): (card: Card)
    ensures card.year == e.year && card.title == e.title && card.category == CategoryName(e.category)
    ensures card.color != DefaultColor && card.icon != FileText
  {
    var category := CategoryName(e.category);
    Card(CategoryColor(category), CategoryIcon(category), category, e.year, e.title,
         DisplayContent(e.description, level), ImpactOf(e, level), KeyFiguresOf(e, level), SourcesOf(e, level))
  }

  /**
   * As the timeline renders the cards, with no reading level, every event of
   * the data shows its full description and none of the three sections.
   */
  lemma TimelineCardsShowDescriptionOnly(i: nat)
    requires i < |Events|
    ensures var c := Render(Events[i], None);
      c.content == Events[i].description && c.impact.None? && c.keyFigures.None? && c.sources.None?
      && c.color != DefaultColor
  {
    NoImpactOrKeyFigures();
    CategoryColorsDistinct(Events[i].category, Events[i].category);
  }

  /** At kids level, no event of the data shows figures or sources. */
  lemma KidsCardsHaveNoLists(i: nat)
    requires i < |Events|
    ensures Render(Events[i], Some(Kids)).keyFigures.None? && Render(Events[i], Some(Kids)).sources.None?
  {
  }
}
