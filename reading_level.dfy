/**
  The reading level shared by the canned-answer matcher and the event
  renderer: the closed set of four audience tiers, their display labels, the
  default context value and the provider that holds the current selection.
*/
module ReadingLevels {
  import opened Wrappers

  datatype ReadingLevel = Kids | Novice | College | Expert

  const AllLevels: set<ReadingLevel> := {Kids, Novice, College, Expert}

  /** The `ReadingLevelLabels` record: one fixed display label per level. */
  function Label(level: ReadingLevel): string {
    match level
    case Kids => "Kids Edition"
    case Novice => "High School"
    case College => "College Level"
    case Expert => "Expert Scientist"
  }

  /** The label record as the context hands it out. */
  function Labels(): (m: map<ReadingLevel, string>)
    ensures m.Keys == AllLevels
    ensures forall level :: level in m ==> m[level] == Label(level)
  {
    map level | level in AllLevels :: Label(level)
  }

  /** Every level has a label, and no two levels share one. */
  lemma LabelsTotalAndDistinct(a: ReadingLevel, b: ReadingLevel)
    ensures a in Labels() && b in Labels()
    ensures Labels()[a] == Labels()[b] <==> a == b
  {
    assert |Labels()[a]| == |Label(a)|;
    assert |Labels()[b]| == |Label(b)|;
  }

  /** What a consumer of the context receives: the level, its setter, the labels. */
  datatype ContextValue = ContextValue(readingLevel: ReadingLevel, labels: map<ReadingLevel, string>)

  /** The value `createContext` was given: novice, with the fixed labels. */
  function DefaultContext(): (c: ContextValue)
    ensures c.readingLevel == Novice && c.labels == Labels()
  {
    ContextValue(Novice, Labels())
  }

  /** The default context's `setReadingLevel` is `() => {}`: nothing changes. */
  function DefaultSetReadingLevel(c: ContextValue, level: ReadingLevel): (r: ContextValue)
    ensures r == c
  {
    c
  }

  /**
    `useReadingLevel`: the nearest provider's value, or the default context
    when no provider is mounted above the caller.
  */
  function UseReadingLevel(provider: Option<ContextValue>): (c: ContextValue)
    ensures provider.None? ==> c.readingLevel == Novice && c.labels == Labels()
    ensures provider.Some? ==> c == provider.value
  {
    provider.GetOr(DefaultContext())
  }

  /** `ReadingLevelProvider`: holds the selected level as component state. */
  class ReadingLevelProvider {
    var readingLevel: ReadingLevel

    /** `useState<ReadingLevel>('novice')`. */
    constructor ()
      ensures readingLevel == Novice
    {
      readingLevel := Novice;
    }

    method SetReadingLevel(level: ReadingLevel)
      modifies this
      ensures readingLevel == level
    {
      readingLevel := level;
    }

    /** The value the provider passes down: the current level and the unchanging labels. */
    function Value(): (c: ContextValue)
      reads this
      ensures c.readingLevel == readingLevel && c.labels == Labels()
    {
      ContextValue(readingLevel, Labels())
    }
  }
}
