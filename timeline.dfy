// The timeline's navigation: the selected event, the window of event dots
// that is visible, the two scroll buttons, and the effect that pulls the
// window back over the selected event after every change.

module TimelineWindow {
  import opened Wrappers
  import opened TimelineData
  import opened TimelineEventView

  /** `timelineEvents.length`. */
  const EventCount: int := 16

  lemma EventCountIsDatasetSize()
    ensures |Events| == EventCount
  {
    DatasetShape();
  }

  function Max(a: int, b: int): int { if a >= b then a else b }
  function Min(a: int, b: int): int { if a <= b then a else b }

  /** `visibleRange`: the first and last visible positions, both inclusive. */
  datatype Range = Range(start: int, end: int)

  /** The two pieces of component state. */
  datatype View = View(active: int, range: Range)

  /** The state on mount: `useState(0)` and `useState({ start: 0, end: 5 })`. */
  const Initial: View := View(0, Range(0, 5))

  /** The re-centring effect: a window that has lost the selected event is rebuilt around it. */
  function Recentered(active: int, r: Range): (r': Range)
    ensures 0 <= active < EventCount ==> r'.start <= active <= r'.end
    ensures r.start <= active <= r.end ==> r' == r
  {
    if active < r.start then Range(Max(0, active - 2), Min(active + 3, EventCount - 1))
    else if active > r.end then Range(Max(0, active - 3), Min(active + 2, EventCount - 1))
    else r
  }

  /** `scrollLeft`: shift the window one place left unless it is at the start. */
  function ScrolledLeft(r: Range): (r': Range)
    ensures r'.end - r'.start == r.end - r.start
    ensures r' == r <==> r.start <= 0
    ensures r.start >= 0 ==> r'.start >= 0
  {
    if r.start > 0 then Range(r.start - 1, r.end - 1) else r
  }

  /** `scrollRight`: shift the window one place right unless it is at the end. */
  function ScrolledRight(r: Range): (r': Range)
    ensures r'.end - r'.start == r.end - r.start
    ensures r' == r <==> r.end >= EventCount - 1
    ensures r.end <= EventCount - 1 ==> r'.end <= EventCount - 1
  {
    if r.end < EventCount - 1 then Range(r.start + 1, r.end + 1) else r
  }

  /** The left button's `disabled`. */
  predicate LeftDisabled(r: Range) { r.start == 0 }

  /** The right button's `disabled`. */
  predicate RightDisabled(r: Range) { r.end == EventCount - 1 }

  /** A user action: a click on a dot (carrying its event index) or on a scroll button. */
  datatype Action = Select(index: int) | ScrollLeft | ScrollRight

  /** Dots carry the index of an event of the data. */
  predicate ValidAction(a: Action)
  {
    a.Select? ==> 0 <= a.index < EventCount
  }

  /** The click handler alone, before the effect. */
  function Handle(v: View, a: Action): (v': View)
    ensures a.Select? ==> v'.active == a.index && v'.range == v.range
    ensures !a.Select? ==> v'.active == v.active
  {
    match a
    case Select(index) => View(index, v.range)
    case ScrollLeft => View(v.active, ScrolledLeft(v.range))
    case ScrollRight => View(v.active, ScrolledRight(v.range))
  }

  /** The effect, run after a change to either piece of state. */
  function Settle(v: View): (v': View)
    ensures v'.active == v.active
    ensures 0 <= v.active < EventCount ==> v'.range.start <= v'.active <= v'.range.end
    ensures Settled(v) ==> v' == v
  {
    View(v.active, Recentered(v.active, v.range))
  }

  /** One action followed by the effect. */
  function Step(v: View, a: Action): View
  {
    Settle(Handle(v, a))
  }

  /** A sequence of actions from `v`, each followed by the effect. */
  function Run(v: View, actions: seq<Action>): View
    decreases |actions|
  {
    if actions == [] then v else Run(Step(v, actions[0]), actions[1..])
  }

  /** The window lies within the event positions, in order. */
  predicate InBounds(r: Range)
  {
    0 <= r.start <= r.end <= EventCount - 1
  }

  /** The state every render after the effect sees: the window is in bounds, at most six wide, and shows the selection. */
  predicate Settled(v: View)
  {
    InBounds(v.range) && v.range.end - v.range.start <= 5 && v.range.start <= v.active <= v.range.end
  }

  /** Selecting an event of the window, as a dot click does, never moves the window. */
  lemma SelectVisibleKeepsWindow(v: View, k: int)
    requires Settled(v) && 0 <= k <= v.range.end - v.range.start
    ensures Step(v, Select(v.range.start + k)) == View(v.range.start + k, v.range)
  {
  }

  lemma InitialSettled()
    ensures Settled(Initial)
  {
  }

  /** The effect leaves a window that holds the selection and stays in bounds. */
  lemma RecenteredShowsActive(active: int, r: Range)
    requires 0 <= active < EventCount
    requires InBounds(r) && r.end - r.start <= 5
    ensures var r' := Recentered(active, r);
      InBounds(r') && r'.end - r'.start <= 5 && r'.start <= active <= r'.end
  {
  }

  /** The effect's own state change triggers it again, and the second run changes nothing. */
  lemma RecenteredIsFixpoint(active: int, r: Range)
    requires 0 <= active < EventCount
    ensures Recentered(active, Recentered(active, r)) == Recentered(active, r)
  {
  }

  /** Each scroll button is disabled exactly when its scroll would change nothing. */
  lemma DisabledIffNoOp(r: Range)
    ensures LeftDisabled(r) <==> (r.start >= 0 && ScrolledLeft(r) == r)
    ensures RightDisabled(r) <==> (r.end <= EventCount - 1 && ScrolledRight(r) == r)
  {
  }

  /** The handlers keep the window in bounds and its width unchanged or the selection changes. */
  lemma HandleKeepsBounds(v: View, a: Action)
    requires InBounds(v.range) && v.range.end - v.range.start <= 5 && ValidAction(a)
    ensures InBounds(Handle(v, a).range)
    ensures Handle(v, a).range.end - Handle(v, a).range.start == v.range.end - v.range.start
    ensures 0 <= Handle(v, a).active < EventCount <== 0 <= v.active < EventCount
  {
  }

  /** Every action, followed by the effect, keeps the state settled. */
  lemma StepKeepsSettled(v: View, a: Action)
    requires Settled(v) && ValidAction(a)
    ensures Settled(Step(v, a))
  {
    var h := Handle(v, a);
    HandleKeepsBounds(v, a);
    RecenteredShowsActive(h.active, h.range);
  }

  /** After any sequence of actions from a settled state, the state is settled. */
  lemma {:induction false} RunKeepsSettled(v: View, actions: seq<Action>)
    requires Settled(v)
    requires forall k :: 0 <= k < |actions| ==> ValidAction(actions[k])
    ensures Settled(Run(v, actions))
    decreases |actions|
  {
    if actions != [] {
      StepKeepsSettled(v, actions[0]);
      RunKeepsSettled(Step(v, actions[0]), actions[1..]);
    }
  }

  /** From the start, any sequence of clicks leaves 0 <= start <= active <= end <= 15 and end - start <= 5. */
  lemma ReachableSettled(actions: seq<Action>)
    requires forall k :: 0 <= k < |actions| ==> ValidAction(actions[k])
    ensures Settled(Run(Initial, actions))
  {
    InitialSettled();
    RunKeepsSettled(Initial, actions);
  }

  /** A scroll that moves past the selection is undone by the effect: scrolling right from the start gives 0..3. */
  lemma ScrollRightFromInitial()
    ensures Handle(Initial, ScrollRight).range == Range(1, 6)
    ensures Step(Initial, ScrollRight) == View(0, Range(0, 3))
  {
  }

  /** Selecting event 12 from the start moves the window to 9..14. */
  lemma SelectTwelveFromInitial()
    ensures Step(Initial, Select(12)) == View(12, Range(9, 14))
  {
  }

  // ---- the dots: the sorted events, the visible slice and the highlighted dot ----

  /** `a.year - b.year` orders two events: not after means a year no later. */
  predicate SortedByYear(s: seq<TimelineEvent>)
  {
    forall i, j :: 0 <= i <= j < |s| ==> s[i].year <= s[j].year
  }

  /** Insert `x` after every event of `t` whose year is not later than its own (a stable insertion). */
  function InsertByYear(t: seq<TimelineEvent>, x: TimelineEvent): (r: seq<TimelineEvent>)
    ensures multiset(r) == multiset(t) + multiset{x}
    ensures (t == [] || t[|t| - 1].year <= x.year) ==> r == t + [x]
    decreases |t|
  {
    if t == [] || t[|t| - 1].year <= x.year then t + [x]
    else
      assert t == t[..|t| - 1] + [t[|t| - 1]];
      InsertByYear(t[..|t| - 1], x) + [t[|t| - 1]]
  }

  /** Dropping the last event keeps the order. */
  lemma SortedInit(t: seq<TimelineEvent>)
    requires SortedByYear(t) && t != []
    ensures SortedByYear(t[..|t| - 1])
    ensures forall k :: 0 <= k < |t| ==> t[k].year <= t[|t| - 1].year
  {
    var init := t[..|t| - 1];
    forall i, j | 0 <= i <= j < |init| ensures init[i].year <= init[j].year {
      assert init[i] == t[i] && init[j] == t[j];
    }
  }

  /** Appending an event no earlier than all others keeps the order. */
  lemma SortedAppend(t: seq<TimelineEvent>, x: TimelineEvent)
    requires SortedByYear(t)
    requires forall k :: 0 <= k < |t| ==> t[k].year <= x.year
    ensures SortedByYear(t + [x])
  {
    var r := t + [x];
    forall i, j | 0 <= i <= j < |r| ensures r[i].year <= r[j].year {
      if j < |t| {
        assert r[i] == t[i] && r[j] == t[j];
      } else if i < |t| {
        assert r[i] == t[i];
      }
    }
  }

  /** Inserting into events in year order leaves them in year order. */
  lemma {:induction false} InsertKeepsSorted(t: seq<TimelineEvent>, x: TimelineEvent)
    requires SortedByYear(t)
    ensures SortedByYear(InsertByYear(t, x))
    decreases |t|
  {
    if t == [] || t[|t| - 1].year <= x.year {
      if t != [] {
        SortedInit(t);
      }
      SortedAppend(t, x);
    } else {
      var init, last := t[..|t| - 1], t[|t| - 1];
      SortedInit(t);
      InsertKeepsSorted(init, x);
      var r' := InsertByYear(init, x);
      forall k | 0 <= k < |r'| ensures r'[k].year <= last.year {
        assert r'[k] in multiset(r');
        if r'[k] != x {
          assert r'[k] in multiset(init);
          var m :| 0 <= m < |init| && init[m] == r'[k];
          assert t[m] == init[m];
        }
      }
      SortedAppend(r', last);
    }
  }

  /** `[...timelineEvents].sort((a, b) => a.year - b.year)`: a stable sort by year. */
  function SortByYear(s: seq<TimelineEvent>): (r: seq<TimelineEvent>)
    ensures multiset(r) == multiset(s)
    decreases |s|
  {
    if s == [] then []
    else
      assert s == s[..|s| - 1] + [s[|s| - 1]];
      InsertByYear(SortByYear(s[..|s| - 1]), s[|s| - 1])
  }

  /** The sort returns the events in year order. */
  lemma {:induction false} SortSorts(s: seq<TimelineEvent>)
    ensures SortedByYear(SortByYear(s))
    decreases |s|
  {
    if s != [] {
      SortSorts(s[..|s| - 1]);
      InsertKeepsSorted(SortByYear(s[..|s| - 1]), s[|s| - 1]);
    }
  }

  lemma InitLast(s: seq<TimelineEvent>)
    requires s != []
    ensures s[..|s| - 1] + [s[|s| - 1]] == s
  {
  }

  /** Sorting events that are already in year order changes nothing, not even the order of equal years. */
  lemma {:induction false} SortKeepsSorted(s: seq<TimelineEvent>)
    requires SortedByYear(s)
    ensures SortByYear(s) == s
    decreases |s|
  {
    if s != [] {
      var init, last := s[..|s| - 1], s[|s| - 1];
      SortedInit(s);
      SortKeepsSorted(init);
      assert init == [] || init[|init| - 1].year <= last.year by {
        if init != [] {
          assert init[|init| - 1] == s[|s| - 2];
        }
      }
      InitLast(s);
    }
  }

  /** `findIndex(e => e.id === id)`: the first position holding `id`, or -1. */
  function FindIndex(s: seq<TimelineEvent>, id: string): (r: int)
    ensures -1 <= r < |s|
    ensures r == -1 <==> forall k :: 0 <= k < |s| ==> s[k].id != id
    ensures r >= 0 ==> s[r].id == id && forall k :: 0 <= k < r ==> s[k].id != id
    decreases |s|
  {
    if s == [] then -1
    else if s[0].id == id then 0
    else
      var r := FindIndex(s[1..], id);
      assert forall k :: 1 <= k < |s| ==> s[k] == s[1..][k - 1];
      if r == -1 then -1 else r + 1
  }

  /** With distinct ids, looking up the id at position `p` gives back `p`. */
  lemma FindIndexOfOwnId(s: seq<TimelineEvent>, p: nat)
    requires IdsDistinct(s) && p < |s|
    ensures FindIndex(s, s[p].id) == p
  {
    var r := FindIndex(s, s[p].id);
    assert r >= 0 && s[r].id == s[p].id;
  }

  /** One rendered dot: the event index its click selects, its year, and whether it is highlighted. */
  datatype Dot = Dot(index: int, year: int, highlighted: bool)

  /** The dots of `sorted.slice(start, end + 1)` for the sorted view of `events`, each mapped back to its index in `events`. */
  function Dots(events: seq<TimelineEvent>, v: View): (dots: seq<Dot>)
    requires |events| == EventCount && InBounds(v.range)
    ensures |dots| == v.range.end - v.range.start + 1
  {
    var sorted := SortByYear(events);
    assert |sorted| == |events| by {
      assert |multiset(sorted)| == |multiset(events)|;
    }
    var window := sorted[v.range.start..v.range.end + 1];
    seq(|window|, k requires 0 <= k < |window| =>
      var index := FindIndex(events, window[k].id);
      Dot(index, window[k].year, v.active == index))
  }

  /**
   * For events in year order with distinct ids, the k-th visible dot is event
   * `start + k`, and it is highlighted exactly when that event is selected.
   */
  lemma DotsAreTheWindow(events: seq<TimelineEvent>, v: View, k: nat)
    requires |events| == EventCount && SortedByYear(events) && IdsDistinct(events)
    requires InBounds(v.range) && k <= v.range.end - v.range.start
    ensures Dots(events, v)[k].index == v.range.start + k
    ensures Dots(events, v)[k].highlighted <==> v.range.start + k == v.active
  {
    SortKeepsSorted(events);
    var p := v.range.start + k;
    assert SortByYear(events)[v.range.start..v.range.end + 1][k] == events[p];
    FindIndexOfOwnId(events, p);
  }

  /** In a settled state exactly one visible dot is highlighted: the selected event's. */
  lemma OneDotHighlighted(events: seq<TimelineEvent>, v: View)
    requires |events| == EventCount && SortedByYear(events) && IdsDistinct(events)
    requires Settled(v)
    ensures var k := v.active - v.range.start; 0 <= k < |Dots(events, v)| && Dots(events, v)[k].highlighted
    ensures forall k :: 0 <= k < |Dots(events, v)| && Dots(events, v)[k].highlighted ==> k == v.active - v.range.start
  {
    DotsAreTheWindow(events, v, v.active - v.range.start);
    forall k | 0 <= k < |Dots(events, v)| && Dots(events, v)[k].highlighted
      ensures k == v.active - v.range.start
    {
      DotsAreTheWindow(events, v, k);
    }
  }

  /** What the dot lemmas need of the event list. */
  predicate FitsTheDots(events: seq<TimelineEvent>)
  {
    |events| == EventCount && SortedByYear(events) && IdsDistinct(events)
  }

  /** The timeline's data meets the conditions of the dot lemmas. */
  lemma EventsFitTheDots()
    ensures FitsTheDots(Events)
  {
    EventCountIsDatasetSize();
    EventYearsNonDecreasing();
    EventIdsDistinct();
  }

  /** The component's state, updated in place by the handlers and the effect. */
  class Timeline {
    /** `timelineEvents`, as the component imports it. */
    const events: seq<TimelineEvent>
    var activeEventIndex: int
    var visibleRange: Range

    function ViewOf(): View
      reads this
    {
      View(activeEventIndex, visibleRange)
    }

    ghost predicate Valid()
      reads this
    {
      Settled(ViewOf()) && FitsTheDots(events)
    }

    /** Mount: the initial state, which the effect leaves as it is. */
    constructor ()
      ensures Valid() && ViewOf() == Initial && events == Events
    {
      EventsFitTheDots();
      events := Events;
      activeEventIndex := 0;
      visibleRange := Range(0, 5);
    }

    /** The re-centring effect, run after each state change. */
    method Recenter()
      modifies this
      ensures ViewOf() == Settle(old(ViewOf()))
    {
      if activeEventIndex < visibleRange.start {
        visibleRange := Range(Max(0, activeEventIndex - 2), Min(activeEventIndex + 3, EventCount - 1));
      } else if activeEventIndex > visibleRange.end {
        visibleRange := Range(Max(0, activeEventIndex - 3), Min(activeEventIndex + 2, EventCount - 1));
      }
    }

    /** The left button's click, then the effect. */
    method ScrollLeft()
      requires Valid()
      modifies this
      ensures Valid() && ViewOf() == Step(old(ViewOf()), Action.ScrollLeft)
    {
      StepKeepsSettled(ViewOf(), Action.ScrollLeft);
      if visibleRange.start > 0 {
        visibleRange := Range(visibleRange.start - 1, visibleRange.end - 1);
      }
      Recenter();
    }

    /** The right button's click, then the effect. */
    method ScrollRight()
      requires Valid()
      modifies this
      ensures Valid() && ViewOf() == Step(old(ViewOf()), Action.ScrollRight)
    {
      StepKeepsSettled(ViewOf(), Action.ScrollRight);
      if visibleRange.end < EventCount - 1 {
        visibleRange := Range(visibleRange.start + 1, visibleRange.end + 1);
      }
      Recenter();
    }

    /** `selectEvent(index)`, then the effect. */
    method SelectEvent(index: int)
      requires Valid() && 0 <= index < EventCount
      modifies this
      ensures Valid() && ViewOf() == Step(old(ViewOf()), Select(index))
      ensures activeEventIndex == index
    {
      StepKeepsSettled(ViewOf(), Select(index));
      activeEventIndex := index;
      Recenter();
    }

    /** The dots currently rendered; the selected event's dot is the one highlighted. */
    function VisibleDots(): (dots: seq<Dot>)
      requires Valid()
      reads this
      ensures |dots| == visibleRange.end - visibleRange.start + 1
      ensures forall k :: 0 <= k < |dots| ==>
        dots[k].index == visibleRange.start + k && (dots[k].highlighted <==> visibleRange.start + k == activeEventIndex)
    {
      var dots := Dots(events, ViewOf());
      forall k | 0 <= k < |dots|
        ensures dots[k].index == visibleRange.start + k && (dots[k].highlighted <==> visibleRange.start + k == activeEventIndex)
      {
        DotsAreTheWindow(events, ViewOf(), k);
      }
      dots
    }

    /** `disabled` of the left and right buttons: each is set exactly when its click would change nothing. */
    function ButtonsDisabled(): (disabled: (bool, bool))
      requires Valid()
      reads this
      ensures disabled.0 <==> ScrolledLeft(visibleRange) == visibleRange
      ensures disabled.1 <==> ScrolledRight(visibleRange) == visibleRange
    {
      (visibleRange.start == 0, visibleRange.end == EventCount - 1)
    }

    /** The details card of the selected event, rendered without a reading level. */
    function DetailCard(): (c: Card)
      requires Valid()
      reads this
      ensures c.content == events[activeEventIndex].description
      ensures c.sources.None? && c.title == events[activeEventIndex].title
      ensures c.impact.Some? ==> c.impact.value.heading == "Impact"
      ensures c.keyFigures.Some? ==> c.keyFigures.value.heading == "Notable Figures"
    {
      Render(events[activeEventIndex], None)
    }

    /** A click on the k-th visible dot selects the event that dot shows. */
    method ClickDot(k: int)
      requires Valid() && 0 <= k <= visibleRange.end - visibleRange.start
      modifies this
      ensures Valid() && ViewOf() == Step(old(ViewOf()), Select(old(visibleRange.start) + k))
      ensures activeEventIndex == old(visibleRange.start) + k
      ensures visibleRange == old(visibleRange)
    {
      DotsAreTheWindow(events, ViewOf(), k);
      SelectVisibleKeepsWindow(ViewOf(), k);
      var dots := Dots(events, ViewOf());
      SelectEvent(dots[k].index);
    }
  }
}
