# Nuclear history explorer: a verified model of its logic

The application is a small educational web app about the history of nuclear
fission and energy in the United States. Most of it is markup. This project
models, in Dafny, the parts that are logic:

- **The timeline window** (`TimelineWindow`). The selected event, the visible
  window of event dots over the sixteen events, the two scroll buttons, and
  the effect that pulls the window back over the selection after every change.
  The component becomes the class `Timeline`, whose methods are the click
  handlers followed by the effect. They are proved against pure functions
  (`Handle`, `Settle`, `Step`, `Run`) that keep the window in bounds, at most
  six wide and over the selection.
- **The canned-answer matcher** (`OpenAiService`). `getNuclearHistory` trims
  and lower-cases the question, takes the first key of the answer table, in
  table order, that occurs in it, and answers at the requested reading level.
  With no match it gives the generic answer. Any empty text gives way to the
  novice text.
- **The event card's presentation rules** (`TimelineEventView`). These cover
  the category badge, the kids-level first-sentence truncation, and which of
  the impact, key-figure and source sections appear.
- **The chat panel** (`Chat`). An append-only log with a whitespace guard, an
  input box, two voice switches and sample questions. The deferred
  placeholder reply is a separate step.
- **The accessibility preferences** (`Accessibility`). A text size and a
  contrast mode, mirrored by effects into a key-value store, the body's class
  set, the root's class set and the root's `data-text-size` attribute.
- **Supporting pieces.**
  - The static dataset (`TimelineData`).
  - The reading levels and their labels (`ReadingLevels`).
  - The JavaScript string built-ins the code relies on (`JsString`):
    `trim`, `toLowerCase`, `includes`, `split` and `join`.
  - `Option`/`Result` (`Wrappers`).

The code is modelled as written, including its quirks:

- The timeline compares the selected index, which is a position in the data
  array, against positions in the year-sorted copy. The two agree because the
  data is already in year order (`TimelineWindow.SortKeepsSorted`,
  `TimelineData.EventYearsNonDecreasing`).
- The timeline renders the card with no reading level (`None` here), so the
  detail card always shows the full description.
- The card reads `impact` and `keyFigures`, which the record type does not
  declare. They are optional fields of the modelled record and are absent
  from every entry.
- The kids view of "The U.S. officially launches…" is "The U."
- Stored accessibility values are taken without validation, so the text size
  and contrast mode are arbitrary strings.

## Model

| member | source | states |
|---|---|---|
| TimelineData.DatasetShape | src/utils/timelineData.ts:21-206 | there are exactly 16 events, the first from 1938 and the last from 2020 |
| TimelineData.EventIdsDistinct | src/utils/timelineData.ts:23-199 | no two events share an id |
| TimelineData.EventIds | src/utils/timelineData.ts:23-199 | the ids, read off the data in array order, are the sixteen listed ids |
| TimelineData.EventYearsNonDecreasing | src/utils/timelineData.ts:24-200 | years never decrease along the array |
| TimelineData.EventYears | src/utils/timelineData.ts:24-200 | the years, read off the data in array order, are the sixteen listed years |
| TimelineData.EveryEntryFilled | src/utils/timelineData.ts:10-18 | every notable figure has a non-empty name and role, and every source a non-empty title and URL |
| TimelineData.NoImpactOrKeyFigures | src/utils/timelineData.ts:2-19 | no entry has an `impact` or `keyFigures` value, since the type does not declare them |
| ReadingLevels.Labels | src/context/ReadingLevelContext.tsx:12-17 | the label map is defined on exactly the four levels, each with its fixed label |
| ReadingLevels.LabelsTotalAndDistinct | src/context/ReadingLevelContext.tsx:12-17 | every level has a label, and two levels share a label only if they are the same level |
| ReadingLevels.DefaultContext | src/context/ReadingLevelContext.tsx:19-23 | the context's default value is novice with the fixed labels |
| ReadingLevels.DefaultSetReadingLevel | src/context/ReadingLevelContext.tsx:21 | the default setter changes nothing |
| ReadingLevels.UseReadingLevel | src/context/ReadingLevelContext.tsx:25 | outside a provider the value is novice with the labels; inside, it is the provider's value |
| ReadingLevels.ReadingLevelProvider.constructor | src/context/ReadingLevelContext.tsx:32 | the provider starts at novice |
| ReadingLevels.ReadingLevelProvider.SetReadingLevel | src/context/ReadingLevelContext.tsx:32-35 | the level becomes exactly the given one |
| ReadingLevels.ReadingLevelProvider.Value | src/context/ReadingLevelContext.tsx:35 | the passed-down value is the current level and the unchanging labels |
| JsString.TrimStart | src/services/openaiService.ts:65 | the result is a suffix of the input with no leading whitespace, and only whitespace was removed |
| JsString.TrimEnd | src/services/openaiService.ts:65 | the result is a prefix of the input with no trailing whitespace, and only whitespace was removed |
| JsString.Trim | src/services/openaiService.ts:65 | trimming never lengthens the text |
| JsString.TrimDecompose | src/services/openaiService.ts:65 | every string is whitespace, then its trimmed form, then whitespace, and the trimmed form has no outer whitespace |
| JsString.TrimOfPadded | src/services/openaiService.ts:65 | trimming a string without outer whitespace after padding it with whitespace gives back the string |
| JsString.TrimIgnoresPadding | src/services/openaiService.ts:65 | extra outer whitespace does not change the trimmed result |
| JsString.TrimEmptyIffBlank | src/services/openaiService.ts:65 | trimming gives the empty string exactly for whitespace-only input, the empty string included |
| JsString.ToLower | src/services/openaiService.ts:65 | lower-casing keeps the length and maps each character independently |
| JsString.ToLowerConcat | src/services/openaiService.ts:65 | lower-casing distributes over concatenation |
| JsString.ToLowerIdempotent | src/services/openaiService.ts:65 | lower-casing twice is lower-casing once |
| JsString.ToLowerKeepsWhitespace | src/services/openaiService.ts:65 | lower-casing neither creates nor removes whitespace, at either end or anywhere |
| JsString.TrimToLowerCommute | src/services/openaiService.ts:65 | trimming and lower-casing commute |
| JsString.LowerMissing | src/services/openaiService.ts:69 | a small letter absent from a string in both cases is absent from its lower-casing |
| JsString.Includes | src/services/openaiService.ts:69 | a string includes a needle only if it is at least as long, and every string includes the empty string |
| JsString.IncludesSelf | src/services/openaiService.ts:69 | every string contains itself |
| JsString.IncludesInfix | src/services/openaiService.ts:69 | a string is included in any text that embeds it |
| JsString.IncludesInTrim | src/services/openaiService.ts:65-69 | a non-empty needle without outer whitespace found in a text is also found in its trim |
| JsString.LongerNotIncluded | src/services/openaiService.ts:69 | a string never contains a longer one |
| JsString.MissingCharNotIncluded | src/services/openaiService.ts:69 | a needle with a character the haystack lacks does not occur in it |
| JsString.AnchoredAtEnd | src/services/openaiService.ts:69 | if the needle's last character occurs in the haystack only at its end, the needle can only occur as its suffix |
| JsString.Split | src/components/TimelineEvent.tsx:44 | the first part is the longest separator-free prefix of the input, and no part contains the separator |
| JsString.SplitHeadIs | src/components/TimelineEvent.tsx:44 | the first part ends exactly at the first separator, or at the end of the input |
| JsString.Join | src/components/TimelineEvent.tsx:44 | no parts join to the empty string; otherwise the result starts with the first part, followed by the separator when there is a second part |
| JsString.JoinSplit | src/components/TimelineEvent.tsx:44 | joining the parts with the separator gives back the input |
| OpenAiService.PickText | src/services/openaiService.ts:71 | a non-empty text for the level is picked; an empty one gives way to the novice text; the result is empty only when both are |
| OpenAiService.Normalize | src/services/openaiService.ts:65 | the normalised question is never longer than the question |
| OpenAiService.FirstMatch | src/services/openaiService.ts:68-73 | no result iff no key occurs in the question; otherwise the position of an occurring key before which no key occurs |
| OpenAiService.Answer | src/services/openaiService.ts:65-83 | with non-empty texts the answer is the fallback's or some entry's text for the level |
| OpenAiService.AnswerIgnoresCaseAndPadding | src/services/openaiService.ts:65 | outer whitespace and letter case of the question do not change the answer, for any table |
| OpenAiService.AnswerFirstIncludedKey | src/services/openaiService.ts:68-71 | the first entry whose key occurs in the normalised question gives the answer, whatever later keys do |
| OpenAiService.AnswerNoMatch | src/services/openaiService.ts:76-83 | with no key occurring, the fallback gives the answer |
| OpenAiService.AnswerShortQuestion | src/services/openaiService.ts:65-83 | for any table, a question whose trimmed form is shorter than every key gets the fallback |
| OpenAiService.AnswerEmbeddedKey | src/services/openaiService.ts:69 | a question containing a key is answered by that entry or an earlier one |
| OpenAiService.AnswerBlank | src/services/openaiService.ts:65-69 | with non-empty keys, a whitespace-only question gets the fallback |
| OpenAiService.NormalizeTrimmed | src/services/openaiService.ts:65 | a question without outer whitespace normalises to its lower-casing |
| OpenAiService.AnswerCanonicalKey | src/services/openaiService.ts:68-71 | when no lower-cased key contains an earlier one, any casing of a key, with any outer whitespace, is answered by its own entry |
| OpenAiService.LowerPreimage | src/services/openaiService.ts:65 | only a small letter and its capital lower-case to that small letter |
| OpenAiService.ShorterKey | src/services/openaiService.ts:69 | a shorter key cannot contain a longer one |
| OpenAiService.FirstPlantKeyUnshadowed | src/services/openaiService.ts:26-38 | the first-power-plant key contains neither of the two keys before it |
| OpenAiService.ManhattanKeyNotIn | src/services/openaiService.ts:32-56 | neither the Three Mile Island key nor the scientists key contains the Manhattan key |
| OpenAiService.ScientistsKeyLacksFission | src/services/openaiService.ts:26-50 | the scientists key does not contain the fission-discovery key |
| OpenAiService.ScientistsKeyQuestionMarkLast | src/services/openaiService.ts:50 | the lower-cased scientists key has 51 characters, and its only question mark is the last one |
| OpenAiService.ScientistsKeyLacksThreeMile | src/services/openaiService.ts:44-50 | the scientists key does not contain the Three Mile Island key |
| OpenAiService.KeysUnshadowed | src/services/openaiService.ts:26-61 | no lower-cased key of the table contains an earlier lower-cased key |
| OpenAiService.KeysNonEmptyAndTrimmed | src/services/openaiService.ts:26-56 | every key is non-empty and has no outer whitespace |
| OpenAiService.ResponsesShape | src/services/openaiService.ts:25-83 | the table's keys are the six keys in order, and every answer text, fallback included, is non-empty |
| OpenAiService.GetNuclearHistory | src/services/openaiService.ts:17-83 | the answer is always one of the canned texts for the requested level |
| OpenAiService.CanonicalKeyAnswersItself | src/services/openaiService.ts:26-71 | each of the six questions, in any casing and with any outer whitespace, gets its own answer at the requested level |
| OpenAiService.KeyAnswersItself | src/services/openaiService.ts:26-71 | each key asked exactly as written gets its own entry's text at the requested level |
| OpenAiService.BlankFallsBack | src/services/openaiService.ts:65-83 | an empty or whitespace-only question gets the generic answer for the level |
| OpenAiService.IgnoresCaseAndPadding | src/services/openaiService.ts:65 | outer whitespace and letter case of the question do not change the answer |
| OpenAiService.FirstIncludedKeyWins | src/services/openaiService.ts:68-71 | the first key in table order that occurs in the normalised question picks the answer |
| OpenAiService.NoMatchFallsBack | src/services/openaiService.ts:76-83 | with no key occurring, the generic answer for the level is given |
| OpenAiService.RawEmbedNormalises | src/services/openaiService.ts:65-69 | a trimmed key that the raw question contains, in any case, is still contained after trimming and lower-casing |
| OpenAiService.EmbeddedKeyMatches | src/services/openaiService.ts:65-71 | a raw question containing a key anywhere, in any case, is answered from that entry or an earlier one, never the fallback |
| OpenAiService.KeyInLongerTextMatches | src/services/openaiService.ts:65-71 | any text with a key written inside it is answered from that entry or an earlier one |
| OpenAiService.KeysAtLeast24 | src/services/openaiService.ts:26-56 | every key has at least 24 characters |
| OpenAiService.ResponseKeysAtLeast24 | src/services/openaiService.ts:26-56 | every entry of the table has a key of at least 24 characters |
| OpenAiService.ShortQuestionFallsBack | src/services/openaiService.ts:65-83 | a question under 24 characters once trimmed gets the generic answer |
| TimelineEventView.CategoryIcon | src/components/TimelineEvent.tsx:6-19 | the atom icon exactly for discovery and technology, and the default icon exactly for strings that are none of the four categories |
| TimelineEventView.CategoryColor | src/components/TimelineEvent.tsx:21-34 | every string gets one of the five colours, and the grey default exactly when it is not one of the four categories |
| TimelineEventView.CategoryColorsDistinct | src/components/TimelineEvent.tsx:6-34 | the four categories never get the default colour or icon, and different categories get different colours |
| TimelineEventView.DiscoveryAndTechnologyShareIcon | src/components/TimelineEvent.tsx:8-11 | discovery and technology share the atom icon but not the colour |
| TimelineEventView.FirstSentence | src/components/TimelineEvent.tsx:44 | the result is the input's text before its first full stop, followed by a full stop |
| TimelineEventView.FirstSentenceBounds | src/components/TimelineEvent.tsx:44 | the truncation is at most one character longer than the input, and its only full stop is its last character |
| TimelineEventView.FirstSentenceIs | src/components/TimelineEvent.tsx:44 | for the position of the first full stop, or the end, the truncation is the text before it plus a full stop |
| TimelineEventView.FirstSentenceIdempotent | src/components/TimelineEvent.tsx:44 | truncating a truncated text changes nothing |
| TimelineEventView.FirstSentenceWithoutStop | src/components/TimelineEvent.tsx:44 | a text without a full stop gains one at its end |
| TimelineEventView.DisplayContent | src/components/TimelineEvent.tsx:37-57 | every level but kids, and no level, shows the description; kids shows a text ending in a full stop and at most one character longer |
| TimelineEventView.ContentUnchangedUnlessKids | src/components/TimelineEvent.tsx:45-55 | every level but kids, and no level, shows the description unchanged |
| TimelineEventView.KidsContentIsFirstSentence | src/components/TimelineEvent.tsx:42-44 | the kids text is the first-sentence truncation, at most one character longer than the description |
| TimelineEventView.ManhattanKidsContent | src/components/TimelineEvent.tsx:44 | the Manhattan Project entry's kids text is "The U." |
| TimelineEventView.ImpactOf | src/components/TimelineEvent.tsx:86-97 | impact shows iff it is non-empty; for kids it is headed "Why This Matters", highlighted and truncated, otherwise it is headed "Impact" and kept whole |
| TimelineEventView.KeyFiguresOf | src/components/TimelineEvent.tsx:100-103 | key figures show iff present, non-empty and the level is not kids; they are headed "Key People" iff the level is novice |
| TimelineEventView.SourcesOf | src/components/TimelineEvent.tsx:116 | sources show iff present, non-empty and the level is college or expert |
| TimelineEventView.Render | src/components/TimelineEvent.tsx:64-80 | the card shows the event's year, title and category name, with a colour and an icon other than the defaults |
| TimelineEventView.TimelineCardsShowDescriptionOnly | src/components/Timeline.tsx:113-114 | rendered with no level, every event's card shows its full description, a category colour and no impact, figures or sources |
| TimelineEventView.KidsCardsHaveNoLists | src/components/TimelineEvent.tsx:100-116 | at kids level no card of the data shows figures or sources |
| TimelineWindow.EventCountIsDatasetSize | src/components/Timeline.tsx:20 | the event count used by the window is the dataset's length |
| TimelineWindow.InitialSettled | src/components/Timeline.tsx:8-9 | the mount state (event 0, window 0 to 5) is in bounds and shows the selection |
| TimelineWindow.Recentered | src/components/Timeline.tsx:15-28 | for a selection among the events the new window holds it, and a window that already holds it is left alone |
| TimelineWindow.ScrolledLeft | src/components/Timeline.tsx:30-37 | the width is kept, the window is unchanged exactly when it starts at 0, and it never starts below 0 |
| TimelineWindow.ScrolledRight | src/components/Timeline.tsx:39-46 | the width is kept, the window is unchanged exactly when it ends at the last event, and it never ends past it |
| TimelineWindow.Handle | src/components/Timeline.tsx:30-50 | a dot click sets the selection and leaves the window; a scroll keeps the selection |
| TimelineWindow.Settle | src/components/Timeline.tsx:15-28 | the effect keeps the selection, puts it inside the window, and changes nothing in a settled state |
| TimelineWindow.SelectVisibleKeepsWindow | src/components/Timeline.tsx:82-87 | selecting an event inside the window, followed by the effect, leaves the window where it was |
| TimelineWindow.RecenteredShowsActive | src/components/Timeline.tsx:15-28 | after the effect, an in-bounds window of at most six shows the selected event and stays in bounds and at most six wide |
| TimelineWindow.RecenteredIsFixpoint | src/components/Timeline.tsx:28 | a second run of the effect, triggered by its own update, changes nothing |
| TimelineWindow.DisabledIffNoOp | src/components/Timeline.tsx:30-103 | each scroll button is disabled exactly when its click would change nothing |
| TimelineWindow.HandleKeepsBounds | src/components/Timeline.tsx:30-50 | every click keeps the window in bounds and its width unchanged |
| TimelineWindow.StepKeepsSettled | src/components/Timeline.tsx:15-50 | a click followed by the effect keeps the window in bounds, at most six wide and over the selection |
| TimelineWindow.RunKeepsSettled | src/components/Timeline.tsx:15-50 | so does any sequence of clicks |
| TimelineWindow.ReachableSettled | src/components/Timeline.tsx:8-50 | every state reachable from mount is in bounds, at most six wide and over the selection |
| TimelineWindow.ScrollRightFromInitial | src/components/Timeline.tsx:17-46 | scrolling right from mount gives window 1 to 6, which the effect snaps back to 0 to 3 |
| TimelineWindow.SelectTwelveFromInitial | src/components/Timeline.tsx:22-50 | selecting event 12 from mount gives window 9 to 14 |
| TimelineWindow.InsertByYear | src/components/Timeline.tsx:13 | inserting keeps every element; an element whose year is not less than the last one's is appended |
| TimelineWindow.InsertKeepsSorted | src/components/Timeline.tsx:13 | inserting into a year-sorted list keeps it sorted |
| TimelineWindow.SortByYear | src/components/Timeline.tsx:13 | the sort is a permutation |
| TimelineWindow.SortSorts | src/components/Timeline.tsx:13 | the sort's result is in year order |
| TimelineWindow.SortKeepsSorted | src/components/Timeline.tsx:13 | the stable sort leaves a list already in year order unchanged |
| TimelineWindow.FindIndex | src/components/Timeline.tsx:83 | -1 iff no event has the id, otherwise the first position with that id |
| TimelineWindow.FindIndexOfOwnId | src/components/Timeline.tsx:83 | with distinct ids, looking up an event's own id gives its position |
| TimelineWindow.Dots | src/components/Timeline.tsx:82-92 | the rendered slice has end - start + 1 dots |
| TimelineWindow.DotsAreTheWindow | src/components/Timeline.tsx:82-92 | for year-ordered data with distinct ids, the k-th dot is event start + k and is highlighted iff that event is selected |
| TimelineWindow.OneDotHighlighted | src/components/Timeline.tsx:88-92 | in a settled state exactly one visible dot is highlighted, the selected event's |
| TimelineWindow.EventsFitTheDots | src/utils/timelineData.ts:21-206 | the data has 16 events, in year order, with distinct ids |
| TimelineWindow.Timeline.constructor | src/components/Timeline.tsx:8-9 | the component mounts at event 0 with window 0 to 5, a settled state |
| TimelineWindow.Timeline.Recenter | src/components/Timeline.tsx:15-28 | the effect rebuilds the window around a selection outside it and otherwise leaves it alone |
| TimelineWindow.Timeline.ScrollLeft | src/components/Timeline.tsx:30-37 | the left click and then the effect, keeping the state settled |
| TimelineWindow.Timeline.ScrollRight | src/components/Timeline.tsx:39-46 | the right click and then the effect, keeping the state settled |
| TimelineWindow.Timeline.SelectEvent | src/components/Timeline.tsx:48-50 | the selection becomes the index, and the effect keeps the state settled |
| TimelineWindow.Timeline.VisibleDots | src/components/Timeline.tsx:82-92 | the visible dots are the events start to end, highlighted exactly at the selection |
| TimelineWindow.Timeline.ButtonsDisabled | src/components/Timeline.tsx:67-108 | each button is disabled exactly when its click would change nothing |
| TimelineWindow.Timeline.DetailCard | src/components/Timeline.tsx:112-116 | the detail card shows the selected event's full description and no sources |
| TimelineWindow.Timeline.ClickDot | src/components/Timeline.tsx:82-87 | clicking the k-th visible dot is the selection of event start + k followed by the effect, and the window does not move |
| Chat.SampleQuestionsAreKeys | src/components/ChatInterface.tsx:27-33 | the five sample questions are the answer table's first five keys, in order |
| Chat.CanSend | src/components/ChatInterface.tsx:44 | the negation of the guard `inputValue.trim() === ''`; which inputs pass is stated by `Chat.CanSendIffNotBlank` |
| Chat.CanSendIffNotBlank | src/components/ChatInterface.tsx:44 | input is refused exactly when it is all whitespace, including empty |
| Chat.ReplyText | src/components/ChatInterface.tsx:61 | the reply starts with the fixed opening |
| Chat.ReplyQuotesSentText | src/components/ChatInterface.tsx:61 | the reply is the fixed opening, the sent text untrimmed, then the fixed closing; it contains the sent text |
| Chat.ReplyTextInjective | src/components/ChatInterface.tsx:61 | different sent texts get different replies |
| Chat.CountAppend | src/components/ChatInterface.tsx:53-64 | appending a message adds one to its sender's count and nothing to the other's |
| Chat.WelcomeLogConsistent | src/components/ChatInterface.tsx:13-20 | the mount log is one system welcome message, with nothing pending |
| Chat.SendKeepsConsistent | src/components/ChatInterface.tsx:47-57 | after a send every user message is sendable, and user messages still match replies plus pending ones |
| Chat.ReplyKeepsConsistent | src/components/ChatInterface.tsx:57-64 | delivering a reply keeps the log consistent |
| Chat.ChatLog.constructor | src/components/ChatInterface.tsx:13-23 | the log is the welcome message, the input is empty and both switches are off |
| Chat.ChatLog.SetInput | src/components/ChatInterface.tsx:169 | typing replaces the input and nothing else |
| Chat.ChatLog.SendDisabled | src/components/ChatInterface.tsx:188 | Send is disabled exactly when the input is all whitespace |
| Chat.ChatLog.HandleSend | src/components/ChatInterface.tsx:43-57 | blank input changes nothing; otherwise one user message with the raw input is appended, the input is cleared and a reply is scheduled for the text |
| Chat.ChatLog.DeliverReply | src/components/ChatInterface.tsx:57-64 | the oldest pending reply is appended as a system message quoting its text; earlier messages are untouched |
| Chat.ChatLog.HandleKeyDown | src/components/ChatInterface.tsx:74-79 | Enter without Shift prevents the default and does what Send does: blank input changes nothing, otherwise the raw input is appended, the input is cleared and its reply is scheduled; any other key changes nothing |
| Chat.ChatLog.ToggleVoiceOutput | src/components/ChatInterface.tsx:81-83 | the voice-output switch flips and nothing else changes |
| Chat.ChatLog.ToggleVoiceInput | src/components/ChatInterface.tsx:85-93 | the voice-input switch flips and nothing else changes |
| Chat.ChatLog.UseSampleQuestion | src/components/ChatInterface.tsx:95-97 | a sample question fills the input without sending |
| Chat.SampleQuestionSendable | src/components/ChatInterface.tsx:27-44 | every sample question passes the send guard |
| Chat.SampleQuestionGetsItsAnswer | src/components/ChatInterface.tsx:27-33 | the matcher, given a sample question, returns the answer filed under it at any level; the chat itself does not call the matcher |
| Chat.SampleQuestionRoundTrip | src/components/ChatInterface.tsx:95-97 | a sample question followed by Send appends exactly that question and schedules its reply |
| Chat.ToggleTwiceRestores | src/components/ChatInterface.tsx:81-93 | toggling each voice switch twice restores it and leaves the log, the input and the pending replies alone |
| Accessibility.SizeClassOf | src/context/AccessibilityContext.tsx:44-54 | each of the three sizes gets one class, and any other string none |
| Accessibility.BodyAfter | src/context/AccessibilityContext.tsx:40-54 | afterwards the body has exactly the size's class among the three, and every other class as before |
| Accessibility.BodyAfterSetsSizeClass | src/context/AccessibilityContext.tsx:41-54 | after the effect the body carries exactly the size's class among the three, and the other classes are untouched |
| Accessibility.BodyAfterLastWins | src/context/AccessibilityContext.tsx:42-54 | a later run of the effect erases every trace of an earlier one |
| Accessibility.BodyAfterFixpoint | src/context/AccessibilityContext.tsx:42-54 | the effect leaves the body alone exactly when its size classes already match |
| Accessibility.RootAfter | src/context/AccessibilityContext.tsx:59-63 | afterwards the high-contrast class is present iff the mode is "high", and every other class is as before |
| Accessibility.RootAfterSetsContrastClass | src/context/AccessibilityContext.tsx:59-63 | the high-contrast class is present iff the mode is "high"; the last run decides; other classes are untouched |
| Accessibility.Loaded | src/context/AccessibilityContext.tsx:23-32 | a stored value replaces the current one exactly when present and non-empty |
| Accessibility.UnknownStoredSizeIsKept | src/context/AccessibilityContext.tsx:23-54 | an unknown stored size is taken as it is, and the body then carries no size class |
| Accessibility.Toggled | src/context/AccessibilityContext.tsx:69 | the toggle always yields "normal" or "high" |
| Accessibility.ToggledTwice | src/context/AccessibilityContext.tsx:69 | the toggle always changes the mode, and undoes itself exactly on "normal" and "high" |
| Accessibility.UseAccessibility | src/context/AccessibilityContext.tsx:87-92 | it fails with the fixed message iff there is no provider, and otherwise gives the provider's value |
| Accessibility.AccessibilityProvider.constructor | src/context/AccessibilityContext.tsx:18-66 | mounting loads the stored values over the defaults, then leaves the store, body, root and attribute mirroring them |
| Accessibility.AccessibilityProvider.Commit | src/context/AccessibilityContext.tsx:35-66 | both mirroring effects, leaving every mirror equal to the state |
| Accessibility.AccessibilityProvider.ApplyTextSize | src/context/AccessibilityContext.tsx:35-55 | the attribute and the stored "textSize" become the size, and the body's size classes match it |
| Accessibility.AccessibilityProvider.ApplyContrastMode | src/context/AccessibilityContext.tsx:57-66 | the root's high-contrast class matches the mode, and the stored "contrastMode" becomes it |
| Accessibility.AccessibilityProvider.SetTextSize | src/context/AccessibilityContext.tsx:35-55 | the size changes and its mirrors follow; the contrast state and its stored key are untouched |
| Accessibility.AccessibilityProvider.SetContrastMode | src/context/AccessibilityContext.tsx:57-66 | the mode changes and its mirrors follow; the text-size state and its stored key are untouched |
| Accessibility.AccessibilityProvider.ToggleContrastMode | src/context/AccessibilityContext.tsx:68-70 | the mode becomes its toggle, and its mirrors follow |
| Accessibility.AccessibilityProvider.Value | src/context/AccessibilityContext.tsx:74-80 | the passed-down value is the current size and mode |
| Accessibility.ToggleTwiceRestores | src/context/AccessibilityContext.tsx:68-70 | toggling twice from "normal" or "high" restores the mode, the store and both class sets |

## Left out

- Markup and styling: JSX, icons' sizes and CSS strings are left out. The category colour strings are the exception; they are kept verbatim.
- Long texts are abbreviated to their opening words and an ellipsis. This covers the matcher's answers, the generic answers and the event descriptions. The Manhattan Project's description is kept whole, since the kids truncation example depends on it. The answer keys, ids, years, titles, categories, figures and sources are verbatim.
- The event record's `detailedContent`, `imageUrl` and the figures' optional `description` are left out. Nothing in the modelled code reads them.
- `generateContext` and `knowledgeContext` (src/services/openaiService.ts:5-11) are left out: they build a string that nothing uses.
- The matcher's `catch` branch and its apology string are left out. For a string question nothing in the `try` block can throw.
- The chat panel never calls `getNuclearHistory`: its reply is the placeholder text (src/components/ChatInterface.tsx:57-64). `Chat.SampleQuestionGetsItsAnswer` is therefore a fact about the matcher alone.
- `JsString.Trim`: its own contract gives only the length bound. What `trim` removes is stated by `JsString.TrimDecompose` and `JsString.TrimOfPadded`, because a fuller contract on this widely used function makes the proofs that use it much costlier.
- `OpenAiService.Normalize`: its own contract gives only the length bound, for the same reason. `OpenAiService.NormalizeTrimmed` and `JsString.TrimToLowerCommute` state the rest.
- `OpenAiService.GetNuclearHistory`: the `async` wrapper is left out. The function is modelled as returning its value directly.
- `OpenAiService.GetNuclearHistory`: the level parameter is one of the four levels. A call without options is the call with `Novice`.
- Timers, ids and side effects are left out:
  - the reply timer's 1000 ms delay: replies are a separate `DeliverReply` step, oldest first, as equal delays fire in order;
  - `Date.now()` ids and timestamps;
  - `scrollIntoView`;
  - console output.
- Speech input and output are left out: they are placeholders that only log.
- React's scheduling is not modelled. Each handler is followed at once by the effects its change triggers. A second run of the timeline effect, caused by its own update, is a no-op (`TimelineWindow.RecenteredIsFixpoint`).
- The browser store and document are not modelled as real APIs, and storage failures are left out. The store is a `map`, the class lists are `set`s and the `data-text-size` attribute is an `Option`.
- Rendering the source records themselves as children (src/components/TimelineEvent.tsx:120-124) is left out. The sources section only appears at college or expert level, which the timeline never passes.
- `JsString.ToLower`: it lower-cases ASCII capitals and the Latin-1 capitals U+00C0-U+00DE except U+00D7. Other scripts and multi-character mappings are left out. All six keys are ASCII.
- `TimelineWindow.Timeline.SelectEvent`: it requires an index among the events, because its only caller passes the index of a rendered dot.
- `Accessibility.AccessibilityProvider.SetTextSize` and `Accessibility.AccessibilityProvider.SetContrastMode` accept any string. The source's types allow only the named values, but the load effect bypasses them.
- The navigation bar, accessibility menu, pages, footer and layout are left out. They have no logic of their own: they only forward button clicks to the context.
