// The canned-answer matcher behind the chat: `getNuclearHistory` normalises a
// question, looks for the first table key contained in it and answers at the
// requested reading level, falling back to a generic answer.
//
// The answer texts are abbreviated to their opening words followed by an
// ellipsis; the keys are verbatim, since the matching depends on them. Some
// literals are written as concatenations of short pieces; the value is the
// same single literal as in the source.

module OpenAiService {
  import opened Wrappers
  import opened JsString
  import opened ReadingLevels

  /** One text per reading level, as in the `Record<string, string>` of the answer table. */
  datatype LevelTexts = LevelTexts(kids: string, novice: string, college: string, expert: string)
  {
    /** `answers[readingLevel]` */
    function For(level: ReadingLevel): string
    {
      match level
      case Kids => kids
      case Novice => novice
      case College => college
      case Expert => expert
    }

    /** Every text is truthy (non-empty). */
    predicate Filled()
    {
      kids != "" && novice != "" && college != "" && expert != ""
    }
  }

  /** One `[key, answers]` pair of `Object.entries(responses)`. */
  datatype Entry = Entry(key: string, answers: LevelTexts)

  // Each key is one literal in the table. It is written here as a
  // concatenation of word-sized pieces, which keeps proofs that compare keys
  // with each other and with the sample questions from unfolding the whole
  // string character by character; the value is the literal unchanged.
  const KeyFissionDiscovered: string := "When was " + "nuclear " + "fission " + "discovered?"
  const KeyManhattan: string := "What was " + "the " + "Manhattan " + "Project?"
  const KeyFirstPlant: string := "Tell me " + "about " + "the first " + "nuclear " + "power " + "plant in " + "the US"
  const KeyThreeMile: string := "What " + "happened " + "at Three " + "Mile " + "Island?"
  /** All of the key but its final question mark. */
  const KeyScientistsStem: string := "Who were " + "the key " + "scientists " + "in " + "nuclear " + "development"
  const KeyScientists: string := KeyScientistsStem + "?"
  const KeyWhatIsFission: string := "What is " + "nuclear " + "fission?"

  /** The keys of the answer table, in insertion order. */
  const Keys: seq<string> :=
    [KeyFissionDiscovered, KeyManhattan, KeyFirstPlant, KeyThreeMile, KeyScientists, KeyWhatIsFission]

  /** The answers of each table entry, one text per level. */
  const FissionDiscoveredAnswers: LevelTexts := LevelTexts(
    "Nuclear fission was discovered in 1938 by scientists \U{2026}",
    "Nuclear fission was discovered in 1938 by German \U{2026}",
    "In December 1938, German chemists \U{2026}",
    "The discovery of nuclear fission \U{2026}")
  const ManhattanAnswers: LevelTexts := LevelTexts(
    "The Manhattan Project was a big \U{2026}",
    "The Manhattan Project was a US \U{2026}",
    "The Manhattan Project (1942-1945) was \U{2026}",
    "The Manhattan Project (1942-1945) \U{2026}")
  const FirstPlantAnswers: LevelTexts := LevelTexts(
    "The first nuclear power plant in \U{2026}",
    "The first full-scale nuclear power \U{2026}",
    "The Shippingport Atomic Power Station \U{2026}",
    "The Shippingport Atomic Power \U{2026}")
  const ThreeMileAnswers: LevelTexts := LevelTexts(
    "In 1979, there was an accident at a \U{2026}",
    "The Three Mile Island accident in \U{2026}",
    "On March 28, 1979, a combination of \U{2026}",
    "The Three Mile Island accident on \U{2026}")
  const ScientistsAnswers: LevelTexts := LevelTexts(
    "Many smart scientists helped develop \U{2026}",
    "Key scientists in nuclear development \U{2026}",
    "Nuclear science development was \U{2026}",
    "Nuclear science emerged through \U{2026}")
  const WhatIsFissionAnswers: LevelTexts := LevelTexts(
    "Nuclear fission is when the center of \U{2026}",
    "Nuclear fission is the process where \U{2026}",
    "Nuclear fission occurs when a heavy \U{2026}",
    "Nuclear fission represents a quantum \U{2026}")

  /** The answer table, in insertion order (which `Object.entries` preserves for these keys). */
  const Responses: seq<Entry> := [
    Entry(KeyFissionDiscovered, FissionDiscoveredAnswers),
    Entry(KeyManhattan, ManhattanAnswers),
    Entry(KeyFirstPlant, FirstPlantAnswers),
    Entry(KeyThreeMile, ThreeMileAnswers),
    Entry(KeyScientists, ScientistsAnswers),
    Entry(KeyWhatIsFission, WhatIsFissionAnswers)
  ]

  /** The answers used when no key matches. */
  const GenericResponses: LevelTexts := LevelTexts(
    "I don't know the answer to that yet, \U{2026}",
    "That's an interesting question about \U{2026}",
    "That's a thought-provoking question \U{2026}",
    "Your question touches on nuanced \U{2026}")

  /** `texts[level] || texts['novice']`: an empty text is falsy and gives way to the novice text. */
  function PickText(texts: LevelTexts, level: ReadingLevel): (r: string)
    ensures texts.Filled() ==> r == texts.For(level)
    ensures texts.For(level) != "" ==> r == texts.For(level)
    ensures texts.For(level) == "" ==> r == texts.novice
    ensures r == "" <==> texts.For(level) == "" && texts.novice == ""
  {
    if texts.For(level) != "" then texts.For(level) else texts.novice
  }

  /** `question.trim().toLowerCase()` */
  function Normalize(question: string): (q: string)
    ensures |q| <= |question|
  {
    ToLower(Trim(question))
  }

  /** Whether the lower-cased key of `entry` occurs in the normalised question `q`. */
  predicate KeyIn(q: string, entry: Entry)
  {
    Includes(q, ToLower(entry.key))
  }

  /**
   * The `for (const [key, answers] of Object.entries(responses))` loop with its
   * early return: the position of the first entry whose key occurs in `q`.
   */
  function FirstMatch(table: seq<Entry>, q: string): (r: Option<nat>)
    ensures r.None? <==> forall i :: 0 <= i < |table| ==> !KeyIn(q, table[i])
    ensures r.Some? ==> r.value < |table| && KeyIn(q, table[r.value])
    ensures r.Some? ==> forall j :: 0 <= j < r.value ==> !KeyIn(q, table[j])
    decreases |table|
  {
    if table == [] then None
    else if KeyIn(q, table[0]) then Some(0)
    else
      match FirstMatch(table[1..], q)
      case None =>
        assert forall i :: 1 <= i < |table| ==> table[i] == table[1..][i - 1];
        None
      case Some(k) =>
        assert forall j :: 1 <= j < k + 1 ==> table[j] == table[1..][j - 1];
        Some(k + 1)
  }

  /** Every text of every entry and of the fallback is truthy. */
  predicate AllFilled(table: seq<Entry>, fallback: LevelTexts)
  {
    fallback.Filled() && forall i :: 0 <= i < |table| ==> table[i].answers.Filled()
  }

  /** The body of `getNuclearHistory` over an answer table and a fallback. */
  function Answer(table: seq<Entry>, fallback: LevelTexts, question: string, level: ReadingLevel): (answer: string)
    ensures AllFilled(table, fallback) ==>
      answer == fallback.For(level) || exists i :: 0 <= i < |table| && answer == table[i].answers.For(level)
  {
    match FirstMatch(table, Normalize(question))
    case Some(i) => PickText(table[i].answers, level)
    case None => PickText(fallback, level)
  }

  /** The answer depends on the question only through its trimmed, lower-cased form. */
  lemma AnswerIgnoresCaseAndPadding(table: seq<Entry>, fallback: LevelTexts, pre: string, a: string, b: string, post: string, level: ReadingLevel)
    requires AllWhitespace(pre) && AllWhitespace(post)
    requires ToLower(a) == ToLower(b)
    ensures Answer(table, fallback, pre + a + post, level) == Answer(table, fallback, b, level)
  {
    TrimIgnoresPadding(pre, a, post);
    TrimToLowerCommute(a);
    TrimToLowerCommute(b);
  }

  /** The first key contained in the normalised question decides the answer, whatever later keys do. */
  lemma AnswerFirstIncludedKey(table: seq<Entry>, fallback: LevelTexts, question: string, level: ReadingLevel, i: nat)
    requires i < |table| && KeyIn(Normalize(question), table[i])
    requires forall j :: 0 <= j < i ==> !KeyIn(Normalize(question), table[j])
    ensures Answer(table, fallback, question, level) == PickText(table[i].answers, level)
  {
    var r := FirstMatch(table, Normalize(question));
    assert r == Some(i);
  }

  /** With no key contained in the normalised question, the fallback answers. */
  lemma AnswerNoMatch(table: seq<Entry>, fallback: LevelTexts, question: string, level: ReadingLevel)
    requires forall j :: 0 <= j < |table| ==> !KeyIn(Normalize(question), table[j])
    ensures Answer(table, fallback, question, level) == PickText(fallback, level)
  {
  }

  /** A question whose trimmed form is shorter than every key gets the fallback. */
  lemma AnswerShortQuestion(table: seq<Entry>, fallback: LevelTexts, question: string, level: ReadingLevel, n: nat)
    requires forall j :: 0 <= j < |table| ==> |table[j].key| >= n
    requires |Trim(question)| < n
    ensures Answer(table, fallback, question, level) == PickText(fallback, level)
  {
    forall j | 0 <= j < |table|
      ensures !KeyIn(Normalize(question), table[j])
    {
      LongerNotIncluded(Normalize(question), ToLower(table[j].key));
    }
    AnswerNoMatch(table, fallback, question, level);
  }

  /** A question that contains some key is answered from that entry or an earlier one. */
  lemma AnswerEmbeddedKey(table: seq<Entry>, fallback: LevelTexts, question: string, level: ReadingLevel, i: nat)
    requires i < |table| && KeyIn(Normalize(question), table[i])
    ensures exists m :: 0 <= m <= i && Answer(table, fallback, question, level) == PickText(table[m].answers, level)
  {
    var r := FirstMatch(table, Normalize(question));
    assert r.Some? && r.value <= i;
    assert Answer(table, fallback, question, level) == PickText(table[r.value].answers, level);
  }

  /** A whitespace-only question matches no non-empty key. */
  lemma AnswerBlank(table: seq<Entry>, fallback: LevelTexts, question: string, level: ReadingLevel)
    requires forall j :: 0 <= j < |table| ==> table[j].key != ""
    requires AllWhitespace(question)
    ensures Answer(table, fallback, question, level) == PickText(fallback, level)
  {
    var pre, post := TrimDecompose(question);
    assert Normalize(question) == [];
    forall j | 0 <= j < |table|
      ensures !KeyIn(Normalize(question), table[j])
    {
      LongerNotIncluded([], ToLower(table[j].key));
    }
  }

  /** No lower-cased key contains the lower-cased form of an earlier key. */
  predicate Unshadowed(keys: seq<string>)
  {
    forall i, j :: 0 <= j < i < |keys| ==> !Includes(ToLower(keys[i]), ToLower(keys[j]))
  }

  /** A trimmed question normalises to its lower-casing. */
  lemma NormalizeTrimmed(q: string)
    requires Trimmed(q)
    ensures Normalize(q) == ToLower(q)
  {
    assert TrimStart(q) == q;
    assert Trim(q) == TrimEnd(q) == q;
  }

  /**
   * When no key contains an earlier one, every key, in any casing and with any
   * outer whitespace, is answered from its own entry.
   */
  lemma AnswerCanonicalKey(table: seq<Entry>, fallback: LevelTexts, pre: string, variant: string, post: string, i: nat, level: ReadingLevel)
    requires i < |table| && Trimmed(table[i].key)
    requires forall j :: 0 <= j < i ==> !Includes(ToLower(table[i].key), ToLower(table[j].key))
    requires AllWhitespace(pre) && AllWhitespace(post)
    requires ToLower(variant) == ToLower(table[i].key)
    ensures Answer(table, fallback, pre + variant + post, level) == PickText(table[i].answers, level)
  {
    var key := table[i].key;
    AnswerIgnoresCaseAndPadding(table, fallback, pre, variant, key, post, level);
    NormalizeTrimmed(key);
    IncludesSelf(ToLower(key));
    AnswerFirstIncludedKey(table, fallback, key, level, i);
  }

  /** Characters that lower-case to a small letter `c` are `c` and its capital. */
  lemma LowerPreimage(c: char, upper: char)
    requires 'a' <= c <= 'z' && upper as int == c as int - 32
    ensures forall x :: LowerChar(x) == c ==> x == c || x == upper
  {
  }

  /** A shorter lower-cased key cannot contain a longer one. */
  lemma ShorterKey(hay: string, needle: string)
    requires |needle| > |hay|
    ensures !Includes(ToLower(hay), ToLower(needle))
  {
    LongerNotIncluded(ToLower(hay), ToLower(needle));
  }

  lemma FirstPlantKeyLacksQuestionMark()
    ensures '?' !in ToLower(KeyFirstPlant)
  {
    LowerMissing(KeyFirstPlant, '?', '?');
  }

  /** Key 2 has no question mark, while keys 0 and 1 end in one. */
  lemma FirstPlantKeyUnshadowed(needle: string)
    requires needle == KeyFissionDiscovered || needle == KeyManhattan
    ensures !Includes(ToLower(KeyFirstPlant), ToLower(needle))
  {
    assert ToLower(needle)[|needle| - 1] == '?';
    FirstPlantKeyLacksQuestionMark();
    MissingCharNotIncluded(ToLower(KeyFirstPlant), ToLower(needle), |needle| - 1);
  }

  lemma ThreeMileKeyLacksJ()
    ensures 'j' !in KeyThreeMile && 'J' !in KeyThreeMile
  {
  }

  lemma ScientistsKeyLacksJ()
    ensures 'j' !in KeyScientists && 'J' !in KeyScientists
  {
  }

  lemma LacksJ(hay: string)
    requires hay == KeyThreeMile || hay == KeyScientists
    ensures 'j' !in ToLower(hay)
  {
    ThreeMileKeyLacksJ();
    ScientistsKeyLacksJ();
    LowerPreimage('j', 'J');
    LowerMissing(hay, 'j', 'J');
  }

  /** The `j` of "Project" in key 1 occurs in neither key 3 nor key 4. */
  lemma ManhattanKeyNotIn(hay: string)
    requires hay == KeyThreeMile || hay == KeyScientists
    ensures !Includes(ToLower(hay), ToLower(KeyManhattan))
  {
    assert ToLower(KeyManhattan)[26] == 'j';
    LacksJ(hay);
    MissingCharNotIncluded(ToLower(hay), ToLower(KeyManhattan), 26);
  }

  lemma ScientistsKeyLacksF()
    ensures 'f' !in ToLower(KeyScientists)
  {
    assert 'f' !in KeyScientists && 'F' !in KeyScientists;
    LowerPreimage('f', 'F');
    LowerMissing(KeyScientists, 'f', 'F');
  }

  /** The `f` of "fission" in key 0 does not occur in key 4. */
  lemma ScientistsKeyLacksFission()
    ensures !Includes(ToLower(KeyScientists), ToLower(KeyFissionDiscovered))
  {
    assert ToLower(KeyFissionDiscovered)[17] == 'f';
    ScientistsKeyLacksF();
    MissingCharNotIncluded(ToLower(KeyScientists), ToLower(KeyFissionDiscovered), 17);
  }

  /** Key 4's only question mark is its last character. */
  lemma ScientistsKeyQuestionMarkLast()
    ensures var hay := ToLower(KeyScientists);
      |hay| == 51 && hay[50] == '?' && '?' !in hay[..50] && hay[49] == 't'
  {
    ToLowerConcat(KeyScientistsStem, "?");
    LowerMissing(KeyScientistsStem, '?', '?');
    assert ToLower(KeyScientists)[..50] == ToLower(KeyScientistsStem);
  }

  /**
   * Key 4's only question mark is its last character, so key 3 could only
   * occur as its suffix, and the two differ two characters before the end.
   */
  lemma ScientistsKeyLacksThreeMile()
    ensures !Includes(ToLower(KeyScientists), ToLower(KeyThreeMile))
  {
    var hay := ToLower(KeyScientists);
    var needle := ToLower(KeyThreeMile);
    ScientistsKeyQuestionMarkLast();
    assert |needle| == 35 && needle[34] == '?' && needle[33] == 'd';
    if Includes(hay, needle) {
      AnchoredAtEnd(hay, needle);
      assert false;
    }
  }

  /** No lower-cased key of the table contains an earlier lower-cased key. */
  lemma KeysUnshadowed()
    ensures Unshadowed(Keys)
  {
    forall i, j | 0 <= j < i < |Keys|
      ensures !Includes(ToLower(Keys[i]), ToLower(Keys[j]))
    {
      if i == 1 {
        ShorterKey(KeyManhattan, KeyFissionDiscovered);
      } else if i == 2 {
        FirstPlantKeyUnshadowed(Keys[j]);
      } else if i == 3 {
        if j == 0 {
          ShorterKey(KeyThreeMile, KeyFissionDiscovered);
        } else if j == 1 {
          ManhattanKeyNotIn(KeyThreeMile);
        } else {
          ShorterKey(KeyThreeMile, KeyFirstPlant);
        }
      } else if i == 4 {
        if j == 0 {
          ScientistsKeyLacksFission();
        } else if j == 1 {
          ManhattanKeyNotIn(KeyScientists);
        } else if j == 2 {
          ShorterKey(KeyScientists, KeyFirstPlant);
        } else {
          ScientistsKeyLacksThreeMile();
        }
      } else {
        ShorterKey(KeyWhatIsFission, Keys[j]);
      }
    }
  }

  /** Every key is non-empty and free of outer whitespace. */
  lemma KeysNonEmptyAndTrimmed()
    ensures forall i :: 0 <= i < |Keys| ==> Keys[i] != "" && Trimmed(Keys[i])
  {
  }

  /** The table's keys are `Keys`, and every answer text, in the table and in the fallback, is truthy. */
  lemma ResponsesShape()
    ensures |Responses| == |Keys| && forall i :: 0 <= i < |Responses| ==> Responses[i].key == Keys[i]
    ensures AllFilled(Responses, GenericResponses)
  {
  }

  /** `getNuclearHistory(question, { readingLevel: level })`: one of the canned texts. */
  function GetNuclearHistory(question: string, level: ReadingLevel): (answer: string)
    ensures answer == GenericResponses.For(level)
         || exists i :: 0 <= i < |Responses| && answer == Responses[i].answers.For(level)
  {
    ResponsesShape();
    Answer(Responses, GenericResponses, question, level)
  }

  /** Every canonical key, in any casing and with any outer whitespace, gets its own answer at the requested level. */
  lemma CanonicalKeyAnswersItself(pre: string, variant: string, post: string, i: nat, level: ReadingLevel)
    requires i < |Responses|
    requires AllWhitespace(pre) && AllWhitespace(post)
    requires ToLower(variant) == ToLower(Responses[i].key)
    ensures GetNuclearHistory(pre + variant + post, level) == Responses[i].answers.For(level)
  {
    ResponsesShape();
    KeysUnshadowed();
    KeysNonEmptyAndTrimmed();
    AnswerCanonicalKey(Responses, GenericResponses, pre, variant, post, i, level);
  }

  /** Each key asked exactly as written gets its own entry's text. */
  lemma KeyAnswersItself(i: nat, level: ReadingLevel)
    requires i < |Keys|
    ensures i < |Responses| && GetNuclearHistory(Keys[i], level) == Responses[i].answers.For(level)
  {
    ResponsesShape();
    var q := Keys[i];
    assert "" + q + "" == q;
    CanonicalKeyAnswersItself("", q, "", i, level);
  }

  /** A blank or whitespace-only question gets the generic answer for the level. */
  lemma BlankFallsBack(question: string, level: ReadingLevel)
    requires AllWhitespace(question)
    ensures GetNuclearHistory(question, level) == GenericResponses.For(level)
  {
    ResponsesShape();
    KeysNonEmptyAndTrimmed();
    AnswerBlank(Responses, GenericResponses, question, level);
  }

  /** Outer whitespace and letter case do not change the answer. */
  lemma IgnoresCaseAndPadding(pre: string, a: string, b: string, post: string, level: ReadingLevel)
    requires AllWhitespace(pre) && AllWhitespace(post)
    requires ToLower(a) == ToLower(b)
    ensures GetNuclearHistory(pre + a + post, level) == GetNuclearHistory(b, level)
  {
    AnswerIgnoresCaseAndPadding(Responses, GenericResponses, pre, a, b, post, level);
  }

  /** The first key, in table order, contained in the normalised question picks the answer for the level. */
  lemma FirstIncludedKeyWins(question: string, level: ReadingLevel, i: nat)
    requires i < |Responses| && KeyIn(Normalize(question), Responses[i])
    requires forall j :: 0 <= j < i ==> !KeyIn(Normalize(question), Responses[j])
    ensures GetNuclearHistory(question, level) == Responses[i].answers.For(level)
  {
    ResponsesShape();
    AnswerFirstIncludedKey(Responses, GenericResponses, question, level, i);
  }

  /** With no key contained in the normalised question, the generic answer for the level is given. */
  lemma NoMatchFallsBack(question: string, level: ReadingLevel)
    requires forall j :: 0 <= j < |Responses| ==> !KeyIn(Normalize(question), Responses[j])
    ensures GetNuclearHistory(question, level) == GenericResponses.For(level)
  {
    ResponsesShape();
    AnswerNoMatch(Responses, GenericResponses, question, level);
  }

  /**
    A key without outer whitespace that the raw question contains, in any
    letter case, is still contained in the normalised question: trimming
    cannot cut into it.
  */
  lemma RawEmbedNormalises(question: string, key: string)
    requires key != [] && Trimmed(key) && Includes(ToLower(question), ToLower(key))
    ensures Includes(Normalize(question), ToLower(key))
  {
    ToLowerKeepsWhitespace(key);
    IncludesInTrim(ToLower(question), ToLower(key));
    TrimToLowerCommute(question);
  }

  /**
    A raw question that contains key `i` anywhere, in any letter case, is
    answered from entry `i` or an earlier one, never by the fallback.
  */
  lemma EmbeddedKeyMatches(question: string, level: ReadingLevel, i: nat)
    requires i < |Responses| && Includes(ToLower(question), ToLower(Responses[i].key))
    ensures exists m :: 0 <= m <= i && GetNuclearHistory(question, level) == Responses[m].answers.For(level)
  {
    ResponsesShape();
    KeysNonEmptyAndTrimmed();
    RawEmbedNormalises(question, Responses[i].key);
    AnswerEmbeddedKey(Responses, GenericResponses, question, level, i);
    var m :| 0 <= m <= i && Answer(Responses, GenericResponses, question, level) == PickText(Responses[m].answers, level);
    assert Responses[m].answers.Filled();
  }

  /** A key written inside any longer text is answered from its entry or an earlier one. */
  lemma KeyInLongerTextMatches(pre: string, post: string, level: ReadingLevel, i: nat)
    requires i < |Responses|
    ensures exists m :: 0 <= m <= i && GetNuclearHistory(pre + Responses[i].key + post, level) == Responses[m].answers.For(level)
  {
    var key := Responses[i].key;
    ToLowerConcat(pre + key, post);
    ToLowerConcat(pre, key);
    IncludesInfix(ToLower(pre), ToLower(key), ToLower(post));
    EmbeddedKeyMatches(pre + key + post, level, i);
  }

  /** The shortest key, "What is nuclear fission?", has 24 characters. */
  lemma KeysAtLeast24()
    ensures forall i :: 0 <= i < |Keys| ==> |Keys[i]| >= 24
  {
  }

  /** The same bound, read off the table's entries. */
  lemma ResponseKeysAtLeast24()
    ensures forall j :: 0 <= j < |Responses| ==> |Responses[j].key| >= 24
  {
    ResponsesShape();
    KeysAtLeast24();
  }

  /** A question shorter than every key once trimmed, such as "Hello", gets the generic answer. */
  lemma ShortQuestionFallsBack(question: string, level: ReadingLevel)
    requires |Trim(question)| < 24
    ensures GetNuclearHistory(question, level) == GenericResponses.For(level)
  {
    ResponseKeysAtLeast24();
    AnswerShortQuestion(Responses, GenericResponses, question, level, 24);
    assert GenericResponses.Filled();
  }
}
