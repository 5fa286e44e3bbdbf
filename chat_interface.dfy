// The chat panel: an append-only message log, the text box, the two voice
// switches and the sample-question buttons. A send appends the user's text
// at once and schedules a placeholder reply, which arrives later as a
// separate step. Message ids and timestamps are not modelled.

module Chat {
  import opened JsString
  import opened OpenAiService
  import opened ReadingLevels

  datatype Sender = User | System

  /** A message of the log: who wrote it and its text. */
  datatype Message = Message(sender: Sender, text: string)

  const WelcomeText: string :=
    "Welcome to the Nuclear History Chat! Ask me any question about the history of nuclear fission and energy in the United States."

  /** The log on mount. */
  const WelcomeLog: seq<Message> := [Message(System, WelcomeText)]

  /**
    The sample-question buttons. Each is one literal in the component; it is
    written in the same pieces as the matching key of the answer table, so
    that the two compare equal piece by piece rather than character by
    character.
  */
  const SampleQuestions: seq<string> := [
    "When was " + "nuclear " + "fission " + "discovered?",
    "What was " + "the " + "Manhattan " + "Project?",
    "Tell me " + "about " + "the first " + "nuclear " + "power " + "plant in " + "the US",
    "What " + "happened " + "at Three " + "Mile " + "Island?",
    "Who were " + "the key " + "scientists " + "in " + "nuclear " + "development" + "?"
  ]

  /** The sample questions are the first five keys of the answer table, in order. */
  lemma SampleQuestionsAreKeys()
    ensures |SampleQuestions| == 5 && SampleQuestions == Keys[..5]
  {
  }

  /** `inputValue.trim() !== ''`: the text box holds something besides whitespace. */
  predicate CanSend(input: string)
  {
    Trim(input) != ""
  }

  /** Only whitespace-only input (including the empty string) is refused. */
  lemma CanSendIffNotBlank(input: string)
    ensures CanSend(input) <==> !AllWhitespace(input)
  {
    TrimEmptyIffBlank(input);
  }

  const ReplyOpening: string := "This is a placeholder response to your question about \""
  const ReplyClosing: string :=
    "\". In the complete application, this would be an AI-generated response based on the nuclear history timeline and additional knowledge sources."

  /** The placeholder reply to a sent text. */
  function ReplyText(sent: string): (r: string)
    ensures ReplyOpening <= r
  {
    ReplyOpening + sent + ReplyClosing
  }

  /** The reply quotes the sent text, untrimmed, after a fixed opening. */
  lemma ReplyQuotesSentText(sent: string)
    ensures |ReplyText(sent)| == |ReplyOpening| + |sent| + |ReplyClosing|
    ensures ReplyText(sent)[|ReplyOpening|..|ReplyOpening| + |sent|] == sent
    ensures ReplyText(sent)[|ReplyOpening| + |sent|..] == ReplyClosing
    ensures Includes(ReplyText(sent), sent)
  {
    var r := ReplyText(sent);
    var n := |ReplyOpening|;
    assert r[n..n + |sent|] == sent;
    assert r[n + |sent|..] == ReplyClosing;
    assert OccursAt(r, sent, n);
  }

  /** Different sent texts get different replies. */
  lemma ReplyTextInjective(a: string, b: string)
    requires ReplyText(a) == ReplyText(b)
    ensures a == b
  {
    ReplyQuotesSentText(a);
    ReplyQuotesSentText(b);
  }

  /** The number of messages of `s` from `who`. */
  function Count(s: seq<Message>, who: Sender): (n: nat)
    ensures n <= |s|
    decreases |s|
  {
    if s == [] then 0 else (if s[|s| - 1].sender == who then 1 else 0) + Count(s[..|s| - 1], who)
  }

  lemma CountAppend(s: seq<Message>, m: Message, who: Sender)
    ensures Count(s + [m], who) == Count(s, who) + (if m.sender == who then 1 else 0)
  {
    assert (s + [m])[..|s|] == s;
  }

  /**
   * The log starts with the welcome message; every user message and every
   * pending reply holds a sendable text; and each user message has either had
   * its reply appended or has one pending.
   */
  predicate Consistent(messages: seq<Message>, pending: seq<string>)
  {
    && |messages| >= 1 && messages[0] == Message(System, WelcomeText)
    && (forall i :: 0 <= i < |messages| && messages[i].sender == User ==> CanSend(messages[i].text))
    && (forall i :: 0 <= i < |pending| ==> CanSend(pending[i]))
    && Count(messages, User) == Count(messages, System) - 1 + |pending|
  }

  /** The log on mount is consistent, with nothing pending. */
  lemma WelcomeLogConsistent()
    ensures Consistent(WelcomeLog, [])
  {
    assert WelcomeLog[..0] == [];
  }

  /** Sending a sendable text keeps the log consistent. */
  lemma SendKeepsConsistent(messages: seq<Message>, pending: seq<string>, sent: string)
    requires Consistent(messages, pending) && CanSend(sent)
    ensures Consistent(messages + [Message(User, sent)], pending + [sent])
  {
    var m := Message(User, sent);
    CountAppend(messages, m, User);
    CountAppend(messages, m, System);
    var messages' := messages + [m];
    forall i | 0 <= i < |messages'| && messages'[i].sender == User
      ensures CanSend(messages'[i].text)
    {
      if i < |messages| {
        assert messages'[i] == messages[i];
      }
    }
    var pending' := pending + [sent];
    forall i | 0 <= i < |pending'| ensures CanSend(pending'[i]) {
      if i < |pending| {
        assert pending'[i] == pending[i];
      }
    }
  }

  /** Delivering the oldest pending reply keeps the log consistent. */
  lemma ReplyKeepsConsistent(messages: seq<Message>, pending: seq<string>)
    requires Consistent(messages, pending) && pending != []
    ensures Consistent(messages + [Message(System, ReplyText(pending[0]))], pending[1..])
  {
    var m := Message(System, ReplyText(pending[0]));
    CountAppend(messages, m, User);
    CountAppend(messages, m, System);
    var messages' := messages + [m];
    forall i | 0 <= i < |messages'| && messages'[i].sender == User
      ensures CanSend(messages'[i].text)
    {
      assert i < |messages| && messages'[i] == messages[i];
    }
    var pending' := pending[1..];
    forall i | 0 <= i < |pending'| ensures CanSend(pending'[i]) {
      assert pending'[i] == pending[i + 1];
    }
  }

  /** The log state between renders. */
  class ChatLog {
    var messages: seq<Message>
    var inputValue: string
    var isVoiceEnabled: bool
    var isVoiceInputActive: bool
    /** The texts captured by the reply timers that have not fired yet, oldest first. */
    var pendingReplies: seq<string>

    ghost predicate Valid()
      reads this
    {
      Consistent(messages, pendingReplies)
    }

    constructor ()
      ensures Valid()
      ensures messages == WelcomeLog && inputValue == ""
      ensures !isVoiceEnabled && !isVoiceInputActive && pendingReplies == []
    {
      messages := WelcomeLog;
      inputValue := "";
      isVoiceEnabled := false;
      isVoiceInputActive := false;
      pendingReplies := [];
      WelcomeLogConsistent();
    }

    /** The text box's `onChange`. */
    method SetInput(text: string)
      requires Valid()
      modifies this
      ensures Valid() && inputValue == text
      ensures messages == old(messages) && pendingReplies == old(pendingReplies)
      ensures isVoiceEnabled == old(isVoiceEnabled) && isVoiceInputActive == old(isVoiceInputActive)
    {
      inputValue := text;
    }

    /** The Send button's `disabled`. */
    function SendDisabled(): (disabled: bool)
      reads this
      ensures disabled <==> AllWhitespace(inputValue)
    {
      CanSendIffNotBlank(inputValue);
      !CanSend(inputValue)
    }

    /**
     * `handleSend`: blank input changes nothing; otherwise the raw input is
     * appended as a user message, the box is cleared and a reply is scheduled
     * with the text as it was before clearing.
     */
    method HandleSend()
      requires Valid()
      modifies this
      ensures Valid()
      ensures !CanSend(old(inputValue)) ==>
        messages == old(messages) && inputValue == old(inputValue) && pendingReplies == old(pendingReplies)
      ensures CanSend(old(inputValue)) ==>
        && messages == old(messages) + [Message(User, old(inputValue))]
        && inputValue == ""
        && pendingReplies == old(pendingReplies) + [old(inputValue)]
      ensures isVoiceEnabled == old(isVoiceEnabled) && isVoiceInputActive == old(isVoiceInputActive)
    {
      if Trim(inputValue) == "" {
        return;
      }
      var sent := inputValue;
      SendKeepsConsistent(messages, pendingReplies, sent);
      messages := messages + [Message(User, sent)];
      inputValue := "";
      pendingReplies := pendingReplies + [sent];
    }

    /** The oldest reply timer fires: its placeholder reply is appended. */
    method DeliverReply()
      requires Valid()
      modifies this
      ensures Valid()
      ensures old(pendingReplies) == [] ==> messages == old(messages) && pendingReplies == []
      ensures old(pendingReplies) != [] ==>
        && messages == old(messages) + [Message(System, ReplyText(old(pendingReplies)[0]))]
        && pendingReplies == old(pendingReplies)[1..]
      ensures inputValue == old(inputValue)
      ensures isVoiceEnabled == old(isVoiceEnabled) && isVoiceInputActive == old(isVoiceInputActive)
    {
      if pendingReplies == [] {
        return;
      }
      var reply := Message(System, ReplyText(pendingReplies[0]));
      ReplyKeepsConsistent(messages, pendingReplies);
      messages := messages + [reply];
      pendingReplies := pendingReplies[1..];
    }

    /** `handleKeyDown`: Enter without Shift sends; the result says whether the default was prevented. */
    method HandleKeyDown(key: string, shiftKey: bool) returns (prevented: bool)
      requires Valid()
      modifies this
      ensures Valid()
      ensures prevented <==> key == "Enter" && !shiftKey
      ensures !(prevented && CanSend(old(inputValue))) ==>
        messages == old(messages) && inputValue == old(inputValue) && pendingReplies == old(pendingReplies)
      ensures prevented && CanSend(old(inputValue)) ==>
        && messages == old(messages) + [Message(User, old(inputValue))]
        && inputValue == ""
        && pendingReplies == old(pendingReplies) + [old(inputValue)]
      ensures isVoiceEnabled == old(isVoiceEnabled) && isVoiceInputActive == old(isVoiceInputActive)
    {
      prevented := key == "Enter" && !shiftKey;
      if prevented {
        HandleSend();
      }
    }

    /** `toggleVoiceOutput`. */
    method ToggleVoiceOutput()
      requires Valid()
      modifies this
      ensures Valid() && isVoiceEnabled == !old(isVoiceEnabled)
      ensures messages == old(messages) && inputValue == old(inputValue) && pendingReplies == old(pendingReplies)
      ensures isVoiceInputActive == old(isVoiceInputActive)
    {
      isVoiceEnabled := !isVoiceEnabled;
    }

    /** `toggleVoiceInput`; the speech recogniser it would start or stop is not modelled. */
    method ToggleVoiceInput()
      requires Valid()
      modifies this
      ensures Valid() && isVoiceInputActive == !old(isVoiceInputActive)
      ensures messages == old(messages) && inputValue == old(inputValue) && pendingReplies == old(pendingReplies)
      ensures isVoiceEnabled == old(isVoiceEnabled)
    {
      isVoiceInputActive := !isVoiceInputActive;
    }

    /** `useSampleQuestion`: fills the text box without sending. */
    method UseSampleQuestion(question: string)
      requires Valid()
      modifies this
      ensures Valid() && inputValue == question
      ensures messages == old(messages) && pendingReplies == old(pendingReplies)
      ensures isVoiceEnabled == old(isVoiceEnabled) && isVoiceInputActive == old(isVoiceInputActive)
    {
      inputValue := question;
    }
  }

  /** Every sample question passes the send guard. */
  lemma SampleQuestionSendable(k: nat)
    requires k < |SampleQuestions|
    ensures CanSend(SampleQuestions[k])
  {
    SampleQuestionsAreKeys();
    KeysNonEmptyAndTrimmed();
    assert SampleQuestions[k] == Keys[k];
    CanSendIffNotBlank(SampleQuestions[k]);
  }

  /**
   * The matcher, given a sample question at any level, returns the answer
   * filed under that question. The chat's own reply is the placeholder text
   * and does not consult the matcher.
   */
  lemma SampleQuestionGetsItsAnswer(k: nat, level: ReadingLevel)
    requires k < |SampleQuestions|
    ensures GetNuclearHistory(SampleQuestions[k], level) == Responses[k].answers.For(level)
  {
    SampleQuestionsAreKeys();
    assert SampleQuestions[k] == Keys[k];
    KeyAnswersItself(k, level);
  }

  /**
   * A sample question followed by Send: the question goes into the log as a
   * user message, and the reply that follows quotes it.
   */
  method SampleQuestionRoundTrip(log: ChatLog, k: nat)
    requires log.Valid() && k < |SampleQuestions|
    modifies log
    ensures log.Valid()
    ensures log.messages == old(log.messages) + [Message(User, SampleQuestions[k])]
    ensures log.pendingReplies == old(log.pendingReplies) + [SampleQuestions[k]]
    ensures log.inputValue == ""
  {
    var q := SampleQuestions[k];
    SampleQuestionSendable(k);
    log.UseSampleQuestion(q);
    log.HandleSend();
  }

  /** Toggling a voice switch twice restores it. */
  method ToggleTwiceRestores(log: ChatLog)
    requires log.Valid()
    modifies log
    ensures log.Valid()
    ensures log.isVoiceEnabled == old(log.isVoiceEnabled) && log.isVoiceInputActive == old(log.isVoiceInputActive)
    ensures log.messages == old(log.messages) && log.inputValue == old(log.inputValue)
    ensures log.pendingReplies == old(log.pendingReplies)
  {
    log.ToggleVoiceOutput();
    log.ToggleVoiceOutput();
    log.ToggleVoiceInput();
    log.ToggleVoiceInput();
  }
}
