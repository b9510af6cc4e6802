/**
 * The state of the chat widget (`ChatWidget` in src/App.jsx): the open flag,
 * the input field, the transcript, and the replies whose 600 ms timers have
 * not fired yet. `Send` is the form's submit handler `handleSend`, `Deliver`
 * is one timer callback firing.
 */
module Chat {
  import opened Wrappers
  import opened Text
  import opened Replies

  /** The texts of the user's entries, in transcript order. */
  function UserTexts(ms: seq<Message>): seq<string> {
    if ms == [] then []
    else
      var last := ms[|ms| - 1];
      UserTexts(ms[..|ms| - 1]) + (if last.sender == User then [last.text] else [])
  }

  /** The bot's entries, in transcript order. */
  function BotMessages(ms: seq<Message>): seq<Message> {
    if ms == [] then []
    else
      var last := ms[|ms| - 1];
      BotMessages(ms[..|ms| - 1]) + (if last.sender == Bot then [last] else [])
  }

  /** The replies `handleSend` computes for a sequence of inputs, in order. */
  function RepliesTo(inputs: seq<string>): (r: seq<Message>)
    ensures |r| == |inputs|
  {
    if inputs == [] then [] else RepliesTo(inputs[..|inputs| - 1]) + [Respond(inputs[|inputs| - 1])]
  }

  lemma UserTextsAppend(ms: seq<Message>, m: Message)
    ensures UserTexts(ms + [m]) == UserTexts(ms) + (if m.sender == User then [m.text] else [])
  {
    assert (ms + [m])[..|ms|] == ms;
  }

  lemma BotMessagesAppend(ms: seq<Message>, m: Message)
    ensures BotMessages(ms + [m]) == BotMessages(ms) + (if m.sender == Bot then [m] else [])
  {
    assert (ms + [m])[..|ms|] == ms;
  }

  /** Reply `k` is the response to input `k`. */
  lemma {:induction false} RepliesToAt(inputs: seq<string>, k: int)
    requires 0 <= k < |inputs|
    ensures RepliesTo(inputs)[k] == Respond(inputs[k])
  {
    if k < |inputs| - 1 {
      RepliesToAt(inputs[..|inputs| - 1], k);
    }
  }

  /**
   * No prefix of the transcript holds more replies than questions: a reply
   * never appears before the input it answers.
   */
  ghost predicate RepliesFollowInputs(ms: seq<Message>) {
    forall n | 0 <= n <= |ms| :: |BotMessages(ms[..n])| <= |UserTexts(ms[..n])|
  }

  /**
   * The bookkeeping of the widget, for a given list `expected` of the replies
   * owed to the accepted inputs `sent`: the transcript starts with the
   * welcome message; after it, the user's entries are the accepted inputs,
   * untrimmed and without a link; the bot's entries followed by the pending
   * replies are exactly `expected`, one bot message per input; and no reply
   * comes before its input.
   */
  ghost predicate Transcript(messages: seq<Message>, pending: seq<Message>, sent: seq<string>, expected: seq<Message>) {
    && |messages| >= 1
    && messages[0] == Welcome
    && UserTexts(messages[1..]) == sent
    && BotMessages(messages[1..]) + pending == expected
    && |expected| == |sent|
    && (forall k | 0 <= k < |expected| :: expected[k].sender == Bot)
    && RepliesFollowInputs(messages[1..])
    && (forall k | 0 <= k < |messages| :: messages[k].sender == User ==> messages[k].link == None)
    && (forall k | 0 <= k < |sent| :: !IsBlank(sent[k]))
  }

  /** The widget's state is consistent when the replies owed are the responses to the inputs. */
  ghost predicate Consistent(messages: seq<Message>, pending: seq<Message>, sent: seq<string>) {
    Transcript(messages, pending, sent, RepliesTo(sent))
  }

  lemma InitialConsistent()
    ensures Consistent([Welcome], [], [])
  {
    assert [Welcome][1..] == [];
    assert forall n | 0 <= n <= 0 :: [Welcome][1..][..n] == [];
  }

  /** Accepting a non-blank input appends its entry and owes one more bot reply. */
  lemma SendKeepsTranscript(
    messages: seq<Message>, pending: seq<Message>, sent: seq<string>, expected: seq<Message>,
    input: string, reply: Message)
    requires Transcript(messages, pending, sent, expected) && !IsBlank(input) && reply.sender == Bot
    ensures Transcript(messages + [Message(input, User, None)], pending + [reply], sent + [input], expected + [reply])
  {
    var m := Message(input, User, None);
    AppendKeepsOrder(messages[1..], m);
    assert (messages + [m])[1..] == messages[1..] + [m];
    UserTextsAppend(messages[1..], m);
    BotMessagesAppend(messages[1..], m);
  }

  lemma SendKeepsConsistent(messages: seq<Message>, pending: seq<Message>, sent: seq<string>, input: string)
    requires Consistent(messages, pending, sent) && !IsBlank(input)
    ensures Consistent(messages + [Message(input, User, None)], pending + [Respond(input)], sent + [input])
  {
    SendKeepsTranscript(messages, pending, sent, RepliesTo(sent), input, Respond(input));
    assert (sent + [input])[..|sent|] == sent;
  }

  /** Delivering the oldest pending reply moves it into the transcript. */
  lemma DeliverKeepsTranscript(messages: seq<Message>, pending: seq<Message>, sent: seq<string>, expected: seq<Message>)
    requires Transcript(messages, pending, sent, expected) && pending != []
    ensures Transcript(messages + [pending[0]], pending[1..], sent, expected)
  {
    var body := messages[1..];
    var reply := pending[0];
    var shown := BotMessages(body);
    assert reply == expected[|shown|];
    AppendKeepsOrder(body, reply);
    assert (messages + [reply])[1..] == body + [reply];
    UserTextsAppend(body, reply);
    BotMessagesAppend(body, reply);
    assert (shown + [reply]) + pending[1..] == shown + pending;
  }

  /**
   * The reply `handleSend` builds, step by step as the handler does: start
   * from the fallback and overwrite it at the first keyword group that
   * matches the lower-cased input.
   */
  method ComposeReply(input: string) returns (botResponse: Message)
    ensures botResponse == Respond(input)
  {
    var lowerInput := Lower(input);
    botResponse := Message(FallbackText, Bot, None);
    if AnyWord(lowerInput, GreetingWords) {
      botResponse := botResponse.(text := GreetingText);
    } else if AnyWord(lowerInput, PhoneWords) {
      botResponse := botResponse.(text := PhoneText);
    } else if AnyWord(lowerInput, WhatsAppWords) {
      botResponse := botResponse.(text := WhatsAppText);
    } else if AnyWord(lowerInput, EmailWords) {
      botResponse := botResponse.(text := EmailText);
    } else if AnyWord(lowerInput, LocationWords) {
      botResponse := Message(LocationText, Bot, Some(MapsLink));
    }
  }

  class ChatWidget {
    var isOpen: bool
    var input: string
    var messages: seq<Message>
    /** The replies scheduled by `Send` whose timers have not fired, oldest first. */
    var pending: seq<Message>
    /** The inputs `Send` has accepted so far. */
    ghost var sent: seq<string>

    ghost predicate Valid()
      reads this
    {
      Consistent(messages, pending, sent)
    }

    constructor ()
      ensures Valid()
      ensures !isOpen && input == "" && messages == [Welcome] && pending == [] && sent == []
    {
      isOpen := false;
      input := "";
      messages := [Welcome];
      pending := [];
      sent := [];
      InitialConsistent();
    }

    /** The launcher button: `setIsOpen(!isOpen)`. */
    method Toggle()
      requires Valid()
      modifies this
      ensures Valid()
      ensures isOpen == !old(isOpen)
      ensures input == old(input) && messages == old(messages) && pending == old(pending) && sent == old(sent)
    {
      isOpen := !isOpen;
    }

    /** The input field's change handler: `setInput(e.target.value)`. */
    method Edit(text: string)
      requires Valid()
      modifies this
      ensures Valid()
      ensures input == text
      ensures isOpen == old(isOpen) && messages == old(messages) && pending == old(pending) && sent == old(sent)
    {
      input := text;
    }

    /**
     * `handleSend`: blank input (empty after trimming) is ignored; otherwise
     * the untrimmed input is appended as the user's entry, its reply is
     * scheduled behind the replies already waiting, and the field is cleared.
     */
    method Send()
      requires Valid()
      modifies this
      ensures Valid()
      ensures isOpen == old(isOpen)
      ensures IsBlank(old(input)) ==>
        input == old(input) && messages == old(messages) && pending == old(pending) && sent == old(sent)
      ensures !IsBlank(old(input)) ==>
        && messages == old(messages) + [Message(old(input), User, None)]
        && pending == old(pending) + [Respond(old(input))]
        && input == ""
        && sent == old(sent) + [old(input)]
    {
      var text := input;
      var empty := TrimsToEmpty(text);
      if empty {
        return;
      }
      var userMessage := Message(text, User, None);
      var botResponse := ComposeReply(text);
      SendKeepsConsistent(messages, pending, sent, text);
      messages, pending, sent, input := messages + [userMessage], pending + [botResponse], sent + [text], "";
    }

    /** One reply timer fires: the oldest pending reply joins the transcript. */
    method Deliver()
      requires Valid() && pending != []
      modifies this
      ensures Valid()
      ensures messages == old(messages) + [old(pending)[0]]
      ensures pending == old(pending)[1..]
      ensures isOpen == old(isOpen) && input == old(input) && sent == old(sent)
    {
      DeliverKeepsTranscript(messages, pending, sent, RepliesTo(sent));
      messages := messages + [pending[0]];
      pending := pending[1..];
    }
  }

  /**
   * Appending one entry keeps every earlier prefix as it was; the whole new
   * transcript keeps order if it has no more replies than questions.
   */
  lemma AppendKeepsOrder(ms: seq<Message>, m: Message)
    requires RepliesFollowInputs(ms)
    requires m.sender == User || |BotMessages(ms)| < |UserTexts(ms)|
    ensures RepliesFollowInputs(ms + [m])
  {
    var t := ms + [m];
    forall n | 0 <= n <= |t|
      ensures |BotMessages(t[..n])| <= |UserTexts(t[..n])|
    {
      if n <= |ms| {
        assert t[..n] == ms[..n];
      } else {
        assert t[..n] == ms + [m];
        assert ms[..|ms|] == ms;
        UserTextsAppend(ms, m);
        BotMessagesAppend(ms, m);
      }
    }
  }

  /** In a consistent transcript the k-th reply shown answers the k-th accepted input. */
  lemma ShownRepliesAnswerInputs(messages: seq<Message>, pending: seq<Message>, sent: seq<string>)
    requires Consistent(messages, pending, sent)
    ensures |BotMessages(messages[1..])| <= |sent|
    ensures forall k | 0 <= k < |BotMessages(messages[1..])| ::
      BotMessages(messages[1..])[k] == Respond(sent[k])
  {
    var shown := BotMessages(messages[1..]);
    forall k | 0 <= k < |shown| ensures shown[k] == Respond(sent[k]) {
      assert shown[k] == (shown + pending)[k];
      RepliesToAt(sent, k);
    }
  }

  /** Once every timer has fired, each accepted input has its reply in the transcript. */
  lemma QuiescentTranscriptComplete(messages: seq<Message>, sent: seq<string>)
    requires Consistent(messages, [], sent)
    ensures BotMessages(messages[1..]) == RepliesTo(UserTexts(messages[1..]))
  {
    assert BotMessages(messages[1..]) + [] == BotMessages(messages[1..]);
  }

  /**
   * A short session: a blank input is ignored, "hello, email?" is sent and
   * greeted once its timer fires.
   */
  method Session(blank: string, question: string) returns (transcript: seq<Message>, field: string)
    requires blank == "   " && question == "hello, email?"
    ensures transcript == [Welcome, Message(question, User, None), Message(GreetingText, Bot, None)]
    ensures field == ""
  {
    var w := new ChatWidget();
    w.Toggle();
    w.Edit(blank);
    w.Send();
    assert w.messages == [Welcome] && w.pending == [];
    w.Edit(question);
    assert !IsBlank(question) by {
      assert !IsSpace(question[0]);
    }
    w.Send();
    assert w.pending == [Respond(question)];
    ExampleHelloEmail(question);
    w.Deliver();
    transcript, field := w.messages, w.input;
  }
}
