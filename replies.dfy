/**
 * The chat widget's auto-responder: the keyword classification and the reply
 * texts of `ChatWidget.handleSend`.
 */
module Replies {
  import opened Wrappers
  import opened Text

  datatype Sender = User | Bot

  /** One transcript entry: the text, who sent it, and the optional map link. */
  datatype Message = Message(text: string, sender: Sender, link: Option<string>)

  /** What the auto-responder recognised in the input. */
  datatype Intent = Greeting | Phone | WhatsApp | Email | Location | Fallback

  type Keyword = w: string | IsKeyword(w) witness "a"

  const GreetingWords: seq<Keyword> := ["hi", "hello", "hey", "greetings", "namaste"]
  const PhoneWords: seq<Keyword> := ["phone", "call", "mobile", "number", "contact"]
  const WhatsAppWords: seq<Keyword> := ["whatsapp"]
  const EmailWords: seq<Keyword> := ["mail", "email", "gmail"]
  const LocationWords: seq<Keyword> := ["location", "map", "address", "where"]

  /** The pattern /\b(w1|w2|...)\b/ matches: some alternative matches as a whole word. */
  predicate AnyWord(s: string, words: seq<Keyword>) {
    exists k | 0 <= k < |words| :: WordMatch(s, words[k])
  }

  /** The if/else chain of `handleSend`, tested on the lower-cased input. */
  function Classify(input: string): Intent {
    var lower := Lower(input);
    if AnyWord(lower, GreetingWords) then Greeting
    else if AnyWord(lower, PhoneWords) then Phone
    else if AnyWord(lower, WhatsAppWords) then WhatsApp
    else if AnyWord(lower, EmailWords) then Email
    else if AnyWord(lower, LocationWords) then Location
    else Fallback
  }

  // ---------------------------------------------------------------------------
  // Replies
  // ---------------------------------------------------------------------------

  /** The first entry of every transcript. */
  const Welcome: Message := Message("Hi! Ask me for Phone, WhatsApp, Email, or Location.", Bot, None)

  const MapsLink: string := "https://www.google.com/maps/search/?api=1&query=123+Career+Tower,+Education+Hub"

  const GreetingText: string := "Hello! Welcome to One Stop Career. How can I assist you today?"
  const PhoneText: string := "You can call us at: +91 95637 93988"
  const WhatsAppText: string := "Chat with us on WhatsApp: +91 95637 93988"
  const EmailText: string := "Email us at: info@onestopcareer.com"
  const LocationText: string := "We are located at 123 Career Tower, Education Hub. Click below for the map:"
  const FallbackText: string :=
    "I'm sorry, I can only provide contact details. Try asking for 'phone', 'email', 'whatsapp', or 'location'."

  /** The bot message for each intent; only the location reply carries a link. */
  function Reply(i: Intent): (m: Message)
    ensures m.sender == Bot
    ensures m.link.Some? <==> i == Location
    ensures m.link.Some? ==> m.link.value == MapsLink
  {
    match i
    case Greeting => Message(GreetingText, Bot, None)
    case Phone => Message(PhoneText, Bot, None)
    case WhatsApp => Message(WhatsAppText, Bot, None)
    case Email => Message(EmailText, Bot, None)
    case Location => Message(LocationText, Bot, Some(MapsLink))
    case Fallback => Message(FallbackText, Bot, None)
  }

  /** The reply `handleSend` schedules for an input. */
  function Respond(input: string): Message {
    Reply(Classify(input))
  }

  // ---------------------------------------------------------------------------
  // The ordered table of keyword groups
  // ---------------------------------------------------------------------------

  /** One row of the table: the intent and its alternatives. */
  datatype Rule = Rule(intent: Intent, words: seq<Keyword>)

  /** The keyword groups in the order `handleSend` tests them. */
  const Rules: seq<Rule> := [
    Rule(Greeting, GreetingWords),
    Rule(Phone, PhoneWords),
    Rule(WhatsApp, WhatsAppWords),
    Rule(Email, EmailWords),
    Rule(Location, LocationWords)
  ]

  /** The index of the first rule whose group matches, or |rules| when none does. */
  function FirstRule(s: string, rules: seq<Rule>): (k: nat)
    ensures k <= |rules|
    ensures k < |rules| ==> AnyWord(s, rules[k].words)
    ensures forall j | 0 <= j < k :: !AnyWord(s, rules[j].words)
  {
    if rules == [] then 0
    else if AnyWord(s, rules[0].words) then 0
    else
      var k := 1 + FirstRule(s, rules[1..]);
      assert forall j | 1 <= j < k :: rules[j] == rules[1..][j - 1];
      k
  }

  /** Table-driven classification of an already lower-cased string: first match wins. */
  function ClassifyByRules(lower: string, rules: seq<Rule>): Intent {
    var k := FirstRule(lower, rules);
    if k < |rules| then rules[k].intent else Fallback
  }

  /** The if/else chain is the table read top-down. */
  lemma ClassifyFollowsRules(input: string)
    ensures Classify(input) == ClassifyByRules(Lower(input), Rules)
  {
    var lower := Lower(input);
    var k := FirstRule(lower, Rules);
    assert Rules[0].words == GreetingWords && Rules[1].words == PhoneWords;
    assert Rules[2].words == WhatsAppWords && Rules[3].words == EmailWords;
    assert Rules[4].words == LocationWords;
    assert k == 0 || k == 1 || k == 2 || k == 3 || k == 4 || k == 5;
  }

  /** Rule `g` is chosen exactly when its group matches and no earlier group does. */
  lemma ClassifyPicksFirstMatch(input: string, g: nat)
    requires g < |Rules|
    ensures Classify(input) == Rules[g].intent
        <==> AnyWord(Lower(input), Rules[g].words)
             && forall j | 0 <= j < g :: !AnyWord(Lower(input), Rules[j].words)
  {
    ClassifyFollowsRules(input);
    var k := FirstRule(Lower(input), Rules);
    assert forall a, b | 0 <= a < b < |Rules| :: Rules[a].intent != Rules[b].intent;
  }

  /** The fallback is chosen exactly when none of the five groups matches. */
  lemma ClassifyFallbackIffNoMatch(input: string)
    ensures Classify(input) == Fallback
        <==> forall j | 0 <= j < |Rules| :: !AnyWord(Lower(input), Rules[j].words)
  {
    ClassifyFollowsRules(input);
    assert forall a | 0 <= a < |Rules| :: Rules[a].intent != Fallback;
  }

  /** Classification ignores letter case. */
  lemma ClassifyIgnoresCase(input: string)
    ensures Classify(Lower(input)) == Classify(input)
  {
    LowerIdempotent(input);
  }

  // ---------------------------------------------------------------------------
  // Classification by the words of the input
  // ---------------------------------------------------------------------------

  /** Some keyword of `group` is one of `runs`. */
  predicate Mentions(runs: seq<string>, group: seq<Keyword>) {
    exists k | 0 <= k < |group| :: group[k] in runs
  }

  /**
   * Reference classification of a list of lower-cased words, written out
   * keyword by keyword: the first group with a keyword among the words wins.
   */
  function ClassifyWords(runs: seq<string>): Intent {
    if "hi" in runs || "hello" in runs || "hey" in runs || "greetings" in runs || "namaste" in runs then Greeting
    else if "phone" in runs || "call" in runs || "mobile" in runs || "number" in runs || "contact" in runs then Phone
    else if "whatsapp" in runs then WhatsApp
    else if "mail" in runs || "email" in runs || "gmail" in runs then Email
    else if "location" in runs || "map" in runs || "address" in runs || "where" in runs then Location
    else Fallback
  }

  lemma MentionsGreeting(runs: seq<string>)
    ensures Mentions(runs, GreetingWords)
        <==> "hi" in runs || "hello" in runs || "hey" in runs || "greetings" in runs || "namaste" in runs
  {
    var g := GreetingWords;
    assert g[0] == "hi" && g[1] == "hello" && g[2] == "hey" && g[3] == "greetings" && g[4] == "namaste";
    if Mentions(runs, g) {
      var k :| 0 <= k < |g| && g[k] in runs;
      assert k == 0 || k == 1 || k == 2 || k == 3 || k == 4;
    }
  }

  lemma MentionsPhone(runs: seq<string>)
    ensures Mentions(runs, PhoneWords)
        <==> "phone" in runs || "call" in runs || "mobile" in runs || "number" in runs || "contact" in runs
  {
    var g := PhoneWords;
    assert g[0] == "phone" && g[1] == "call" && g[2] == "mobile" && g[3] == "number" && g[4] == "contact";
    if Mentions(runs, g) {
      var k :| 0 <= k < |g| && g[k] in runs;
      assert k == 0 || k == 1 || k == 2 || k == 3 || k == 4;
    }
  }

  lemma MentionsWhatsApp(runs: seq<string>)
    ensures Mentions(runs, WhatsAppWords) <==> "whatsapp" in runs
  {
    assert WhatsAppWords[0] == "whatsapp";
  }

  lemma MentionsEmail(runs: seq<string>)
    ensures Mentions(runs, EmailWords) <==> "mail" in runs || "email" in runs || "gmail" in runs
  {
    var g := EmailWords;
    assert g[0] == "mail" && g[1] == "email" && g[2] == "gmail";
    if Mentions(runs, g) {
      var k :| 0 <= k < |g| && g[k] in runs;
      assert k == 0 || k == 1 || k == 2;
    }
  }

  lemma MentionsLocation(runs: seq<string>)
    ensures Mentions(runs, LocationWords)
        <==> "location" in runs || "map" in runs || "address" in runs || "where" in runs
  {
    var g := LocationWords;
    assert g[0] == "location" && g[1] == "map" && g[2] == "address" && g[3] == "where";
    if Mentions(runs, g) {
      var k :| 0 <= k < |g| && g[k] in runs;
      assert k == 0 || k == 1 || k == 2 || k == 3;
    }
  }

  /** A group matches a joined string exactly when one of its keywords is one of the runs. */
  lemma AnyWordJoin(runs: seq<string>, seps: seq<char>, group: seq<Keyword>)
    requires |seps| + 1 == |runs| && AllWordStrings(runs) && AllSeparators(seps)
    ensures AnyWord(Join(runs, seps), group) <==> Mentions(runs, group)
  {
    forall k | 0 <= k < |group|
      ensures WordMatch(Join(runs, seps), group[k]) <==> group[k] in runs
    {
      MatchJoin(runs, seps, group[k]);
    }
  }

  /**
   * Whole-word classification of every input: the reply is decided by which
   * keywords are among the words of the lower-cased input.
   */
  lemma ClassifyAnyInput(input: string)
    ensures Classify(input) == ClassifyWords(Tokenize(Lower(input)).runs)
  {
    var t := Tokenize(Lower(input));
    AnyWordJoin(t.runs, t.seps, GreetingWords);
    AnyWordJoin(t.runs, t.seps, PhoneWords);
    AnyWordJoin(t.runs, t.seps, WhatsAppWords);
    AnyWordJoin(t.runs, t.seps, EmailWords);
    AnyWordJoin(t.runs, t.seps, LocationWords);
    MentionsGreeting(t.runs);
    MentionsPhone(t.runs);
    MentionsWhatsApp(t.runs);
    MentionsEmail(t.runs);
    MentionsLocation(t.runs);
  }

  /**
   * Whole-word classification: for an input made of word runs and separators,
   * the reply is decided by which keywords are among its lower-cased words.
   */
  lemma ClassifyByWords(runs: seq<string>, seps: seq<char>)
    requires |seps| + 1 == |runs| && AllWordStrings(runs) && AllSeparators(seps) && AllCaseless(seps)
    ensures Classify(Join(runs, seps)) == ClassifyWords(LowerAll(runs))
  {
    var lowered := LowerAll(runs);
    LowerJoin(runs, seps);
    LowerAllWordStrings(runs);
    AnyWordJoin(lowered, seps, GreetingWords);
    AnyWordJoin(lowered, seps, PhoneWords);
    AnyWordJoin(lowered, seps, WhatsAppWords);
    AnyWordJoin(lowered, seps, EmailWords);
    AnyWordJoin(lowered, seps, LocationWords);
    MentionsGreeting(lowered);
    MentionsPhone(lowered);
    MentionsWhatsApp(lowered);
    MentionsEmail(lowered);
    MentionsLocation(lowered);
  }

  /** The same, for an input whose words have no capitals. */
  lemma ClassifyByLowercaseWords(runs: seq<string>, seps: seq<char>)
    requires |seps| + 1 == |runs| && AllLowerWordStrings(runs) && AllSeparators(seps) && AllCaseless(seps)
    ensures Classify(Join(runs, seps)) == ClassifyWords(runs)
  {
    LowerAllKeepsLowercase(runs);
    ClassifyByWords(runs, seps);
  }

  /**
   * Reading off the class of one input from its words: `input` is the
   * lower-case runs `runs` joined by `seps`, and the reference classification
   * of the runs is `i`.
   */
  lemma ClassifiedByWords(input: string, runs: seq<string>, seps: seq<char>, i: Intent)
    requires |seps| + 1 == |runs| && AllLowerWordStrings(runs) && AllSeparators(seps) && AllCaseless(seps)
    requires input == Join(runs, seps) && ClassifyWords(runs) == i
    ensures Classify(input) == i
  {
    ClassifyByLowercaseWords(runs, seps);
  }

  // ---------------------------------------------------------------------------
  // Worked inputs. Each is passed in as a parameter equal to the literal, so
  // that the proof goes through the words of the input.
  // ---------------------------------------------------------------------------

  lemma ExampleHello(input: string)
    requires input == "hello"
    ensures Classify(input) == Greeting
  {
    ClassifiedByWords(input, ["hello"], [], Greeting);
  }

  /** Capitals are lowered before matching. */
  lemma ExampleCapitalHi(input: string)
    requires input == "Hi"
    ensures Classify(input) == Greeting
  {
    assert Lower(input) == "hi" by {
      assert input[1..] == "i";
      assert Lower(input) == LowerChar('H') + Lower(input[1..]);
    }
    ClassifyIgnoresCase(input);
    ClassifiedByWords(Lower(input), ["hi"], [], Greeting);
  }

  lemma ExampleWhatsApp(input: string)
    requires input == "whatsapp?"
    ensures Classify(input) == WhatsApp
  {
    ClassifiedByWords(input, ["whatsapp", ""], ['?'], WhatsApp);
  }

  /** The words of "what's your whatsapp?": the apostrophe splits off a run "s". */
  lemma WhatsYourWhatsAppWords(runs: seq<string>, seps: seq<char>)
    requires runs == ["what", "s", "your", "whatsapp", ""] && seps == ['\'', ' ', ' ', '?']
    ensures Join(runs, seps) == "what's your whatsapp?"
  {
    assert Join(runs[3..], seps[3..]) == "whatsapp?";
    assert Join(runs[2..], seps[2..]) == "your whatsapp?";
    assert Join(runs[1..], seps[1..]) == "s your whatsapp?";
  }

  /** An apostrophe is a word boundary: "what's your whatsapp?" asks for WhatsApp. */
  lemma ExampleWhatsYourWhatsAppLower(input: string)
    requires input == "what's your whatsapp?"
    ensures Classify(input) == WhatsApp
  {
    var runs := ["what", "s", "your", "whatsapp", ""];
    var seps := ['\'', ' ', ' ', '?'];
    assert AllLowerWordStrings(runs) && AllSeparators(seps) && AllCaseless(seps);
    assert ClassifyWords(runs) == WhatsApp;
    WhatsYourWhatsAppWords(runs, seps);
    ClassifiedByWords(input, runs, seps, WhatsApp);
  }

  /** The same question with capitals, as a visitor would type it. */
  lemma ExampleWhatsYourWhatsApp(input: string)
    requires input == "What's your WhatsApp?"
    ensures Classify(input) == WhatsApp
  {
    LowerByChars(input, "what's your whatsapp?");
    ClassifyIgnoresCase(input);
    ExampleWhatsYourWhatsAppLower(Lower(input));
  }

  /** "whatsapp" is tested after the phone words, so "number" wins. */
  lemma ExampleWhatsAppNumber(input: string)
    requires input == "whatsapp number"
    ensures Classify(input) == Phone
  {
    ClassifiedByWords(input, ["whatsapp", "number"], [' '], Phone);
  }

  /** The greeting is tested first, so it wins over "email". */
  lemma ExampleHelloEmail(input: string)
    requires input == "hello, email?"
    ensures Classify(input) == Greeting
  {
    ClassifiedByWords(input, ["hello", "", "email", ""], [',', ' ', '?'], Greeting);
  }

  /** The hyphen is a word boundary, so "mail" is found in "e-mail". */
  lemma ExampleHyphenatedMail(input: string)
    requires input == "e-mail"
    ensures Classify(input) == Email
  {
    ClassifiedByWords(input, ["e", "mail"], ['-'], Email);
  }

  /** Only the location reply carries the map link. */
  lemma ExampleWhere(input: string)
    requires input == "where are you"
    ensures Classify(input) == Location
    ensures Respond(input).link == Some(MapsLink)
  {
    ClassifiedByWords(input, ["where", "are", "you"], [' ', ' '], Location);
  }

  lemma ExampleBanana(input: string)
    requires input == "banana"
    ensures Classify(input) == Fallback
    ensures Respond(input).text == FallbackText
  {
    ClassifiedByWords(input, ["banana"], [], Fallback);
  }

  /** "hi" inside a longer word is no greeting. */
  lemma ExampleThisChip(input: string)
    requires input == "this chip"
    ensures Classify(input) == Fallback
  {
    ClassifiedByWords(input, ["this", "chip"], [' '], Fallback);
  }
}
