# One Stop Career site: chat auto-responder, carousel and service pop-up

This project models, in Dafny, the parts of the One Stop Career marketing
site (`src/App.jsx`) that hold state or logic:

- **The chat widget** (`ChatWidget`). Its submit handler `handleSend` does three things:
  - It ignores input that is empty after `trim()`.
  - It appends the user's untrimmed text to the transcript.
  - It picks the reply with an if/else chain of five whole-word regular expressions over the lower-cased input, falling back to a fixed text when none matches. The reply is appended 600 ms later.
- **The hero carousel** (`HeroSlider`). Its slide index is advanced modulo the slide count by an interval and set directly by the indicator buttons.
- **The services pop-up** (`ServicesSection`). Its selection is `null` or one of the six catalog entries. The pop-up shows a syllabus only for entries that define one.

Modules, one per file:

- `Wrappers` (`wrappers.dfy`): an option type for values that may be `null` or absent.
- `Text` (`text.dfy`): what the handler does to strings.
  - `trim` over the ECMAScript white-space and line-terminator characters.
  - `toLowerCase`.
  - The regular-expression assertion `\b`, and with it whole-word matching `/\bw\b/`, where word characters are `[A-Za-z0-9_]`.
  - The main theorem, `MatchJoin`: in a string made of runs of word characters joined by single non-word characters, a keyword matches exactly when it is one of the runs.
  - `Tokenize` cuts any string into such runs and separators, so the theorem applies to every input.
- `Replies` (`replies.dfy`): the classifier and the six reply messages.
  - `Classify` is the handler's if/else chain.
  - `Rules` and `FirstRule` restate the chain as an ordered table read top-down.
  - `ClassifyWords` is a keyword-by-keyword reference classification of the words of the input.
  - Lemmas connect the three. `ClassifyAnyInput` states, for every input, that the reply is decided by which keywords are among the words of the lower-cased input.
  - Worked inputs follow, such as "whatsapp number", "hello, email?", "e-mail", "What's your WhatsApp?", "this chip" and "banana".
- `Chat` (`chat.dfy`): the widget as a class.
  - Fields: `isOpen`, `input`, `messages`, the queue `pending` of replies whose timers have not fired, and the ghost list `sent` of accepted inputs.
  - `Send` is `handleSend`, and `Deliver` is one timer callback firing.
  - `ComposeReply` builds the reply step by step as the handler does (start from the fallback, overwrite at the first match). It is proved equal to `Respond`.
  - The invariant `Consistent` is preserved by every method. It says:
    - the transcript starts with the welcome message;
    - the user entries are the accepted inputs;
    - bot entries followed by pending replies are the responses to those inputs, in order;
    - no reply appears before its input.
- `Hero` (`hero.dfy`): the slide index and its tick function, with the modulo law for repeated ticks.
- `Services` (`services.dfy`): the six catalog entries reduced to title and syllabus flag, the pop-up's view, and the selection as a class.

Nothing in `handleSend` stops a second submit within the 600 ms delay (src/App.jsx:243-245). Each submit starts its own timer, and timers with equal delays fire in the order they were started. So the model keeps a FIFO queue of pending replies.

## Model

| member | source | states |
|---|---|---|
| Text.TrimStart | src/App.jsx:214 | the result is a suffix of the input, the removed prefix is all white space, and the result does not start with white space |
| Text.TrimEnd | src/App.jsx:214 | the result is a prefix of the input, the removed suffix is all white space, and the result does not end with white space |
| Text.Trim | src/App.jsx:214 | `trim` returns a string no longer than the input that neither starts nor ends with white space; `TrimStart`, `TrimEnd` and `TrimEmptyIffBlank` say which piece it is and when it is empty |
| Text.TrimEmptyIffBlank | src/App.jsx:214 | `s.trim()` is the empty (falsy) string exactly when every character of `s` is white space |
| Text.TrimsToEmpty | src/App.jsx:214 | the guard `!input.trim()` holds exactly when the input is blank |
| Text.Lower | src/App.jsx:220 | `toLowerCase`, character by character; it has no contract of its own, and the lemmas below (`LowerHasNoCapitals`, `LowerDistributes`, `LowerIdempotent`, `LowerByChars`) state what it does |
| Text.LowerByChars | src/App.jsx:220 | on characters below U+0130, lower-casing maps each character to its ASCII lower case and keeps the length |
| Text.LowerHasNoCapitals | src/App.jsx:220 | no capital A-Z survives `toLowerCase` |
| Text.LowerDistributes | src/App.jsx:220 | lower-casing a concatenation lower-cases each part |
| Text.LowerIdempotent | src/App.jsx:220 | lower-casing twice is lower-casing once |
| Text.WordMatch | src/App.jsx:226-235 | the search `/\bw\b/`: `w` occurs with a word boundary before and after it; no contract of its own, its meaning is stated by `MatchInWordString`, `MatchSplit` and `MatchJoin` |
| Text.KeywordMatchesItself | src/App.jsx:226-235 | a keyword standing alone matches its own `\b…\b` pattern |
| Text.MatchInContext | src/App.jsx:226-235 | a whole-word match survives text put around it when the text next to it is empty or non-word |
| Text.MatchInWordString | src/App.jsx:226-235 | inside one run of word characters a keyword matches exactly when it is the whole run |
| Text.MatchSplit | src/App.jsx:226-235 | a non-word character splits the search: a match in `p + [c] + q` is a match in `p` or in `q`, and conversely |
| Text.MatchJoin | src/App.jsx:226-235 | in runs of word characters joined by non-word separators, a keyword matches exactly when it is one of the runs |
| Text.Tokenize | src/App.jsx:226-235 | every string is its runs of word characters joined by single non-word separators, so `MatchJoin` applies to any input |
| Text.LowerJoin | src/App.jsx:220 | with separators that lower-casing keeps (every character but U+0130 and U+212A), lower-casing a joined string lower-cases each run and keeps the separators |
| Text.LowerWordString | src/App.jsx:220 | a run of word characters is still one after lower-casing |
| Text.LowerAllWordStrings | src/App.jsx:220 | every run of word characters is still one after lower-casing |
| Text.LowerKeepsLowercase | src/App.jsx:220 | lower-casing leaves a run without capitals unchanged |
| Text.LowerAllKeepsLowercase | src/App.jsx:220 | lower-casing leaves every run without capitals unchanged |
| Replies.AnyWord | src/App.jsx:226-235 | an alternation of keywords between two `\b` matches when one alternative matches as a whole word; no contract of its own, `AnyWordJoin` states its meaning |
| Replies.Classify | src/App.jsx:220-241 | the if/else chain over the lower-cased input; no contract of its own, `ClassifyPicksFirstMatch`, `ClassifyFallbackIffNoMatch`, `ClassifyIgnoresCase` and `ClassifyAnyInput` state what it decides |
| Replies.Respond | src/App.jsx:221-245 | the bot message scheduled for an input, the reply of its intent; no contract of its own, `Reply` and the `Classify` lemmas state it |
| Replies.Reply | src/App.jsx:221-240 | every reply is the bot's; only the location reply has a link, and that link is the maps URL |
| Replies.FirstRule | src/App.jsx:226-241 | the index returned is that of a matching group with no matching group before it, or the table length when none matches |
| Replies.ClassifyFollowsRules | src/App.jsx:220-241 | the if/else chain equals the ordered table of keyword groups read top-down |
| Replies.ClassifyPicksFirstMatch | src/App.jsx:226-241 | group `g` decides the reply exactly when it matches and no earlier group does |
| Replies.ClassifyFallbackIffNoMatch | src/App.jsx:221-241 | the fallback is chosen exactly when none of the five groups matches |
| Replies.ClassifyIgnoresCase | src/App.jsx:220 | classifying the lower-cased input gives the same intent as classifying the input |
| Replies.MentionsGreeting | src/App.jsx:226 | the greeting alternation is hi, hello, hey, greetings or namaste |
| Replies.MentionsPhone | src/App.jsx:229 | the phone alternation is phone, call, mobile, number or contact |
| Replies.MentionsWhatsApp | src/App.jsx:231 | the WhatsApp pattern is the single word whatsapp |
| Replies.MentionsEmail | src/App.jsx:233 | the email alternation is mail, email or gmail |
| Replies.MentionsLocation | src/App.jsx:235 | the location alternation is location, map, address or where |
| Replies.AnyWordJoin | src/App.jsx:226-235 | an alternation matches a string of runs and separators exactly when one of its keywords is one of the runs |
| Replies.ClassifyAnyInput | src/App.jsx:220-241 | for every input, the intent is the reference classification of the words of the lower-cased input |
| Replies.ClassifyByWords | src/App.jsx:220-241 | for runs of word characters joined by non-word separators that lower-casing keeps, the intent is the reference classification of the lower-cased runs |
| Replies.ClassifyByLowercaseWords | src/App.jsx:220-241 | the same for an input whose words have no capitals |
| Replies.ClassifiedByWords | src/App.jsx:220-241 | an input decomposed into lower-case words gets the intent the reference classification gives them |
| Replies.ExampleHello | src/App.jsx:226 | "hello" is a greeting |
| Replies.ExampleCapitalHi | src/App.jsx:220-226 | "Hi" is a greeting, since capitals are lowered first |
| Replies.ExampleWhatsApp | src/App.jsx:231 | "whatsapp?" gets the WhatsApp reply |
| Replies.WhatsYourWhatsAppWords | src/App.jsx:231 | "what's your whatsapp?" is the runs what, s, your, whatsapp and an empty run, joined by an apostrophe, two spaces and a question mark |
| Replies.ExampleWhatsYourWhatsAppLower | src/App.jsx:226-231 | "what's your whatsapp?" gets the WhatsApp reply: the apostrophe is a boundary and no earlier group matches |
| Replies.ExampleWhatsYourWhatsApp | src/App.jsx:220-231 | "What's your WhatsApp?" gets the WhatsApp reply, since capitals are lowered first |
| Replies.ExampleWhatsAppNumber | src/App.jsx:229-231 | "whatsapp number" gets the phone reply, because the phone group is tested first |
| Replies.ExampleHelloEmail | src/App.jsx:226-233 | "hello, email?" gets the greeting, because the greeting group is tested first |
| Replies.ExampleHyphenatedMail | src/App.jsx:233 | "e-mail" gets the email reply, because the hyphen is a word boundary |
| Replies.ExampleWhere | src/App.jsx:235-240 | "where are you" gets the location reply, with the maps link |
| Replies.ExampleBanana | src/App.jsx:221-224 | "banana" gets the fallback text verbatim |
| Replies.ExampleThisChip | src/App.jsx:221-226 | "this chip" gets the fallback: "hi" inside a word does not match |
| Chat.UserTextsAppend | src/App.jsx:217 | appending an entry adds its text to the user texts exactly when it is the user's |
| Chat.BotMessagesAppend | src/App.jsx:244 | appending an entry adds it to the bot entries exactly when it is the bot's |
| Chat.RepliesToAt | src/App.jsx:220-245 | the k-th owed reply is the response to the k-th accepted input |
| Chat.AppendKeepsOrder | src/App.jsx:217-244 | appending keeps every prefix with no more replies than inputs, provided a new reply is owed |
| Chat.InitialConsistent | src/App.jsx:197-203 | the initial state is consistent: the welcome message only, an empty field, nothing pending |
| Chat.SendKeepsTranscript | src/App.jsx:212-248 | accepting an input appends its user entry and owes one more bot reply, keeping the bookkeeping |
| Chat.SendKeepsConsistent | src/App.jsx:212-248 | accepting a non-blank input and scheduling its response keeps the widget consistent |
| Chat.DeliverKeepsTranscript | src/App.jsx:243-245 | moving the oldest pending reply into the transcript keeps the bookkeeping |
| Chat.ComposeReply | src/App.jsx:220-241 | the reply built step by step, fallback first and then overwritten at the first matching group, is the response to the input |
| Chat.ShownRepliesAnswerInputs | src/App.jsx:217-245 | the k-th bot entry after the welcome is the response to the k-th accepted input |
| Chat.QuiescentTranscriptComplete | src/App.jsx:243-245 | once no timer is pending, the bot entries are exactly the responses to the user entries |
| Chat.Session | src/App.jsx:212-248 | a blank submit changes nothing; "hello, email?" then the timer gives welcome, the user's entry and the greeting, with the field cleared |
| Chat.ChatWidget.constructor | src/App.jsx:196-203 | closed, empty field, transcript holding only the welcome message, nothing pending |
| Chat.ChatWidget.Toggle | src/App.jsx:257 | flips `isOpen` and nothing else |
| Chat.ChatWidget.Edit | src/App.jsx:330 | sets the field and nothing else |
| Chat.ChatWidget.Send | src/App.jsx:212-248 | blank input changes nothing (field included); otherwise appends `{text: input, sender: "user"}`, queues the response behind earlier ones, records the input and clears the field |
| Chat.ChatWidget.Deliver | src/App.jsx:243-245 | appends the oldest pending reply after all existing entries and removes it from the queue |
| Hero.Next | src/App.jsx:383 | the next index stays below the slide count, steps by one, and wraps from the last slide to 0 |
| Hero.AfterTicks | src/App.jsx:381-384 | after any number of ticks the index stays below the slide count |
| Hero.AfterTicksIsModulo | src/App.jsx:381-384 | `k` ticks from slide `i` show slide `(i + k) % 3` |
| Hero.FullRoundReturns | src/App.jsx:381-384 | three ticks return to the starting slide |
| Hero.EverySlideShown | src/App.jsx:381-384 | from the first slide, slide `j` is on show after `j` ticks |
| Hero.HeroSlider.constructor | src/App.jsx:349 | the carousel starts at slide 0 |
| Hero.HeroSlider.Advance | src/App.jsx:383 | one tick moves to the next slide, keeping the index in range |
| Hero.HeroSlider.Select | src/App.jsx:465 | an indicator click shows the slide it stands for |
| Services.SyllabusOnlyForCourses | src/App.jsx:588-682 | the pop-up for entry `k` shows its title, and shows the syllabus section (line 760) exactly when `k < 4` |
| Services.TitlesIdentifyServices | src/App.jsx:588-682 | no two catalog entries share a title |
| Services.ModalView | src/App.jsx:722-760 | what the pop-up renders for a selection; no contract of its own, `SyllabusOnlyForCourses` and `Open`/`Close` state its value |
| Services.ServicesSection.constructor | src/App.jsx:586 | no service is selected at first |
| Services.ServicesSection.Open | src/App.jsx:712 | "Learn more" on card `k` selects catalog entry `k`; the pop-up shows its title and the syllabus exactly when `k < 4` |
| Services.ServicesSection.Close | src/App.jsx:724-786 | the backdrop, the close button and "Book Consultation" clear the selection and hide the pop-up |

## Left out

- Rendering, styling and animation (JSX, Tailwind classes, framer-motion) are left out. They only present the state modelled here.
- Real time is left out. The 600 ms reply delay and the 5000 ms slide interval become the discrete events `Deliver` and `Advance`. The model does not order a `Deliver` against other events beyond the FIFO order of the replies.
- Timer teardown is left out. The slider's interval is cleared on unmount. The reply timers are never cleared.
- The auto-scroll (`scrollIntoView`) and the navbar's scroll listener are left out. They are browser side effects that change nothing modelled here.
- The mobile navigation menu's open flag is left out. It is a plain toggle outside the chat widget.
- The contact form's POST to the third-party form endpoint and the browser's required-field validation are left out. They are outside the page's own code.
- Static content is not carried: slide texts and images, service descriptions, icons and syllabus items. A service keeps only its title and whether it defines a syllabus, the only parts the pop-up logic depends on.
- `isOpen` does not gate `Send`. The form is rendered only while the widget is open, but the handler itself does not check the flag.
- Text.Lower: `toLowerCase` is exact only for the characters whose lower case contains an ASCII letter: A-Z, U+0130 and U+212A. Every other character is kept as it is. This cannot change any match, because every non-ASCII character outside those two is a non-word character both before and after lower-casing.
- White space for `trim` is the list of ECMAScript white-space and line-terminator characters, written out in `Text.IsSpace`. U+180E is not in it, following current ECMAScript.
- Dafny strings are sequences of Unicode scalar values, whereas JavaScript strings are UTF-16 code units. Trimming, lower-casing and `\b` all treat non-ASCII characters as non-word characters that are not white space, except for the few listed above. So the difference cannot change a match or a trim.
