# ai-mood-reactor: the server's character-state logic in Dafny

This project models the server of ai-mood-reactor. The server runs a live
"virtual character" called Aiko. The character is one record:
`{name, level, mood, lastMessage}`.

- A **gift** from the live stream raises the level by the gift's repeat count,
  makes the character happy and thanks the giver.
- A **chat** comment is lower-cased. A fixed rule chain (first match wins)
  then sets the mood. Only a comment that includes "gift" also raises the level.
- For a chat, the server then asks a text generator for a reply:
  - It first keeps a window of the last five lower-cased commands. It counts
    how often the current command is already in it, then appends it.
  - When the count is positive, it adds a "repetition twist" note to the request.
  - It joins the streamed chunks of the answer in order.
  - It replaces an empty answer, or any failure, with a fixed fallback line.
  - The reply becomes `lastMessage`.
- After every event, each connected viewer is sent an `update` message with the record.
- A viewer that connects is first sent an `init` message with the record.

Files and modules:

- `text.dfy` (`Text`): lower-casing and substring search (`includes`).
- `character.dfy` (`CharacterModel`): the mood enumeration, the record as a
  value (`CharacterState`), and the mutable record (`Character` class).
- `mood_policy.dfy` (`MoodPolicy`, `PolicyScenarios`):
  - the gift and chat transitions as functions of the record;
  - the rule chain restated as a rule table evaluated first-match-wins;
  - lemmas about runs of events.
- `repetition.dfy` (`Repetition`): the command window as a class with
  `RecordAndCount`, and its specification functions and lemmas.
- `orchestrator.dfy` (`Orchestrator`): the repetition note, the chunk
  accumulation loop, the fallbacks, and `GenerateReply`.
- `broadcast.dfy` (`Broadcast`): connected viewers as message logs, with
  `Connect` and `BroadcastState`.
- `server.dfy` (`Server`): the server object wiring the three pieces of state
  together. Its handlers `OnGift`, `OnChat` and `OnConnection` are each proved
  against the pure transitions above.

The text generator is not called. A chat handler takes a `Completion` as a
parameter: the chunks the generator delivered, and whether the call failed.
It returns the `Request` it would have sent.

The model follows these details of the code:

- The fallback reply on failure is `"Oops! My circuits got tangled. 😅"` (server.js:77).
- The gift thank-you line ends in `"! 🎉"` (server.js:101).
- The chat handler applies the mood rules before it records the command in
  the window (server.js:113-125). So the request carries the mood and level
  that were just updated.
- The gift gain is `repeatCount || 1` (server.js:99): a missing or zero count
  adds 1, and every other count, a negative one included, is added as it is.

## Model

| member | source | states |
|---|---|---|
| `Text.LowerChar` | server.js:110 | the result is never an ASCII capital; a non-capital is unchanged; a capital maps to the lower-case letter at the same position of the alphabet |
| `Text.ToLower` | server.js:110 | same length; each character lower-cased; the result holds no ASCII capital; text with no capitals is returned unchanged |
| `Text.Contains` | server.js:113-118 | `includes`: scans the text from the left for the keyword at each position (its meaning is stated by `Text.ContainsIff`) |
| `Text.ContainsIff` | server.js:113-118 | the left-to-right `includes` scan succeeds exactly when the keyword occurs at some position of the text |
| `CharacterModel.Character.constructor` | server.js:25-30 | the record starts as Aiko, level 1, neutral, "Ready to play!" |
| `MoodPolicy.GiftIncrement` | server.js:99 | a missing count adds 1; a non-negative count adds max(count, 1); any non-zero count is added as it is |
| `MoodPolicy.ThankYou` | server.js:101 | the thank-you line: "Thank you ", the giver, " for sending ", the gift, "! 🎉" |
| `MoodPolicy.AfterGift` | server.js:99-101 | the record after a gift: name kept, level plus `GiftIncrement`, happy, the thank-you line (its properties are stated by `MoodPolicy.GiftOutcome`) |
| `MoodPolicy.GiftOutcome` | server.js:99-101 | after a gift: the name is kept, the mood is happy, the level rose by at least one for a non-negative count, and the last message names both the giver and the gift |
| `MoodPolicy.ChatReaction` | server.js:113-122 | the level gain is 0 or 1; it is 1 exactly when the mood becomes happy; the mood is always overwritten with a non-neutral value |
| `MoodPolicy.AfterChatMood` | server.js:113-122 | the record after the mood rules ran on the lower-cased comment: level plus the reaction's gain, mood from the reaction |
| `MoodPolicy.AfterChat` | server.js:110-126 | the record after a whole chat: lower-case, mood rules, then the reply as `lastMessage` (its properties are stated by `MoodPolicy.ChatLevelOnlyForGift`) |
| `MoodPolicy.ChatLevelOnlyForGift` | server.js:110-126 | a chat keeps the name and stores the reply; with "gift" in the lower-cased comment the level rises by exactly 1 and the mood is happy; otherwise the level is unchanged and the mood is not happy |
| `MoodPolicy.FirstMatchWins` | server.js:113-122 | a rule table evaluated in order yields the reaction of the first rule whose keyword is included, and the default when none is |
| `MoodPolicy.ChatReactionFollowsRules` | server.js:113-122 | the handler's if-else chain equals the table gift → (happy, +1), angry → angry, yay → excited, wow → excited, default curious, evaluated first-match-wins |
| `MoodPolicy.LevelAddsUp` | server.js:96-129 | after any run of gifts and chats the level is the starting level plus the sum of each event's gain; the name never changes |
| `MoodPolicy.LevelNeverDecreases` | server.js:96-129 | with non-negative gift counts the level never goes down; it rises by at least one per gift |
| `MoodPolicy.LevelStaysPositive` | server.js:25-129 | from the initial record, with non-negative gift counts, the level stays at least 1 |
| `MoodPolicy.TotalGainOfGifts` | server.js:99 | for gifts with non-negative counts, the summed gain is the sum of max(count, 1) |
| `MoodPolicy.GiftsAddUp` | server.js:96-104 | a run of gifts with non-negative counts raises the level by the sum of max(count, 1) |
| `PolicyScenarios.RoseGiftScenario` | server.js:96-101 | three roses from alice on the initial record give level 4, happy, "Thank you alice for sending Rose! 🎉" |
| `PolicyScenarios.GiftScenario` | server.js:110-115 | the comment "Gift please", with its capital G, raises the level by one and makes the character happy |
| `PolicyScenarios.AngryScenario` | server.js:110-117 | the comment "This is ANGRY" makes the character angry and leaves the level unchanged |
| `PolicyScenarios.WowScenario` | server.js:110-119 | the comment "WOW nice" makes the character excited and leaves the level unchanged |
| `Repetition.Occurrences` | server.js:37 | `filter(cmd => cmd === prompt).length`: the number of window entries equal to the command (its meaning is stated by `Repetition.OccurrencesIsMultiplicity`) |
| `Repetition.Recorded` | server.js:38-39 | `push`, then `shift` when the window has grown past 5 (its properties are stated by `Repetition.RecordedShape`) |
| `Repetition.Replay` | server.js:33-39 | the window after recording a history of commands in order, from the empty window (its meaning is stated by `Repetition.ReplayIsRecentSuffix`) |
| `Repetition.OccurrencesIsMultiplicity` | server.js:37 | the filter count of a command is its multiplicity in the window |
| `Repetition.RecordedShape` | server.js:38-39 | recording into a window of at most 5 leaves at most 5, with the new command last; it drops only the oldest entry, and only from a full window; the rest keep their order |
| `Repetition.ReplayIsRecentSuffix` | server.js:33-39 | from the empty window, the window is always the last min(n, 5) commands of the history, in order |
| `Repetition.RepeatedCommandCount` | server.js:37-39 | after n identical commands, the next one is counted as min(n, 5): the k-th is reported as k-1 up to the sixth |
| `Repetition.RepetitionWindow.constructor` | server.js:33 | the window starts empty |
| `Repetition.RepetitionWindow.RecordAndCount` | server.js:37-39 | it returns the number of earlier equal entries, excluding the current command; it leaves the window recorded as above and keeps the bound of 5 |
| `Orchestrator.Decimal` | server.js:42 | the count's numeral is non-empty, all digits, and has no leading zero |
| `Orchestrator.DecimalRoundTrip` | server.js:42 | reading the numeral back gives the count |
| `Orchestrator.RepetitionNote` | server.js:41-43 | the note is non-empty exactly when the repeat count is positive |
| `Orchestrator.NoteNamesCount` | server.js:41-43 | a non-empty note is exactly the fixed prefix, then a numeral without leading zeros, then the fixed suffix; the numeral reads back as the count |
| `Orchestrator.ChunkText` | server.js:71 | a chunk's `delta.content`, or the empty string when the chunk has none |
| `Orchestrator.Concat` | server.js:69-72 | the chunks' texts joined in arrival order (its properties are stated by `Orchestrator.ConcatAppend`, `ConcatEmptyIff`, `ConcatLength`) |
| `Orchestrator.ConcatAppend` | server.js:69-72 | joining chunks distributes over splitting the stream anywhere |
| `Orchestrator.ConcatEmptyIff` | server.js:69-74 | the joined text is empty exactly when every chunk's text is empty or absent |
| `Orchestrator.ConcatLength` | server.js:69-72 | the joined text's length is the sum of the chunks' lengths |
| `Orchestrator.Accumulate` | server.js:69-72 | the `for await` loop yields the chunks' texts joined in arrival order |
| `Orchestrator.ReplyFor` | server.js:69-78 | the reply is never empty; it is the tangled fallback on failure, the joined text when that is non-empty, else the no-words fallback |
| `Orchestrator.ReplyOutcomes` | server.js:69-78 | a successful stream with some text is passed on whole, with its full length; a failed stream gives the same reply whatever arrived before the failure |
| `Orchestrator.GenerateReply` | server.js:35-79 | it records the command even when the generator fails; the request carries the note for the prior count, the command and the current mood and level; the reply is the non-empty `ReplyFor` of the outcome |
| `Broadcast.UpdateKeepsLog` | server.js:82-86 | appending an update to a log that starts with its one `init` keeps it so |
| `Broadcast.Hub.constructor` | server.js:19 | no viewer is connected at start |
| `Broadcast.Hub.Connect` | server.js:132-134 | a new viewer gets a log holding only `init` with the given record; other viewers' logs are untouched |
| `Broadcast.Hub.BroadcastState` | server.js:82-86 | every connected viewer's log gains the same `update` message and nothing else; no viewer is added or dropped |
| `Server.Server.constructor` | server.js:19-33 | the server starts with the initial record, an empty window and no viewers |
| `Server.Server.OnGift` | server.js:96-104 | the record becomes `AfterGift` of the old record; then every viewer gets an `update` with the new record; the window is untouched |
| `Server.Server.OnChat` | server.js:107-129 | the record becomes `AfterChat` of the old record with the reply; the window records the lower-cased comment; the request carries the note for its prior count; then every viewer gets an `update` with the new record |
| `Server.Server.OnConnection` | server.js:132-134 | the new viewer's first message is `init` with the current record; nothing else changes |
| `Server.GiftThenChat` | server.js:96-134 | a viewer connected at start sees `init` with the initial record, then one `update` per event, with the records `AfterGift` and then `AfterChat` give; the last message is non-empty |

## Left out

- Text.LowerChar: folds only the ASCII letters A-Z; JavaScript's `toLowerCase`
  also folds other Unicode letters. Full Unicode case mapping tables are out of
  scope. This can change which text is stored in the window. It cannot change the
  result of a keyword test, since every keyword is ASCII.
- Text.ToLower: built from `Text.LowerChar`, so it has the same ASCII-only gap. It
  also always keeps the length, where `toLowerCase` can lengthen a string (U+0130
  becomes two characters).
- Strings are sequences of Unicode code points. JavaScript counts UTF-16 code
  units. Nothing in the core measures string length, so this changes no behaviour.
- The level is an unbounded integer. JavaScript numbers are doubles and lose
  precision above 2^53.
- The prompt text beyond its variable parts is not modelled. Neither are the
  model name, temperature, token limit and `top_p`. The `Request` value holds
  the name, the repetition note, the command, the mood and the level.
- The text generator (the Groq SDK call). Its result is the `Completion` parameter.
  A failure while the request is made and a failure part-way through the stream
  look the same: the chunks delivered so far, then a failure flag.
- Interleaving of overlapping chat handlers at the `await`. Each handler is one
  sequential step. In the source, a second event can run between a chat's mood
  update and its `lastMessage` update, and the later completion wins.
- The TikTok Live connection and its event registration. The handlers take
  already-parsed gift and chat records. A malformed event (for example a missing
  `user`) would throw in the source; that is not modelled.
- The Express static server, `app.listen`, `.env` loading and all console logging.
- JSON serialization and the WebSocket transport. A message is a value appended
  to a viewer's log. A send that fails is not modelled.
- Disconnection. The source never removes a viewer itself; the WebSocket library
  drops closed connections from its client set. The model has no leave operation.
- `public/script.js`, the browser renderer: confetti, emoji bursts, the typing
  effect, speech synthesis, the mood-to-emoji map and the font-size clamp.
  public/script.js is not part of this model.
