# Tarot reading session — a Dafny model

This project models the core of a single-page tarot reading app. The seeker
types a question and the deck is shuffled. They tap the deck three times to
draw a Past, Present and Future card. The cards are turned face up one after
the other, and an interpretation service is asked for a narrative reading.
The model covers four parts:

- **The card catalogue** (`Deck`, on top of `Text`): the 78 cards in their
  fixed order, their ids, keywords and `number` field, and both artwork
  locators. The primary locator is a numbered file such as `ar07.jpg` or
  `cu12.jpg`. The backup locator is a name slug such as `two-of-wands.png`.
  `Text` models the JavaScript string operations these rules use: `trim`,
  `toLowerCase`, `String(n)`, `padStart`, `startsWith`, `replace` with a
  string pattern, the `/\s+/g` hyphenation and `join`. A `split` is defined
  as well, only as the inverse of `join`, to show that the spread summary
  can be read back line by line.
- **The session engine** (`Session`, `Intro`, `Scenario`, `Runs`): the app
  and table state as one record, driven by one transition function `Step`.
  - The app moves through the question form, shuffling, drawing, revealing
    and reading, and resets back to the form.
  - Draws are without replacement, at most three, and a card's position
    follows the draw order.
  - Cards are revealed in order, and the interpretation is requested once.
  - Random choices and timers are inputs. A tap carries the picked index and
    the reversal coin, and a shuffle tick carries the order it produced.
    Each timer or effect run is an event of its own.
  - An invariant is proved to hold in every reachable state.
  - `Scenario` strings the phases together into one run, from the question
    form to a finished reading.
- **The artwork fallback** (`CardImage`): per displayed card, the current
  source, the load state and whether the backup is in use. Between two
  changes of the card passed to the view, the backup is tried at most once.
  A card whose artwork fails everywhere still shows its text layer.
- **The interpretation gateway** (`Oracle`): the spread summary and the
  question line sent with the request. What the service did is abstracted
  into an outcome, and the outcome is mapped to the text the reading panel
  shows. That text is never empty.

Behaviours of the code worth knowing, each of which the model follows:

- A tap with three cards already down returns silently (TarotTable.tsx:44).
  It raises no error, so the model makes that draw a no-op.
- The summary lists the cards in array order (geminiService.ts:11-14), not
  by sorting on position. `Session.SummaryInPositionOrder` proves that in
  every reachable reading state this order is Past, Present, Future.
- The reset button is rendered only in the reading state while no request
  is loading (TarotTable.tsx:214-249), and a reset unmounts the table. The
  panel can render before the reading effect first runs, so a reset may
  come before any request is made. The model shows that no request is ever
  in flight at a reset (`Session.ResetOnlyWhenSettled`). It also shows that
  an answer arriving with no request outstanding is dropped
  (`Session.StaleArrivalIgnored`).
- The card view is driven by the card record it is given, not by the
  session. Turning a card face up replaces its record (TarotTable.tsx:82),
  which re-runs the view's card effect (TarotCard.tsx:25-31). Loading
  restarts from the primary artwork, so one drawn card can fall back to its
  backup twice: once face down and once face up
  (`CardImage.RevealRestartsFallback`).

## Model

| member | source | states |
|---|---|---|
| Text.TrimStart | IntroScreen.tsx:13 | the result is a suffix of the input; what was dropped is all whitespace and the result does not start with whitespace |
| Text.TrimEnd | IntroScreen.tsx:13 | the result is a prefix of the input; what was dropped is all whitespace and the result does not end with whitespace |
| Text.TrimEmptyIffAllWhitespace | IntroScreen.tsx:13 | `trim()` gives the empty string if and only if every character is ECMAScript whitespace or a line terminator |
| Text.TrimHasNoOuterWhitespace | IntroScreen.tsx:13 | a trimmed string neither starts nor ends with whitespace |
| Text.ToLower | constants.ts:45 | lower-casing keeps the length and the whitespace positions, leaves no upper-case letter, turns each upper-case letter into its lower-case counterpart (32 code points on), and changes no other character |
| Text.ToLowerIdempotent | constants.ts:45 | lower-casing twice is the same as lower-casing once |
| Text.ToLowerConcat | constants.ts:89 | lower-casing distributes over concatenation |
| Text.NatToString | constants.ts:69 | `String(n)` is a non-empty run of digits with no leading zero; it is one digit exactly when `n < 10` |
| Text.ParseNatToString | constants.ts:20 | reading the digits of `String(n)` back gives `n` |
| Text.NatToStringInjective | constants.ts:69 | different numbers print as different strings |
| Text.PadStartZero | constants.ts:30 | `padStart(width, '0')` keeps the string as its suffix, prepends only zeros, reaches `width` when shorter, and leaves a long string alone |
| Text.PaddedTwoDigits | constants.ts:20 | `String(n).padStart(2, '0')` is the two-digit form of every `n < 100` |
| Text.IndexOfFrom | constants.ts:51 | the first occurrence at or after the start index, or -1 exactly when there is none |
| Text.ReplaceFirst | constants.ts:51 | `replace` with a string pattern rewrites an occurrence at the front, and changes nothing when the pattern does not occur |
| Text.HyphenateWhitespace | constants.ts:56 | the result holds no whitespace and is no longer than the input |
| Text.HyphenateNoWhitespace | constants.ts:56 | a string without whitespace is left unchanged |
| Text.HyphenateWordPrefix | constants.ts:56 | a whitespace-free prefix passes through unchanged |
| Text.HyphenateJoin | constants.ts:56 | a whole whitespace run between two words becomes exactly one hyphen |
| Text.HyphenateThreeWords | constants.ts:56 | three words separated by spaces become the words separated by hyphens |
| Text.HyphenateKeepsLower | constants.ts:56 | hyphenation adds no upper-case letter |
| Text.SplitJoin | geminiService.ts:14 | splitting on `'\n'` undoes the join when no line holds a newline |
| Deck.Lookup | constants.ts:23-28 | a key is found if and only if some entry carries it, and the value found belongs to such an entry |
| Deck.SuitPrefixCodes | constants.ts:23-28 | Wands, Cups, Swords and Pentacles map to `wa`, `cu`, `sw` and `pe`; any other suit name falls back to `wa` |
| Deck.PrimaryImage | constants.ts:18-32 | a major card's URL is the base, `ar`, two digits of its index and `.jpg`; a minor card's URL is the base, the suit code, two digits of its rank index plus one and `.jpg` |
| Deck.DeckPrimaryImages | constants.ts:18-31 | the catalogue's majors point at `ar00`..`ar21`, and each suit's cards at the suit code with `01`..`14` |
| Deck.BackupImage | constants.ts:56-57 | the backup URL is the backup base, the name slug and `.png` |
| Deck.NumeralDeterminedByPrefix | constants.ts:48-50 | which numeral of the table a string starts with is fixed by its first character |
| Deck.NumeralPrefixesExclusive | constants.ts:48-53 | no string starts with two different numerals followed by a space, so at most one replacement ever applies |
| Deck.ReplaceLeadingNumeralFrom | constants.ts:48-54 | the loop spells out exactly the numeral the name starts with, and otherwise leaves the name alone |
| Deck.BackupSlugCases | constants.ts:43-57 | the slug hyphenates the lower-cased name, with its leading numeral spelled out when there is one |
| Deck.BackupSlugShape | constants.ts:43-57 | a slug holds neither whitespace nor upper-case letters |
| Deck.NoLeadingDigitBackup | constants.ts:43-57 | a name that does not start with a digit is only lower-cased and hyphenated |
| Deck.NumeralNameSlug | constants.ts:43-57 | a name `<numeral> of <Suit>` slugs to `<word>-of-<suit>` |
| Deck.NumeralRankBackup | constants.ts:83-86 | the minor cards ranked 2 to 10 take their spelled-out rank in the backup slug |
| Deck.TwoOfWandsBackup | constants.ts:44 | the card named "2 of Wands" has the backup URL ending in `two-of-wands.png` |
| Deck.DeckLayout | constants.ts:60-103 | the construction loops produce 78 cards: the majors by index, then 14 cards per suit in suit order |
| Deck.DeckComposition | constants.ts:64-100 | 22 majors come first, then 14 ranks each of Wands, Cups, Swords and Pentacles; `isMajor` holds exactly for the Major suit; majors are numbered by index and minors carry their rank label |
| Deck.DeckKeywords | constants.ts:64-100 | majors carry `Destiny, Archetype`, minors carry their suit and rank, so no keyword list is empty |
| Deck.SuitSlug | constants.ts:89 | a suit's lower-cased name is its id prefix |
| Deck.CardIdShape | constants.ts:68-89 | every id is a group prefix, a hyphen and the card's number within its group |
| Deck.GroupIdInjective | constants.ts:69 | an id of the form `<group>-<n>` determines both the group and the number |
| Deck.DeckIdsDistinct | constants.ts:64-100 | no two cards of the catalogue share an id |
| CardImage.Mounted | TarotCard.tsx:18-20 | a card view starts with no source, in the loading state, with the backup unused |
| CardImage.CardChanged | TarotCard.tsx:25-31 | a new card restarts loading from its primary source with the backup unused; no card leaves the view alone |
| CardImage.LoadFailed | TarotCard.tsx:33-43 | a failure of the primary, when the card has a backup, switches to the backup and keeps loading; any other failure is terminal and keeps the source |
| CardImage.LoadSucceeded | TarotCard.tsx:45-47 | a load always ends in the loaded state and changes neither the source nor the backup flag |
| CardImage.ImageStepConsistent | TarotCard.tsx:33-47 | the failed state is only ever reached once there is nothing left to try |
| CardImage.FailureAbsorbing | TarotCard.tsx:39-42 | further failures after the terminal failure change nothing |
| CardImage.AtMostOneFallback | TarotCard.tsx:33-43 | between two changes of the card prop, the source switches at most once, and never once the backup is in use; it ends on the starting source or the backup |
| CardImage.RevealRestartsFallback | TarotCard.tsx:25-43 | a failed primary, a new card record for the same card turned face up, and a second failure switch the source three times and end on the backup again |
| CardImage.FailedCardStillRenders | TarotCard.tsx:128-150 | a card whose artwork failed shows no image but still shows its text layer |
| CardImage.TableFlags | TarotCard.tsx:22-23 | the face-up flag is the card's revealed flag when the back is shown until reveal; without a card, neither face up nor reversed |
| Intro.Submit | IntroScreen.tsx:11-15 | a submission is ignored if and only if the question is all whitespace; otherwise the question is passed on exactly as typed |
| Intro.SubmitDisabled | IntroScreen.tsx:49 | the submit button is disabled if and only if the question is all whitespace |
| Intro.DisabledIffIgnored | IntroScreen.tsx:13 | the button is disabled exactly when submitting would be ignored, and both the empty and the whitespace-only question are refused |
| Oracle.Orientation | geminiService.ts:12 | the orientation reads `Reversed` exactly for a reversed card and `Upright` exactly for an upright one |
| Oracle.CardLine | geminiService.ts:13 | a summary line is exactly `<i+1>. **<Position>**: `, then the card name, then the orientation in parentheses, so position, name and reversal can be read off it; it holds no newline when the card name has none |
| Oracle.SummaryLines | geminiService.ts:11-14 | one line per card, in array order |
| Oracle.SummaryLinesRecoverable | geminiService.ts:11-14 | splitting the joined summary at newlines gives back one line per card, in order |
| Oracle.QuestionText | geminiService.ts:26 | the question line is never empty: an empty question becomes `General Guidance` and any other is sent as typed |
| Oracle.ReadingText | geminiService.ts:58-70 | the reading text is never empty: a non-success status or a thrown error gives the connection-failed text, an empty reply the silent-stars text, and any other reply its content |
| Session.HandleStart | App.tsx:12-15 | starting remembers the question and moves to shuffling |
| Session.HandleReset | App.tsx:17-20 | a reset returns to the question form with the question cleared |
| Session.Mount | App.tsx:45-54 | the table exists exactly outside the question form; a newly shown table is fresh, and a table already shown is kept |
| Session.FilterOutIndex | TarotTable.tsx:52 | filtering out index `i` removes exactly the element at `i`, and an index outside the deck removes nothing |
| Session.DrawCard | TarotTable.tsx:43-71 | with three cards down a tap changes nothing; otherwise the picked card leaves the deck and joins the spread face down, in the position its draw order gives, with the given orientation, and the earlier cards are kept |
| Session.RevealCard | TarotTable.tsx:82 | card `i` is turned face up and every other card is unchanged |
| Session.Step | TarotTable.tsx:27-113 | taps outside drawing do nothing; each state is entered only from its predecessor and only when ready; a reset returns to the initial state; a request is issued only under the effect's guard; only start and reset change the question |
| Session.InitialValid | App.tsx:9-10 | the app starts on the question form, with an empty question and a catalogue of 78 distinct cards, in a state that satisfies the invariant |
| Session.FreshTableValid | TarotTable.tsx:17-21 | a newly mounted table, with the whole catalogue in the deck and nothing drawn, satisfies the table invariant |
| Session.DrawKeepsCatalogue | TarotTable.tsx:50-65 | a draw keeps the deck and the spread together a permutation of the same cards |
| Session.ShufflePreserves | TarotTable.tsx:31-37 | a shuffle tick that only reorders the deck keeps the table invariant |
| Session.DrawPreserves | TarotTable.tsx:43-71 | a tap while drawing keeps the table invariant |
| Session.RevealPreserves | TarotTable.tsx:80-83 | a reveal tick keeps the table invariant |
| Session.TableStepPreserves | TarotTable.tsx:27-113 | every table-level event keeps the table invariant |
| Session.StepPreservesValid | TarotTable.tsx:27-113 | every admissible event keeps the whole invariant |
| Session.DistinctIdsByMultiset | TarotTable.tsx:32 | reordering a catalogue with distinct ids keeps them distinct |
| Session.DealtCardsDistinct | TarotTable.tsx:50-52 | deck and spread hold as many cards as the catalogue; no card is drawn twice, and no drawn card remains in the deck |
| Session.TableFacts | TarotTable.tsx:44-65 | in every reachable state: 78 cards between deck and spread, at most three drawn, all distinct, none left in the deck, positions following the draw order |
| Session.StepKeepsDrawnCards | TarotTable.tsx:54-60 | a card on the table keeps its card, position and orientation through every event, a face-up card stays face up, and the spread never shrinks |
| Session.RevealInOrder | TarotTable.tsx:80-83 | a reveal tick turns exactly the next card face up; the earlier cards are already face up and the later ones stay face down |
| Session.ReadingHasFullSpread | TarotTable.tsx:80-86 | the reading state is only ever seen with all three cards face up |
| Session.ReadingNonEmptyAfterFetch | TarotTable.tsx:94-105 | once the request has resolved, the state is the reading and the reading is not empty |
| Session.SummaryInPositionOrder | geminiService.ts:11-14 | the summary sent from the reading state lists Past, Present and Future, numbered 1 to 3 |
| Session.QuestionSentAsTyped | geminiService.ts:26 | the question is sent exactly as typed, so the default line is never used |
| Session.ResetDiscardsTable | App.tsx:17-20 | a reset from a finished reading discards the table and the question, back to the initial state |
| Session.StartMountsFreshTable | App.tsx:45-54 | starting from the question form mounts a fresh table with all 78 cards in the deck and the new question |
| Session.RunPreservesValid | TarotTable.tsx:93-113 | any admissible run from a valid state ends in a valid state, with at most one request per table |
| Session.EffectIdle | TarotTable.tsx:94 | outside its guard, the reading effect changes nothing |
| Session.FetchAtMostOnce | TarotTable.tsx:93-113 | once a request has been made, any number of further effect runs changes nothing |
| Session.StaleArrivalIgnored | TarotTable.tsx:101-105 | an interpretation arriving with no request out of the current table is dropped |
| Session.ArrivalWhenIdle | TarotTable.tsx:101-105 | an answer is only written into a table whose request is loading; with none loading, or with no table, an arrival changes nothing |
| Session.ResetOnlyWhenSettled | TarotTable.tsx:214-249 | at a reset, either no request was made or its answer is already on the panel |
| Scenario.ShufflePhase | TarotTable.tsx:27-41 | shuffle ticks keep shuffling until the fifteenth, which opens drawing; only the deck order and the tick count change, and the deck stays a permutation |
| Scenario.TapStep | TarotTable.tsx:43-65 | a tap while drawing with fewer than three cards down performs the draw |
| Scenario.DrawPhase | TarotTable.tsx:43-71 | three taps at admissible indices lay the picked cards face down as Past, Present and Future: card `p0` of the deck, card `p1` of what remains, card `p2` of what remains after that, each with its given orientation; the pause afterwards starts revealing, and nothing else on the table changes |
| Scenario.RevealStep | TarotTable.tsx:80-83 | a reveal tick with cards left turns the next one face up |
| Scenario.RevealPhase | TarotTable.tsx:74-90 | three reveal ticks turn every card face up in order, and the final pause moves to the reading |
| Scenario.FetchPhase | TarotTable.tsx:93-113 | the effect sends exactly one request, and its arrival fills the reading with non-empty text |
| Scenario.OpenToDrawing | App.tsx:12-15 | a question that is not blank, followed by fifteen shuffles, opens drawing on a 78-card deck with the question kept |
| Scenario.DrawToReading | TarotTable.tsx:43-113 | from an empty spread, the draws, the reveal and the interpretation end in a finished reading |
| Scenario.WholeSession | TarotTable.tsx:27-113 | a whole session from the question form ends in a reading of three face-up cards as Past, Present and Future, with the chosen orientations and a non-empty interpretation requested once, whatever the service did |

## Left out

- Markup, styling, animations, the shake effect, scrolling into view, suit icons and Markdown rendering are presentation only.
- Timer delays (80 ms shuffle ticks, 500/1000/1500 ms reveal pauses, 1000 ms after the third draw) are not modelled; each timer firing is an event, and the delays only decide when, not whether, an event happens.
- `Math.random` is not modelled. The drawn index and the reversal coin are event parameters, and the 0.25 reversal probability and any uniformity are not stated.
- Session.Step: the random-comparator shuffle is modelled as an arbitrary reordering of the deck, which is all the model relies on.
- The HTTP request, JSON decoding, the API key, the persona and prompt prose, and the request body are not modelled. The service is an outcome: a success with content, a non-success status, or a thrown error.
- The rotating loading message and console logging are cosmetic.
- React batching, effect scheduling and closures over stale state are not modelled. Events are applied one at a time to the latest state, and the reading effect is an event that may run any number of times.
- Text.ToLower: covers the ASCII letters only, not full Unicode case mapping. Every name in the catalogue is ASCII.
- Deck.SuitPrefixCodes: the lookup is modelled as a table of the four suit codes. JavaScript would also find inherited object keys such as `constructor`, which no suit name is.
- The card view is not tied to the session state. A reveal gives the view a new card record, which restarts loading from the primary artwork, so the one-fallback bound holds per card record, not per drawn card.
- CardImage.LoadFailed: an empty backup locator is modelled as "no backup". Every card in the catalogue has a non-empty one.
- Deck.PrimaryImage: the URL shape is stated for indices below 100, the only ones the catalogue uses.
