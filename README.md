# memory-match: the game engine of `App`, verified

The game is a board of sixteen cards, two of each of eight fruit icons. The
player turns cards over two at a time: a pair with equal icons stays up and
scores a point; any other pair is turned back after 800 ms. Every compared
pair counts as one move. A clock counts seconds from the first click until
the board is complete, and completion fires a celebration once. "Restart"
deals a new game at once, or, on a completed board, first turns the cards
back one by one in a random order. "Shuffle" permutes the board in place.
Matched cards stay shown. Face-up unmatched cards are first turned down one
by one.

This project models the engine of the single component `src/App.jsx` in
four layers:

- `Seqs` (seqs.dfy) holds sequence helpers: swapping two positions,
  mapping a function, and distinctness.
- `FisherYates` (shuffle.dfy) is `shuffle`. The method keeps the source's
  array loop and is proved equal to the recursive function `Shuffled`.
  Lemmas prove `Shuffled` a permutation, compatible with `map`, and
  distinctness-preserving.
- `Deck` (deck.dfy) holds `ICONS`, the card record, and the card ids. An
  id is the position as a decimal numeral, a dash and the icon; ids are
  proved injective. It also holds the deck `initGame` deals, the update of
  the cards with given ids that every handler applies to the previous
  deck, and the reshuffle of a deck in play.
- `Game` (game.dfy) is the turn state machine over values. A `Session`
  holds every state variable. Each handler, timeout callback and effect is
  a function from one session to the next. A scheduled timeout is part of
  the state:
  - the queue `mismatchTimers` of id pairs captured by pending 800 ms
    mismatch timeouts;
  - a `Choreography` value listing the card ids whose restart or shuffle
    step is still to run.

  The invariant `Inv` holds the following:
  - a good deck (sixteen cards, each icon twice, distinct ids);
  - `isAnimating` exactly while a choreography runs;
  - a consistent turn (`first` and `second` face up and unmatched);
  - the score is half the matched cards, except while a restart unwinds
    them;
  - the score is at most the moves;
  - at most one celebration per game.

  `Settled` adds two facts. A completed board has been celebrated, and
  input is locked while two chosen cards wait to be turned back. Every
  event keeps `Settled`.
- `App` (app.dfy) is the component as an object. `MemoryGame` has the
  state variables as fields, and each handler is a method that updates
  them in place. Every method is proved to take the object to the session
  the matching `Game` function computes. The constructor establishes
  `Valid()` (`Settled` of the fields). Every event method keeps it: a
  click, a timeout, a tick, restart and shuffle. The helper methods
  `InitGame`, `ResetTurn`, `HandleFlip`, `CompareEffect` and
  `CompletionEffect` are steps inside an event. Between them the
  invariant need not hold; for example, a second card is chosen but not
  yet compared.

Choices that stand in for the environment:

- `Math.random` becomes a caller-supplied choice sequence. At the step for
  position `i` the shuffle swaps `i` with `c[i]`, where `0 <= c[i] <= i`
  (`ValidChoices`).
- Time does not appear. A timeout is an event that the caller applies when
  it is due: `MismatchTimeout`, `RestartStep`, `RestartFinish`,
  `ShuffleStep`, `ShuffleFinish`, and `Tick` for the one-second interval.
  Any interleaving of clicks and due timeouts is allowed. This includes
  every interleaving the real delays produce, so the proved properties hold
  for all of them.
- React's re-running of effects is made explicit. A click (`SelectCard`)
  runs these steps in order:
  1. `handleFlip`;
  2. the comparison effect, if `first` or `second` changed;
  3. the completion effect, if the deck changed.

  Every step that replaces the deck ends with the completion effect.

Behaviour of the code that the model keeps:

- `handleFlip` starts the clock (line 122) before it tests whether the
  clicked card is eligible (line 123). A click on a face-up or matched
  card therefore also starts a stopped clock, even after completion
  (`Game.HandleFlipIneligible`). The clock starts on the first click, not
  on the first card actually turned.
- `restart` does not cancel a pending mismatch timeout. When one fires in
  the next game, it turns down the cards whose ids it captured. Ids repeat
  between games, because an id is only a position and an icon. It also
  clears the new game's turn and unlocks input. The model keeps this, so
  the proved invariant does not claim that every face-up unmatched card is
  selected.

## Model

| member | source | states |
|---|---|---|
| Seqs.Swap | src/App.jsx:11 | one swap step keeps the length (its meaning is given by `Seqs.SwapPermutes` and `Seqs.SwapKeepsDistinct`) |
| Seqs.Map | src/App.jsx:229-232 | mapping keeps the length and applies the function at every position |
| Seqs.SwapPermutes | src/App.jsx:11 | the destructuring swap rearranges the elements and loses none |
| Seqs.SwapKeepsDistinct | src/App.jsx:11 | a swap keeps a sequence free of repetitions |
| FisherYates.Shuffled | src/App.jsx:9-12 | the remaining loop steps preserve the length |
| FisherYates.ShuffledPermutes | src/App.jsx:7-14 | the shuffle is a permutation of its input |
| FisherYates.ShuffledMap | src/App.jsx:7-14 | shuffling with the same draws commutes with `map` (ids, icons, flags of a shuffled deck are the shuffled ids, icons, flags) |
| FisherYates.ShuffledKeepsDistinct | src/App.jsx:7-14 | a shuffle of a repetition-free sequence is repetition-free |
| FisherYates.Shuffle | src/App.jsx:7-14 | the in-place loop on a copied array returns exactly `Shuffled` of the input (hence, by `ShuffledPermutes`, a permutation of it) of the same length |
| Deck.DigitChar | src/App.jsx:104 | a digit below ten is written as the digit character of that value |
| Deck.Decimal | src/App.jsx:104 | the numeral of the index is non-empty and all digits |
| Deck.DecimalRoundTrip | src/App.jsx:104 | reading the numeral back gives the index |
| Deck.CardId | src/App.jsx:104 | the id of a card: its position as a decimal numeral, a dash, its icon; proved unique per position and icon by `Deck.CardIdInjective` |
| Deck.CardIdInjective | src/App.jsx:104 | two card ids are equal only for equal positions and icons |
| Deck.BuildDeck | src/App.jsx:103-108 | the deck has one card per element of the shuffled order |
| Deck.IconsDistinct | src/App.jsx:5 | the icon set has eight different symbols |
| Deck.FreshDeck | src/App.jsx:103-108 | a deck built from a permutation of two copies of the icons is good (sixteen cards, icons a permutation of two copies, distinct ids), carries the order's icons, is all face down and unmatched, and is not complete |
| Deck.EachIconTwice | src/App.jsx:103 | in a good deck every icon of the set occurs exactly twice and nothing else occurs |
| Deck.UpdateWhere | src/App.jsx:124 | an id-keyed update keeps the length, and keeps every id and icon in place when the card update does |
| Deck.UpdateOne | src/App.jsx:124 | with distinct ids, updating by the id of the card at `k` changes that card and no other |
| Deck.UpdatePair | src/App.jsx:39-43 | with distinct ids, updating by the ids of two cards changes those two and no other |
| Deck.MarkPairCount | src/App.jsx:39-43 | marking two different unmatched cards matched changes only them and adds two matched cards |
| Deck.UpdateKeepsMatches | src/App.jsx:48-52 | an update that only turns cards over keeps the number of matched cards and completion |
| Deck.SameLayoutKeepsDeckOk | src/App.jsx:48-52 | changing only the flags keeps a deck good |
| Deck.IdsWhere | src/App.jsx:146 | collecting the ids of the cards that pass a filter yields exactly the ids of the cards that pass the filter, and no more of them than cards |
| Deck.AllMatchedIds | src/App.jsx:146 | on a completed deck the matched ids are all ids, in deck order |
| Deck.CountMatched | src/App.jsx:70 | the number of matched cards; related to completion by `Deck.CountMatchedAll` and to the score by `Game.Inv` |
| Deck.NoneMatchedCount | src/App.jsx:106-107 | a deck without matched cards counts none |
| Deck.CountMatchedAll | src/App.jsx:70 | the matched count is at most the deck size, and equals it exactly when every card is matched |
| Deck.CountMatchedMultiplicity | src/App.jsx:70 | the matched count is the number of `true` matched flags |
| Deck.ReshuffledDeck | src/App.jsx:244-251 | the deck a shuffle leaves: the old deck shuffled with the draws, every card shown exactly when matched; its properties in `Deck.ReshuffledIsPermutation` and `Deck.ReshuffleKeeps` |
| Deck.ReshuffledIsPermutation | src/App.jsx:244-251 | a reshuffle has the old length, is a permutation of the old deck with every card shown exactly when matched |
| Deck.ReshuffleKeeps | src/App.jsx:226-233 | a reshuffle keeps a good deck good, keeps the number of matched cards and whether the board is complete |
| Deck.ReshuffleKeepsCount | src/App.jsx:226-233 | a reshuffle keeps the number of matched cards and completion |
| Deck.ReshuffleKeepsDeck | src/App.jsx:226-233 | a reshuffle keeps a good deck good |
| Game.InitGame | src/App.jsx:102-118 | `initGame`: a new deck from two copies of the icons shuffled with the draws; turn cleared, input unlocked, moves, score and time zeroed, clock stopped, guard cleared; properties in `Game.InitGameFresh` |
| Game.Initial | src/App.jsx:17-33 | the initial state values followed by the mount effect's `initGame`; properties in `Game.InitialSettled` |
| Game.ResetTurn | src/App.jsx:129-133 | both chosen cards cleared and input unlocked, nothing else changed |
| Game.HandleFlip | src/App.jsx:120-127 | the click handler: ignored while locked; otherwise the clock runs; an eligible card is turned up by id and recorded as `first`, else as `second`; properties in `Game.HandleFlipKeeps` |
| Game.CompareEffect | src/App.jsx:35-58 | with two chosen cards: equal icons mark both ids matched, score one and reset the turn; different icons lock input and schedule the timeout for that pair; one move either way; properties in `Game.CompareEffectKeeps` |
| Game.CompletionEffect | src/App.jsx:69-72 | on a complete deck with the guard clear the clock stops and the guard is set; properties in `Game.CompletionEffectSettles` |
| Game.SelectCard | src/App.jsx:314-320 | a click followed by the effects it triggers: comparison when the turn changed, completion when the deck changed; properties in `Game.SelectCardKeeps` |
| Game.MismatchTimeout | src/App.jsx:47-54 | the oldest pending mismatch timeout: its two captured ids turned face down, the turn reset; properties in `Game.MismatchTimeoutKeeps` |
| Game.Tick | src/App.jsx:60-67 | one interval tick: time counts up while the clock runs; properties in `Game.TickKeeps` |
| Game.Restart | src/App.jsx:135-183 | `restart`: a completed board not animating starts the unwinding choreography over the matched ids in shuffled order; otherwise, not animating, `initGame`; otherwise nothing; properties in `Game.RestartKeeps` |
| Game.RestartStep | src/App.jsx:150-167 | one unwinding step: the next pending card turned down and unmatched; properties in `Game.RestartStepKeeps` |
| Game.RestartFinish | src/App.jsx:168-175 | the last restart timeout: `initGame` and the animation flag cleared; properties in `Game.RestartFinishKeeps` |
| Game.HandleShuffle | src/App.jsx:185-255 | `handleShuffle`: ignored while locked; with face-up unmatched cards the turn is cleared, input locked and those cards scheduled to settle; otherwise the deck is reshuffled at once; properties in `Game.HandleShuffleKeeps` |
| Game.ShuffleStep | src/App.jsx:203-219 | one settling step: the next pending card turned down; properties in `Game.ShuffleStepKeeps` |
| Game.ShuffleFinish | src/App.jsx:221-237 | the last shuffle timeout: the deck reshuffled, input and animation flag cleared; properties in `Game.ShuffleFinishKeeps` |
| Game.InitialSettled | src/App.jsx:17-33 | mounting gives a settled session whose cards are all face down and unmatched |
| Game.InitGameFresh | src/App.jsx:102-118 | from any session, including the one of the restart choreography's final timeout, `initGame` deals a good, incomplete deck of face-down unmatched cards with each icon twice, zeroes moves, score and time, stops the clock, unlocks input, clears the turn and the guard; outside an animation the result is settled |
| Game.HandleFlipLocked | src/App.jsx:121 | a click while input is locked changes nothing |
| Game.HandleFlipPairWaiting | src/App.jsx:121 | while two chosen cards wait to be turned back, a click on any card changes nothing |
| Game.HandleFlipIneligible | src/App.jsx:122-123 | a click on a face-up or matched card only sets the clock running |
| Game.HandleFlipKeeps | src/App.jsx:120-127 | a click keeps the invariant, the lock and the completion guard; on an eligible card it turns exactly that card up, records it as `first`, or as `second` when `first` is taken, and starts the clock; unless it chose the second card, the session stays settled |
| Game.FlipEligible | src/App.jsx:124-126 | the eligible branch: exactly card `k` turned up, recorded, the clock started, the invariant, guard and completion state kept |
| Game.FlipSelection | src/App.jsx:124-126 | turning up an eligible card and recording it keeps the turn consistent |
| Game.CompareEffectKeeps | src/App.jsx:35-58 | the comparison keeps the invariant and counts one move; a match marks exactly the two chosen cards matched (found by their ids, every other card unchanged), adding two matched cards, scores one and ends the turn unlocked; a mismatch keeps the deck, locks input and schedules one timeout for that pair; with fewer than two chosen it does nothing |
| Game.MatchKeeps | src/App.jsx:38-45 | the match branch marks exactly the two chosen cards matched, every other card unchanged, keeps the invariant and adds two matched cards |
| Game.MatchedPair | src/App.jsx:39-43 | marking the cards with two different face-up ids matched changes exactly those two cards, keeps the deck good and adds two matched cards |
| Game.CompletionEffectSettles | src/App.jsx:69-72 | from a session satisfying the invariant with input locked on a waiting pair, the completion effect fires only on a complete board with the guard clear, then stops the clock and sets the guard; otherwise it changes nothing; applying it twice is applying it once; the result is settled |
| Game.SelectCardKeeps | src/App.jsx:35-72 | a click with its effects keeps the session settled, raises moves and score by at most one, never celebrates twice in a game, and celebrates only with all cards matched, the clock stopped and every pair scored |
| Game.MismatchTimeoutKeeps | src/App.jsx:47-54 | the mismatch timeout turns down exactly the cards with the two captured ids, clears the turn, unlocks input, keeps moves, score and guard, and keeps the session settled |
| Game.TickKeeps | src/App.jsx:60-67 | time advances by one exactly while the clock runs; moves, score and the completion guard are unchanged; the session stays settled |
| Game.CompletedNoTurn | src/App.jsx:69-72 | on a complete board no turn is in progress |
| Game.RestartKeeps | src/App.jsx:135-183 | restart is ignored during a choreography; on a complete board it locks input, keeps moves and score, and schedules every card, in an order that is a permutation of the deck's ids; otherwise it is `initGame`; the session stays settled |
| Game.RestartStepKeeps | src/App.jsx:150-167 | a restart step unwinds exactly the card with the next pending id, keeps score, moves and the completion guard, and keeps the session settled |
| Game.UnwindingStep | src/App.jsx:156-161 | after a restart step every card whose id left the pending list is face down and unmatched |
| Game.RestartFinishKeeps | src/App.jsx:168-175 | when the final restart step is due every card is unwound; the step is `initGame` with input unlocked, and settled |
| Game.HandleShuffleKeeps | src/App.jsx:185-255 | shuffle is ignored while input is locked; it never changes moves, score or the completion guard; otherwise it clears the turn; with face-up unmatched cards it locks input, leaves the deck as it is and schedules exactly those cards to settle; without them it reshuffles at once; the session stays settled |
| Game.SettleStart | src/App.jsx:191-203 | starting the settling choreography over the face-up unmatched cards, with the turn cleared and input locked, keeps the session settled |
| Game.ShuffleStepKeeps | src/App.jsx:203-219 | a shuffle step turns down exactly the card with the next pending id, keeps moves, score and guard, and keeps the session settled |
| Game.SettlingStep | src/App.jsx:209-214 | after a shuffle step every face-up unmatched card still has its step to come |
| Game.ShuffleFinishKeeps | src/App.jsx:221-237 | when the final shuffle step is due only matched cards are face up; the deck becomes exactly `ReshuffledDeck` of the settled deck (a permutation with every matched flag kept and exactly the matched cards shown, by `Deck.ReshuffledIsPermutation`), input and the animation flag are cleared, and the matched count, moves, score, guard and settled state are kept |
| Game.SettlingDone | src/App.jsx:221-225 | once every settling step has run, no card is face up and unmatched |
| App.MemoryGame.constructor | src/App.jsx:17-33 | the fields start as the initial session after `initGame`, which is valid |
| App.MemoryGame.InitGame | src/App.jsx:102-118 | the fields become `Game.InitGame` of the old state |
| App.MemoryGame.ResetTurn | src/App.jsx:129-133 | the fields become `Game.ResetTurn` of the old state |
| App.MemoryGame.HandleFlip | src/App.jsx:120-127 | the fields become `Game.HandleFlip` of the old state |
| App.MemoryGame.CompareEffect | src/App.jsx:35-58 | the fields become `Game.CompareEffect` of the old state |
| App.MemoryGame.CompletionEffect | src/App.jsx:69-72 | the fields become `Game.CompletionEffect` of the old state; the result tells whether the celebration fired |
| App.MemoryGame.SelectCard | src/App.jsx:314-320 | the fields become `Game.SelectCard` of the old state and stay valid; the result is true exactly when a celebration fired, and then every card is matched, the clock is stopped and all eight pairs are scored |
| App.MemoryGame.MismatchTimeout | src/App.jsx:47-54 | the fields become `Game.MismatchTimeout` of the old state and stay valid |
| App.MemoryGame.Tick | src/App.jsx:60-67 | the fields become `Game.Tick` of the old state and stay valid |
| App.MemoryGame.Restart | src/App.jsx:135-183 | the fields become `Game.Restart` of the old state and stay valid |
| App.MemoryGame.RestartStep | src/App.jsx:150-167 | the fields become `Game.RestartStep` of the old state and stay valid |
| App.MemoryGame.RestartFinish | src/App.jsx:168-175 | the fields become `Game.RestartFinish` of the old state and stay valid |
| App.MemoryGame.HandleShuffle | src/App.jsx:185-255 | the fields become `Game.HandleShuffle` of the old state and stay valid |
| App.MemoryGame.ShuffleStep | src/App.jsx:203-219 | the fields become `Game.ShuffleStep` of the old state and stay valid |
| App.MemoryGame.ShuffleFinish | src/App.jsx:221-237 | the fields become `Game.ShuffleFinish` of the old state and stay valid |

## Left out

- `flippingCards` (lines 28, 143, 153, 162-166, 173, 195, 206, 215-219 and 236) only selects a CSS animation and is read by nothing else.
- The confetti animation (lines 73-98) is a foreign library driven by `Date.now` and `requestAnimationFrame`; it is shown only as the counter `celebrations`.
- The delays (800 ms, 1000 ms, 80/60 ms stagger, 200 ms) are not modelled as durations. Each timeout is an event the caller applies; within a choreography the steps run in their scheduled order, and the final step runs once the list is empty.
- `setInterval`/`clearInterval` and the unmount cleanup (lines 32, 60-67) are reduced to `Tick`, which counts only while `running`.
- React's batching of state updates and the identity comparison of effect dependencies are left out: each event with its effects is one atomic step. The completion effect runs when the deck value changed, where React runs it on every new array. Under `Settled` the two agree, because the effect does nothing on an unchanged deck.
- `Math.random` is replaced by the choice sequences of `ValidChoices`; randomness and its distribution are not modelled.
- Rendering (lines 257-385), styling and the button wiring are not modelled, apart from one guard. The shuffle button's `disabled={isAnimating}` is subsumed by the guard in `handleShuffle`.
- FisherYates.Shuffle: its contract ties the result to `Shuffled` and does not itself state the permutation; the permutation is the lemma `ShuffledPermutes` about `Shuffled`.
