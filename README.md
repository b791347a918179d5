# UDL / DI matching game — rule layer in Dafny

The game shows six cards. Three belong to Universal Design for Learning
(tag `udl`) and three to Differentiated Instruction (tag `di`). Each card
belongs to one of three questions. The player drags cards onto drop zones
(the page is expected to show three, one per question; the markup is not
part of this model, see "## Left out"), then asks for the answers to be
checked. "Play
again" empties the zones and deals again. This project models the rules of
`script.js` once the browser is stripped away. It covers:

- the six-card deck (`Cards`);
- the in-place Fisher–Yates shuffle (`Shuffle`);
- the drop rule (`Zones`): a zone takes the dragged card only while it holds
  fewer than two cards and none with that card's tag, and a card it takes
  leaves the pool;
- the scoring of `checkAnswers` and its two text displays (`Scoring`, with
  decimal rendering in `Text`);
- a proof that every deal can be played to 3 / 3 under the drop rule
  (`Strategy`);
- the game state as a class (`MatchingGame.Game`), with fields `cards`,
  `pool` and `zones` and methods for setup, drop, check and reset.

What the model stands in for:

- **Randomness.** `Math.random()` becomes an argument. `picks[i]` is the index
  `j` drawn while the loop counter is `i`, and it must satisfy `j <= i`.
- **The dragged card.** The shared `draggedItem` becomes an argument of the
  drop: the card's position in the pool, or `None` when nothing is being
  dragged. Only cards in the card container can be dragged. Dropped copies
  are made non-draggable and carry no listeners. The model assumes that a
  `dragend` has reset `draggedItem` after every accepted drop. Without that
  reset, a later drop on a zone with no card being dragged would still see
  the stale card, and `Drop`'s `dragged` argument cannot express that.
- **Zone question ids.** These come from the page's markup, which is not part
  of this model. The constructor takes them as an argument. The lemmas that
  need zones for questions 1, 2 and 3 say so.
- **Card ids.** Each id is a constructor of `CardId`, and `IdText` gives the
  string the page uses. Zones hold cards directly, so the `cards.find`
  lookups by id are not modelled.

Two details of the code that the model keeps:

- Resetting does not rebuild the card set. It shuffles the same `cards` array
  again, so each deal starts from the previous deal's order.
- The score line always shows `/ 3` (`totalPossibleMatches`), whatever the
  number of zones.

After a reset, `addDragListeners` runs again, so each zone gets one more
`drop` listener. The model does not register listeners. Lemma
`Zones.SecondDropRefused` shows the repeats are harmless: once the first
listener has accepted a card, the same card is refused by that zone.

## Model

| member | source | states |
|---|---|---|
| Cards.CardFor | script.js:2-9 | each question 1..3 has a deck card of each tag, with that question and tag |
| Cards.DeckShape | script.js:2-9 | the deck has six cards with distinct ids, all question ids in 1..3, and no two cards share both question and tag |
| Cards.DeckUnique | script.js:2-9 | a deck card is determined by its question id and tag |
| Cards.DeckQuestion | script.js:2-9 | every deck card belongs to question 1, 2 or 3 |
| Cards.DeckHasNoDuplicates | script.js:2-9 | no card occurs twice in the deck |
| Shuffle.Swap | script.js:23 | the destructuring swap exchanges positions i and j and leaves every other position alone |
| Shuffle.ShuffledFromIsPermutation | script.js:20-25 | every remaining part of the pass keeps the length and the multiset of the elements |
| Shuffle.ShuffledIsPermutation | script.js:20-25 | the whole shuffle is a permutation of its input |
| Shuffle.ShuffleInPlace | script.js:20-25 | the in-place descending loop leaves the array equal to the specified pass over the old contents, a permutation of them |
| Zones.GuardIsAdmits | script.js:101 | the test in script.js, "fewer than two cards and `existingTypes` does not include the new tag" holds exactly when Admits holds |
| Zones.RemoveAt | script.js:107 | removing the dragged card shortens the pool by one and removes exactly that card |
| Zones.Drop | script.js:92-110 | only the target zone and the pool can change, no zone changes its question, nothing changes unless the drop is accepted, and an accepted drop takes one card off the pool |
| Zones.DropMovesCard | script.js:102-107 | an accepted card is appended to the zone and leaves the pool at the position it was dragged from |
| Zones.DropConserves | script.js:102-107 | a drop never duplicates or loses a card: pool plus zones hold the same multiset |
| Zones.PlaceKeepsZoneOk | script.js:101-106 | appending an admitted card keeps a zone at two cards or fewer with distinct tags |
| Zones.DropKeepsZonesOk | script.js:101 | drops keep every zone at two cards or fewer with pairwise distinct tags |
| Zones.RoomForOtherKind | script.js:101 | a valid zone whose tags all differ from the card's has room for it, since there are only two tags |
| Zones.SecondDropRefused | script.js:101 | a zone that has just accepted a card refuses the same card again, so the listeners added by each reset cannot place it twice |
| Zones.PlacedUpdate | script.js:106 | replacing one zone changes the cards on the zones by exactly that zone's difference |
| Zones.PlacedHas | script.js:119-121 | a card lies on the zones exactly when it lies on one of them |
| Zones.HeldWithinPlaced | script.js:121 | every zone's cards are among the cards on the zones |
| Zones.PlacedOfEmpty | script.js:154-158 | emptied zones hold no cards between them |
| Text.Show | script.js:140 | a count renders as a nonempty string of decimal digits without a leading zero |
| Text.ParseShow | script.js:140 | parsing a rendered count gives the count back |
| Text.BetweenShow | script.js:145 | a count embedded between a prefix and a suffix can be read back exactly |
| Scoring.CountCorrect | script.js:115-138 | the score never exceeds the number of zones |
| Scoring.Tally | script.js:114-138 | the loop's `score` is the number of correct zones, and `score + incorrectCount` is the number of zones |
| Scoring.AllCorrectIff | script.js:123-138 | the score equals the number of zones exactly when every zone is correct |
| Scoring.NoneCorrectIff | script.js:123-138 | the score is zero exactly when no zone is correct |
| Scoring.ScoreTextReports | script.js:140 | the score line reports the score it was made from |
| Scoring.FeedbackTextReports | script.js:141-147 | the feedback is the all-correct message exactly when `incorrectCount` is 0, and otherwise it reports `incorrectCount` |
| Scoring.ThreeZones | script.js:117-147 | with three zones, 0 <= score <= 3 = `totalPossibleMatches`, and the praise appears exactly when all three zones are correct |
| Scoring.CorrectIsTheQuestionsPair | script.js:123-128 | a zone of deck cards is correct exactly when it holds its question's udl and di cards, in either order |
| Scoring.ScenarioAllCorrect | script.js:114-143 | three correct pairs score "Score: 3 / 3" with "All answers are correct! Great job!" |
| Scoring.ScenarioOneEmpty | script.js:114-145 | one empty zone and two correct pairs score "Score: 2 / 3" with "You have 1 incorrect match(es)." |
| Strategy.PoolCardIsFree | script.js:96-107 | a card in the pool is a deck card that lies on no zone |
| Strategy.HeldCardIsDealt | script.js:96-107 | a card on a zone is a deck card |
| Strategy.SortAdmits | script.js:101 | while the cards are being sorted by question, the zone for the first pool card's question admits that card |
| Strategy.DropKeepsQuestionsApart | script.js:102-106 | dropping a card on its own question's zone keeps every zone holding only its question's cards |
| Strategy.SortStep | script.js:96-107 | that drop is accepted and the sorting invariant holds afterwards |
| Strategy.OnItsQuestionsZone | script.js:2-9 | once the pool is empty, each deck card lies on its question's zone |
| Strategy.ZoneEndsCorrect | script.js:123-128 | after sorting, each zone holds both cards of its question and is correct |
| Strategy.SortEnd | script.js:123-138 | after sorting, every zone is correct |
| Strategy.SortingWins | script.js:96-138 | from any sorting state, accepted drops alone use up the pool and give a score of 3 |
| Strategy.FreshDealIsWinnable | script.js:2-9 | every fresh deal, in any shuffled order, can be played to 3 / 3 and the all-correct message |
| MatchingGame.DropKeepsConsistent | script.js:92-110 | drops keep the state invariant: valid zones, and pool plus zones hold exactly the cards of `cards` |
| MatchingGame.Game.constructor | script.js:2-9 | the initial setup builds the declared deck and empty zones, then shuffles and deals every card into the pool |
| MatchingGame.Game.CreateCards | script.js:27-53 | `createCards` shuffles `cards` in place and deals the pool in the new order |
| MatchingGame.Game.Drop | script.js:92-110 | the drop handler changes pool and zones exactly as `Zones.Drop` specifies and keeps the invariant |
| MatchingGame.Game.CheckAnswers | script.js:114-148 | `checkAnswers` writes the score line for the number of correct zones and the feedback for the number of incorrect ones, and changes no zone and no card |
| MatchingGame.Game.ClearZones | script.js:154-158 | every zone is emptied and keeps its question |
| MatchingGame.Game.Reset | script.js:150-161 | `resetGame` clears both displays, empties every zone and re-deals the whole reshuffled deck into the pool; with zones 1..3 the result is a fresh deal |

## Left out

- The page's rendering is not modelled: element creation, `innerHTML`, `appendChild`, `cloneNode` and the card front and back text. The `name` and `description` fields are display text and are not part of `Card`.
- Event plumbing is not modelled: listener registration, `dragover` and `dragleave` highlighting, the click-to-flip toggle, and the `setTimeout`-deferred `dragged` class and `draggedItem` reset of `dragstart` and `dragend`. The dragged card is an argument of `Drop` instead.
- Presentation is not modelled: the `drag-over`, `incorrect` and `flipped` CSS classes and the feedback colours.
- `Math.random()` is replaced by the caller-supplied `picks`. Which arrangements are likely is not modelled.
- `parseInt(zone.dataset.questionId)` is not modelled: a zone's question id is an `int` field, fixed when the game is built.
- The `card1 && card2` test in `checkAnswers` is not modelled: every dropped card comes from the deck, so these lookups always succeed. Zones therefore hold cards, not ids.
- index.html is not part of this model, so the number of zones and their question ids are constructor arguments.
- MatchingGame.Game.constructor: the initial text of the score display and the feedback message comes from index.html, which the setup never writes; the model assumes both start empty.
