# Stir Fry rules engine in Dafny

A functional model of the rules engine of the card game Stir Fry. It covers:

- the card catalog: eight ingredient types, each with base points, draws on a
  protein discard, deck quantity and synergy rules;
- card instances;
- the game state, with hands, a main deck, a discard pile, one score counter
  per player and the action categories already used this turn;
- legal-action generation, with its cook recipes, powerset and
  one-pair-per-type discards;
- the three action executors: Cook, DiscardIngredient and DiscardProtein;
- the two-phase turn machine: setup, ActionPhase, DiscardPhase, the next
  turn, and the end of the game at 50 points.

The state is an immutable datatype. Every rule is a pure function on it. A
card that an action names but that is not in the current hand gives a
`Failure` result.

Modules, one per file:

- `Cards` (cards.dfy): the catalog.
- `Ingredients` (ingredients.dfy): card instances.
- `Decks` (decks.dfy): pile helpers. A draw takes the front card and an
  empty pile yields nothing.
- `GameState` (game_state.dfy): the state, score counters, copies and card
  accounting.
- `Actions` (actions.dfy): the action values and their equality.
- `Cooking` (cook.dfy): the Cook executor.
- `Discarding` (discard_actions.dfy): the discard executors.
- `Subsets` (subsets.dfy): the powerset and a fixed listing of type sets.
- `LegalActions` (legal_actions.dfy): the action list for a state.
- `ForwardModel` (forward_model.dfy): setup, dispatch, the after-action
  phase machine, and whole-game invariants.
- `Wrappers` (wrappers.dfy): `Option` and `Result`.

Cook scoring is modelled exactly as written. A synergy condition fails as
soon as *any* card of the current hand differs from it. The scored card is
still in the hand when its synergies are checked, and no synergy names its
own type. So no synergy ever fires, and every cooked card scores exactly its
base points. `Cooking.ScoresBaseWhileInHand` proves this. Cooking Shrimp,
Ginger and Noodles therefore scores 6 + 2 + 1 = 9, not the 12 that a
synergy (Shrimp with Ginger) would give
(`ForwardModel.ShrimpGingerNoodlesScoresNine`).

Ending the game follows the code. A Pass in ActionPhase only switches to
DiscardPhase and returns before the 50-point check. The check runs only
after a Pass in DiscardPhase.

## Model

| member | source | states |
|---|---|---|
| Cards.AllTypes | src/main/java/games/stirfry18/components/SF18Card.java:3-11 | there are exactly eight card types, all distinct |
| Cards.AllTypesComplete | src/main/java/games/stirfry18/components/SF18Card.java:3-11 | every card type occurs in the catalog listing |
| Cards.DisplayName | src/main/java/games/stirfry18/components/SF18Card.java:37-39 | the display name of a type is never empty and differs from the constant name that the type prints as |
| Cards.DisplayNameIdentifiesType | src/main/java/games/stirfry18/components/SF18Card.java:4-11 | two types share a display name iff they are the same type |
| Cards.BasePoints | src/main/java/games/stirfry18/components/SF18Card.java:4-11 | every type is worth at least one base point |
| Cards.DiscardCardDraws | src/main/java/games/stirfry18/components/SF18Card.java:4-11 | draws on discard are positive exactly for the proteins, and are 4 for Shrimp, 3 for Pork and 2 for Chicken |
| Cards.Quantity | src/main/java/games/stirfry18/components/SF18Card.java:4-11 | every type has at least one copy in the deck |
| Cards.Synergies | src/main/java/games/stirfry18/components/SF18Card.java:26-35 | only Noodles has no synergies; every synergy has one or two conditions, never names its own type, and is worth strictly more than the type's base points |
| Cards.DeckSizeIsEighteen | src/main/java/games/stirfry18/components/SF18Card.java:4-11 | the quantities of the eight types add up to an 18-card deck |
| Ingredients.Card.GetCardType | src/main/java/games/stirfry18/components/IngredientCard.java:21-33 | the type returned is the one the card was built with |
| Ingredients.Card.Copy | src/main/java/games/stirfry18/components/IngredientCard.java:41-44 | a copy keeps both the identifier and the type |
| Ingredients.NewCard | src/main/java/games/stirfry18/components/IngredientCard.java:26-29 | a card built with an explicit identifier has that identifier and type |
| Ingredients.Card.ToString | src/main/java/games/stirfry18/components/IngredientCard.java:37-39 | a card prints as its type's constant name, and that name determines the type |
| Ingredients.Card.Equals | src/main/java/games/stirfry18/components/IngredientCard.java:46-50 | a card equals another iff the two are the same value: same identifier and same type |
| Ingredients.ToStringIgnoresId | src/main/java/games/stirfry18/components/IngredientCard.java:37-39 | two cards of one type print the same whatever their identifiers |
| Ingredients.EqualsIsIdentity | src/main/java/games/stirfry18/components/IngredientCard.java:46-50 | card equality holds iff identifier and type agree, so equal cards share their type |
| Decks.Draw | src/main/java/games/stirfry18/actions/DiscardIngredient.java:41-44 | a draw from an empty pile yields nothing; otherwise it yields the front card and leaves the rest |
| Decks.DrawUpTo | src/main/java/games/stirfry18/actions/DiscardIngredient.java:40-46 | drawing up to k cards moves the first min(k, deck size) deck cards to the end of the hand, stopping when the deck runs dry |
| Decks.DrawUpToConserves | src/main/java/games/stirfry18/actions/DiscardIngredient.java:40-46 | drawing neither creates nor loses cards |
| Decks.RemoveFirst | src/main/java/games/stirfry18/actions/Cook.java:53 | removing a card present in a pile cuts out its first occurrence and keeps the other cards in their order, so exactly one copy leaves; removing an absent card changes nothing |
| Decks.FirstIndex | src/main/java/games/stirfry18/actions/Cook.java:53 | the position that removal by value cuts at holds the card |
| Decks.FirstIndexIsFirst | src/main/java/games/stirfry18/actions/Cook.java:53 | no earlier position holds the card, so removal by value takes its first occurrence |
| Decks.FindById | src/main/java/games/stirfry18/actions/DiscardProtein.java:28 | the lookup finds a card of the pile with that identifier, and fails iff no card of the pile has it |
| Decks.IndexOfType | src/main/java/games/stirfry18/SF18ForwardModel.java:149 | the position found is the first card of the type; none is found iff the type is absent |
| Decks.WithIds | src/main/java/games/stirfry18/actions/Cook.java:32-33 | the selected cards are exactly the pile's cards whose identifiers are named, with no card gained |
| Decks.WithoutIds | src/main/java/games/stirfry18/actions/Cook.java:53 | the kept cards are exactly the pile's cards whose identifiers are not named, with no card gained |
| Decks.SplitByIds | src/main/java/games/stirfry18/actions/Cook.java:32-53 | the named and the unnamed cards together make up the pile exactly, as multisets |
| GameState.TypesOf | src/main/java/games/stirfry18/SF18GameState.java:59-67 | the type list has one entry per card, position by position |
| GameState.CardTypeInHand | src/main/java/games/stirfry18/SF18GameState.java:59-67 | a player's type list is as long as their hand, and entry i is the type of card i |
| GameState.AddPlayerScore | src/main/java/games/stirfry18/SF18GameState.java:82-84 | only player p's counter changes, by exactly the amount, and the score read back reflects it |
| GameState.GameScoreAfterAdd | src/main/java/games/stirfry18/SF18GameState.java:209-213 | the score read for a player is their counter: after adding to player p, p's score rises by the amount and every other player's score reads as before |
| GameState.CopyCards | src/main/java/games/stirfry18/SF18GameState.java:135 | a card-by-card copy of a pile equals the original pile |
| GameState.CopyHands | src/main/java/games/stirfry18/SF18GameState.java:129-133 | copying every hand yields the same hands |
| GameState.FullCopy | src/main/java/games/stirfry18/SF18GameState.java:122-180 | the fully observable copy equals the original: same scores, hands, piles and turn memory, with no reshuffle |
| GameState.AllComponents | src/main/java/games/stirfry18/SF18GameState.java:93-102 | 2n + 2 components: a hand and a score per player, then the main deck and the discard pile |
| GameState.MoveToDiscard | src/main/java/games/stirfry18/actions/DiscardProtein.java:29-30 | a hand card goes to the end of the discard pile; the hand loses its first copy of that card and keeps the rest in order; other hands stay, and no card is gained or lost |
| GameState.DrawCards | src/main/java/games/stirfry18/SF18ForwardModel.java:200 | a player draws the first min(k, deck size) deck cards onto their hand; no card is gained or lost |
| Actions.Equals | src/main/java/games/stirfry18/actions/Cook.java:73-76 | action equality is value equality |
| Actions.DiscardIngredientIsOrdered | src/main/java/games/stirfry18/actions/DiscardIngredient.java:63-66 | a pair discard equals its swapped version iff both identifiers are the same: the pair is ordered |
| Actions.CookEqualityIsSetEquality | src/main/java/games/stirfry18/actions/Cook.java:73-76 | two Cooks are equal iff their ingredient identifier sets are equal |
| Cooking.BestPoints | src/main/java/games/stirfry18/actions/Cook.java:38-49 | the best value is at least the base, at least every satisfied synergy, and is either the base or one satisfied synergy's points |
| Cooking.SynergyHolds | src/main/java/games/stirfry18/actions/Cook.java:39-45 | a synergy holds trivially on an empty hand; when it holds on a hand, every card of that hand has the type of its first condition |
| Cooking.CardPoints | src/main/java/games/stirfry18/actions/Cook.java:34-50 | a type without synergies scores its base; otherwise it scores the maximum of its base and its satisfied synergies |
| Cooking.NoSynergyWhileInHand | src/main/java/games/stirfry18/actions/Cook.java:39-45 | while the scored card is still in the hand, none of its type's synergies is satisfied |
| Cooking.ScoresBaseWhileInHand | src/main/java/games/stirfry18/actions/Cook.java:34-53 | every card scored while still in the hand scores exactly its base points |
| Cooking.SumBase | src/main/java/games/stirfry18/actions/Cook.java:31-54 | a cook's base total is at least its number of cards, so it is never negative |
| Cooking.CookLoop | src/main/java/games/stirfry18/actions/Cook.java:32-54 | the loop appends the cooked cards to the discard pile in order, and totals at least their base points |
| Cooking.CookLoopKeeps | src/main/java/games/stirfry18/actions/Cook.java:32-53 | cooking the named cards in hand order leaves exactly the unnamed hand cards, in their order |
| Cooking.CookLoopSkips | src/main/java/games/stirfry18/actions/Cook.java:53 | a hand card that is not cooked is never removed and keeps its place |
| Cooking.CookLoopTakes | src/main/java/games/stirfry18/actions/Cook.java:34-53 | when every cooked card is in the hand, the loop removes exactly those cards from it and totals exactly their base points |
| Cooking.ExecuteCook | src/main/java/games/stirfry18/actions/Cook.java:27-58 | Cook succeeds iff every identifier names a hand card. It then moves those cards to the discard pile, leaves the other hand cards in their order, raises only the current player's score by their base total, records Cook, and conserves the cards |
| Cooking.CookConserves | src/main/java/games/stirfry18/actions/Cook.java:52-53 | moving the cooked cards from the hand to the discard pile neither creates nor loses cards |
| Discarding.ExecuteDiscardIngredient | src/main/java/games/stirfry18/actions/DiscardIngredient.java:33-48 | succeeds iff both identifiers name distinct hand cards. The two cards go to the discard pile in order, the player draws min(3, deck size), DiscardIngredients is recorded, the rest of the state is unchanged, and cards are conserved |
| Discarding.ShedTwo | src/main/java/games/stirfry18/actions/DiscardIngredient.java:35-46 | the current hand loses the two shed cards in order and draws up to three cards from the front of the draw pile, DiscardIngredients is recorded, everything else is kept, and cards are conserved |
| Discarding.DiscardTwoConserves | src/main/java/games/stirfry18/actions/DiscardIngredient.java:36-46 | discarding two hand cards and drawing up to three conserves the cards in play |
| Discarding.ExecuteDiscardProtein | src/main/java/games/stirfry18/actions/DiscardProtein.java:25-40 | succeeds iff the identifier names a hand card. The card goes to the discard pile, the player draws min(discard draws of its type, deck size), DiscardProtein is recorded, the rest of the state is unchanged, and cards are conserved |
| Discarding.ShedOne | src/main/java/games/stirfry18/actions/DiscardProtein.java:27-38 | the current hand loses the shed card and draws up to k cards from the front of the draw pile, the category is recorded, everything else is kept, and cards are conserved |
| Discarding.DiscardOneConserves | src/main/java/games/stirfry18/actions/DiscardProtein.java:29-38 | discarding one hand card and drawing up to k cards conserves the cards in play |
| Discarding.ExecuteDiscard | src/main/java/games/stirfry18/SF18ForwardModel.java:133-138 | a Discard succeeds iff the identifier names a card of the current hand; that card moves to the end of the discard pile, the hand loses its first copy and keeps the rest in order, and the cards in play are conserved |
| Subsets.PowersetExact | src/main/java/games/stirfry18/SF18ForwardModel.java:159-176 | the recursive subset construction yields exactly the subsets of its argument |
| Subsets.PowersetHasEnds | src/main/java/games/stirfry18/SF18ForwardModel.java:160-161 | the set itself and the empty set are always among its subsets |
| Subsets.IngredientSubsets | src/main/java/games/stirfry18/SF18ForwardModel.java:159-176 | the subsets computed for a set include the set itself and the empty set, and every one of them is contained in the set |
| Subsets.SubsetSeqDistinct | src/main/java/games/stirfry18/SF18ForwardModel.java:121-122 | the fixed listing of subsets of distinct types has no repeated entry |
| Subsets.SubsetSeqExact | src/main/java/games/stirfry18/SF18ForwardModel.java:121-122 | the fixed listing of subsets holds exactly the subsets of the listed types |
| Subsets.Keep | src/main/java/games/stirfry18/SF18ForwardModel.java:122-126 | filtering a listing keeps exactly the listed sets that were chosen, and a listing without repeats stays without repeats |
| Subsets.Enumerate | src/main/java/games/stirfry18/SF18ForwardModel.java:121-122 | iterating a set of type sets visits exactly its members, each exactly once |
| LegalActions.Partner | src/main/java/games/stirfry18/SF18ForwardModel.java:94-101 | the scan finds the first other card of the same type, and finds none iff no such card follows |
| LegalActions.PairOf | src/main/java/games/stirfry18/SF18ForwardModel.java:92-104 | the representative pair is two different cards of the type, led by the type's first card; none exists iff all cards of that type are the same card |
| LegalActions.PairScan | src/main/java/games/stirfry18/SF18ForwardModel.java:94-101 | a card whose type already has a pair adds nothing; otherwise it adds one pair with its first partner, if it has one |
| LegalActions.ScanHand | src/main/java/games/stirfry18/SF18ForwardModel.java:85-106 | the hand loop offers only protein discards and pair discards (its full result is fixed by `LegalActions.ScanMatchesReference`) |
| LegalActions.ScanMatchesReference | src/main/java/games/stirfry18/SF18ForwardModel.java:85-106 | the stateful scan over the hand produces exactly the per-card reference offers |
| LegalActions.OfferedPairSource | src/main/java/games/stirfry18/SF18ForwardModel.java:92-104 | every offered pair discard is the representative pair of some type, and none is offered once DiscardIngredients is used |
| LegalActions.OfferedPairComplete | src/main/java/games/stirfry18/SF18ForwardModel.java:92-104 | every non-protein type with two different cards gets its representative pair offered |
| LegalActions.OfferedProteins | src/main/java/games/stirfry18/SF18ForwardModel.java:87-91 | a protein discard is offered iff DiscardProtein is unused and a protein card with that identifier is in the hand |
| LegalActions.FirstOfType | src/main/java/games/stirfry18/SF18ForwardModel.java:149 | the card picked for a type is the first card of that type in the hand |
| LegalActions.RecipeIds | src/main/java/games/stirfry18/SF18ForwardModel.java:147-151 | a recipe names only identifiers of hand cards, and names none iff its type set is empty |
| LegalActions.AddCookRecipe | src/main/java/games/stirfry18/SF18ForwardModel.java:146-157 | adds the recipe's Cook at the end unless an equal Cook is already listed; repeated Cooks never appear |
| LegalActions.AddCookRecipes | src/main/java/games/stirfry18/SF18ForwardModel.java:120-127 | the Cooks added are exactly those of the size-5 recipes that contain Noodles, without repeats |
| LegalActions.CookOptions | src/main/java/games/stirfry18/SF18ForwardModel.java:110-130 | Cooks are added iff Cook is unused and Noodles is in the hand, and they are exactly the recipe Cooks for the hand's types |
| LegalActions.TypesOfElements | src/main/java/games/stirfry18/SF18ForwardModel.java:114 | the distinct types of the hand's type list are the hand's type set |
| LegalActions.ComputeAvailableActions | src/main/java/games/stirfry18/SF18ForwardModel.java:80-144 | ActionPhase lists end with Pass. In DiscardPhase, a hand over three cards gets one Discard per card and no Pass; otherwise the only action is Pass |
| LegalActions.ActionPhaseShape | src/main/java/games/stirfry18/SF18ForwardModel.java:84-131 | the ActionPhase list is the discard offers, then the Cook options, then Pass |
| LegalActions.ProteinDiscardOffered | src/main/java/games/stirfry18/SF18ForwardModel.java:87-91 | DiscardProtein(id) is offered iff it is ActionPhase, DiscardProtein is unused, and a protein card with that identifier is in the current hand |
| LegalActions.PairDiscardOffered | src/main/java/games/stirfry18/SF18ForwardModel.java:92-104 | a pair discard is offered iff it is ActionPhase, DiscardIngredients is unused, and it is the representative pair of some type |
| LegalActions.PairsOnePerType | src/main/java/games/stirfry18/SF18ForwardModel.java:98-101 | two offered pair discards always belong to different types |
| LegalActions.CookOffered | src/main/java/games/stirfry18/SF18ForwardModel.java:110-130 | a Cook is offered iff it is ActionPhase, Cook is unused, Noodles is in the hand, and it is a recipe Cook for the hand |
| LegalActions.CooksNotRepeated | src/main/java/games/stirfry18/SF18ForwardModel.java:153-156 | no two equal Cooks are ever offered |
| LegalActions.OneCookForFewTypes | src/main/java/games/stirfry18/SF18ForwardModel.java:115-119 | with three to five distinct types, exactly one Cook is offered, covering all of them |
| LegalActions.NoCookForFewerThanThree | src/main/java/games/stirfry18/SF18ForwardModel.java:115 | with fewer than three distinct types, no Cook is offered |
| LegalActions.CooksForManyTypes | src/main/java/games/stirfry18/SF18ForwardModel.java:120-127 | with more than five distinct types, the Cooks offered are exactly those of the size-5 type sets containing Noodles |
| LegalActions.FirstIdsDiffer | src/main/java/games/stirfry18/SF18ForwardModel.java:148-151 | the cards picked for two different types have different identifiers |
| LegalActions.RecipeIdsCount | src/main/java/games/stirfry18/SF18ForwardModel.java:146-151 | a recipe names one card per type: as many identifiers as types |
| LegalActions.RecipeCards | src/main/java/games/stirfry18/SF18ForwardModel.java:146-151 | a hand card is in a recipe iff its type is in the recipe and it is the first card of its type |
| ForwardModel.Copies | src/main/java/games/stirfry18/SF18ForwardModel.java:54-56 | n fresh cards of one type with consecutive identifiers |
| ForwardModel.Stock | src/main/java/games/stirfry18/SF18ForwardModel.java:53-57 | the stock has the catalog's total quantity of cards, with consecutive identifiers |
| ForwardModel.FullDeck | src/main/java/games/stirfry18/SF18ForwardModel.java:53-57 | the full deck has 18 cards and card i has identifier i |
| ForwardModel.CountOfStock | src/main/java/games/stirfry18/SF18ForwardModel.java:53-57 | the stock holds each listed type exactly its quantity times |
| ForwardModel.FullDeckCounts | src/main/java/games/stirfry18/SF18ForwardModel.java:53-57 | the full deck holds each type exactly its quantity times, and its identifiers are unique |
| ForwardModel.Deal | src/main/java/games/stirfry18/SF18ForwardModel.java:61-68 | dealing yields one hand per player, keeps the hands already dealt, and conserves the cards |
| ForwardModel.DealSizes | src/main/java/games/stirfry18/SF18ForwardModel.java:62-66 | when the deck suffices, every new hand gets three cards and the deck shrinks by three per player |
| ForwardModel.Setup | src/main/java/games/stirfry18/SF18ForwardModel.java:40-73 | after setup the cards in play are the 18-card deck. With up to six players each hand holds 3 cards and the main deck 18 - 3n. All scores are 0, the discard pile and turn memory are empty, and player 0 starts in ActionPhase |
| ForwardModel.DealFrom | src/main/java/games/stirfry18/SF18ForwardModel.java:61-72 | dealing from a shuffled 18-card deck gives the setup state over exactly those cards |
| ForwardModel.Execute | src/main/java/games/stirfry18/actions/Cook.java:27-58 | dispatches each action to its executor. A successful action keeps the phase, the status and validity, and conserves cards. Cook, DiscardIngredient and DiscardProtein each record their own category, and no action forgets a recorded category. Pass changes nothing |
| ForwardModel.AfterAction | src/main/java/games/stirfry18/SF18ForwardModel.java:178-209 | non-Pass actions change nothing. Pass clears the turn memory; from ActionPhase it only switches to DiscardPhase. From DiscardPhase in an ongoing game it recycles the discard pile, lets the next player draw one card and hands them the turn in ActionPhase. The game ends iff it had ended or some score reaches 50. Scores and cards are never changed |
| ForwardModel.NextTurn | src/main/java/games/stirfry18/SF18ForwardModel.java:195-202 | the discard pile is merged into the deck and emptied, the next player (old + 1 mod n) draws one card if any is left and moves to ActionPhase, and other hands are unchanged |
| ForwardModel.Step | src/main/java/games/stirfry18/SF18ForwardModel.java:178-209 | executing then post-processing succeeds iff the action does, and conserves cards; a move other than Pass keeps every recorded category, and Pass clears them all |
| ForwardModel.UsedCategoryNotOffered | src/main/java/games/stirfry18/SF18ForwardModel.java:88-110 | no action of a category already used this turn is offered |
| ForwardModel.OncePerTurn | src/main/java/games/stirfry18/SF18ForwardModel.java:85-110 | after an action of some category succeeds, no action of that category is offered again in any state reached by further moves that do not Pass |
| ForwardModel.CategoryKept | src/main/java/games/stirfry18/SF18ForwardModel.java:180-186 | a recorded category stays recorded through any sequence of moves without a Pass |
| ForwardModel.OfferedActionsSucceed | src/main/java/games/stirfry18/SF18ForwardModel.java:80-144 | every action offered in a state executes successfully in it |
| ForwardModel.OfferedCookSucceeds | src/main/java/games/stirfry18/SF18ForwardModel.java:146-151 | an offered Cook names only identifiers of cards in the current hand, so it executes successfully |
| ForwardModel.OfferedPairSucceeds | src/main/java/games/stirfry18/SF18ForwardModel.java:92-104 | an offered pair discard names two different cards of the current hand, so it executes successfully |
| ForwardModel.OfferedProteinSucceeds | src/main/java/games/stirfry18/SF18ForwardModel.java:87-91 | an offered protein discard names a card of the current hand, so it executes successfully |
| ForwardModel.OfferedDiscardSucceeds | src/main/java/games/stirfry18/SF18ForwardModel.java:133-138 | an offered end-of-turn Discard names a card of the current hand, so it executes successfully |
| ForwardModel.NoDiscardInActionPhase | src/main/java/games/stirfry18/SF18ForwardModel.java:84-131 | no end-of-turn Discard is offered in ActionPhase |
| ForwardModel.HandsHaveUniqueIds | src/main/java/games/stirfry18/SF18ForwardModel.java:53-57 | while the cards in play are the full deck, no hand holds two cards with one identifier |
| ForwardModel.Replay | src/main/java/games/stirfry18/SF18ForwardModel.java:178-209 | a successful sequence of steps keeps the state well formed and conserves cards |
| ForwardModel.PlayKeepsDeck | src/main/java/games/stirfry18/SF18ForwardModel.java:40-73 | after setup and any sequence of successful steps, the cards in play are exactly the 18-card deck and every hand has unique identifiers |
| ForwardModel.ShrimpGingerNoodlesScoresNine | src/main/java/games/stirfry18/actions/Cook.java:27-58 | cooking Shrimp, Ginger and Noodles from a hand of exactly those scores 9 and empties the hand |

## Left out

- Randomness. The setup shuffle and the end-of-turn reshuffle are a caller-supplied function that must preserve the cards as a multiset. The seeded generator itself is not modelled.
- Redeterminisation in the partially observable copy (`_copy` with a player other than -1). It reshuffles hidden information through a library that is not part of this model. Only the fully observable copy is modelled.
- The heuristic score (floating point), `hashCode`, and every `toString`/`getString` of states and actions. These are formatting or hashing with no rule content.
- The score counter's clamping at its bounds, and the round limit set at setup. Both live in framework classes that are not part of this model. Scores are unbounded integers.
- The framework pile class is not part of this model. Drawing takes the front card and adding appends at the end. When the deck is empty, the source adds a `null` draw into a hand (at setup and at the end of a turn); the model adds nothing.
- `Pass`, `Discard` and the category enumeration are not part of this model. `Pass` is taken to be the do-nothing action that the after-action step tests for. `Discard` is taken to move the named hand card to the discard pile (`Discarding.ExecuteDiscard`).
- `endPlayerTurn` and `endGame` are modelled only as setting the current player and the game status.
- Cards named by an action are looked up in the current hand. The source looks them up in a global component registry. The model reports a failure where the source would act on a card outside the hand. The engine never offers such an action (`ForwardModel.OfferedActionsSucceed`).
- Discarding.ExecuteDiscardIngredient: a pair naming the same card twice fails. The source would put that card on the discard pile twice. The engine never offers such a pair.
- Cooking.ExecuteCook: the cooked cards are processed in hand order. The source iterates a hash set, whose order is unspecified. The discard pile's order may differ; the score does not.
- Subsets.Enumerate: iteration over a hash set of type sets is modelled by one fixed order. The source's order, and so the order of Cook actions for hands of more than five types, is unspecified.
- More than six players: setup is modelled, but the three-cards-each guarantee is stated only for up to six players. The 18-card deck does not suffice beyond that.
- Component identifiers are modelled as 0 to 17 in catalog order. The framework assigns them globally.
- The user interface, metrics and the parameters class (a data path only).
