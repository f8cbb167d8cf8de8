# Klondike Solitaire engine — a verified model

This project models the engine of a single-player Klondike Solitaire game:
- the deck and its shuffle;
- the deal onto seven tableau piles;
- drawing from the stock onto the waste, and turning the waste over;
- the two move validators (foundation and tableau);
- the card locator;
- the board's handlers: click to select or move, double-click to send a card to a foundation, draw, restart and the win effect.

The model is in Dafny. The game state is a value: stock (`deck`), waste, four foundations, seven tableau piles, move and score counters and the win flag. Each handler is a function from the old state to the new one. The board component is a class whose fields (the state and the current selection) its methods update in place. Each method is proved to produce exactly what its specification function describes.

Beyond the handlers' exact effects, the model proves these facts.
- The foundation validator accepts exactly the cards that keep a foundation built from Ace to King in one suit.
- A new deal holds every card of the deck once. It places exactly the cards the deal pops from the shuffled deck.
- Every handler keeps a consistency invariant: ordered piles, a face-up waste, a face-down stock, no card twice, and the win flag only when the game is won.
- Drawing and recycling lose no card. Recycling then drawing the whole stock restores the waste.
- A won game is final, though play never reaches one (see below).
- The move count and the score never decrease, and the win flag is never cleared.
- The automatic move takes the first accepting foundation in suit order, and agrees with the equivalent click move.

The source as written has three surprising behaviours, and the model keeps all of them:
- A waste card moved onto a tableau pile is filtered out of the waste but placed nowhere, so it leaves the game (`Moves.WasteToTableauLosesCard`).
- With a card selected, a click on an empty tableau pile makes the click handler look the card up in that pile, get position -1, and read the card at position -1 (`tableau[-1]`). That read yields no card, so the handler throws (`Play.ClickThrowsExactly`).
- No game can be won:
  - The click handler returns early unless the clicked card is already face up, so its flip of a face-down tableau card never happens (`Play.ClickNeverFlips`).
  - Both validators refuse face-down cards, and a block move starts at a face-up card.
  - So every action keeps the number of face-down cards on each tableau pile (`Progress.StepKeepsHidden`).
  - A won game would have none, yet the deal leaves one on pile 1 and more on the later piles. So no sequence of board actions from a deal reaches a win (`Progress.NoPlayFromADealWins`).
  - The facts proved about won games therefore hold only of states that play never reaches.

Randomness is a parameter. `picks[i]` is the index `Math.floor(Math.random() * (i + 1))` that the shuffle draws at step `i`.

Modules, in dependency order:
- `Cards`: suits, values, cards, identifiers.
- `State`: the game state and its identifier multiset.
- `Deck`: `createDeck`, `shuffleDeck`.
- `Rules`: validators and the win test.
- `Locator`: `findCardById`.
- `Invariants`: the consistency invariant.
- `Stock`: `drawCard`.
- `Dealing`: `initializeGame`.
- `Moves`: `tryMoveCard`, `tryAutoMoveToFoundation`.
- `Play`: `handleSelectCard`, the win effect.
- `Progress`: sequences of board actions from a deal.
- `Game`: the board component.

## Model

| member | source | states |
|---|---|---|
| Cards.ValueIndex | src/components/solitaire/GameLogic.ts:119-122 | the rank index is the first position of the value in the rank table (A = 0 … K = 12) |
| Cards.SuitIndex | src/components/solitaire/GameLogic.ts:50 | the suit's position in the suit order hearts, diamonds, clubs, spades |
| Deck.Swap | src/components/solitaire/GameLogic.ts:76 | the exchange of two positions: they trade elements and every other position is unchanged |
| Deck.SwapPermutes | src/components/solitaire/GameLogic.ts:76 | an exchange keeps the length and the multiset of the sequence |
| Deck.FisherYatesPermutes | src/components/solitaire/GameLogic.ts:71-80 | the shuffle's swaps from the last position down to position 1 give a permutation of the input |
| Deck.IdentityPicksKeepOrder | src/components/solitaire/GameLogic.ts:74-77 | when every draw picks the position itself, the shuffle leaves the deck as it was |
| Deck.ShuffleDeck | src/components/solitaire/GameLogic.ts:71-80 | the in-place loop on a copy of the deck yields the Fisher–Yates shuffle of the input with the given draws: same length, same cards |
| Deck.CreateDeck | src/components/solitaire/GameLogic.ts:53-68 | the shuffled deck of 52 face-down cards, 13 values of each suit, as a permutation of the suit-by-suit, value-by-value deck |
| Deck.FullBagHasEachCardOnce | src/components/solitaire/GameLogic.ts:53-65 | every (value, suit) identifier occurs exactly once in a full deck |
| Deck.CanonicalDeckFaceDown | src/components/solitaire/GameLogic.ts:58-63 | every created card is face down |
| Deck.ShuffledDeck | src/components/solitaire/GameLogic.ts:53-80 | a created deck holds 52 face-down cards whose identifiers form the full deck |
| Rules.FoundationAcceptsExactlyNext | src/components/solitaire/GameLogic.ts:125-143 | on a well-built foundation the validator accepts a card if and only if the pile with it is still built by the rules (an Ace on an empty pile, else the next value of the same suit, face up) |
| Rules.SuitRun | src/components/solitaire/GameLogic.ts:35-49 | the complete suit: 13 cards of the given suit, the k-th of rank k in the rank table, forming a well-built foundation |
| Rules.FoundationAtMostOneSuit | src/components/solitaire/GameLogic.ts:125-143 | a well-built foundation never exceeds 13 cards, and at 13 it is one suit in order |
| Rules.FullFoundationAcceptsNothing | src/components/solitaire/GameLogic.ts:135-142 | no card follows a King on a foundation |
| Rules.TableauAcceptsBlock | src/components/solitaire/GameLogic.ts:146-168 | a well-ordered block whose first card the tableau validator accepts keeps the target pile well ordered: above each face-up card, only face-up cards of strictly lower rank |
| Rules.NoMoveOntoOwnPile | src/components/solitaire/GameLogic.ts:146-168 | no card of a well-ordered pile is accepted on that pile itself |
| Rules.TableauOrderedPieces | src/components/solitaire/GameLogic.ts:146-168 | prefixes, suffixes and one-card removals of a well-ordered pile stay well ordered |
| State.With | src/components/solitaire/GameLogic.ts:26 | replacing one foundation pile changes that pile and no other |
| State.TableauBagMoveBlock | src/components/solitaire/Game.tsx:157-177 | splitting one pile and appending its top part to another keeps the tableau's identifiers |
| Locator.IndexOfId | src/components/solitaire/GameLogic.ts:213-251 | the first position holding the identifier, or -1 exactly when the pile lacks it |
| Locator.FindInTableau | src/components/solitaire/GameLogic.ts:223-236 | the first tableau pile, in order, holding the identifier, with its first position; not found only when no pile holds it |
| Locator.FindInFoundations | src/components/solitaire/GameLogic.ts:238-251 | the first foundation in suit order holding the identifier, with its first position; not found only when none holds it |
| Locator.FindCardById | src/components/solitaire/GameLogic.ts:203-254 | waste, then tableau piles 0 to 6, then foundations in suit order: the reported card is at the reported position, no earlier pile holds the identifier, and not found means no pile except the stock holds it |
| Locator.Locate | src/components/solitaire/GameLogic.ts:203-254 | the locator's loops over waste, tableau and foundations return exactly the search described above |
| Invariants.PilesInBag | src/components/solitaire/GameLogic.ts:23-33 | each pile, and any two distinct piles together, lie inside the state's identifier multiset |
| Invariants.UniqueLocation | src/components/solitaire/GameLogic.ts:19-33 | in a consistent state an identifier sits at one position of one pile at most |
| Invariants.StockCardIsNotFound | src/components/solitaire/GameLogic.ts:203-254 | the locator never reports a card that lies in the stock |
| Invariants.FoundCardIsTheOnlyOne | src/components/solitaire/GameLogic.ts:203-254 | in a consistent state any card outside the stock is exactly what the locator reports for its identifier |
| Invariants.WonGameHasOnlyFoundations | src/components/solitaire/GameLogic.ts:171-176 | once every foundation holds 13 cards, stock, waste and tableau are empty and the foundations hold the whole deck |
| Invariants.WonGameHasEveryCardOnFoundations | src/components/solitaire/GameLogic.ts:171-176 | at a win each foundation is one complete suit in order, and no two foundations hold the same suit |
| Stock.DrawCard | src/components/solitaire/GameLogic.ts:179-200 | the draw on values equals the draw specification: pop or recycle |
| Stock.DrawFromStock | src/components/solitaire/GameLogic.ts:192-199 | with cards in the stock, the last one goes face up on top of the waste and one move is counted; nothing else changes |
| Stock.RecycleWaste | src/components/solitaire/GameLogic.ts:182-189 | with the stock empty, the stock becomes the reversed waste face down, the waste empties and no move is counted |
| Stock.TurnedOverIds | src/components/solitaire/GameLogic.ts:184-186 | turning the waste over keeps its identifiers |
| Stock.DrawConservesCards | src/components/solitaire/GameLogic.ts:179-200 | a draw only moves identifiers between stock and waste |
| Stock.DrawKeepsConsistent | src/components/solitaire/GameLogic.ts:179-200 | a draw keeps a consistent state consistent |
| Stock.DrawingRebuildsWaste | src/components/solitaire/GameLogic.ts:179-200 | drawing a turned-over stock to the end rebuilds the waste it came from, one move per card |
| Stock.RecycleThenDrawAllRestoresWaste | src/components/solitaire/GameLogic.ts:179-200 | a recycle followed by one draw per waste card restores the waste, empties the stock, and counts only the draws |
| Dealing.DealOneCard | src/components/solitaire/GameLogic.ts:90-99 | popping one card onto pile `i` advances the deal by one step and keeps the identifiers |
| Dealing.DealOneCardFrom | src/components/solitaire/GameLogic.ts:90-99 | each dealt card is the card at the expected position of the shuffled deck |
| Dealing.NextPile | src/components/solitaire/GameLogic.ts:90-91 | after `i + 1` cards, the deal moves on to pile `i + 1` |
| Dealing.DealStepKeepsCards | src/components/solitaire/GameLogic.ts:92-96 | moving the last stock card onto a pile keeps the identifiers of stock and tableau together |
| Dealing.DealtGameIsConsistent | src/components/solitaire/GameLogic.ts:101-116 | a dealt layout with the whole deck is consistent and holds the full deck |
| Dealing.InitializeGame | src/components/solitaire/GameLogic.ts:83-117 | pile `p` has `p + 1` cards, only the last face up; 24 face-down cards stay as the stock, which is the first 24 of the shuffled deck; each tableau card is the card the pops take from the shuffled deck; the state is consistent with every card once; waste and foundations are empty; the counters are zero |
| Moves.RemoveId | src/components/solitaire/Game.tsx:124-135 | the filter by identifier leaves no card with it, keeps only cards of the pile, and changes nothing when the identifier is absent |
| Moves.RemoveIdKeepsOthers | src/components/solitaire/Game.tsx:124-135 | the filter drops every card with the identifier and keeps every other card exactly as often as the pile holds it |
| Moves.RemoveIdAppend | src/components/solitaire/Game.tsx:124-135 | filtering a pile made of two parts filters each part in place, so the kept cards stay in their order |
| Moves.RemoveIdSingle | src/components/solitaire/Game.tsx:124-135 | a single card is dropped exactly when it carries the identifier |
| Moves.RemoveIdUnique | src/components/solitaire/Game.tsx:124-135 | with the identifier held once, the filter removes exactly that card |
| Moves.PileHoldsIdOnce | src/components/solitaire/Game.tsx:124-135 | in a consistent state each pile holds each identifier once at most |
| Moves.AutoTarget | src/components/solitaire/Game.tsx:195-222 | the first foundation in suit order accepting the card; none exactly when no foundation accepts it |
| Moves.AutoTargetIsFirst | src/components/solitaire/Game.tsx:195-222 | an accepting foundation with no accepting foundation before it is the one chosen |
| Moves.TakeFromWasteEffect | src/components/solitaire/Game.tsx:124-127 | filtering a waste card removes exactly that card and its identifier and keeps the waste face up |
| Moves.TakeFromTableauEffect | src/components/solitaire/Game.tsx:128-135 | filtering a tableau card held once removes exactly that position of the pile and its identifier |
| Moves.FoundationPush | src/components/solitaire/Game.tsx:138 | a foundation that accepts a card is incomplete, stays built by the rules with it, and gains its identifier |
| Moves.PlaceKeepsConsistent | src/components/solitaire/Game.tsx:118-146 | an accepted card put on a foundation, with the other piles still ordered and no identifier lost, leaves a consistent state |
| Moves.TableauRemoveKeepsOrder | src/components/solitaire/Game.tsx:128-135 | taking one card out of a tableau pile keeps all piles well ordered |
| Moves.PlaceKeepsCards | src/components/solitaire/Game.tsx:118-146 | the card filtered out and pushed on a foundation restores the identifier multiset |
| Moves.PlaceFromWaste | src/components/solitaire/Game.tsx:118-146 | a waste card moved to an accepting foundation: exactly it leaves the waste, the foundation grows by it, score +10 and moves +1, no identifier gained or lost, consistency kept |
| Moves.TableauPlacementShape | src/components/solitaire/Game.tsx:128-142 | a tableau card put on a foundation: the resulting state exactly, with no identifier gained or lost |
| Moves.PlaceFromTableau | src/components/solitaire/Game.tsx:118-146 | a tableau card moved to an accepting foundation: exactly it leaves its pile and the cards above close up, the foundation grows by it, score +10 and moves +1, consistency kept |
| Moves.BlockMoveKeepsConsistent | src/components/solitaire/Game.tsx:157-177 | a card and the cards above it moved to another accepting pile: source cut at the card, target extended by the block, identifiers kept, consistency kept |
| Moves.FoundationCardStays | src/components/solitaire/Game.tsx:118-146 | a foundation card is never accepted by a non-empty foundation, its own included |
| Moves.WasteCardDropped | src/components/solitaire/Game.tsx:153-156 | filtering a waste card out loses exactly its identifier and keeps the state consistent |
| Moves.WasteToTableauLosesCard | src/components/solitaire/Game.tsx:148-182 | a waste card accepted by a tableau pile is removed from the waste and placed nowhere; only the move counter changes otherwise |
| Moves.FoundationToTableauOnlyCounts | src/components/solitaire/Game.tsx:148-182 | a foundation card accepted by a tableau pile stays where it is; only the move counter changes |
| Moves.ApplyToFoundationKeepsConsistency | src/components/solitaire/Game.tsx:118-146 | a located card moved to a foundation keeps consistency and every identifier |
| Moves.WasteOntoTableau | src/components/solitaire/Game.tsx:153-156 | a waste card moved to the tableau keeps consistency and gains no identifier |
| Moves.TableauOntoTableau | src/components/solitaire/Game.tsx:157-177 | an accepted tableau block goes to a different pile: the source is cut at the card, the target is extended by the block, one move is counted; consistency and every identifier are kept |
| Moves.TableauToTableauMovesBlock | src/components/solitaire/Game.tsx:148-182 | a move of a tableau card onto another pile that accepts it cuts the source at the card, extends the target by the block in order, counts one move and changes nothing else |
| Moves.ApplyToTableauKeepsConsistency | src/components/solitaire/Game.tsx:148-182 | any tableau-target move keeps consistency; an identifier is lost only when the card came from the waste |
| Moves.MovePreservesConsistency | src/components/solitaire/Game.tsx:89-185 | every move keeps a consistent state consistent, gains no identifier, and loses one only for a waste card moved to the tableau |
| Moves.AutoMovedExactly | src/components/solitaire/Game.tsx:188-225 | the automatic move happens exactly when the card is found face up and some foundation accepts it; otherwise nothing changes |
| Moves.PlaceShape | src/components/solitaire/Game.tsx:202-216 | putting a waste or tableau card on a foundation removes exactly that card from its pile and scores 10 and one move |
| Moves.AutoMoveEffect | src/components/solitaire/Game.tsx:188-225 | the automatic move puts the card on the first accepting foundation, takes it off its pile, and scores 10 points and one move |
| Moves.AutoMoveKeepsConsistency | src/components/solitaire/Game.tsx:188-225 | the automatic move keeps consistency and every identifier |
| Moves.AceGoesToFirstEmptyFoundation | src/components/solitaire/Game.tsx:195-222 | an Ace goes to the first empty foundation in suit order, whatever its own suit |
| Moves.AutoMoveAgreesWithClickMove | src/components/solitaire/Game.tsx:188-225 | the automatic move equals the click move of the same card onto its target foundation |
| Play.ClickThrowsExactly | src/components/solitaire/Game.tsx:54-86 | the click handler throws exactly on a click, carrying a face-up found card, on an empty tableau pile, and then changes nothing |
| Play.ClickNeverFlips | src/components/solitaire/Game.tsx:65-76 | in a consistent state a click never turns a card over: it is ignored, throws, selects, or moves and deselects |
| Play.SelectPreservesConsistency | src/components/solitaire/Game.tsx:54-86 | a click keeps a consistent state consistent |
| Play.EmptyTableauNeverFilledByClick | src/components/solitaire/Game.tsx:369-376 | a click on an empty tableau pile, which carries the selected card's identifier, leaves the state unchanged |
| Play.WinResult | src/components/solitaire/Game.tsx:33-45 | the win flag is set exactly when it was set or every foundation is complete; nothing else changes |
| Play.WinEffectSettles | src/components/solitaire/Game.tsx:33-45 | the win effect keeps consistency and running it again changes nothing |
| Play.WonGameApplyOnlyCounts | src/components/solitaire/Game.tsx:89-185 | in a won game a move changes at most the move counter |
| Play.WonGameIsFinal | src/components/solitaire/Game.tsx:33-51 | in a won game drawing changes nothing and a move changes at most the move counter |
| Game.PlaceSteps | src/components/solitaire/Game.tsx:122-142 | filter, push, score and count step by step give the foundation placement |
| Game.ApplyMoveSteps | src/components/solitaire/Game.tsx:115-182 | the move handler's branches on a located card give the move specification |
| Game.MoveSteps | src/components/solitaire/Game.tsx:89-185 | the move handler on values equals the move specification, including the same-card and not-found early returns |
| Game.SelectSteps | src/components/solitaire/Game.tsx:54-86 | the click handler on values equals the click specification |
| Game.AutoMoveSteps | src/components/solitaire/Game.tsx:188-225 | the loop over the foundations in suit order returns whether the card moved and the state, as the automatic-move specification says |
| Game.SolitaireGame.constructor | src/components/solitaire/Game.tsx:16-21 | the component starts on a fresh deal with nothing selected: seven piles, pile p with p+1 cards of which only the last is face up, 24 face-down stock cards, every card in the place the deal puts it, empty waste and foundations, zero counters, consistent |
| Game.SolitaireGame.CheckWin | src/components/solitaire/Game.tsx:33-45 | the state becomes the win effect's result; the selection is kept; consistency is kept |
| Game.SolitaireGame.HandleDrawCard | src/components/solitaire/Game.tsx:48-51 | the selection is cleared and the state becomes the draw's result, still consistent |
| Game.SolitaireGame.TryMoveCard | src/components/solitaire/Game.tsx:89-185 | the state becomes the move's result and the selection is cleared; consistency is kept |
| Game.SolitaireGame.HandleSelectCard | src/components/solitaire/Game.tsx:54-86 | state, selection and the throw flag become the click specification's outcome; consistency is kept |
| Game.SolitaireGame.TryAutoMoveToFoundation | src/components/solitaire/Game.tsx:188-225 | returns whether the card moved; the state becomes the automatic move's result; the selection is kept; consistency is kept |
| Game.SolitaireGame.HandleDoubleClick | src/components/solitaire/Game.tsx:227-230 | the state becomes the automatic move's result and the selection is kept |
| Game.SolitaireGame.HandleRestartGame | src/components/solitaire/Game.tsx:233-236 | the selection is cleared and the state is a fresh deal, with the same layout as at the start, consistent |
| Progress.BlockAboveFaceUp | src/components/solitaire/Game.tsx:157-165 | above a face-up card of a well-ordered pile every card is face up, so a moved block is all face up |
| Progress.CutAtFaceUp | src/components/solitaire/Game.tsx:157-177 | cutting a well-ordered pile at a face-up card leaves all its face-down cards below the cut |
| Progress.PlaceKeepsHidden | src/components/solitaire/Game.tsx:118-146 | putting a located face-up card on a foundation keeps the number of face-down cards of every tableau pile |
| Progress.ApplyMoveKeepsHidden | src/components/solitaire/Game.tsx:89-185 | every move keeps the number of face-down cards of every tableau pile |
| Progress.ApplyMoveCounters | src/components/solitaire/Game.tsx:89-185 | a move adds zero or one move and zero or 10 points and keeps the win flag |
| Progress.ClickKeepsHidden | src/components/solitaire/Game.tsx:54-86 | a click keeps consistency and the number of face-down cards of every tableau pile |
| Progress.AutoMoveKeepsHidden | src/components/solitaire/Game.tsx:188-225 | the automatic move keeps consistency and the number of face-down cards of every tableau pile |
| Progress.StepKeepsHidden | src/components/solitaire/Game.tsx:33-230 | every board action, followed by the win effect, keeps consistency and the number of face-down cards of every tableau pile |
| Progress.ClickCounters | src/components/solitaire/Game.tsx:54-185 | a click adds zero or one move and zero or 10 points and keeps the win flag |
| Progress.CountersNeverDecrease | src/components/solitaire/Game.tsx:33-230 | every board action adds zero or one move and zero or 10 points, and never clears the win flag |
| Progress.RunKeepsHidden | src/components/solitaire/Game.tsx:33-230 | a whole sequence of board actions keeps consistency and the number of face-down cards of every tableau pile |
| Progress.WonStateHidesNothing | src/components/solitaire/GameLogic.ts:171-176 | a consistent won game has no face-down card on the tableau |
| Progress.FreshDealHides | src/components/solitaire/GameLogic.ts:90-99 | a fresh deal leaves p face-down cards on pile p |
| Progress.NoPlayFromADealWins | src/components/solitaire/Game.tsx:33-45 | from a fresh deal, no sequence of board actions reaches a state where every foundation is complete or the game is flagged won |
| Progress.RunCountersNeverDecrease | src/components/solitaire/Game.tsx:33-230 | over a sequence of board actions the move count and the score never decrease and a won game stays won |

## Left out

- Rendering, layout, styling and the share button (`handleShareGame`, src/components/solitaire/Game.tsx:239-245) are not modelled: they are user interface only.
- The platform SDK calls and the timer around them are not modelled, because they are foreign I/O.
- `Math.random` is replaced by the draws `picks`. Any sequence with `picks[i] <= i` is allowed, so the model says nothing about the distribution of shuffles.
- Arrays shared between states are not modelled. The source's foundation `push` and its tableau flip mutate arrays that the previous state still references; the model's states are values. React's batching of state updates is not modelled either.
- The `selectedCard` and `gameStarted` fields of the engine state are not modelled. The handlers never read them: the component keeps the selection in its own variable, which the model keeps as `selected`.
- The unused `targetCardInfo` look-up in `tryMoveCard` is not modelled, because nothing reads its result.
- A sequence of board actions (`Progress.Run`) stops at the first action the board could not issue. It has no restart action: a restart begins a new fresh deal, which `Progress.NoPlayFromADealWins` covers as a new start.
- The effect re-runs after a win are reduced to one run of the win effect. `Play.WinEffectSettles` shows that further runs change nothing.
- The run-time checks on the shape of a location, such as a missing pile index, are not modelled: the `Location` datatype makes malformed locations unrepresentable.
- Game.SolitaireGame.TryMoveCard: requires that a click on an empty foundation carries the selected card's identifier, as the board's clicks do (src/components/solitaire/Game.tsx:334-338). Without that, a foundation card could be pushed onto an empty foundation while staying on its own, and consistency is not claimed for that case.
- Game.SolitaireGame.HandleSelectCard: requires the same of a click on an empty foundation when a card is selected.
- Game.SolitaireGame.TryAutoMoveToFoundation: requires that the card is not on a foundation, as the board only double-clicks waste and tableau cards. For a foundation card the model's result is still defined and exact, but consistency is not claimed.
- Game.SolitaireGame.HandleDoubleClick: has the same requirement as the automatic move.

