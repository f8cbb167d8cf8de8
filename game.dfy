/**
 * The game component: the current state and the current selection, updated in
 * place by the board's handlers. Each handler is proved to leave exactly the
 * state and selection its specification function describes, and to keep the
 * state consistent.
 */
module Game {
  import opened Cards
  import opened State
  import opened Deck
  import opened Rules
  import opened Locator
  import opened Invariants
  import opened Stock
  import opened Dealing
  import opened Moves
  import opened Play

  /** The card taken off its source and put on foundation `s`, step by step as the handlers do it. */
  method PlaceSteps(g: GameState, id: CardId, card: Card, loc: Location, s: Suit) returns (r: GameState)
    requires HasPile(g, loc)
    ensures r == PlaceOnFoundation(g, id, card, loc, s)
  {
    var foundation := g.foundation.Pile(s);
    r := g;
    if loc.Waste? {
      r := r.(waste := RemoveId(r.waste, id));
    } else if loc.Tableau? {
      var p := loc.index;
      r := r.(tableau := r.tableau[p := RemoveId(r.tableau[p], id)]);
    }
    r := r.(foundation := r.foundation.With(s, foundation + [card]));
    r := r.(score := r.score + 10, moves := r.moves + 1);
  }

  /** The located card moved onto the pile at `to`, step by step as the move handler does it. */
  method ApplyMoveSteps(g: GameState, source: CardInfo, id: CardId, to: Location) returns (r: GameState)
    requires HasPile(g, to) && Locates(g, source) && source.Found?
    requires source.cardIndex == IndexOfId(PileAt(g, source.location), id)
    ensures r == ApplyMove(g, source, id, to)
  {
    r := g;
    match to {
      case Waste =>
      case Foundation(s) =>
        if CanMoveToFoundation(source.card, g.foundation.Pile(s)) {
          r := PlaceSteps(g, id, source.card, source.location, s);
        }
      case Tableau(t) =>
        var tableau := r.tableau[t];
        if CanMoveToTableau(source.card, tableau) {
          if source.location.Waste? {
            r := r.(waste := RemoveId(r.waste, id));
          } else if source.location.Tableau? {
            var p := source.location.index;
            var sourceTableau := r.tableau[p];
            var sourceCardIndex := IndexOfId(sourceTableau, id);
            var cardsToMove := sourceTableau[sourceCardIndex..];
            r := r.(tableau := r.tableau[p := sourceTableau[..sourceCardIndex]]);
            r := r.(tableau := r.tableau[t := tableau + cardsToMove]);
          }
          r := r.(moves := r.moves + 1);
        }
    }
  }

  /** The move handler on values: the selected card `from` moved onto the pile clicked in `to`. */
  method MoveSteps(g: GameState, from: Selection, to: Selection) returns (r: GameState)
    requires HasPile(g, to.location)
    ensures r == MoveResult(g, from, to)
  {
    if from.cardId == to.cardId {
      return g;
    }
    var source := Locate(g, from.cardId);
    if source.NotFound? {
      return g;
    }
    r := ApplyMoveSteps(g, source, from.cardId, to.location);
  }

  /** The click handler on values: ignore, turn over, throw, move or select. */
  method SelectSteps(g: GameState, sel: Option<Selection>, click: Selection) returns (r: ClickOutcome)
    requires HasPile(g, click.location)
    ensures r == SelectResult(g, sel, click)
  {
    var cardInfo := Locate(g, click.cardId);
    if !(cardInfo.Found? && cardInfo.card.faceUp) {
      return ClickOutcome(g, sel, false);
    }
    if click.location.Tableau? {
      var i := click.location.index;
      var tableau := g.tableau[i];
      var cardIndex := IndexOfId(tableau, click.cardId);
      if cardIndex == |tableau| - 1 {
        if |tableau| == 0 {
          return ClickOutcome(g, sel, true);
        }
        if !tableau[cardIndex].faceUp {
          var flipped := g.(tableau := g.tableau[i := tableau[cardIndex := tableau[cardIndex].(faceUp := true)]]);
          return ClickOutcome(flipped, sel, false);
        }
      }
    }
    if sel.Some? {
      var moved := MoveSteps(g, sel.value, click);
      r := ClickOutcome(moved, None, false);
    } else {
      r := ClickOutcome(g, Some(click), false);
    }
  }

  /** The double-click handler on values: the foundations are tried in suit order and the first that accepts the card takes it. */
  method AutoMoveSteps(g: GameState, id: CardId) returns (moved: bool, r: GameState)
    ensures moved == AutoMoved(g, id) && r == AutoMoveResult(g, id)
  {
    var cardInfo := Locate(g, id);
    if cardInfo.NotFound? || !cardInfo.card.faceUp {
      return false, g;
    }
    for i := 0 to |Suits|
      invariant forall q | 0 <= q < i :: !CanMoveToFoundation(cardInfo.card, g.foundation.Pile(Suits[q]))
    {
      var s := Suits[i];
      var foundation := g.foundation.Pile(s);
      if CanMoveToFoundation(cardInfo.card, foundation) {
        AutoTargetIsFirst(cardInfo.card, g.foundation, i);
        r := PlaceSteps(g, id, cardInfo.card, cardInfo.location, s);
        return true, r;
      }
    }
    return false, g;
  }

  class SolitaireGame {
    var state: GameState
    var selected: Option<Selection>

    ghost predicate Valid()
      reads this
    {
      Consistent(state)
    }

    /** A freshly dealt game with nothing selected; `picks` stands for the shuffle's random draws. */
    constructor (picks: seq<nat>)
      requires ValidPicks(picks, 52)
      ensures Valid() && selected == None
      ensures Bag(state) == FullBag() && FreshDeal(picks, state)
    {
      var g := InitializeGame(picks);
      state := g;
      selected := None;
    }

    /** The win effect, run after the state changes. */
    method CheckWin()
      requires Valid()
      modifies this
      ensures state == WinResult(old(state)) && selected == old(selected)
      ensures Valid()
    {
      if CheckWinCondition(state) {
        state := state.(gameWon := true);
      }
    }

    /** A click on the stock: clears the selection and draws. */
    method HandleDrawCard()
      requires Valid()
      modifies this
      ensures state == DrawResult(old(state)) && selected == None
      ensures Valid()
    {
      selected := None;
      DrawKeepsConsistent(state);
      state := DrawCard(state);
    }

    /** Moves the card of selection `from` onto the pile clicked in `to`, then clears the selection. */
    method TryMoveCard(from: Selection, to: Selection)
      requires Valid() && HasPile(state, to.location)
      requires EmptyFoundationRepeatsSelection(state, from, to)
      modifies this
      ensures state == MoveResult(old(state), from, to) && selected == None
      ensures Valid()
    {
      MovePreservesConsistency(state, from, to);
      var newState := MoveSteps(state, from, to);
      state := newState;
      selected := None;
    }

    /**
     * A click on a card: ignored unless the card is found face up; turns a
     * face-down tableau top card over; throws on an empty tableau pile; otherwise
     * moves the selected card or selects the clicked one.
     */
    method HandleSelectCard(click: Selection) returns (threw: bool)
      requires Valid() && HasPile(state, click.location)
      requires selected.Some? ==> EmptyFoundationRepeatsSelection(state, selected.value, click)
      modifies this
      ensures ClickOutcome(state, selected, threw) == SelectResult(old(state), old(selected), click)
      ensures Valid()
    {
      SelectPreservesConsistency(state, selected, click);
      var outcome := SelectSteps(state, selected, click);
      state, selected, threw := outcome.state, outcome.selected, outcome.threw;
    }

    /**
     * A double-click on a waste or tableau card: tries the foundations in suit
     * order and puts the card on the first that accepts it. The selection is kept.
     */
    method TryAutoMoveToFoundation(id: CardId) returns (moved: bool)
      requires Valid()
      requires FindCardById(state, id).Found? ==> !FindCardById(state, id).location.Foundation?
      modifies this
      ensures moved == AutoMoved(old(state), id)
      ensures state == AutoMoveResult(old(state), id) && selected == old(selected)
      ensures Valid()
    {
      AutoMoveKeepsConsistency(state, id);
      var newState;
      moved, newState := AutoMoveSteps(state, id);
      state := newState;
    }

    /** The double-click handler: the automatic move, with its outcome discarded. */
    method HandleDoubleClick(id: CardId)
      requires Valid()
      requires FindCardById(state, id).Found? ==> !FindCardById(state, id).location.Foundation?
      modifies this
      ensures state == AutoMoveResult(old(state), id) && selected == old(selected)
      ensures Valid()
    {
      var _ := TryAutoMoveToFoundation(id);
    }

    /** Clears the selection and deals a new game. */
    method HandleRestartGame(picks: seq<nat>)
      requires ValidPicks(picks, 52)
      modifies this
      ensures Valid() && selected == None
      ensures Bag(state) == FullBag() && FreshDeal(picks, state)
    {
      selected := None;
      var g := InitializeGame(picks);
      state := g;
    }
  }
}
