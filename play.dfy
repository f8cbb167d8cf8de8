/**
 * The board's click handler and the win effect, as functions of the state and
 * the current selection.
 */
module Play {
  import opened Cards
  import opened State
  import opened Rules
  import opened Locator
  import opened Invariants
  import opened Stock
  import opened Moves

  /** What a click leaves behind: the state, the selection, and whether the handler threw. */
  datatype ClickOutcome = ClickOutcome(state: GameState, selected: Option<Selection>, threw: bool)

  /** With a card selected the click is the move target and the selection is cleared; otherwise the click becomes the selection. */
  function SelectOrMove(g: GameState, sel: Option<Selection>, click: Selection): ClickOutcome
    requires HasPile(g, click.location)
  {
    if sel.Some? then ClickOutcome(MoveResult(g, sel.value, click), None, false)
    else ClickOutcome(g, Some(click), false)
  }

  /**
   * A click on card `click.cardId` at `click.location`. Clicks on a card the
   * locator does not find face up are ignored. A click on a tableau pile whose
   * last position is where the card is looked up turns a face-down top card face
   * up; on an empty pile that look-up reads past the pile and the handler throws,
   * changing nothing. Otherwise the click selects or moves.
   */
  function SelectResult(g: GameState, sel: Option<Selection>, click: Selection): ClickOutcome
    requires HasPile(g, click.location)
  {
    var info := FindCardById(g, click.cardId);
    if !(info.Found? && info.card.faceUp) then ClickOutcome(g, sel, false)
    else if click.location.Tableau? then
      var i := click.location.index;
      var pile := g.tableau[i];
      if IndexOfId(pile, click.cardId) != |pile| - 1 then SelectOrMove(g, sel, click)
      else if |pile| == 0 then ClickOutcome(g, sel, true)
      else if !pile[|pile| - 1].faceUp then
        ClickOutcome(g.(tableau := g.tableau[i := pile[|pile| - 1 := pile[|pile| - 1].(faceUp := true)]]), sel, false)
      else SelectOrMove(g, sel, click)
    else SelectOrMove(g, sel, click)
  }

  /**
   * The handler throws exactly on a click, carrying a card found face up, on an
   * empty tableau pile; it then changes neither the state nor the selection.
   */
  lemma ClickThrowsExactly(g: GameState, sel: Option<Selection>, click: Selection)
    requires HasPile(g, click.location)
    ensures var info := FindCardById(g, click.cardId);
      SelectResult(g, sel, click).threw <==>
        info.Found? && info.card.faceUp && click.location.Tableau? && g.tableau[click.location.index] == []
    ensures SelectResult(g, sel, click).threw ==>
      SelectResult(g, sel, click).state == g && SelectResult(g, sel, click).selected == sel
  {
  }

  /**
   * In a consistent state no click turns a card over: the tableau top card that a
   * click could turn is the card the locator found face up. A click is ignored,
   * throws, selects its card, or moves the selected card and clears the selection.
   */
  lemma ClickNeverFlips(g: GameState, sel: Option<Selection>, click: Selection)
    requires Consistent(g) && HasPile(g, click.location)
    ensures var r := SelectResult(g, sel, click);
      || r == ClickOutcome(g, sel, false)
      || r == ClickOutcome(g, sel, true)
      || (sel.None? && r == ClickOutcome(g, Some(click), false))
      || (sel.Some? && r == ClickOutcome(MoveResult(g, sel.value, click), None, false))
  {
    var info := FindCardById(g, click.cardId);
    if info.Found? && info.card.faceUp && click.location.Tableau? {
      var i := click.location.index;
      var pile := g.tableau[i];
      var k := IndexOfId(pile, click.cardId);
      if k == |pile| - 1 && |pile| > 0 {
        FoundCardIsTheOnlyOne(g, click.cardId, Tableau(i), k);
      }
    }
  }

  /**
   * A click keeps a consistent state consistent, provided a click on an empty
   * foundation carries the selected card's identifier, as the board's clicks do.
   */
  lemma SelectPreservesConsistency(g: GameState, sel: Option<Selection>, click: Selection)
    requires Consistent(g) && HasPile(g, click.location)
    requires sel.Some? ==> EmptyFoundationRepeatsSelection(g, sel.value, click)
    ensures Consistent(SelectResult(g, sel, click).state)
  {
    ClickNeverFlips(g, sel, click);
    if sel.Some? {
      MovePreservesConsistency(g, sel.value, click);
    }
  }

  /**
   * The board's click on an empty tableau pile carries the selected card's
   * identifier, so no card, not even a King, ever reaches an empty tableau pile by
   * clicks: the state is left as it was.
   */
  lemma EmptyTableauNeverFilledByClick(g: GameState, sel: Selection, i: nat)
    requires i < |g.tableau| && g.tableau[i] == []
    ensures SelectResult(g, Some(sel), Selection(sel.cardId, Tableau(i))).state == g
  {
  }

  /** The win effect: once every foundation is complete the game is flagged as won. */
  function WinResult(g: GameState): (r: GameState)
    ensures r.gameWon <==> g.gameWon || CheckWinCondition(g)
    ensures r == g.(gameWon := r.gameWon)
  {
    if CheckWinCondition(g) then g.(gameWon := true) else g
  }

  /** The win effect keeps a consistent state consistent, and running it again changes nothing. */
  lemma WinEffectSettles(g: GameState)
    requires Consistent(g)
    ensures Consistent(WinResult(g))
    ensures WinResult(WinResult(g)) == WinResult(g)
  {
  }

  /** In a won game the only card the locator finds is a foundation card, and no move shifts it. */
  lemma WonGameApplyOnlyCounts(g: GameState, info: CardInfo, id: CardId, to: Location)
    requires Consistent(g) && CheckWinCondition(g) && HasPile(g, to) && Locates(g, info)
    requires g.waste == [] && forall p | 0 <= p < |g.tableau| :: g.tableau[p] == []
    ensures ApplyMove(g, info, id, to) == g.(moves := ApplyMove(g, info, id, to).moves)
  {
    var r := ApplyMove(g, info, id, to);
    if info.Found? {
      var k := info.cardIndex;
      match info.location {
        case Waste => assert false;
        case Tableau(p) => assert false;
        case Foundation(s') =>
          match to {
            case Waste => assert r == g;
            case Tableau(t) =>
              assert r == g || r == g.(moves := g.moves + 1);
            case Foundation(s) =>
              assert |g.foundation.Pile(s)| == 13;
              FoundationCardStays(g, s', k, s);
              assert r == g;
          }
      }
    }
  }

  /**
   * A won game is final: drawing changes nothing, and a move changes at most the
   * move counter (a King taken from a foundation onto an empty tableau pile counts
   * a move but stays on its foundation).
   */
  lemma WonGameIsFinal(g: GameState, from: Selection, to: Selection)
    requires Consistent(g) && CheckWinCondition(g) && HasPile(g, to.location)
    ensures DrawResult(g) == g
    ensures MoveResult(g, from, to) == g.(moves := MoveResult(g, from, to).moves)
  {
    WonGameHasOnlyFoundations(g);
    if from.cardId != to.cardId {
      WonGameApplyOnlyCounts(g, FindCardById(g, from.cardId), from.cardId, to.location);
    }
  }
}
