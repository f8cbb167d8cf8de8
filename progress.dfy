/**
 * What play can reach from a deal. A board action is a click on the stock, a
 * click on a card or an empty pile, or a double-click on a card; after each the
 * win effect runs. No action ever turns a face-down tableau card over or moves
 * it, so the face-down cards of the deal stay on the tableau for good and no game
 * that starts from a deal can be won. The counters only grow and the win flag is
 * never cleared.
 */
module Progress {
  import opened Cards
  import opened State
  import opened Deck
  import opened Rules
  import opened Locator
  import opened Invariants
  import opened Stock
  import opened Dealing
  import opened Moves
  import opened Play

  /** The number of face-down cards in a pile. */
  function FaceDown(pile: seq<Card>): nat {
    if |pile| == 0 then 0
    else FaceDown(pile[..|pile| - 1]) + (if pile[|pile| - 1].faceUp then 0 else 1)
  }

  /** The number of face-down cards in each tableau pile. */
  function Hidden(t: seq<seq<Card>>): seq<nat> {
    seq(|t|, p requires 0 <= p < |t| => FaceDown(t[p]))
  }

  lemma {:induction false} FaceDownAppend(a: seq<Card>, b: seq<Card>)
    ensures FaceDown(a + b) == FaceDown(a) + FaceDown(b)
    decreases |b|
  {
    if |b| == 0 {
      assert a + b == a;
    } else {
      var n := |b| - 1;
      assert (a + b)[..|a + b| - 1] == a + b[..n];
      FaceDownAppend(a, b[..n]);
    }
  }

  /** A pile of face-up cards hides nothing; a pile of face-down cards hides all of them. */
  lemma {:induction false} FaceDownOfUniformPile(s: seq<Card>)
    ensures AllFaceUp(s) ==> FaceDown(s) == 0
    ensures AllFaceDown(s) ==> FaceDown(s) == |s|
  {
    if |s| > 0 {
      FaceDownOfUniformPile(s[..|s| - 1]);
    }
  }

  /** Taking a face-up card out of a pile keeps its face-down count. */
  lemma RemoveFaceUpCard(pile: seq<Card>, k: nat)
    requires k < |pile| && pile[k].faceUp
    ensures FaceDown(pile[..k] + pile[k + 1..]) == FaceDown(pile)
  {
    assert pile == pile[..k] + [pile[k]] + pile[k + 1..];
    FaceDownAppend(pile[..k] + [pile[k]], pile[k + 1..]);
    FaceDownAppend(pile[..k], [pile[k]]);
    FaceDownAppend(pile[..k], pile[k + 1..]);
    assert [pile[k]][..0] == [];
  }

  /** Above a face-up card of a well-ordered pile every card is face up. */
  lemma BlockAboveFaceUp(pile: seq<Card>, k: nat)
    requires TableauOrdered(pile) && k < |pile| && pile[k].faceUp
    ensures AllFaceUp(pile[k..])
  {
    forall j | k < j < |pile| ensures pile[j].faceUp {
    }
    assert forall j | 0 <= j < |pile[k..]| :: pile[k..][j] == pile[k + j];
  }

  /** Cutting a well-ordered pile at a face-up card: the block above is all face up, the part below keeps the count. */
  lemma CutAtFaceUp(pile: seq<Card>, k: nat)
    requires TableauOrdered(pile) && k < |pile| && pile[k].faceUp
    ensures FaceDown(pile[k..]) == 0 && FaceDown(pile[..k]) == FaceDown(pile)
  {
    var block := pile[k..];
    BlockAboveFaceUp(pile, k);
    FaceDownOfUniformPile(block);
    assert pile == pile[..k] + block;
    FaceDownAppend(pile[..k], block);
  }

  /** Replacing one tableau pile by a pile with as many face-down cards keeps the counts. */
  lemma HiddenUpdate(t: seq<seq<Card>>, p: nat, pile: seq<Card>)
    requires p < |t| && FaceDown(pile) == FaceDown(t[p])
    ensures Hidden(t[p := pile]) == Hidden(t)
  {
  }

  /** A located face-up card put on a foundation keeps the face-down count of every tableau pile. */
  lemma PlaceKeepsHidden(g: GameState, info: CardInfo, id: CardId, s: Suit)
    requires Consistent(g) && Locates(g, info) && info.Found? && info.card.Id() == id && info.card.faceUp
    ensures Hidden(PlaceOnFoundation(g, id, info.card, info.location, s).tableau) == Hidden(g.tableau)
  {
    var h := TakeFrom(g, id, info.location);
    assert PlaceOnFoundation(g, id, info.card, info.location, s).tableau == h.tableau;
    if info.location.Tableau? {
      var p, k := info.location.index, info.cardIndex;
      var pile := g.tableau[p];
      assert RemoveId(pile, id) == pile[..k] + pile[k + 1..] by {
        PileHoldsIdOnce(g, info.location, k);
        RemoveIdUnique(pile, k);
      }
      assert h.tableau == g.tableau[p := pile[..k] + pile[k + 1..]];
      RemoveFaceUpCard(pile, k);
      HiddenUpdate(g.tableau, p, pile[..k] + pile[k + 1..]);
    } else {
      assert h.tableau == g.tableau;
    }
  }

  /** A move of a located card keeps the face-down count of every tableau pile. */
  lemma ApplyMoveKeepsHidden(g: GameState, info: CardInfo, id: CardId, to: Location)
    requires Consistent(g) && HasPile(g, to) && Locates(g, info) && (info.Found? ==> info.card.Id() == id)
    ensures Hidden(ApplyMove(g, info, id, to).tableau) == Hidden(g.tableau)
  {
    var r := ApplyMove(g, info, id, to);
    if info.Found? {
      var card, loc, k := info.card, info.location, info.cardIndex;
      match to {
        case Waste =>
          assert r == g;
        case Foundation(s) =>
          if CanMoveToFoundation(card, g.foundation.Pile(s)) {
            assert r == PlaceOnFoundation(g, id, card, loc, s);
            PlaceKeepsHidden(g, info, id, s);
          } else {
            assert r == g;
          }
        case Tableau(t) =>
          if CanMoveToTableau(card, g.tableau[t]) && loc.Tableau? {
            var p := loc.index;
            var src := g.tableau[p];
            assert r.tableau == g.tableau[p := src[..k]][t := g.tableau[t] + src[k..]];
            CutAtFaceUp(src, k);
            FaceDownAppend(g.tableau[t], src[k..]);
            assert forall q | 0 <= q < 7 :: FaceDown(r.tableau[q]) == FaceDown(g.tableau[q]);
          } else {
            assert r.tableau == g.tableau;
          }
      }
    }
  }

  /** A move or an automatic move changes the counters only upward, by at most one move and 10 points, and keeps the win flag. */
  lemma ApplyMoveCounters(g: GameState, info: CardInfo, id: CardId, to: Location)
    requires HasPile(g, to) && Locates(g, info)
    ensures var r := ApplyMove(g, info, id, to);
      && (r.moves == g.moves || r.moves == g.moves + 1)
      && (r.score == g.score || r.score == g.score + 10)
      && r.gameWon == g.gameWon
  {
    if info.Found? {
      match to {
        case Waste =>
        case Foundation(s) =>
          if CanMoveToFoundation(info.card, g.foundation.Pile(s)) {
            assert TakeFrom(g, id, info.location).gameWon == g.gameWon;
          }
        case Tableau(t) =>
      }
    }
  }

  /** An action the board can issue: a click on the stock, a click carrying the current selection, a double-click. */
  datatype Action = Draw | Click(selected: Option<Selection>, click: Selection) | DoubleClick(cardId: CardId)

  /**
   * What the board's own clicks guarantee: a click lands on an existing pile and,
   * on an empty foundation, carries the selected card's identifier; a double-click
   * is on a waste or tableau card.
   */
  predicate Allowed(g: GameState, a: Action) {
    match a
    case Draw => true
    case Click(sel, click) =>
      HasPile(g, click.location) && (sel.Some? ==> EmptyFoundationRepeatsSelection(g, sel.value, click))
    case DoubleClick(id) =>
      FindCardById(g, id).Found? ==> !FindCardById(g, id).location.Foundation?
  }

  /** The handler of an action, followed by the win effect. */
  function Step(g: GameState, a: Action): GameState
    requires Allowed(g, a)
  {
    var h :=
      match a
      case Draw => DrawResult(g)
      case Click(sel, click) => SelectResult(g, sel, click).state
      case DoubleClick(id) => AutoMoveResult(g, id);
    WinResult(h)
  }

  /** A sequence of actions played from `g`, up to the first one the board could not issue. */
  function Run(g: GameState, actions: seq<Action>): GameState
    decreases |actions|
  {
    if |actions| == 0 || !Allowed(g, actions[0]) then g
    else Run(Step(g, actions[0]), actions[1..])
  }

  /** A click keeps a consistent state consistent and keeps the face-down count of every tableau pile. */
  lemma ClickKeepsHidden(g: GameState, sel: Option<Selection>, click: Selection)
    requires Consistent(g) && HasPile(g, click.location)
    requires sel.Some? ==> EmptyFoundationRepeatsSelection(g, sel.value, click)
    ensures Consistent(SelectResult(g, sel, click).state)
    ensures Hidden(SelectResult(g, sel, click).state.tableau) == Hidden(g.tableau)
  {
    SelectPreservesConsistency(g, sel, click);
    ClickNeverFlips(g, sel, click);
    if sel.Some? && sel.value.cardId != click.cardId {
      ApplyMoveKeepsHidden(g, FindCardById(g, sel.value.cardId), sel.value.cardId, click.location);
    }
  }

  /** The automatic move of a waste or tableau card keeps consistency and the face-down count of every tableau pile. */
  lemma AutoMoveKeepsHidden(g: GameState, id: CardId)
    requires Consistent(g)
    requires FindCardById(g, id).Found? ==> !FindCardById(g, id).location.Foundation?
    ensures Consistent(AutoMoveResult(g, id))
    ensures Hidden(AutoMoveResult(g, id).tableau) == Hidden(g.tableau)
  {
    AutoMoveKeepsConsistency(g, id);
    if AutoMoved(g, id) {
      var info := FindCardById(g, id);
      PlaceKeepsHidden(g, info, id, AutoTarget(info.card, g.foundation, 0).value);
    }
  }

  /** Every action keeps a consistent state consistent and keeps the face-down count of every tableau pile. */
  lemma StepKeepsHidden(g: GameState, a: Action)
    requires Consistent(g) && Allowed(g, a)
    ensures Consistent(Step(g, a))
    ensures Hidden(Step(g, a).tableau) == Hidden(g.tableau)
  {
    var h :=
      match a
      case Draw => DrawResult(g)
      case Click(sel, click) => SelectResult(g, sel, click).state
      case DoubleClick(id) => AutoMoveResult(g, id);
    assert Consistent(h) && Hidden(h.tableau) == Hidden(g.tableau) by {
      match a {
        case Draw => DrawKeepsConsistent(g);
        case Click(sel, click) => ClickKeepsHidden(g, sel, click);
        case DoubleClick(id) => AutoMoveKeepsHidden(g, id);
      }
    }
    WinEffectSettles(h);
  }

  /** A click changes the counters only upward, by at most one move and 10 points, and keeps the win flag. */
  lemma ClickCounters(g: GameState, sel: Option<Selection>, click: Selection)
    requires HasPile(g, click.location)
    ensures var r := SelectResult(g, sel, click).state;
      && (r.moves == g.moves || r.moves == g.moves + 1)
      && (r.score == g.score || r.score == g.score + 10)
      && r.gameWon == g.gameWon
  {
    if sel.Some? && sel.value.cardId != click.cardId {
      ApplyMoveCounters(g, FindCardById(g, sel.value.cardId), sel.value.cardId, click.location);
    }
  }

  /**
   * The counters never go down and the win flag is never cleared: an action adds
   * at most one move, adds 0 or 10 points, and a won game stays won.
   */
  lemma CountersNeverDecrease(g: GameState, a: Action)
    requires Allowed(g, a)
    ensures var r := Step(g, a);
      && (r.moves == g.moves || r.moves == g.moves + 1)
      && (r.score == g.score || r.score == g.score + 10)
      && (g.gameWon ==> r.gameWon)
  {
    match a {
      case Draw =>
      case Click(sel, click) =>
        ClickCounters(g, sel, click);
      case DoubleClick(id) =>
        if AutoMoved(g, id) {
          var info := FindCardById(g, id);
          assert TakeFrom(g, id, info.location).gameWon == g.gameWon;
        }
    }
  }

  /** A whole run keeps consistency and the face-down count of every tableau pile. */
  lemma {:induction false} RunKeepsHidden(g: GameState, actions: seq<Action>)
    requires Consistent(g)
    ensures Consistent(Run(g, actions))
    ensures Hidden(Run(g, actions).tableau) == Hidden(g.tableau)
    decreases |actions|
  {
    if |actions| > 0 && Allowed(g, actions[0]) {
      StepKeepsHidden(g, actions[0]);
      RunKeepsHidden(Step(g, actions[0]), actions[1..]);
    }
  }

  /** In a won consistent game no tableau pile hides a card. */
  lemma WonStateHidesNothing(g: GameState)
    requires Consistent(g)
    ensures CheckWinCondition(g) ==> forall p | 0 <= p < |g.tableau| :: Hidden(g.tableau)[p] == 0
  {
    if CheckWinCondition(g) {
      WonGameHasOnlyFoundations(g);
    }
  }

  /** A fresh deal hides `p` cards under the top of pile `p`. */
  lemma FreshDealHides(picks: seq<nat>, g: GameState)
    requires FreshDeal(picks, g)
    ensures |Hidden(g.tableau)| == 7 && forall p | 0 <= p < 7 :: Hidden(g.tableau)[p] == p
  {
    forall p | 0 <= p < 7 ensures FaceDown(g.tableau[p]) == p {
      var pile := g.tableau[p];
      assert AllFaceDown(pile[..p]);
      FaceDownOfUniformPile(pile[..p]);
      assert pile[..|pile| - 1] == pile[..p];
    }
  }

  /**
   * No game played from a deal is ever won: the face-down card of pile 1 can
   * never be turned over or moved, so its foundation can never be completed.
   */
  lemma NoPlayFromADealWins(picks: seq<nat>, g: GameState, actions: seq<Action>)
    requires FreshDeal(picks, g) && Consistent(g)
    ensures !CheckWinCondition(Run(g, actions))
    ensures !Run(g, actions).gameWon
  {
    var r := Run(g, actions);
    RunKeepsHidden(g, actions);
    FreshDealHides(picks, g);
    WonStateHidesNothing(r);
    assert Hidden(r.tableau)[1] == 1;
  }

  /** Over a whole run the counters never go down and a won game stays won. */
  lemma {:induction false} RunCountersNeverDecrease(g: GameState, actions: seq<Action>)
    ensures Run(g, actions).moves >= g.moves && Run(g, actions).score >= g.score
    ensures g.gameWon ==> Run(g, actions).gameWon
    decreases |actions|
  {
    if |actions| > 0 && Allowed(g, actions[0]) {
      CountersNeverDecrease(g, actions[0]);
      RunCountersNeverDecrease(Step(g, actions[0]), actions[1..]);
    }
  }
}
