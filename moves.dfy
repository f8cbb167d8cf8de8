/**
 * The moves a player makes with the cards: a selected card moved onto a clicked
 * foundation or tableau pile, and the automatic move to the first foundation
 * that accepts a card. Each is a function from the old state to the new one.
 */
module Moves {
  import opened Cards
  import opened State
  import opened Deck
  import opened Rules
  import opened Locator
  import opened Invariants

  /** What a click designates: the identifier of a card and the pile it was clicked on. */
  datatype Selection = Selection(cardId: CardId, location: Location)

  /** The pile without the cards of identifier `id`: the filter by identifier. */
  function RemoveId(pile: seq<Card>, id: CardId): (r: seq<Card>)
    ensures id !in Ids(r)
    ensures multiset(r) <= multiset(pile)
    ensures id !in Ids(pile) ==> r == pile
  {
    if |pile| == 0 then []
    else
      var rest := RemoveId(pile[1..], id);
      assert pile == [pile[0]] + pile[1..];
      IdsAppend([pile[0]], pile[1..]);
      if pile[0].Id() == id then assert Ids(pile)[0] == id; rest
      else
        IdsAppend([pile[0]], rest);
        [pile[0]] + rest
  }

  /**
   * The filter keeps the order of the cards it keeps: filtering a pile made of
   * two parts filters each part in place.
   */
  lemma {:induction false} RemoveIdAppend(a: seq<Card>, b: seq<Card>, id: CardId)
    ensures RemoveId(a + b, id) == RemoveId(a, id) + RemoveId(b, id)
  {
    if |a| > 0 {
      assert (a + b)[1..] == a[1..] + b;
      RemoveIdAppend(a[1..], b, id);
    } else {
      assert a + b == b;
    }
  }

  /** The filter drops every card with identifier `id` and keeps every other card as often as the pile holds it. */
  lemma {:induction false} RemoveIdKeepsOthers(pile: seq<Card>, id: CardId, c: Card)
    ensures multiset(RemoveId(pile, id))[c] == if c.Id() == id then 0 else multiset(pile)[c]
  {
    if |pile| > 0 {
      var rest := RemoveId(pile[1..], id);
      RemoveIdKeepsOthers(pile[1..], id, c);
      assert multiset(pile) == multiset{pile[0]} + multiset(pile[1..]) by {
        assert pile == [pile[0]] + pile[1..];
      }
      if pile[0].Id() == id {
        assert RemoveId(pile, id) == rest;
      } else {
        assert RemoveId(pile, id) == [pile[0]] + rest;
        assert multiset([pile[0]] + rest) == multiset{pile[0]} + multiset(rest);
      }
    }
  }

  /** A single card is dropped exactly when it carries identifier `id`. */
  lemma RemoveIdSingle(c: Card, id: CardId)
    ensures RemoveId([c], id) == if c.Id() == id then [] else [c]
  {
    assert [c][1..] == [];
  }

  /** When `id` occurs once, at position `k`, the filter takes out exactly that card. */
  lemma {:induction false} RemoveIdUnique(pile: seq<Card>, k: nat)
    requires k < |pile| && multiset(Ids(pile))[pile[k].Id()] == 1
    ensures RemoveId(pile, pile[k].Id()) == pile[..k] + pile[k + 1..]
  {
    var id := pile[k].Id();
    var rest := pile[1..];
    assert pile == [pile[0]] + rest;
    IdsAppend([pile[0]], rest);
    if k == 0 {
      assert id !in Ids(rest) by {
        assert multiset(Ids(rest))[id] == 0;
      }
    } else {
      assert pile[0].Id() != id by {
        if pile[0].Id() == id {
          TwoPositions(pile, 0, k);
        }
      }
      assert rest[k - 1] == pile[k];
      RemoveIdUnique(rest, k - 1);
      assert rest[..k - 1] == pile[1..k] && rest[k..] == pile[k + 1..];
      assert [pile[0]] + pile[1..k] == pile[..k];
    }
  }

  /** In a consistent state each pile holds each identifier at most once. */
  lemma PileHoldsIdOnce(g: GameState, loc: Location, k: nat)
    requires Consistent(g) && HasPile(g, loc) && k < |PileAt(g, loc)|
    ensures multiset(Ids(PileAt(g, loc)))[PileAt(g, loc)[k].Id()] == 1
  {
    var id := PileAt(g, loc)[k].Id();
    assert Ids(PileAt(g, loc))[k] == id;
    PilesInBag(g, loc, loc);
    FullBagHasEachCardOnce(id);
  }

  /** The state with the cards of identifier `id` filtered out of the source pile; cards are never taken off a foundation. */
  function TakeFrom(g: GameState, id: CardId, loc: Location): GameState
    requires HasPile(g, loc)
  {
    match loc
    case Waste => g.(waste := RemoveId(g.waste, id))
    case Tableau(p) => g.(tableau := g.tableau[p := RemoveId(g.tableau[p], id)])
    case Foundation(_) => g
  }

  /** `card` taken from its source and put on top of foundation `s`, scoring 10 points and one move. */
  function PlaceOnFoundation(g: GameState, id: CardId, card: Card, loc: Location, s: Suit): GameState
    requires HasPile(g, loc)
  {
    var h := TakeFrom(g, id, loc);
    h.(foundation := h.foundation.With(s, g.foundation.Pile(s) + [card]), score := h.score + 10, moves := h.moves + 1)
  }

  /** The locator's answer points at a card that is really there. */
  predicate Locates(g: GameState, info: CardInfo) {
    info.Found? ==>
      && HasPile(g, info.location)
      && info.cardIndex < |PileAt(g, info.location)|
      && info.card == PileAt(g, info.location)[info.cardIndex]
  }

  /**
   * The card `info` located for identifier `id` moved onto the pile at `to`.
   * Nothing happens when the card was not found, when the target is the waste, or
   * when the validator refuses. Onto a foundation the card leaves its source and
   * scores 10. Onto a tableau pile a tableau card takes the cards above it along; a
   * card from the waste is filtered out of the waste and put nowhere; a foundation
   * card stays where it is. Every accepted move counts.
   */
  function ApplyMove(g: GameState, info: CardInfo, id: CardId, to: Location): GameState
    requires HasPile(g, to) && Locates(g, info)
  {
    match info
    case NotFound => g
    case Found(card, loc, k) =>
      match to
      case Waste => g
      case Foundation(s) =>
        if CanMoveToFoundation(card, g.foundation.Pile(s)) then PlaceOnFoundation(g, id, card, loc, s) else g
      case Tableau(t) =>
        var target := g.tableau[t];
        if !CanMoveToTableau(card, target) then g
        else
          var h :=
            match loc
            case Waste => g.(waste := RemoveId(g.waste, id))
            case Tableau(p) =>
              var src := g.tableau[p];
              g.(tableau := g.tableau[p := src[..k]][t := target + src[k..]])
            case Foundation(_) => g;
          h.(moves := h.moves + 1)
  }

  /**
   * The selected card `from` moved onto the clicked pile of `to`: nothing happens
   * when both name the same card; otherwise the selected card is located and moved.
   */
  function MoveResult(g: GameState, from: Selection, to: Selection): GameState
    requires HasPile(g, to.location)
  {
    if from.cardId == to.cardId then g
    else ApplyMove(g, FindCardById(g, from.cardId), from.cardId, to.location)
  }

  /** The first foundation, at or after `Suits[i]` in suit order, that accepts `card`. */
  function AutoTarget(card: Card, f: Foundations, i: nat): (r: Option<Suit>)
    requires i <= |Suits|
    decreases |Suits| - i
    ensures r.Some? ==> i <= SuitIndex(r.value) && CanMoveToFoundation(card, f.Pile(r.value))
    ensures r.Some? ==> forall q | i <= q < SuitIndex(r.value) :: !CanMoveToFoundation(card, f.Pile(Suits[q]))
    ensures r.None? <==> forall q | i <= q < |Suits| :: !CanMoveToFoundation(card, f.Pile(Suits[q]))
  {
    if i == |Suits| then None
    else if CanMoveToFoundation(card, f.Pile(Suits[i])) then Some(Suits[i])
    else AutoTarget(card, f, i + 1)
  }

  /** A foundation that accepts the card when none before it in suit order does is the one chosen. */
  lemma AutoTargetIsFirst(card: Card, f: Foundations, i: nat)
    requires i < |Suits| && CanMoveToFoundation(card, f.Pile(Suits[i]))
    requires forall q | 0 <= q < i :: !CanMoveToFoundation(card, f.Pile(Suits[q]))
    ensures AutoTarget(card, f, 0) == Some(Suits[i])
  {
    var r := AutoTarget(card, f, 0);
    assert r.Some?;
    assert SuitIndex(r.value) == i;
  }

  /** Whether the automatic move of card `id` to a foundation happens. */
  predicate AutoMoved(g: GameState, id: CardId) {
    var info := FindCardById(g, id);
    info.Found? && info.card.faceUp && AutoTarget(info.card, g.foundation, 0).Some?
  }

  /** The automatic move: a found, face-up card goes to the first foundation that accepts it. */
  function AutoMoveResult(g: GameState, id: CardId): GameState {
    if !AutoMoved(g, id) then g
    else
      var info := FindCardById(g, id);
      PlaceOnFoundation(g, id, info.card, info.location, AutoTarget(info.card, g.foundation, 0).value)
  }

  /**
   * Taking the card at position `k` off the waste removes exactly that card and
   * its identifier, and leaves the waste face up.
   */
  lemma TakeFromWasteEffect(g: GameState, k: nat)
    requires k < |g.waste| && multiset(Ids(g.waste))[g.waste[k].Id()] == 1
    ensures var id := g.waste[k].Id();
      && TakeFrom(g, id, Waste) == g.(waste := g.waste[..k] + g.waste[k + 1..])
      && Bag(TakeFrom(g, id, Waste)) + multiset{id} == Bag(g)
      && (AllFaceUp(g.waste) ==> AllFaceUp(TakeFrom(g, id, Waste).waste))
  {
    var pile := g.waste;
    var x := pile[..k] + pile[k + 1..];
    RemoveIdUnique(pile, k);
    IdsRemoveAt(pile, k);
    if AllFaceUp(pile) {
      forall i | 0 <= i < |x| ensures x[i].faceUp {
        assert x[i] == if i < k then pile[i] else pile[i + 1];
      }
    }
  }

  /**
   * Taking the card at position `k` off tableau pile `p` removes exactly that card
   * and its identifier, and leaves the pile well ordered.
   */
  lemma TakeFromTableauEffect(g: GameState, p: nat, k: nat)
    requires p < |g.tableau| && k < |g.tableau[p]| && multiset(Ids(g.tableau[p]))[g.tableau[p][k].Id()] == 1
    ensures var pile := g.tableau[p];
      var id := pile[k].Id();
      && TakeFrom(g, id, Tableau(p)) == g.(tableau := g.tableau[p := pile[..k] + pile[k + 1..]])
      && Bag(TakeFrom(g, id, Tableau(p))) + multiset{id} == Bag(g)
  {
    var pile := g.tableau[p];
    var id := pile[k].Id();
    var x := pile[..k] + pile[k + 1..];
    RemoveIdUnique(pile, k);
    IdsRemoveAt(pile, k);
    TableauBagUpdate(g.tableau, p, x);
    Cancel(TableauBag(g.tableau[p := x]) + multiset{id}, TableauBag(g.tableau), multiset(Ids(x)));
  }

  /**
   * A foundation that accepts a card is not yet complete; with the card on top
   * every foundation is still well built, and the foundations hold one more
   * identifier.
   */
  lemma FoundationPush(f: Foundations, s: Suit, card: Card)
    requires forall t: Suit :: FoundationOrdered(f.Pile(t))
    requires CanMoveToFoundation(card, f.Pile(s))
    ensures |f.Pile(s)| < 13
    ensures forall t: Suit :: FoundationOrdered(f.With(s, f.Pile(s) + [card]).Pile(t))
    ensures FoundationBag(f.With(s, f.Pile(s) + [card])) == FoundationBag(f) + multiset{card.Id()}
  {
    var p := f.Pile(s);
    FoundationAcceptsExactlyNext(p, card);
    FoundationAtMostOneSuit(p + [card]);
    FoundationBagPush(f, s, card);
  }

  /** A card put on a foundation that accepts it, with everything else as consistent as before, leaves a consistent state. */
  lemma PlaceKeepsConsistent(g: GameState, r: GameState, s: Suit, card: Card)
    requires Consistent(g) && CanMoveToFoundation(card, g.foundation.Pile(s))
    requires r.foundation == g.foundation.With(s, g.foundation.Pile(s) + [card])
    requires |r.tableau| == 7 && TableauWellOrdered(r.tableau) && AllFaceUp(r.waste) && r.deck == g.deck
    requires Bag(r) == Bag(g) && r.gameWon == g.gameWon
    ensures Consistent(r)
  {
    FoundationPush(g.foundation, s, card);
    assert !CheckWinCondition(g);
  }

  /** Taking one card out of a tableau pile keeps every pile well ordered. */
  lemma TableauRemoveKeepsOrder(t: seq<seq<Card>>, p: nat, k: nat)
    requires TableauWellOrdered(t) && p < |t| && k < |t[p]|
    ensures |t[p := t[p][..k] + t[p][k + 1..]]| == |t|
    ensures TableauWellOrdered(t[p := t[p][..k] + t[p][k + 1..]])
  {
    TableauOrderedPieces(t[p], k);
  }

  /** A card whose identifier was taken from the other piles, put on a foundation, restores the bag. */
  lemma PlaceKeepsCards(g: GameState, h: GameState, r: GameState, s: Suit, card: Card)
    requires h.foundation == g.foundation && Bag(h) + multiset{card.Id()} == Bag(g)
    requires r.deck == h.deck && r.waste == h.waste && r.tableau == h.tableau
    requires r.foundation == g.foundation.With(s, g.foundation.Pile(s) + [card])
    ensures Bag(r) == Bag(g)
  {
    FoundationBagPush(g.foundation, s, card);
  }

  /**
   * Putting the waste card at position `k`, which foundation `s` accepts, onto
   * that foundation: exactly that card leaves the waste, the foundation grows by
   * it, the score rises by 10 and the move counter by one, no identifier is gained
   * or lost, and the state stays consistent.
   */
  lemma PlaceFromWaste(g: GameState, k: nat, s: Suit)
    requires Consistent(g) && k < |g.waste|
    requires CanMoveToFoundation(g.waste[k], g.foundation.Pile(s))
    ensures var card := g.waste[k];
      var r := PlaceOnFoundation(g, card.Id(), card, Waste, s);
      && r == g.(waste := g.waste[..k] + g.waste[k + 1..],
                 foundation := g.foundation.With(s, g.foundation.Pile(s) + [card]),
                 score := g.score + 10, moves := g.moves + 1)
      && Bag(r) == Bag(g)
      && Consistent(r)
  {
    var card := g.waste[k];
    var h := TakeFrom(g, card.Id(), Waste);
    var r := PlaceOnFoundation(g, card.Id(), card, Waste, s);
    assert h == g.(waste := g.waste[..k] + g.waste[k + 1..]) && Bag(h) + multiset{card.Id()} == Bag(g) && AllFaceUp(h.waste) by {
      PileHoldsIdOnce(g, Waste, k);
      TakeFromWasteEffect(g, k);
    }
    assert r == h.(foundation := g.foundation.With(s, g.foundation.Pile(s) + [card]), score := g.score + 10, moves := g.moves + 1);
    assert Bag(r) == Bag(g) by {
      PlaceKeepsCards(g, h, r, s, card);
    }
    PlaceKeepsConsistent(g, r, s, card);
  }

  /**
   * Putting the card at position `k` of tableau pile `p`, which foundation `s`
   * accepts, onto that foundation: exactly that card leaves the pile, the cards
   * above it close up, the foundation grows by it, the score rises by 10 and the
   * move counter by one, no identifier is gained or lost, and the state stays
   * consistent.
   */
  lemma PlaceFromTableau(g: GameState, p: nat, k: nat, s: Suit)
    requires Consistent(g) && p < |g.tableau| && k < |g.tableau[p]|
    requires CanMoveToFoundation(g.tableau[p][k], g.foundation.Pile(s))
    ensures var pile := g.tableau[p];
      var card := pile[k];
      var r := PlaceOnFoundation(g, card.Id(), card, Tableau(p), s);
      && r == g.(tableau := g.tableau[p := pile[..k] + pile[k + 1..]],
                 foundation := g.foundation.With(s, g.foundation.Pile(s) + [card]),
                 score := g.score + 10, moves := g.moves + 1)
      && Bag(r) == Bag(g)
      && Consistent(r)
  {
    var card := g.tableau[p][k];
    var r := PlaceOnFoundation(g, card.Id(), card, Tableau(p), s);
    TableauPlacementShape(g, p, k, s);
    assert |r.tableau| == 7 && TableauWellOrdered(r.tableau) by {
      TableauRemoveKeepsOrder(g.tableau, p, k);
    }
    PlaceKeepsConsistent(g, r, s, card);
  }

  /** The tableau card at position `k` of pile `p` put on foundation `s`: the resulting state, with no identifier gained or lost. */
  lemma TableauPlacementShape(g: GameState, p: nat, k: nat, s: Suit)
    requires Consistent(g) && p < |g.tableau| && k < |g.tableau[p]|
    ensures var pile := g.tableau[p];
      var card := pile[k];
      var r := PlaceOnFoundation(g, card.Id(), card, Tableau(p), s);
      && r == g.(tableau := g.tableau[p := pile[..k] + pile[k + 1..]],
                 foundation := g.foundation.With(s, g.foundation.Pile(s) + [card]),
                 score := g.score + 10, moves := g.moves + 1)
      && Bag(r) == Bag(g)
  {
    var pile := g.tableau[p];
    var card := pile[k];
    var h := TakeFrom(g, card.Id(), Tableau(p));
    var r := PlaceOnFoundation(g, card.Id(), card, Tableau(p), s);
    assert h == g.(tableau := g.tableau[p := pile[..k] + pile[k + 1..]]) && Bag(h) + multiset{card.Id()} == Bag(g) by {
      PileHoldsIdOnce(g, Tableau(p), k);
      TakeFromTableauEffect(g, p, k);
    }
    assert r == h.(foundation := g.foundation.With(s, g.foundation.Pile(s) + [card]), score := g.score + 10, moves := g.moves + 1);
    assert Bag(r) == Bag(g) by {
      PlaceKeepsCards(g, h, r, s, card);
    }
  }

  /**
   * Moving the cards from position `k` of tableau pile `p` up onto a different
   * pile `t` whose top accepts the first of them keeps every identifier and keeps
   * the state consistent.
   */
  lemma BlockMoveKeepsConsistent(g: GameState, p: nat, k: nat, t: nat)
    requires Consistent(g) && p < |g.tableau| && t < |g.tableau| && p != t && k < |g.tableau[p]|
    requires CanMoveToTableau(g.tableau[p][k], g.tableau[t])
    ensures var src := g.tableau[p];
      var r := g.(tableau := g.tableau[p := src[..k]][t := g.tableau[t] + src[k..]], moves := g.moves + 1);
      Bag(r) == Bag(g) && Consistent(r)
  {
    var src, target := g.tableau[p], g.tableau[t];
    var t2 := g.tableau[p := src[..k]][t := target + src[k..]];
    TableauBagMoveBlock(g.tableau, p, k, t);
    assert TableauWellOrdered(t2) by {
      TableauOrderedPieces(src, k);
      assert src[k..][0] == src[k];
      TableauAcceptsBlock(target, src[k..]);
    }
    var r := g.(tableau := t2, moves := g.moves + 1);
    assert Bag(r) == Bag(g);
  }

  /** A card on a foundation never fits on another non-empty foundation, nor on its own. */
  lemma FoundationCardStays(g: GameState, s': Suit, k: nat, s: Suit)
    requires Consistent(g) && k < |g.foundation.Pile(s')| && |g.foundation.Pile(s)| > 0
    ensures !CanMoveToFoundation(g.foundation.Pile(s')[k], g.foundation.Pile(s))
  {
    var a, b := g.foundation.Pile(s'), g.foundation.Pile(s);
    if CanMoveToFoundation(a[k], b) && s != s' {
      assert b[|b| - 1].suit == b[0].suit && a[k].suit == a[0].suit;
      assert a[0] == b[0];
      UniqueLocation(g, Foundation(s'), 0, Foundation(s), 0);
    }
  }

  /** Filtering the waste card at position `k` out of the waste loses its identifier and keeps the state consistent. */
  lemma WasteCardDropped(g: GameState, k: nat)
    requires Consistent(g) && k < |g.waste|
    ensures var id := g.waste[k].Id();
      var r := g.(waste := RemoveId(g.waste, id), moves := g.moves + 1);
      && r == g.(waste := g.waste[..k] + g.waste[k + 1..], moves := g.moves + 1)
      && Bag(r) + multiset{id} == Bag(g)
      && Bag(r) <= Bag(g)
      && id !in Bag(r)
      && Consistent(r)
  {
    var id := g.waste[k].Id();
    PileHoldsIdOnce(g, Waste, k);
    TakeFromWasteEffect(g, k);
    FullBagHasEachCardOnce(id);
    assert Bag(g)[id] <= 1;
  }

  /**
   * A waste card that a tableau pile accepts is filtered out of the waste and put
   * on no pile: it leaves the game, and only the move counter records the move.
   */
  lemma WasteToTableauLosesCard(g: GameState, from: Selection, to: Selection)
    requires Consistent(g) && HasPile(g, to.location) && to.location.Tableau? && from.cardId != to.cardId
    requires var info := FindCardById(g, from.cardId);
      info.Found? && info.location.Waste? && CanMoveToTableau(info.card, g.tableau[to.location.index])
    ensures var k := FindCardById(g, from.cardId).cardIndex;
      var r := MoveResult(g, from, to);
      && r == g.(waste := g.waste[..k] + g.waste[k + 1..], moves := g.moves + 1)
      && Bag(r) + multiset{from.cardId} == Bag(g)
      && from.cardId !in Bag(r)
      && Consistent(r)
  {
    var info := FindCardById(g, from.cardId);
    assert MoveResult(g, from, to) == ApplyMove(g, info, from.cardId, to.location);
    assert ApplyMove(g, info, from.cardId, to.location) == g.(waste := RemoveId(g.waste, from.cardId), moves := g.moves + 1);
    WasteCardDropped(g, info.cardIndex);
  }

  /**
   * A tableau card that another tableau pile accepts moves there together with
   * every card above it: the source pile is cut at the card, the target pile is
   * extended by the block in order, one move is counted, and nothing else changes.
   */
  lemma TableauToTableauMovesBlock(g: GameState, from: Selection, to: Selection)
    requires Consistent(g) && HasPile(g, to.location) && to.location.Tableau? && from.cardId != to.cardId
    requires var info := FindCardById(g, from.cardId);
      info.Found? && info.location.Tableau? && CanMoveToTableau(info.card, g.tableau[to.location.index])
    ensures var info := FindCardById(g, from.cardId);
      var p, k, t := info.location.index, info.cardIndex, to.location.index;
      var src := g.tableau[p];
      && p != t
      && MoveResult(g, from, to) == g.(tableau := g.tableau[p := src[..k]][t := g.tableau[t] + src[k..]], moves := g.moves + 1)
      && Bag(MoveResult(g, from, to)) == Bag(g)
  {
    var info := FindCardById(g, from.cardId);
    assert MoveResult(g, from, to) == ApplyMove(g, info, from.cardId, to.location);
    TableauOntoTableau(g, info, from.cardId, to.location.index);
  }

  /** A foundation card that a tableau pile accepts stays where it is; only the move counter changes. */
  lemma FoundationToTableauOnlyCounts(g: GameState, from: Selection, to: Selection)
    requires HasPile(g, to.location) && to.location.Tableau? && from.cardId != to.cardId
    requires var info := FindCardById(g, from.cardId);
      info.Found? && info.location.Foundation? && CanMoveToTableau(info.card, g.tableau[to.location.index])
    ensures MoveResult(g, from, to) == g.(moves := g.moves + 1)
  {
  }

  /**
   * What the board lets a click carry to the move: a click on an empty foundation
   * repeats the identifier of the selected card.
   */
  predicate EmptyFoundationRepeatsSelection(g: GameState, from: Selection, to: Selection) {
    to.location.Foundation? && g.foundation.Pile(to.location.suit) == [] ==> to.cardId == from.cardId
  }

  /** A located card moved onto a foundation keeps a consistent state consistent and every identifier in place. */
  lemma ApplyToFoundationKeepsConsistency(g: GameState, info: CardInfo, id: CardId, s: Suit)
    requires Consistent(g) && Locates(g, info) && (info.Found? ==> info.card.Id() == id)
    requires info.Found? && info.location.Foundation? ==> |g.foundation.Pile(s)| > 0
    ensures Consistent(ApplyMove(g, info, id, Foundation(s)))
    ensures Bag(ApplyMove(g, info, id, Foundation(s))) == Bag(g)
  {
    var r := ApplyMove(g, info, id, Foundation(s));
    if info.NotFound? || !CanMoveToFoundation(info.card, g.foundation.Pile(s)) {
      assert r == g;
    } else {
      var card, k := info.card, info.cardIndex;
      match info.location {
        case Waste =>
          assert r == PlaceOnFoundation(g, id, card, Waste, s);
          PlaceFromWaste(g, k, s);
        case Tableau(p) =>
          assert r == PlaceOnFoundation(g, id, card, Tableau(p), s);
          PlaceFromTableau(g, p, k, s);
        case Foundation(s') =>
          FoundationCardStays(g, s', k, s);
          assert false;
      }
    }
  }

  /** A waste card a tableau pile accepts leaves the game; the state stays consistent. */
  lemma WasteOntoTableau(g: GameState, info: CardInfo, id: CardId, t: nat)
    requires Consistent(g) && Locates(g, info) && info.Found? && info.card.Id() == id && t < |g.tableau|
    requires info.location.Waste? && CanMoveToTableau(info.card, g.tableau[t])
    ensures Consistent(ApplyMove(g, info, id, Tableau(t)))
    ensures Bag(ApplyMove(g, info, id, Tableau(t))) <= Bag(g)
  {
    var r := ApplyMove(g, info, id, Tableau(t));
    var dropped := g.(waste := RemoveId(g.waste, id), moves := g.moves + 1);
    assert r == dropped;
    assert Consistent(dropped) && Bag(dropped) <= Bag(g) by {
      WasteCardDropped(g, info.cardIndex);
    }
  }

  /** A block of tableau cards that another tableau pile accepts moves there; the state stays consistent. */
  lemma TableauOntoTableau(g: GameState, info: CardInfo, id: CardId, t: nat)
    requires Consistent(g) && Locates(g, info) && info.Found? && t < |g.tableau|
    requires info.location.Tableau? && CanMoveToTableau(info.card, g.tableau[t])
    ensures var p, k, src := info.location.index, info.cardIndex, g.tableau[info.location.index];
      && p != t
      && ApplyMove(g, info, id, Tableau(t)) == g.(tableau := g.tableau[p := src[..k]][t := g.tableau[t] + src[k..]], moves := g.moves + 1)
    ensures Consistent(ApplyMove(g, info, id, Tableau(t)))
    ensures Bag(ApplyMove(g, info, id, Tableau(t))) == Bag(g)
  {
    var p, k := info.location.index, info.cardIndex;
    if p == t {
      NoMoveOntoOwnPile(g.tableau[p], k);
      assert false;
    } else {
      var src := g.tableau[p];
      assert ApplyMove(g, info, id, Tableau(t)) == g.(tableau := g.tableau[p := src[..k]][t := g.tableau[t] + src[k..]], moves := g.moves + 1);
      BlockMoveKeepsConsistent(g, p, k, t);
    }
  }

  /**
   * A located card moved onto a tableau pile keeps a consistent state consistent;
   * no identifier is gained, and one is lost only when the card came from the waste.
   */
  lemma ApplyToTableauKeepsConsistency(g: GameState, info: CardInfo, id: CardId, t: nat)
    requires Consistent(g) && Locates(g, info) && (info.Found? ==> info.card.Id() == id) && t < |g.tableau|
    ensures Consistent(ApplyMove(g, info, id, Tableau(t)))
    ensures Bag(ApplyMove(g, info, id, Tableau(t))) <= Bag(g)
    ensures Bag(ApplyMove(g, info, id, Tableau(t))) == Bag(g) || (info.Found? && info.location.Waste?)
  {
    if info.NotFound? || !CanMoveToTableau(info.card, g.tableau[t]) {
      assert ApplyMove(g, info, id, Tableau(t)) == g;
    } else if info.location.Waste? {
      WasteOntoTableau(g, info, id, t);
    } else if info.location.Tableau? {
      TableauOntoTableau(g, info, id, t);
    } else {
      assert ApplyMove(g, info, id, Tableau(t)) == g.(moves := g.moves + 1);
    }
  }

  /**
   * Every move keeps a consistent state consistent. No identifier is gained, and
   * none is lost except when a waste card goes to the tableau.
   */
  lemma MovePreservesConsistency(g: GameState, from: Selection, to: Selection)
    requires Consistent(g) && HasPile(g, to.location)
    requires EmptyFoundationRepeatsSelection(g, from, to)
    ensures Consistent(MoveResult(g, from, to))
    ensures Bag(MoveResult(g, from, to)) <= Bag(g)
    ensures Bag(MoveResult(g, from, to)) == Bag(g) ||
      (FindCardById(g, from.cardId).Found? && FindCardById(g, from.cardId).location.Waste? && to.location.Tableau?)
  {
    if from.cardId != to.cardId {
      var info := FindCardById(g, from.cardId);
      match to.location {
        case Waste =>
        case Foundation(s) => ApplyToFoundationKeepsConsistency(g, info, from.cardId, s);
        case Tableau(t) => ApplyToTableauKeepsConsistency(g, info, from.cardId, t);
      }
    }
  }

  /**
   * The automatic move happens exactly when the card is found face up and some
   * foundation accepts it; otherwise nothing changes.
   */
  lemma AutoMovedExactly(g: GameState, id: CardId)
    ensures var info := FindCardById(g, id);
      AutoMoved(g, id) <==>
        info.Found? && info.card.faceUp && exists q | 0 <= q < |Suits| :: CanMoveToFoundation(info.card, g.foundation.Pile(Suits[q]))
    ensures !AutoMoved(g, id) ==> AutoMoveResult(g, id) == g
  {
    var info := FindCardById(g, id);
    if AutoMoved(g, id) {
      var s := AutoTarget(info.card, g.foundation, 0).value;
      assert CanMoveToFoundation(info.card, g.foundation.Pile(Suits[SuitIndex(s)]));
    }
  }

  /** Putting the card at position `k` of the waste or a tableau pile on foundation `s` takes exactly that card off its pile. */
  lemma PlaceShape(g: GameState, loc: Location, k: nat, s: Suit)
    requires Consistent(g) && HasPile(g, loc) && !loc.Foundation? && k < |PileAt(g, loc)|
    ensures var pile := PileAt(g, loc);
      var r := PlaceOnFoundation(g, pile[k].Id(), pile[k], loc, s);
      && r.foundation == g.foundation.With(s, g.foundation.Pile(s) + [pile[k]])
      && HasPile(r, loc)
      && PileAt(r, loc) == pile[..k] + pile[k + 1..]
      && r.score == g.score + 10 && r.moves == g.moves + 1
  {
    PileHoldsIdOnce(g, loc, k);
    match loc {
      case Waste => TakeFromWasteEffect(g, k);
      case Tableau(p) => TakeFromTableauEffect(g, p, k);
    }
  }

  /**
   * When it happens, the automatic move puts the card on the first accepting
   * foundation in suit order, takes it off its source pile, and scores 10 points
   * and one move.
   */
  lemma AutoMoveEffect(g: GameState, id: CardId)
    requires Consistent(g) && AutoMoved(g, id) && !FindCardById(g, id).location.Foundation?
    ensures var info := FindCardById(g, id);
      var s := AutoTarget(info.card, g.foundation, 0).value;
      var pile := PileAt(g, info.location);
      var r := AutoMoveResult(g, id);
      && (forall q | 0 <= q < SuitIndex(s) :: !CanMoveToFoundation(info.card, g.foundation.Pile(Suits[q])))
      && r.foundation == g.foundation.With(s, g.foundation.Pile(s) + [info.card])
      && HasPile(r, info.location)
      && PileAt(r, info.location) == pile[..info.cardIndex] + pile[info.cardIndex + 1..]
      && r.score == g.score + 10 && r.moves == g.moves + 1
  {
    var info := FindCardById(g, id);
    var s := AutoTarget(info.card, g.foundation, 0).value;
    var r := AutoMoveResult(g, id);
    assert r == PlaceOnFoundation(g, id, info.card, info.location, s);
    PlaceShape(g, info.location, info.cardIndex, s);
  }

  /** The automatic move keeps a consistent state consistent and keeps every identifier. */
  lemma AutoMoveKeepsConsistency(g: GameState, id: CardId)
    requires Consistent(g)
    requires FindCardById(g, id).Found? ==> !FindCardById(g, id).location.Foundation?
    ensures Consistent(AutoMoveResult(g, id))
    ensures Bag(AutoMoveResult(g, id)) == Bag(g)
  {
    var info := FindCardById(g, id);
    if AutoMoved(g, id) {
      var s := AutoTarget(info.card, g.foundation, 0).value;
      assert AutoMoveResult(g, id) == PlaceOnFoundation(g, id, info.card, info.location, s);
      match info.location {
        case Waste => PlaceFromWaste(g, info.cardIndex, s);
        case Tableau(p) => PlaceFromTableau(g, p, info.cardIndex, s);
      }
    }
  }

  /**
   * Foundations are tried in suit order, not by the card's suit: an Ace goes onto
   * the first empty foundation among hearts, diamonds, clubs, spades.
   */
  lemma AceGoesToFirstEmptyFoundation(g: GameState, id: CardId, s: Suit)
    requires FindCardById(g, id).Found? && FindCardById(g, id).card.faceUp && FindCardById(g, id).card.value == Ace
    requires g.foundation.Pile(s) == [] && forall q | 0 <= q < SuitIndex(s) :: g.foundation.Pile(Suits[q]) != []
    ensures AutoMoved(g, id) && AutoTarget(FindCardById(g, id).card, g.foundation, 0) == Some(s)
  {
    var card := FindCardById(g, id).card;
    var r := AutoTarget(card, g.foundation, 0);
    assert CanMoveToFoundation(card, g.foundation.Pile(Suits[SuitIndex(s)]));
  }

  /**
   * When it happens, the automatic move is the move a click on the target
   * foundation would make with that card selected.
   */
  lemma AutoMoveAgreesWithClickMove(g: GameState, from: Selection, to: Selection)
    requires AutoMoved(g, from.cardId) && from.cardId != to.cardId
    requires to.location == Foundation(AutoTarget(FindCardById(g, from.cardId).card, g.foundation, 0).value)
    ensures MoveResult(g, from, to) == AutoMoveResult(g, from.cardId)
  {
  }
}
