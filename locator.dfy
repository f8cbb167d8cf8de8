/** The locator: resolves a card identifier to its pile and position. */
module Locator {
  import opened Cards
  import opened State

  /** `findIndex` by identifier: the first position of the pile holding `id`, or -1. */
  function IndexOfId(pile: seq<Card>, id: CardId): (k: int)
    ensures -1 <= k < |pile|
    ensures k >= 0 ==> pile[k].Id() == id
    ensures forall j | 0 <= j < |pile| && (k < 0 || j < k) :: pile[j].Id() != id
    ensures k < 0 <==> id !in Ids(pile)
  {
    if |pile| == 0 then -1
    else if pile[0].Id() == id then assert Ids(pile)[0] == id; 0
    else
      var r := IndexOfId(pile[1..], id);
      if r < 0 then -1 else assert Ids(pile)[r + 1] == id; r + 1
  }

  /** What the locator reports; the stock is never searched. */
  datatype CardInfo = NotFound | Found(card: Card, location: Location, cardIndex: nat)

  /** Searches tableau piles `i`, `i + 1`, ... in order. */
  function FindInTableau(t: seq<seq<Card>>, id: CardId, i: nat): (r: CardInfo)
    requires i <= |t|
    decreases |t| - i
    ensures r.Found? ==> r.location.Tableau? && i <= r.location.index < |t|
    ensures r.Found? ==> r.cardIndex == IndexOfId(t[r.location.index], id) && r.card == t[r.location.index][r.cardIndex]
    ensures r.Found? ==> forall q | i <= q < r.location.index :: id !in Ids(t[q])
    ensures r.NotFound? ==> forall q | i <= q < |t| :: id !in Ids(t[q])
  {
    if i == |t| then NotFound
    else
      var k := IndexOfId(t[i], id);
      if k >= 0 then Found(t[i][k], Tableau(i), k) else FindInTableau(t, id, i + 1)
  }

  /** Searches the foundation piles of `Suits[i]`, `Suits[i + 1]`, ... in order. */
  function FindInFoundations(f: Foundations, id: CardId, i: nat): (r: CardInfo)
    requires i <= |Suits|
    decreases |Suits| - i
    ensures r.Found? ==> r.location.Foundation? && i <= SuitIndex(r.location.suit)
    ensures r.Found? ==> r.cardIndex == IndexOfId(f.Pile(r.location.suit), id) && r.card == f.Pile(r.location.suit)[r.cardIndex]
    ensures r.Found? ==> forall q | i <= q < SuitIndex(r.location.suit) :: id !in Ids(f.Pile(Suits[q]))
    ensures r.NotFound? ==> forall q | i <= q < |Suits| :: id !in Ids(f.Pile(Suits[q]))
  {
    if i == |Suits| then NotFound
    else
      var k := IndexOfId(f.Pile(Suits[i]), id);
      if k >= 0 then Found(f.Pile(Suits[i])[k], Foundation(Suits[i]), k) else FindInFoundations(f, id, i + 1)
  }

  /**
   * The first card with identifier `id`, searching the waste, then tableau piles
   * 0 .. 6, then the foundations of hearts, diamonds, clubs, spades.
   */
  function FindCardById(g: GameState, id: CardId): (r: CardInfo)
    ensures r.Found? ==> HasPile(g, r.location) && r.cardIndex < |PileAt(g, r.location)|
    ensures r.Found? ==> r.card == PileAt(g, r.location)[r.cardIndex] && r.card.Id() == id
    ensures r.Found? ==> r.cardIndex == IndexOfId(PileAt(g, r.location), id)
    ensures r.Found? && !r.location.Waste? ==> id !in Ids(g.waste)
    ensures r.Found? && r.location.Tableau? ==> forall q | 0 <= q < r.location.index :: id !in Ids(g.tableau[q])
    ensures r.Found? && r.location.Foundation? ==>
      (forall q | 0 <= q < |g.tableau| :: id !in Ids(g.tableau[q])) &&
      (forall q | 0 <= q < SuitIndex(r.location.suit) :: id !in Ids(g.foundation.Pile(Suits[q])))
    ensures r.NotFound? <==>
      id !in Ids(g.waste) &&
      (forall q | 0 <= q < |g.tableau| :: id !in Ids(g.tableau[q])) &&
      (forall s: Suit :: id !in Ids(g.foundation.Pile(s)))
  {
    var w := IndexOfId(g.waste, id);
    if w >= 0 then Found(g.waste[w], Waste, w)
    else
      match FindInTableau(g.tableau, id, 0)
      case Found(c, loc, k) => Found(c, loc, k)
      case NotFound => FindInFoundations(g.foundation, id, 0)
  }

  /** The locator as the engine runs it: the waste, then each tableau pile, then each foundation in suit order. */
  method Locate(g: GameState, id: CardId) returns (r: CardInfo)
    ensures r == FindCardById(g, id)
  {
    var wasteIndex := IndexOfId(g.waste, id);
    if wasteIndex >= 0 {
      return Found(g.waste[wasteIndex], Waste, wasteIndex);
    }
    for i := 0 to |g.tableau|
      invariant FindInTableau(g.tableau, id, i) == FindInTableau(g.tableau, id, 0)
    {
      var cardIndex := IndexOfId(g.tableau[i], id);
      if cardIndex >= 0 {
        return Found(g.tableau[i][cardIndex], Tableau(i), cardIndex);
      }
    }
    for q := 0 to |Suits|
      invariant FindInTableau(g.tableau, id, 0) == NotFound
      invariant FindInFoundations(g.foundation, id, q) == FindInFoundations(g.foundation, id, 0)
    {
      var suit := Suits[q];
      var cardIndex := IndexOfId(g.foundation.Pile(suit), id);
      if cardIndex >= 0 {
        return Found(g.foundation.Pile(suit)[cardIndex], Foundation(suit), cardIndex);
      }
    }
    return NotFound;
  }
}
