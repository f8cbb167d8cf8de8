/**
 * The invariant every reachable game state keeps, and what follows from it:
 * each card identifier lives in at most one place, and a won game has every card
 * on the foundations.
 */
module Invariants {
  import opened Cards
  import opened State
  import opened Deck
  import opened Rules
  import opened Locator

  /** Every card of the pile is face up. */
  predicate AllFaceUp(pile: seq<Card>) {
    forall k | 0 <= k < |pile| :: pile[k].faceUp
  }

  /** Every card of the pile is face down. */
  predicate AllFaceDown(pile: seq<Card>) {
    forall k | 0 <= k < |pile| :: !pile[k].faceUp
  }

  /** Every foundation is built by the rules. */
  predicate FoundationsOrdered(f: Foundations) {
    forall s: Suit :: FoundationOrdered(f.Pile(s))
  }

  /** Every tableau pile is well ordered. */
  predicate TableauWellOrdered(t: seq<seq<Card>>) {
    forall p | 0 <= p < |t| :: TableauOrdered(t[p])
  }

  /**
   * Seven tableau piles; foundations built by the rules; tableau piles with their
   * face-down cards below strictly falling face-up ones; waste face up; stock face
   * down; no identifier twice and none outside the deck; the win flag only when won.
   */
  predicate Consistent(g: GameState) {
    && |g.tableau| == 7
    && FoundationsOrdered(g.foundation)
    && TableauWellOrdered(g.tableau)
    && AllFaceUp(g.waste)
    && AllFaceDown(g.deck)
    && Bag(g) <= FullBag()
    && (g.gameWon ==> CheckWinCondition(g))
  }

  /** The identifiers of any one pile, and of any two distinct piles together, lie inside the bag. */
  lemma PilesInBag(g: GameState, l1: Location, l2: Location)
    requires HasPile(g, l1) && HasPile(g, l2)
    ensures multiset(Ids(PileAt(g, l1))) <= Bag(g)
    ensures multiset(Ids(g.deck)) + multiset(Ids(PileAt(g, l1))) <= Bag(g)
    ensures l1 != l2 ==> multiset(Ids(PileAt(g, l1))) + multiset(Ids(PileAt(g, l2))) <= Bag(g)
  {
    var d, w, t, f := multiset(Ids(g.deck)), multiset(Ids(g.waste)), TableauBag(g.tableau), FoundationBag(g.foundation);
    assert Bag(g) == d + w + t + f;
    match l1 {
      case Waste =>
        match l2 {
          case Waste =>
          case Tableau(q) => TableauBagHolds(g.tableau, q, q);
          case Foundation(s) => FoundationBagHolds(g.foundation, s, s);
        }
      case Tableau(p) =>
        TableauBagHolds(g.tableau, p, p);
        match l2 {
          case Waste =>
          case Tableau(q) => TableauBagHolds(g.tableau, p, q);
          case Foundation(s) => FoundationBagHolds(g.foundation, s, s);
        }
      case Foundation(s) =>
        FoundationBagHolds(g.foundation, s, s);
        match l2 {
          case Waste =>
          case Tableau(q) => TableauBagHolds(g.tableau, q, q);
          case Foundation(s') => FoundationBagHolds(g.foundation, s, s');
        }
    }
  }

  /** A pile holding one identifier at two positions counts it twice. */
  lemma TwoPositions(s: seq<Card>, i: nat, j: nat)
    requires i < j < |s| && s[i].Id() == s[j].Id()
    ensures multiset(Ids(s))[s[i].Id()] >= 2
  {
    var ids := Ids(s);
    assert ids == ids[..j] + ids[j..];
    assert ids[i] in ids[..j];
    assert ids[j] in ids[j..];
  }

  /** In a consistent state a card identifier occurs at one position of one pile at most. */
  lemma UniqueLocation(g: GameState, l1: Location, k1: nat, l2: Location, k2: nat)
    requires Consistent(g) && HasPile(g, l1) && HasPile(g, l2)
    requires k1 < |PileAt(g, l1)| && k2 < |PileAt(g, l2)|
    requires PileAt(g, l1)[k1].Id() == PileAt(g, l2)[k2].Id()
    ensures l1 == l2 && k1 == k2
  {
    var id := PileAt(g, l1)[k1].Id();
    FullBagHasEachCardOnce(id);
    assert Ids(PileAt(g, l1))[k1] == id && Ids(PileAt(g, l2))[k2] == id;
    PilesInBag(g, l1, l2);
    if l1 == l2 && k1 != k2 {
      if k1 < k2 { TwoPositions(PileAt(g, l1), k1, k2); } else { TwoPositions(PileAt(g, l1), k2, k1); }
    }
  }

  /** A card in the stock is never reported by the locator. */
  lemma StockCardIsNotFound(g: GameState, k: nat)
    requires Consistent(g) && k < |g.deck|
    ensures FindCardById(g, g.deck[k].Id()).NotFound?
  {
    var id := g.deck[k].Id();
    var r := FindCardById(g, id);
    if r.Found? {
      FullBagHasEachCardOnce(id);
      assert Ids(g.deck)[k] == id;
      assert Ids(PileAt(g, r.location))[r.cardIndex] == id;
      PilesInBag(g, r.location, r.location);
    }
  }

  /** The card the locator reports is the only card with that identifier outside the stock. */
  lemma FoundCardIsTheOnlyOne(g: GameState, id: CardId, loc: Location, k: nat)
    requires Consistent(g) && HasPile(g, loc) && k < |PileAt(g, loc)| && PileAt(g, loc)[k].Id() == id
    ensures FindCardById(g, id) == Found(PileAt(g, loc)[k], loc, k)
  {
    var r := FindCardById(g, id);
    assert Ids(PileAt(g, loc))[k] == id;
    if r.NotFound? {
      match loc
      case Waste =>
      case Tableau(p) =>
      case Foundation(s) =>
    } else {
      UniqueLocation(g, r.location, r.cardIndex, loc, k);
    }
  }

  /** A sub-multiset is no larger than its super-multiset; of equal size, they are equal. */
  lemma SubBagSize(a: multiset<CardId>, b: multiset<CardId>)
    requires a <= b
    ensures |a| <= |b|
    ensures |a| == |b| ==> a == b
  {
    assert b == a + (b - a);
  }

  /** Once each foundation holds 13 cards, every identifier of the deck is on a foundation and nowhere else. */
  lemma WonGameHasOnlyFoundations(g: GameState)
    requires Consistent(g) && CheckWinCondition(g)
    ensures g.deck == [] && g.waste == []
    ensures forall p | 0 <= p < |g.tableau| :: g.tableau[p] == []
    ensures Bag(g) == FullBag()
  {
    var d, w, t, f := multiset(Ids(g.deck)), multiset(Ids(g.waste)), TableauBag(g.tableau), FoundationBag(g.foundation);
    assert |Bag(g)| == 52 && |d| + |w| + |t| == 0 by {
      assert |f| == 52;
      assert |FullBag()| == 52;
      SubBagSize(Bag(g), FullBag());
      assert |Bag(g)| == |d| + |w| + |t| + |f|;
    }
    SubBagSize(Bag(g), FullBag());
    assert |g.deck| == |d| && |g.waste| == |w|;
    assert t == multiset{};
    TableauBagEmpty(g.tableau);
  }

  /**
   * Once each foundation holds 13 cards, all 52 cards are on the foundations,
   * stock, waste and tableau are empty, and each foundation is one whole suit
   * from Ace to King, a different suit on each.
   */
  lemma WonGameHasEveryCardOnFoundations(g: GameState)
    requires Consistent(g) && CheckWinCondition(g)
    ensures g.deck == [] && g.waste == []
    ensures forall p | 0 <= p < |g.tableau| :: g.tableau[p] == []
    ensures Bag(g) == FullBag()
    ensures forall s: Suit :: |g.foundation.Pile(s)| == 13 && g.foundation.Pile(s) == SuitRun(g.foundation.Pile(s)[0].suit)
    ensures forall s: Suit, s': Suit, x: Suit | s != s' && g.foundation.Pile(s) == SuitRun(x) :: g.foundation.Pile(s') != SuitRun(x)
  {
    WonGameHasOnlyFoundations(g);
    forall s: Suit ensures |g.foundation.Pile(s)| == 13 && g.foundation.Pile(s) == SuitRun(g.foundation.Pile(s)[0].suit) {
      FoundationAtMostOneSuit(g.foundation.Pile(s));
    }
    forall s: Suit, s': Suit, x: Suit | s != s' && g.foundation.Pile(s) == SuitRun(x) ensures g.foundation.Pile(s') != SuitRun(x) {
      if g.foundation.Pile(s') == SuitRun(x) {
        assert g.foundation.Pile(s)[0] == g.foundation.Pile(s')[0];
        UniqueLocation(g, Foundation(s), 0, Foundation(s'), 0);
      }
    }
  }
}
