/** Dealing a new game: a shuffled deck, seven tableau piles of 1 .. 7 cards, the rest as stock. */
module Dealing {
  import opened Cards
  import opened State
  import opened Deck
  import opened Rules
  import opened Invariants

  /** Cards dealt onto the first `i` tableau piles: 1 + 2 + ... + i. */
  function Dealt(i: nat): nat {
    if i == 0 then 0 else Dealt(i - 1) + i
  }

  /** Pile `p` after its first `n` cards are dealt: only the card at position `p` face up. */
  predicate PileDealt(pile: seq<Card>, p: nat, n: nat) {
    |pile| == n && forall m | 0 <= m < n :: pile[m].faceUp <==> m == p
  }

  /** Piles before `i` fully dealt, pile `i` holding its first `j` cards, later piles empty. */
  predicate DealtSoFar(t: seq<seq<Card>>, i: nat, j: nat) {
    && |t| == 7
    && (forall p | 0 <= p < i && p < 7 :: PileDealt(t[p], p, p + 1))
    && (i < 7 ==> PileDealt(t[i], i, j))
    && (forall p | i < p < 7 :: t[p] == [])
  }

  /** The deal in progress: stock and tableau together still hold the full deck. */
  predicate DealInvariant(deck: seq<Card>, t: seq<seq<Card>>, i: nat, j: nat) {
    && DealtSoFar(t, i, j)
    && Dealt(i) <= 7 * i && |deck| + Dealt(i) + j == 52
    && (forall k | 0 <= k < |deck| :: !deck[k].faceUp)
    && multiset(Ids(deck)) + TableauBag(t) == FullBag()
  }

  /**
   * Card `m` of pile `p` is the card popped from position 51 - (1 + 2 + ... + p) - m
   * of the shuffled deck `d`, face up exactly when it is the pile's last.
   */
  predicate PileFrom(d: seq<Card>, pile: seq<Card>, p: nat) {
    forall m | 0 <= m < |pile| :: Dealt(p) + m < |d| && pile[m] == d[|d| - 1 - Dealt(p) - m].(faceUp := m == p)
  }

  /** Where the dealt cards come from: the stock is a prefix of the shuffled deck `d`, each pile as above. */
  predicate DealtFrom(d: seq<Card>, deck: seq<Card>, t: seq<seq<Card>>) {
    && |d| == 52 && |deck| <= 52 && deck == d[..|deck|]
    && forall p | 0 <= p < |t| :: PileFrom(d, t[p], p)
  }

  /** Dealing the next card keeps track of where it came from. */
  lemma DealOneCardFrom(d: seq<Card>, deck: seq<Card>, t: seq<seq<Card>>, i: nat, j: nat)
    requires DealtFrom(d, deck, t) && DealInvariant(deck, t, i, j) && i < 7 && j <= i && |deck| > 0
    ensures var n := |deck| - 1;
      DealtFrom(d, deck[..n], t[i := t[i] + [deck[n].(faceUp := j == i)]])
  {
    var n := |deck| - 1;
    var pile := t[i] + [deck[n].(faceUp := j == i)];
    assert |t[i]| == j && d[n] == deck[n];
    assert PileFrom(d, pile, i) by {
      assert PileFrom(d, t[i], i);
      forall m | 0 <= m < |pile|
        ensures Dealt(i) + m < |d| && pile[m] == d[|d| - 1 - Dealt(i) - m].(faceUp := m == i)
      {
        if m < j {
          assert pile[m] == t[i][m];
        }
      }
    }
    assert deck[..n] == d[..|deck[..n]|];
  }

  /**
   * Dealing the `j`-th card of pile `i`: the stock is not yet empty, and its last
   * card goes onto pile `i`, face up exactly when it is the pile's last.
   */
  lemma DealOneCard(deck: seq<Card>, t: seq<seq<Card>>, i: nat, j: nat)
    requires DealInvariant(deck, t, i, j) && i < 7 && j <= i
    ensures |deck| > 0
    ensures var n := |deck| - 1;
      DealInvariant(deck[..n], t[i := t[i] + [deck[n].(faceUp := j == i)]], i, j + 1)
  {
    var n := |deck| - 1;
    var c := deck[n].(faceUp := j == i);
    var u := t[i := t[i] + [c]];
    assert u[i][j] == c;
    assert forall m | 0 <= m < j :: u[i][m] == t[i][m];
    assert DealtSoFar(u, i, j + 1);
    DealStepKeepsCards(deck, t, i, j == i);
  }

  /** Pile `i` complete: the deal moves on to pile `i + 1`. */
  lemma NextPile(deck: seq<Card>, t: seq<seq<Card>>, i: nat)
    requires DealInvariant(deck, t, i, i + 1) && i < 7
    ensures DealInvariant(deck, t, i + 1, 0)
  {
  }

  /** Moving the last stock card onto pile `i` keeps the identifiers of stock and tableau together. */
  lemma DealStepKeepsCards(deck: seq<Card>, tableau: seq<seq<Card>>, i: nat, up: bool)
    requires |deck| > 0 && i < |tableau|
    ensures var n := |deck| - 1;
      multiset(Ids(deck[..n])) + TableauBag(tableau[i := tableau[i] + [deck[n].(faceUp := up)]])
      == multiset(Ids(deck)) + TableauBag(tableau)
  {
    var n := |deck| - 1;
    assert deck == deck[..n] + [deck[n]];
    IdsAppend(deck[..n], [deck[n]]);
    TableauBagPush(tableau, i, deck[n].(faceUp := up));
  }

  /** A game laid out as dealt, with the cards of the full deck, is consistent. */
  lemma DealtGameIsConsistent(g: GameState)
    requires DealtSoFar(g.tableau, 7, 0)
    requires forall k | 0 <= k < |g.deck| :: !g.deck[k].faceUp
    requires g.waste == [] && g.foundation == EmptyFoundations && !g.gameWon
    requires multiset(Ids(g.deck)) + TableauBag(g.tableau) == FullBag()
    ensures Consistent(g) && Bag(g) == FullBag()
  {
    forall p | 0 <= p < 7 ensures TableauOrdered(g.tableau[p]) {
      assert PileDealt(g.tableau[p], p, p + 1);
    }
    assert Bag(g) == multiset(Ids(g.deck)) + TableauBag(g.tableau);
  }

  /**
   * The layout of a new game dealt from the shuffle with draws `picks`: seven
   * piles, pile `p` with `p + 1` cards of which only the last is face up, 24
   * face-down cards left as the stock, waste and foundations empty, counters
   * zero, and every card where the deal's pops put it.
   */
  predicate FreshDeal(picks: seq<nat>, g: GameState) {
    && ValidPicks(picks, 52)
    && |g.tableau| == 7
    && (forall p | 0 <= p < 7 :: |g.tableau[p]| == p + 1 && forall m | 0 <= m <= p :: g.tableau[p][m].faceUp <==> m == p)
    && |g.deck| == 24 && (forall k | 0 <= k < |g.deck| :: !g.deck[k].faceUp)
    && g.waste == [] && g.foundation == EmptyFoundations
    && g.moves == 0 && g.score == 0 && !g.gameWon
    && DealtFrom(FisherYates(CanonicalDeck(), picks, 51), g.deck, g.tableau)
  }

  /**
   * A new game: pile `p` of the tableau receives `p + 1` cards popped from the end
   * of the shuffled deck, only the last of them face up; the 24 cards left stay
   * face down as the stock; waste and foundations are empty and the counters zero.
   */
  method InitializeGame(picks: seq<nat>) returns (g: GameState)
    requires ValidPicks(picks, 52)
    ensures Consistent(g)
    ensures Bag(g) == FullBag()
    ensures FreshDeal(picks, g)
  {
    var deck := CreateDeck(picks);
    ghost var d := deck;
    ShuffledDeck(deck);
    var tableau: seq<seq<Card>> := seq(7, _ => []);
    TableauBagOfEmptyPiles(tableau);
    var i := 0;
    while i < 7
      invariant i <= 7 && DealInvariant(deck, tableau, i, 0) && DealtFrom(d, deck, tableau)
    {
      var j := 0;
      while j <= i
        invariant j <= i + 1 && DealInvariant(deck, tableau, i, j) && DealtFrom(d, deck, tableau)
      {
        DealOneCard(deck, tableau, i, j);
        DealOneCardFrom(d, deck, tableau, i, j);
        if |deck| > 0 {
          var card := deck[|deck| - 1];
          deck := deck[..|deck| - 1];
          card := card.(faceUp := j == i);
          tableau := tableau[i := tableau[i] + [card]];
        }
        j := j + 1;
      }
      NextPile(deck, tableau, i);
      i := i + 1;
    }
    assert Dealt(7) == 28;
    g := GameState(deck, [], EmptyFoundations, tableau, 0, 0, false);
    DealtGameIsConsistent(g);
  }
}
