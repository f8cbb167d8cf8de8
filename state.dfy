/** The game state: stock, waste, four foundations keyed by suit, seven tableau piles, counters. */
module State {
  import opened Cards

  /** The foundation record, one pile per suit key. */
  datatype Foundations = Foundations(hearts: seq<Card>, diamonds: seq<Card>, clubs: seq<Card>, spades: seq<Card>) {

    function Pile(s: Suit): seq<Card> {
      match s
      case Hearts => hearts
      case Diamonds => diamonds
      case Clubs => clubs
      case Spades => spades
    }

    function With(s: Suit, p: seq<Card>): (r: Foundations)
      ensures r.Pile(s) == p
      ensures forall t | t != s :: r.Pile(t) == Pile(t)
    {
      match s
      case Hearts => this.(hearts := p)
      case Diamonds => this.(diamonds := p)
      case Clubs => this.(clubs := p)
      case Spades => this.(spades := p)
    }
  }

  const EmptyFoundations: Foundations := Foundations([], [], [], [])

  /**
   * `deck` is the stock (drawn from its end), `waste` has its top at the end,
   * every pile is listed bottom card first.
   */
  datatype GameState = GameState(
    deck: seq<Card>,
    waste: seq<Card>,
    foundation: Foundations,
    tableau: seq<seq<Card>>,
    moves: nat,
    score: nat,
    gameWon: bool)

  /** Where the locator can find a card (the stock is never searched). */
  datatype Location = Waste | Tableau(index: nat) | Foundation(suit: Suit)

  predicate HasPile(g: GameState, loc: Location) {
    loc.Tableau? ==> loc.index < |g.tableau|
  }

  function PileAt(g: GameState, loc: Location): seq<Card>
    requires HasPile(g, loc)
  {
    match loc
    case Waste => g.waste
    case Tableau(i) => g.tableau[i]
    case Foundation(s) => g.foundation.Pile(s)
  }

  /** The identifiers held by the tableau piles, with multiplicity. */
  function TableauBag(t: seq<seq<Card>>): multiset<CardId> {
    if |t| == 0 then multiset{} else TableauBag(t[..|t| - 1]) + multiset(Ids(t[|t| - 1]))
  }

  /** The identifiers held by the four foundations, with multiplicity. */
  function FoundationBag(f: Foundations): multiset<CardId> {
    multiset(Ids(f.hearts)) + multiset(Ids(f.diamonds)) + multiset(Ids(f.clubs)) + multiset(Ids(f.spades))
  }

  /** Every card identifier present anywhere in the game, with multiplicity. */
  function Bag(g: GameState): multiset<CardId> {
    multiset(Ids(g.deck)) + multiset(Ids(g.waste)) + TableauBag(g.tableau) + FoundationBag(g.foundation)
  }

  /** Replacing one tableau pile replaces its identifiers in the tableau bag. */
  lemma {:induction false} TableauBagUpdate(t: seq<seq<Card>>, p: nat, x: seq<Card>)
    requires p < |t|
    ensures TableauBag(t[p := x]) + multiset(Ids(t[p])) == TableauBag(t) + multiset(Ids(x))
  {
    var n := |t| - 1;
    var u := t[p := x];
    assert TableauBag(u) == TableauBag(u[..n]) + multiset(Ids(u[n]));
    assert TableauBag(t) == TableauBag(t[..n]) + multiset(Ids(t[n]));
    if p == n {
      assert u[..n] == t[..n];
    } else {
      var front := t[..n];
      assert u[..n] == front[p := x];
      assert front[p] == t[p];
      assert u[n] == t[n];
      TableauBagUpdate(front, p, x);
      var a, b, c := TableauBag(front[p := x]), multiset(Ids(t[p])), multiset(Ids(t[n]));
      assert a + b == TableauBag(front) + multiset(Ids(x));
      assert TableauBag(u) == a + c;
      assert TableauBag(t) == TableauBag(front) + c;
      assert TableauBag(u) + b == a + b + c;
    }
  }

  /** Two different tableau piles both lie inside the tableau bag. */
  lemma {:induction false} TableauBagHolds(t: seq<seq<Card>>, p: nat, q: nat)
    requires p < |t| && q < |t|
    ensures multiset(Ids(t[p])) <= TableauBag(t)
    ensures p != q ==> multiset(Ids(t[p])) + multiset(Ids(t[q])) <= TableauBag(t)
  {
    var n := |t| - 1;
    var front := t[..n];
    assert TableauBag(t) == TableauBag(front) + multiset(Ids(t[n]));
    if p < n && q < n {
      assert front[p] == t[p] && front[q] == t[q];
      TableauBagHolds(front, p, q);
    } else if p < n {
      assert front[p] == t[p];
      TableauBagHolds(front, p, p);
    } else if q < n {
      assert front[q] == t[q];
      TableauBagHolds(front, q, q);
    }
  }

  /** Replacing one foundation pile replaces its identifiers in the foundation bag. */
  lemma FoundationBagUpdate(f: Foundations, s: Suit, x: seq<Card>)
    ensures FoundationBag(f.With(s, x)) + multiset(Ids(f.Pile(s))) == FoundationBag(f) + multiset(Ids(x))
  {
  }

  /** Two different foundation piles both lie inside the foundation bag. */
  lemma FoundationBagHolds(f: Foundations, s: Suit, t: Suit)
    ensures multiset(Ids(f.Pile(s))) <= FoundationBag(f)
    ensures s != t ==> multiset(Ids(f.Pile(s))) + multiset(Ids(f.Pile(t))) <= FoundationBag(f)
  {
  }

  /** An empty tableau bag means every pile is empty. */
  lemma TableauBagEmpty(t: seq<seq<Card>>)
    requires TableauBag(t) == multiset{}
    ensures forall p | 0 <= p < |t| :: t[p] == []
  {
    forall p | 0 <= p < |t| ensures t[p] == [] {
      TableauBagHolds(t, p, p);
      assert |Ids(t[p])| == |multiset(Ids(t[p]))| == 0;
    }
  }

  /** Piles that are all empty hold no identifiers. */
  lemma {:induction false} TableauBagOfEmptyPiles(t: seq<seq<Card>>)
    requires forall p | 0 <= p < |t| :: t[p] == []
    ensures TableauBag(t) == multiset{}
  {
    if |t| > 0 {
      TableauBagOfEmptyPiles(t[..|t| - 1]);
    }
  }

  /** Putting one card on a tableau pile adds its identifier to the tableau bag. */
  lemma TableauBagPush(t: seq<seq<Card>>, p: nat, c: Card)
    requires p < |t|
    ensures TableauBag(t[p := t[p] + [c]]) == TableauBag(t) + multiset{c.Id()}
  {
    var u := TableauBag(t[p := t[p] + [c]]);
    var b := multiset(Ids(t[p]));
    TableauBagUpdate(t, p, t[p] + [c]);
    IdsAppend(t[p], [c]);
    var v := TableauBag(t) + multiset{c.Id()};
    Cancel(u, v, b);
  }

  /** Multiset addition cancels. */
  lemma Cancel(u: multiset<CardId>, v: multiset<CardId>, b: multiset<CardId>)
    requires u + b == v + b
    ensures u == v
  {
    forall z ensures u[z] == v[z] {
      assert (u + b)[z] == (v + b)[z];
    }
  }

  /** Putting one card on a foundation adds its identifier to the foundation bag. */
  lemma FoundationBagPush(f: Foundations, s: Suit, c: Card)
    ensures FoundationBag(f.With(s, f.Pile(s) + [c])) == FoundationBag(f) + multiset{c.Id()}
  {
    var p := f.Pile(s);
    FoundationBagUpdate(f, s, p + [c]);
    IdsAppend(p, [c]);
    Cancel(FoundationBag(f.With(s, p + [c])), FoundationBag(f) + multiset{c.Id()}, multiset(Ids(p)));
  }

  /** Moving the top part of pile `p`, from position `k` up, onto a different pile `q` keeps the tableau bag. */
  lemma TableauBagMoveBlock(t: seq<seq<Card>>, p: nat, k: nat, q: nat)
    requires p < |t| && q < |t| && p != q && k <= |t[p]|
    ensures TableauBag(t[p := t[p][..k]][q := t[q] + t[p][k..]]) == TableauBag(t)
  {
    var src, target := t[p], t[q];
    var t1 := t[p := src[..k]];
    var t2 := t1[q := target + src[k..]];
    var low, high := multiset(Ids(src[..k])), multiset(Ids(src[k..]));
    assert src == src[..k] + src[k..];
    IdsAppend(src[..k], src[k..]);
    IdsAppend(target, src[k..]);
    TableauBagUpdate(t, p, src[..k]);
    TableauBagUpdate(t1, q, target + src[k..]);
    Cancel(TableauBag(t2), TableauBag(t1) + high, multiset(Ids(target)));
    Cancel(TableauBag(t1) + high, TableauBag(t), low);
  }
}
