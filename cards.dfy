/** Card identities, the rank table and the colour rule of the game engine. */
module Cards {

  datatype Option<T> = None | Some(value: T)

  datatype Suit = Hearts | Diamonds | Clubs | Spades

  datatype Value = Ace | Two | Three | Four | Five | Six | Seven | Eight | Nine | Ten | Jack | Queen | King

  /** Suits in the order the engine enumerates them (deck building, foundation keys). */
  const Suits: seq<Suit> := [Hearts, Diamonds, Clubs, Spades]

  /** The rank table, A lowest and K highest. */
  const ValueOrder: seq<Value> := [Ace, Two, Three, Four, Five, Six, Seven, Eight, Nine, Ten, Jack, Queen, King]

  /** The identifier of a card: its value and suit, written `value-suit` by the engine. */
  datatype CardId = CardId(value: Value, suit: Suit)

  /** A card; only `faceUp` changes during play. */
  datatype Card = Card(suit: Suit, value: Value, faceUp: bool) {
    function Id(): CardId { CardId(value, suit) }
  }

  /** Position of a value in the rank table (A = 0 .. K = 12), i.e. the first index holding it. */
  function ValueIndex(v: Value): (r: nat)
    ensures r < |ValueOrder| && ValueOrder[r] == v
    ensures forall k | 0 <= k < r :: ValueOrder[k] != v
  {
    match v
    case Ace => 0
    case Two => 1
    case Three => 2
    case Four => 3
    case Five => 4
    case Six => 5
    case Seven => 6
    case Eight => 7
    case Nine => 8
    case Ten => 9
    case Jack => 10
    case Queen => 11
    case King => 12
  }

  /** Position of a suit in `Suits`. */
  function SuitIndex(s: Suit): (r: nat)
    ensures r < |Suits| && Suits[r] == s
    ensures forall k | 0 <= k < r :: Suits[k] != s
  {
    match s
    case Hearts => 0
    case Diamonds => 1
    case Clubs => 2
    case Spades => 3
  }

  /** Hearts and diamonds are red; clubs and spades are black. */
  predicate IsRed(s: Suit) {
    s == Hearts || s == Diamonds
  }

  /** The identifiers of a pile, position by position. */
  function Ids(s: seq<Card>): seq<CardId> {
    seq(|s|, k requires 0 <= k < |s| => s[k].Id())
  }

  lemma IdsAppend(a: seq<Card>, b: seq<Card>)
    ensures Ids(a + b) == Ids(a) + Ids(b)
  {
  }

  lemma IdsSlice(s: seq<Card>, i: nat, j: nat)
    requires i <= j <= |s|
    ensures Ids(s[i..j]) == Ids(s)[i..j]
  {
  }

  /** Taking the card at position `k` out of a pile takes its identifier out of the pile's identifiers. */
  lemma IdsRemoveAt(s: seq<Card>, k: nat)
    requires k < |s|
    ensures multiset(Ids(s)) == multiset(Ids(s[..k] + s[k + 1..])) + multiset{s[k].Id()}
  {
    assert s == s[..k] + [s[k]] + s[k + 1..];
    IdsAppend(s[..k] + [s[k]], s[k + 1..]);
    IdsAppend(s[..k], [s[k]]);
    IdsAppend(s[..k], s[k + 1..]);
  }
}
