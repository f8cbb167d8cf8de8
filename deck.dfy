/** Deck construction and the Fisher-Yates shuffle. */
module Deck {
  import opened Cards

  /** The card at position `k` of the unshuffled deck: suit-major, value-minor, face down. */
  function CanonicalCard(k: nat): Card
    requires k < 52
  {
    Card(Suits[k / 13], ValueOrder[k % 13], false)
  }

  /** The 52 cards in the order the builder enumerates them, before shuffling. */
  function CanonicalDeck(): seq<Card> {
    seq(52, k requires 0 <= k < 52 => CanonicalCard(k))
  }

  /** The identifiers of a complete deck, with multiplicity. */
  function FullBag(): multiset<CardId> {
    multiset(Ids(CanonicalDeck()))
  }

  /**
   * The swap indices drawn by the shuffle: at step `i` the source draws an index
   * in [0, i]. Only the range is modelled, not the distribution.
   */
  predicate ValidPicks(picks: seq<nat>, n: nat) {
    |picks| == n && forall i | 0 <= i < n :: picks[i] <= i
  }

  /** The sequence with the elements at `i` and `j` exchanged. */
  function Swap<T>(s: seq<T>, i: nat, j: nat): (r: seq<T>)
    requires i < |s| && j < |s|
    ensures |r| == |s| && r[i] == s[j] && r[j] == s[i]
    ensures forall k | 0 <= k < |s| && k != i && k != j :: r[k] == s[k]
  {
    s[i := s[j]][j := s[i]]
  }

  /** Fisher-Yates from position `i` down to 1: position `i` is exchanged with position `picks[i]`. */
  function FisherYates<T>(s: seq<T>, picks: seq<nat>, i: int): seq<T>
    requires i < |s| && ValidPicks(picks, |s|)
    decreases i
  {
    if i <= 0 then s else FisherYates(Swap(s, i, picks[i]), picks, i - 1)
  }

  /** Exchanging two elements keeps the multiset. */
  lemma SwapPermutes<T>(s: seq<T>, i: nat, j: nat)
    requires i < |s| && j < |s|
    ensures multiset(Swap(s, i, j)) == multiset(s)
  {
    if i != j {
      var t := s[i := s[j]];
      assert multiset(t) == multiset(s) - multiset{s[i]} + multiset{s[j]};
      assert multiset(t[j := s[i]]) == multiset(t) - multiset{t[j]} + multiset{s[i]};
    }
  }

  /** Whatever the picks, the shuffle only rearranges the deck. */
  lemma {:induction false} FisherYatesPermutes<T>(s: seq<T>, picks: seq<nat>, i: int)
    requires i < |s| && ValidPicks(picks, |s|)
    ensures |FisherYates(s, picks, i)| == |s|
    ensures multiset(FisherYates(s, picks, i)) == multiset(s)
    decreases i
  {
    if i > 0 {
      SwapPermutes(s, i, picks[i]);
      FisherYatesPermutes(Swap(s, i, picks[i]), picks, i - 1);
    }
  }

  /** Picks that always choose the current position leave the deck as it was. */
  lemma {:induction false} IdentityPicksKeepOrder<T>(s: seq<T>, picks: seq<nat>, i: int)
    requires i < |s| && ValidPicks(picks, |s|)
    requires forall k | 0 <= k < |s| :: picks[k] == k
    ensures FisherYates(s, picks, i) == s
    decreases i
  {
    if i > 0 {
      assert Swap(s, i, picks[i]) == s;
      IdentityPicksKeepOrder(s, picks, i - 1);
    }
  }

  /** Fisher-Yates over a fresh copy of the deck, from the last position down to 1. */
  method ShuffleDeck(deck: seq<Card>, picks: seq<nat>) returns (shuffled: seq<Card>)
    requires ValidPicks(picks, |deck|)
    ensures shuffled == FisherYates(deck, picks, |deck| - 1)
    ensures |shuffled| == |deck| && multiset(shuffled) == multiset(deck)
  {
    var a := new Card[|deck|](k requires 0 <= k < |deck| => deck[k]);
    assert a[..] == deck;
    var i: int := a.Length - 1;
    while i > 0
      invariant -1 <= i < a.Length
      invariant i >= 0 || |deck| == 0
      invariant FisherYates(a[..], picks, i) == FisherYates(deck, picks, |deck| - 1)
    {
      var j := picks[i];
      ghost var before := a[..];
      a[i], a[j] := a[j], a[i];
      assert a[..] == Swap(before, i, j);
      i := i - 1;
    }
    shuffled := a[..];
    FisherYatesPermutes(deck, picks, |deck| - 1);
  }

  /** Builds the 52 face-down cards suit by suit, value by value, then shuffles them. */
  method CreateDeck(picks: seq<nat>) returns (deck: seq<Card>)
    requires ValidPicks(picks, 52)
    ensures deck == FisherYates(CanonicalDeck(), picks, 51)
    ensures |deck| == 52
    ensures multiset(deck) == multiset(CanonicalDeck())
  {
    var ordered: seq<Card> := [];
    for si := 0 to |Suits|
      invariant |ordered| == 13 * si
      invariant forall k | 0 <= k < |ordered| :: ordered[k] == CanonicalCard(k)
    {
      for vi := 0 to |ValueOrder|
        invariant |ordered| == 13 * si + vi
        invariant forall k | 0 <= k < |ordered| :: ordered[k] == CanonicalCard(k)
      {
        ordered := ordered + [Card(Suits[si], ValueOrder[vi], false)];
      }
    }
    assert ordered == CanonicalDeck();
    deck := ShuffleDeck(ordered, picks);
  }

  /** The unshuffled deck holds every (value, suit) pair exactly once. */
  lemma FullBagHasEachCardOnce(id: CardId)
    ensures FullBag()[id] == 1
  {
    var d := CanonicalDeck();
    var k := 13 * SuitIndex(id.suit) + ValueIndex(id.value);
    assert d[k].Id() == id;
    assert forall j | 0 <= j < 52 && j != k :: Ids(d)[j] != id;
    CountOnce(Ids(d), k);
  }

  /** Every card of the unshuffled deck is face down. */
  lemma CanonicalDeckFaceDown(c: Card)
    requires c in multiset(CanonicalDeck())
    ensures !c.faceUp
  {
  }

  /** A shuffled deck is face down and holds each identifier of the full deck once. */
  lemma ShuffledDeck(deck: seq<Card>)
    requires multiset(deck) == multiset(CanonicalDeck())
    ensures forall k | 0 <= k < |deck| :: !deck[k].faceUp
    ensures multiset(Ids(deck)) == FullBag()
  {
    PermutedIds(deck, CanonicalDeck());
    forall k | 0 <= k < |deck| ensures !deck[k].faceUp {
      assert deck[k] in multiset(CanonicalDeck());
      CanonicalDeckFaceDown(deck[k]);
    }
  }

  /** An element that occurs at exactly one index is counted once. */
  lemma CountOnce<T>(s: seq<T>, i: nat)
    requires i < |s|
    requires forall j | 0 <= j < |s| && j != i :: s[j] != s[i]
    ensures multiset(s)[s[i]] == 1
  {
    assert s == s[..i] + [s[i]] + s[i + 1..];
    assert s[i] !in s[..i];
    assert s[i] !in s[i + 1..];
  }

  /** Permuting cards permutes their identifiers. */
  lemma {:induction false} PermutedIds(a: seq<Card>, b: seq<Card>)
    requires multiset(a) == multiset(b)
    ensures multiset(Ids(a)) == multiset(Ids(b))
  {
    if |a| == 0 {
      assert |b| == |multiset(b)| == 0;
    } else {
      var n := |a| - 1;
      var x := a[n];
      assert x in multiset(b);
      var i :| 0 <= i < |b| && b[i] == x;
      var rest := b[..i] + b[i + 1..];
      assert b == b[..i] + [x] + b[i + 1..];
      assert a == a[..n] + [x];
      assert multiset(a) == multiset(a[..n]) + multiset{x};
      assert multiset(b) == multiset(b[..i]) + multiset{x} + multiset(b[i + 1..]);
      assert multiset(rest) == multiset(b[..i]) + multiset(b[i + 1..]);
      assert multiset(a[..n]) == multiset(a) - multiset{x};
      assert multiset(rest) == multiset(b) - multiset{x};
      PermutedIds(a[..n], rest);
      IdsAppend(a[..n], [x]);
      IdsAppend(b[..i], [x]);
      IdsAppend(b[..i] + [x], b[i + 1..]);
      IdsAppend(b[..i], b[i + 1..]);
    }
  }
}
