/** The two move validators, the win test, and the pile orderings the validators maintain. */
module Rules {
  import opened Cards
  import opened State

  /** May `card` be put on top of this foundation pile? */
  predicate CanMoveToFoundation(card: Card, foundation: seq<Card>) {
    if !card.faceUp then false
    else if |foundation| == 0 then card.value == Ace
    else
      var top := foundation[|foundation| - 1];
      card.suit == top.suit && ValueIndex(card.value) == ValueIndex(top.value) + 1
  }

  /** May `card` (possibly carrying the cards above it) be put on top of this tableau pile? */
  predicate CanMoveToTableau(card: Card, tableau: seq<Card>) {
    if !card.faceUp then false
    else if |tableau| == 0 then card.value == King
    else
      var top := tableau[|tableau| - 1];
      if !top.faceUp then false
      else IsRed(card.suit) != IsRed(top.suit) && ValueIndex(card.value) == ValueIndex(top.value) - 1
  }

  /** The game is won when each of the four foundation piles holds 13 cards. */
  predicate CheckWinCondition(g: GameState) {
    var f := g.foundation;
    |f.hearts| == 13 && |f.diamonds| == 13 && |f.clubs| == 13 && |f.spades| == 13
  }

  /** A foundation built by the rules: face-up cards of a single suit, the k-th card of rank k (A = 0). */
  predicate FoundationOrdered(pile: seq<Card>) {
    forall k | 0 <= k < |pile| :: pile[k].faceUp && pile[k].suit == pile[0].suit && ValueIndex(pile[k].value) == k
  }

  /**
   * A tableau pile as play keeps it: above a face-up card every card is face up
   * and of strictly lower rank.
   */
  predicate TableauOrdered(pile: seq<Card>) {
    forall i, j | 0 <= i < j < |pile| && pile[i].faceUp :: pile[j].faceUp && ValueIndex(pile[j].value) < ValueIndex(pile[i].value)
  }

  /**
   * On a well-built foundation the validator accepts exactly the cards that keep it
   * well built: face-down cards never, an Ace on an empty pile, otherwise the next
   * rank of the same suit.
   */
  lemma FoundationAcceptsExactlyNext(pile: seq<Card>, card: Card)
    requires FoundationOrdered(pile)
    ensures CanMoveToFoundation(card, pile) <==> FoundationOrdered(pile + [card])
  {
    var p := pile + [card];
    if CanMoveToFoundation(card, pile) {
      forall k | 0 <= k < |p| ensures p[k].faceUp && p[k].suit == p[0].suit && ValueIndex(p[k].value) == k {
        if k < |pile| {
          assert p[k] == pile[k];
        }
      }
    }
    if FoundationOrdered(p) {
      assert p[|pile|] == card;
      if |pile| > 0 {
        assert p[|pile| - 1] == pile[|pile| - 1];
      }
    }
  }

  /** One whole suit in rank order, Ace to King, face up. */
  function SuitRun(x: Suit): (r: seq<Card>)
    ensures |r| == 13 && FoundationOrdered(r)
    ensures forall k | 0 <= k < 13 :: r[k].suit == x && ValueIndex(r[k].value) == k
  {
    seq(13, k requires 0 <= k < 13 => Card(x, ValueOrder[k], true))
  }

  /** A well-built foundation never exceeds 13 cards, and at 13 it is its suit from Ace to King. */
  lemma FoundationAtMostOneSuit(pile: seq<Card>)
    requires FoundationOrdered(pile)
    ensures |pile| <= 13
    ensures |pile| == 13 ==> pile == SuitRun(pile[0].suit)
  {
    if |pile| > 0 {
      assert ValueIndex(pile[|pile| - 1].value) == |pile| - 1;
    }
  }

  /** A complete foundation accepts nothing more. */
  lemma FullFoundationAcceptsNothing(pile: seq<Card>, card: Card)
    requires FoundationOrdered(pile) && |pile| == 13
    ensures !CanMoveToFoundation(card, pile)
  {
    assert ValueIndex(pile[12].value) == 12;
  }

  /**
   * Putting a well-ordered block of cards on a pile the validator accepts for the
   * block's first card keeps the pile well ordered.
   */
  lemma TableauAcceptsBlock(pile: seq<Card>, block: seq<Card>)
    requires TableauOrdered(pile) && TableauOrdered(block) && |block| > 0
    requires CanMoveToTableau(block[0], pile)
    ensures TableauOrdered(pile + block)
  {
    var p := pile + block;
    var n := |pile|;
    forall j | 0 < j < |block| ensures block[j].faceUp && ValueIndex(block[j].value) < ValueIndex(block[0].value) {
    }
    forall i, j | 0 <= i < j < |p| && p[i].faceUp ensures p[j].faceUp && ValueIndex(p[j].value) < ValueIndex(p[i].value) {
      if j < n {
        assert p[i] == pile[i] && p[j] == pile[j];
      } else if i >= n {
        assert p[i] == block[i - n] && p[j] == block[j - n];
      } else {
        assert p[i] == pile[i] && p[j] == block[j - n];
        var top := pile[n - 1];
        assert i < n - 1 ==> ValueIndex(top.value) < ValueIndex(pile[i].value);
      }
    }
  }

  /** No card of a well-ordered pile may be moved onto that same pile. */
  lemma NoMoveOntoOwnPile(pile: seq<Card>, k: nat)
    requires TableauOrdered(pile) && k < |pile|
    ensures !CanMoveToTableau(pile[k], pile)
  {
  }

  /** Any sub-sequence of a well-ordered pile is well ordered: its prefixes, suffixes, and the pile with one card removed. */
  lemma TableauOrderedPieces(pile: seq<Card>, k: nat)
    requires TableauOrdered(pile) && k <= |pile|
    ensures TableauOrdered(pile[..k]) && TableauOrdered(pile[k..])
    ensures k < |pile| ==> TableauOrdered(pile[..k] + pile[k + 1..])
  {
    if k < |pile| {
      var p := pile[..k] + pile[k + 1..];
      forall i, j | 0 <= i < j < |p| && p[i].faceUp ensures p[j].faceUp && ValueIndex(p[j].value) < ValueIndex(p[i].value) {
        var i' := if i < k then i else i + 1;
        var j' := if j < k then j else j + 1;
        assert p[i] == pile[i'] && p[j] == pile[j'];
      }
    }
  }
}
