/** Drawing from the stock onto the waste, and turning the waste over into a new stock. */
module Stock {
  import opened Cards
  import opened State
  import opened Deck
  import opened Rules
  import opened Invariants

  /** The waste turned over: reversed, every card face down. */
  function TurnedOver(waste: seq<Card>): seq<Card> {
    seq(|waste|, k requires 0 <= k < |waste| => waste[|waste| - 1 - k].(faceUp := false))
  }

  /**
   * The state after one click on the stock: with cards left, the last stock card
   * goes face up onto the waste and one move is counted; with the stock empty,
   * the turned-over waste becomes the stock and no move is counted.
   */
  function DrawResult(g: GameState): GameState {
    if |g.deck| == 0 then
      g.(deck := TurnedOver(g.waste), waste := [])
    else
      var card := g.deck[|g.deck| - 1];
      g.(deck := g.deck[..|g.deck| - 1], waste := g.waste + [card.(faceUp := true)], moves := g.moves + 1)
  }

  /** Pops the stock onto the waste, or recycles the waste into the stock. */
  method DrawCard(g: GameState) returns (r: GameState)
    ensures r == DrawResult(g)
  {
    r := g;
    if |r.deck| == 0 {
      r := r.(deck := TurnedOver(r.waste));
      r := r.(waste := []);
      return;
    }
    var card := r.deck[|r.deck| - 1];
    r := r.(deck := r.deck[..|r.deck| - 1]);
    card := card.(faceUp := true);
    r := r.(waste := r.waste + [card]);
    r := r.(moves := r.moves + 1);
  }

  /** Drawing from a non-empty stock moves exactly its last card, face up, to the top of the waste. */
  lemma DrawFromStock(g: GameState)
    requires |g.deck| > 0
    ensures var r := DrawResult(g);
      && r.deck + [g.deck[|g.deck| - 1]] == g.deck
      && r.waste[..|g.waste|] == g.waste && |r.waste| == |g.waste| + 1
      && r.waste[|g.waste|].Id() == g.deck[|g.deck| - 1].Id() && r.waste[|g.waste|].faceUp
      && r.moves == g.moves + 1 && r.score == g.score
      && r.tableau == g.tableau && r.foundation == g.foundation && r.gameWon == g.gameWon
  {
  }

  /**
   * Drawing from an empty stock: the new stock is the waste in reverse order, all
   * face down, the waste is emptied and the move counter does not change.
   */
  lemma RecycleWaste(g: GameState)
    requires |g.deck| == 0
    ensures var r := DrawResult(g);
      && |r.deck| == |g.waste|
      && (forall k | 0 <= k < |g.waste| :: r.deck[k].Id() == g.waste[|g.waste| - 1 - k].Id() && !r.deck[k].faceUp)
      && r.waste == []
      && r.moves == g.moves && r.score == g.score
      && r.tableau == g.tableau && r.foundation == g.foundation && r.gameWon == g.gameWon
  {
  }

  /** Turning the waste over keeps its identifiers. */
  lemma {:induction false} TurnedOverIds(w: seq<Card>)
    ensures multiset(Ids(TurnedOver(w))) == multiset(Ids(w))
  {
    if |w| > 0 {
      var n := |w| - 1;
      TurnedOverIds(w[..n]);
      assert TurnedOver(w) == [w[n].(faceUp := false)] + TurnedOver(w[..n]);
      IdsAppend([w[n].(faceUp := false)], TurnedOver(w[..n]));
      assert w == w[..n] + [w[n]];
      IdsAppend(w[..n], [w[n]]);
    }
  }

  /** A draw only moves cards between stock and waste: their identifiers are kept. */
  lemma DrawConservesCards(g: GameState)
    ensures var r := DrawResult(g);
      multiset(Ids(r.deck)) + multiset(Ids(r.waste)) == multiset(Ids(g.deck)) + multiset(Ids(g.waste))
    ensures Bag(DrawResult(g)) == Bag(g)
  {
    var r := DrawResult(g);
    if |g.deck| == 0 {
      TurnedOverIds(g.waste);
    } else {
      var n := |g.deck| - 1;
      assert g.deck == g.deck[..n] + [g.deck[n]];
      IdsAppend(g.deck[..n], [g.deck[n]]);
      IdsAppend(g.waste, [g.deck[n].(faceUp := true)]);
    }
    assert multiset(Ids(r.deck)) + multiset(Ids(r.waste)) == multiset(Ids(g.deck)) + multiset(Ids(g.waste));
  }

  /** A draw keeps a consistent state consistent. */
  lemma DrawKeepsConsistent(g: GameState)
    requires Consistent(g)
    ensures Consistent(DrawResult(g))
  {
    DrawConservesCards(g);
  }

  /** `n` successive clicks on the stock. */
  function DrawTimes(g: GameState, n: nat): GameState
    decreases n
  {
    if n == 0 then g else DrawTimes(DrawResult(g), n - 1)
  }

  /**
   * Drawing the turned-over stock to the end rebuilds the waste it came from,
   * counting one move per card.
   */
  lemma {:induction false} DrawingRebuildsWaste(h: GameState, w: seq<Card>, j: nat)
    requires j <= |w| && forall k | 0 <= k < |w| :: w[k].faceUp
    requires h.deck == TurnedOver(w[j..]) && h.waste == w[..j]
    ensures DrawTimes(h, |w| - j).deck == [] && DrawTimes(h, |w| - j).waste == w
    ensures DrawTimes(h, |w| - j).moves == h.moves + (|w| - j)
    decreases |w| - j
  {
    if j == |w| {
      assert w[..j] == w;
    } else {
      var next := DrawResult(h);
      var n := |h.deck| - 1;
      assert h.deck[n] == w[j].(faceUp := false);
      assert h.deck[..n] == TurnedOver(w[j + 1..]);
      assert w[j].(faceUp := false).(faceUp := true) == w[j];
      assert w[..j] + [w[j]] == w[..j + 1];
      DrawingRebuildsWaste(next, w, j + 1);
    }
  }

  /**
   * With the stock empty and a face-up waste, one recycle followed by a draw per
   * waste card restores the waste exactly and empties the stock again; only the
   * draws are counted as moves.
   */
  lemma RecycleThenDrawAllRestoresWaste(g: GameState)
    requires g.deck == [] && forall k | 0 <= k < |g.waste| :: g.waste[k].faceUp
    ensures DrawTimes(DrawResult(g), |g.waste|).waste == g.waste
    ensures DrawTimes(DrawResult(g), |g.waste|).deck == []
    ensures DrawTimes(DrawResult(g), |g.waste|).moves == g.moves + |g.waste|
  {
    assert g.waste[0..] == g.waste && g.waste[..0] == [];
    DrawingRebuildsWaste(DrawResult(g), g.waste, 0);
  }
}
