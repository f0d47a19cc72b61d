/**
 * The game state: every player's hand, the shared draw and discard piles,
 * one score counter per player, the action categories already used this
 * turn, the phase, whose turn it is and whether the game is over.
 */
module GameState {
  import opened Cards
  import opened Ingredients
  import opened Decks

  datatype Phase = ActionPhase | DiscardPhase

  /** The action categories recorded in `actionsChosen` (at most one of each per turn). */
  datatype Category = DiscardProteinUsed | DiscardIngredientsUsed | CookUsed

  datatype Status = Ongoing | Ended

  datatype State = State(
    hands: seq<seq<Card>>,
    mainDeck: seq<Card>,
    discard: seq<Card>,
    scores: seq<int>,
    actionsChosen: seq<Category>,
    phase: Phase,
    currentPlayer: nat,
    status: Status)

  /** At least one player, one score counter per hand, and a current player among them. */
  predicate Valid(s: State)
  {
    1 <= |s.hands| && |s.scores| == |s.hands| && s.currentPlayer < |s.hands|
  }

  /** The component tags the state registers with the framework. */
  datatype Component = HandOf(player: nat) | ScoreOf(player: nat) | MainDeckPile | DiscardPile

  /** The types of the cards of a hand, position by position. */
  function TypesOf(hand: seq<Card>): (r: seq<CardType>)
    ensures |r| == |hand|
    ensures forall i :: 0 <= i < |hand| ==> r[i] == hand[i].cardType
  {
    if hand == [] then [] else [hand[0].cardType] + TypesOf(hand[1..])
  }

  /** The card types in player `p`'s hand, in hand order, duplicates kept. */
  function CardTypeInHand(s: State, p: nat): (r: seq<CardType>)
    requires p < |s.hands|
    ensures |r| == |s.hands[p]|
    ensures forall i :: 0 <= i < |r| ==> r[i] == s.hands[p][i].cardType
  {
    TypesOf(s.hands[p])
  }

  /** Player `p`'s score is the value of their counter. */
  function GameScore(s: State, p: nat): int
    requires p < |s.scores|
  {
    s.scores[p]
  }

  /** Adds `amount` to player `p`'s counter; nothing else in the state changes. */
  function AddPlayerScore(s: State, p: nat, amount: int): (r: State)
    requires p < |s.scores|
    ensures |r.scores| == |s.scores|
    ensures GameScore(r, p) == GameScore(s, p) + amount
    ensures forall q :: 0 <= q < |s.scores| && q != p ==> r.scores[q] == s.scores[q]
    ensures r == s.(scores := r.scores)
  {
    s.(scores := s.scores[p := s.scores[p] + amount])
  }

  /** After adding to player `p`'s counter, `p`'s score rises by the amount and every other score reads as before. */
  lemma GameScoreAfterAdd(s: State, p: nat, q: nat, amount: int)
    requires p < |s.scores| && q < |s.scores|
    ensures GameScore(AddPlayerScore(s, p, amount), q) == GameScore(s, q) + (if q == p then amount else 0)
  {
  }

  /** Card-by-card deep copy of a pile. */
  function CopyCards(cards: seq<Card>): (r: seq<Card>)
    ensures r == cards
  {
    seq(|cards|, i requires 0 <= i < |cards| => cards[i].Copy())
  }

  /** Deep copy of every hand. */
  function CopyHands(hands: seq<seq<Card>>): (r: seq<seq<Card>>)
    ensures r == hands
  {
    seq(|hands|, i requires 0 <= i < |hands| => CopyCards(hands[i]))
  }

  /**
   * The fully observable copy: scores, hands, both piles and the turn memory
   * are copied piece by piece, nothing is reshuffled, and the result is
   * indistinguishable from the original.
   */
  function FullCopy(s: State): (r: State)
    ensures r == s
  {
    s.(scores := s.scores[..],
       hands := CopyHands(s.hands),
       mainDeck := CopyCards(s.mainDeck),
       discard := CopyCards(s.discard),
       actionsChosen := s.actionsChosen[..])
  }

  /** The components registered with the framework: hand and score per player, then the two piles. */
  method AllComponents(s: State) returns (r: seq<Component>)
    ensures |r| == 2 * |s.hands| + 2
    ensures forall k :: 0 <= k < 2 * |s.hands| ==>
      r[k] == (if k % 2 == 0 then HandOf(k / 2) else ScoreOf(k / 2))
    ensures r[2 * |s.hands|] == MainDeckPile && r[2 * |s.hands| + 1] == DiscardPile
  {
    r := [];
    var i := 0;
    while i < |s.hands|
      invariant 0 <= i <= |s.hands|
      invariant |r| == 2 * i
      invariant forall k :: 0 <= k < 2 * i ==>
        r[k] == (if k % 2 == 0 then HandOf(k / 2) else ScoreOf(k / 2))
    {
      r := r + [HandOf(i), ScoreOf(i)];
      i := i + 1;
    }
    r := r + [MainDeckPile, DiscardPile];
  }

  /** All cards held in hands. */
  function HandsMultiset(hands: seq<seq<Card>>): multiset<Card>
  {
    if hands == [] then multiset{}
    else HandsMultiset(hands[..|hands| - 1]) + multiset(hands[|hands| - 1])
  }

  /** All cards of the game, wherever they are: hands, draw pile and discard pile. */
  function CardsInPlay(s: State): multiset<Card>
  {
    HandsMultiset(s.hands) + multiset(s.mainDeck) + multiset(s.discard)
  }

  /** Replacing one hand swaps exactly that hand's cards in the total. */
  lemma {:induction false} HandsMultisetUpdate(hands: seq<seq<Card>>, p: nat, h: seq<Card>)
    requires p < |hands|
    ensures HandsMultiset(hands[p := h]) + multiset(hands[p]) == HandsMultiset(hands) + multiset(h)
    decreases |hands|
  {
    var n := |hands|;
    var hs := hands[p := h];
    assert HandsMultiset(hs) == HandsMultiset(hs[..n - 1]) + multiset(hs[n - 1]);
    assert HandsMultiset(hands) == HandsMultiset(hands[..n - 1]) + multiset(hands[n - 1]);
    if p == n - 1 {
      assert hs[..n - 1] == hands[..n - 1];
      assert hs[n - 1] == h;
    } else {
      assert hs[..n - 1] == hands[..n - 1][p := h];
      assert hs[n - 1] == hands[n - 1];
      assert hands[..n - 1][p] == hands[p];
      HandsMultisetUpdate(hands[..n - 1], p, h);
      calc {
        HandsMultiset(hs) + multiset(hands[p]);
        HandsMultiset(hands[..n - 1][p := h]) + multiset(hands[p]) + multiset(hands[n - 1]);
        HandsMultiset(hands[..n - 1]) + multiset(h) + multiset(hands[n - 1]);
        HandsMultiset(hands) + multiset(h);
      }
    }
  }

  /** Each hand is part of the hands' total. */
  lemma {:induction false} HandInHands(hands: seq<seq<Card>>, p: nat)
    requires p < |hands|
    ensures multiset(hands[p]) <= HandsMultiset(hands)
    decreases |hands|
  {
    var n := |hands|;
    if p < n - 1 {
      HandInHands(hands[..n - 1], p);
    }
  }

  /** Moves card `c` from player `p`'s hand to the top of the discard pile. */
  function MoveToDiscard(s: State, p: nat, c: Card): (r: State)
    requires p < |s.hands|
    requires c in s.hands[p]
    ensures |r.hands| == |s.hands|
    ensures r.discard == s.discard + [c]
    ensures r.hands[p] == RemoveFirst(s.hands[p], c)
    ensures multiset(r.hands[p]) == multiset(s.hands[p]) - multiset{c}
    ensures forall q :: 0 <= q < |s.hands| && q != p ==> r.hands[q] == s.hands[q]
    ensures CardsInPlay(r) == CardsInPlay(s)
    ensures r == s.(hands := r.hands, discard := r.discard)
  {
    var h := RemoveFirst(s.hands[p], c);
    var r := s.(hands := s.hands[p := h], discard := s.discard + [c]);
    MoveConserves(s, p, c, h);
    r
  }

  /** Player `p` draws up to `k` cards from the draw pile, stopping when it runs dry. */
  function DrawCards(s: State, p: nat, k: nat): (r: State)
    requires p < |s.hands|
    ensures |r.hands| == |s.hands|
    ensures r.hands[p] == s.hands[p] + s.mainDeck[..Min(k, |s.mainDeck|)]
    ensures r.mainDeck == s.mainDeck[Min(k, |s.mainDeck|)..]
    ensures forall q :: 0 <= q < |s.hands| && q != p ==> r.hands[q] == s.hands[q]
    ensures CardsInPlay(r) == CardsInPlay(s)
    ensures r == s.(hands := r.hands, mainDeck := r.mainDeck)
  {
    var d := DrawUpTo(s.hands[p], s.mainDeck, k);
    var r := s.(hands := s.hands[p := d.0], mainDeck := d.1);
    DrawConserves(s, p, d.0, d.1, k);
    r
  }

  /** Moving a card from one hand to the discard pile keeps the game's cards. */
  lemma MoveConserves(s: State, p: nat, c: Card, h: seq<Card>)
    requires p < |s.hands|
    requires c in s.hands[p] && multiset(h) == multiset(s.hands[p]) - multiset{c}
    ensures CardsInPlay(s.(hands := s.hands[p := h], discard := s.discard + [c])) == CardsInPlay(s)
  {
    HandsMultisetUpdate(s.hands, p, h);
    var rest := multiset(s.mainDeck) + multiset(s.discard);
    assert multiset(h) + (multiset{c} + rest) == multiset(s.hands[p]) + rest;
    var after := HandsMultiset(s.hands[p := h]);
    var before := HandsMultiset(s.hands);
    Exchange(after, before, multiset(s.hands[p]), multiset(h), multiset{c} + rest, rest);
    var s' := s.(hands := s.hands[p := h], discard := s.discard + [c]);
    assert CardsInPlay(s') == after + multiset(s.mainDeck) + multiset(s.discard + [c]);
    assert multiset(s.discard + [c]) == multiset(s.discard) + multiset{c};
    forall o ensures CardsInPlay(s')[o] == CardsInPlay(s)[o] {
      assert (after + (multiset{c} + rest))[o] == (before + rest)[o];
    }
  }

  /** Moving cards from the draw pile into one hand keeps the game's cards. */
  lemma DrawConserves(s: State, p: nat, h: seq<Card>, d: seq<Card>, k: nat)
    requires p < |s.hands|
    requires (h, d) == DrawUpTo(s.hands[p], s.mainDeck, k)
    ensures CardsInPlay(s.(hands := s.hands[p := h], mainDeck := d)) == CardsInPlay(s)
  {
    HandsMultisetUpdate(s.hands, p, h);
    DrawUpToConserves(s.hands[p], s.mainDeck, k);
    Exchange(HandsMultiset(s.hands[p := h]), HandsMultiset(s.hands),
             multiset(s.hands[p]), multiset(h), multiset(d), multiset(s.mainDeck));
  }

  /** Multiset bookkeeping: two exchanges that share a middle term compose. */
  lemma Exchange<T>(a: multiset<T>, b: multiset<T>, x: multiset<T>, y: multiset<T>, z: multiset<T>, w: multiset<T>)
    requires a + x == b + y
    requires y + z == x + w
    ensures a + z == b + w
  {
    assert forall o :: (a + z)[o] == (b + w)[o] by {
      forall o ensures (a + z)[o] == (b + w)[o] {
        assert (a + x)[o] == (b + y)[o];
        assert (y + z)[o] == (x + w)[o];
      }
    }
  }
}
