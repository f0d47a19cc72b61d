/**
 * Executing a Cook: each named card is scored against the acting player's
 * hand as it stands at that moment, then moved to the discard pile; the
 * total is added to the player's score and the Cook category is marked used.
 */
module Cooking {
  import opened Wrappers
  import opened Cards
  import opened Ingredients
  import opened Decks
  import opened GameState

  function Max(a: int, b: int): int
  {
    if a >= b then a else b
  }

  /** Some card in the hand has a type other than `condition`. */
  predicate AnyDiffers(hand: seq<Card>, condition: CardType)
  {
    exists k :: 0 <= k < |hand| && hand[k].cardType != condition
  }

  /**
   * The synergy test as written: a synergy holds only when, for each of its
   * conditions, no card of the hand differs from that condition's type.
   */
  predicate SynergyHolds(syn: Synergy, hand: seq<Card>): (r: bool)
    ensures hand == [] ==> r
    ensures r && |syn.conditions| > 0 ==> forall k :: 0 <= k < |hand| ==> hand[k].cardType == syn.conditions[0]
  {
    forall i :: 0 <= i < |syn.conditions| ==> !AnyDiffers(hand, syn.conditions[i])
  }

  /**
   * Walks the synergies in order, raising `possible` to the points of each one
   * that holds: the result is the largest of `possible` and the points of the
   * satisfied synergies.
   */
  function BestPoints(syns: seq<Synergy>, hand: seq<Card>, possible: int): (r: int)
    ensures r >= possible
    ensures forall i :: 0 <= i < |syns| && SynergyHolds(syns[i], hand) ==> r >= syns[i].points
    ensures r == possible || exists i :: 0 <= i < |syns| && SynergyHolds(syns[i], hand) && r == syns[i].points
  {
    if syns == [] then possible
    else
      var next := if SynergyHolds(syns[0], hand) then Max(possible, syns[0].points) else possible;
      var r := BestPoints(syns[1..], hand, next);
      assert forall i :: 1 <= i < |syns| ==> syns[i] == syns[1..][i - 1];
      r
  }

  /**
   * Points one card of type `t` earns: its base points when the type has no
   * synergies, otherwise the best of its base and its satisfied synergies.
   */
  function CardPoints(t: CardType, hand: seq<Card>): (r: int)
    ensures r >= BasePoints(t)
    ensures Synergies(t) == [] ==> r == BasePoints(t)
    ensures forall i :: 0 <= i < |Synergies(t)| && SynergyHolds(Synergies(t)[i], hand) ==> r >= Synergies(t)[i].points
    ensures r == BasePoints(t) ||
      exists i :: 0 <= i < |Synergies(t)| && SynergyHolds(Synergies(t)[i], hand) && r == Synergies(t)[i].points
  {
    if |Synergies(t)| == 0 then BasePoints(t)
    else BestPoints(Synergies(t), hand, BasePoints(t))
  }

  /**
   * While the scored card is still in the hand no synergy of its type can
   * hold: every synergy has a condition, that condition is never the card's
   * own type, and the card itself then differs from it.
   */
  lemma NoSynergyWhileInHand(c: Card, hand: seq<Card>)
    requires c in hand
    ensures forall i :: 0 <= i < |Synergies(c.cardType)| ==> !SynergyHolds(Synergies(c.cardType)[i], hand)
  {
    var k :| 0 <= k < |hand| && hand[k] == c;
    forall i | 0 <= i < |Synergies(c.cardType)|
      ensures !SynergyHolds(Synergies(c.cardType)[i], hand)
    {
      var syn := Synergies(c.cardType)[i];
      assert c.cardType != syn.conditions[0];
      assert AnyDiffers(hand, syn.conditions[0]);
    }
  }

  /** Hence a card scored while it is in the hand earns exactly its base points. */
  lemma ScoresBaseWhileInHand(c: Card, hand: seq<Card>)
    requires c in hand
    ensures CardPoints(c.cardType, hand) == BasePoints(c.cardType)
  {
    NoSynergyWhileInHand(c, hand);
  }

  /** Sum of the base points of the cards. */
  function SumBase(cards: seq<Card>): (r: int)
    ensures r >= |cards|
  {
    if cards == [] then 0 else BasePoints(cards[0].cardType) + SumBase(cards[1..])
  }

  /**
   * The cooking loop: score `todo[0]` against the current hand, append it to
   * the discard pile, remove it from the hand, and go on with the rest.
   * Returns the final hand, the final discard pile and the points earned.
   * The cards reach the discard pile in order and each scores at least its
   * base.
   */
  function CookLoop(hand: seq<Card>, todo: seq<Card>, discard: seq<Card>): (r: (seq<Card>, seq<Card>, int))
    ensures r.1 == discard + todo
    ensures r.2 >= SumBase(todo)
    decreases |todo|
  {
    if todo == [] then (hand, discard, 0)
    else
      var c := todo[0];
      var rest := CookLoop(RemoveFirst(hand, c), todo[1..], discard + [c]);
      var points := CardPoints(c.cardType, hand);
      AppendHead(discard, todo);
      assert points + rest.2 >= SumBase(todo) by {
        AtLeastBaseStep(hand, todo, rest.2);
      }
      (rest.0, rest.1, points + rest.2)
  }

  /** Appending the head and then the tail of a sequence appends the whole sequence. */
  lemma AppendHead(d: seq<Card>, todo: seq<Card>)
    requires todo != []
    ensures d + [todo[0]] + todo[1..] == d + todo
  {
    assert todo == [todo[0]] + todo[1..];
  }

  /**
   * When every cooked card is in the hand, the loop takes exactly those
   * cards out of it and earns exactly their base points.
   */
  lemma {:induction false} CookLoopTakes(hand: seq<Card>, todo: seq<Card>, discard: seq<Card>)
    requires multiset(todo) <= multiset(hand)
    ensures multiset(CookLoop(hand, todo, discard).0) == multiset(hand) - multiset(todo)
    ensures CookLoop(hand, todo, discard).2 == SumBase(todo)
    decreases |todo|
  {
    if todo != [] {
      var c := todo[0];
      var h1 := RemoveFirst(hand, c);
      var rest := CookLoop(h1, todo[1..], discard + [c]);
      assert multiset(todo) == multiset{c} + multiset(todo[1..]) by {
        assert todo == [c] + todo[1..];
      }
      RemoveStep(multiset(hand), c, multiset(todo[1..]));
      assert c in hand;
      CookLoopTakes(h1, todo[1..], discard + [c]);
      PointsStep(hand, todo, rest.2);
    }
  }

  /**
   * The loop keeps, in their order, exactly the hand cards whose identifiers
   * were not named: Cook takes the named cards and nothing else.
   */
  lemma {:induction false} CookLoopKeeps(hand: seq<Card>, ids: set<int>, discard: seq<Card>)
    ensures CookLoop(hand, WithIds(hand, ids), discard).0 == WithoutIds(hand, ids)
    decreases |hand|
  {
    if hand != [] {
      var x := hand[0];
      var tl := hand[1..];
      assert hand == [x] + tl;
      if x.id in ids {
        assert WithIds(hand, ids) == [x] + WithIds(tl, ids);
        assert RemoveFirst(hand, x) == tl;
        CookLoopKeeps(tl, ids, discard + [x]);
      } else {
        assert WithIds(hand, ids) == WithIds(tl, ids);
        assert WithoutIds(hand, ids) == [x] + WithoutIds(tl, ids);
        CookLoopSkips(x, tl, WithIds(tl, ids), discard);
        CookLoopKeeps(tl, ids, discard);
      }
    }
  }

  /** A card the loop never cooks stays at the front of the hand. */
  lemma {:induction false} CookLoopSkips(x: Card, h: seq<Card>, todo: seq<Card>, discard: seq<Card>)
    requires x !in todo
    ensures CookLoop([x] + h, todo, discard).0 == [x] + CookLoop(h, todo, discard).0
    decreases |todo|
  {
    if todo != [] {
      var c := todo[0];
      assert RemoveFirst([x] + h, c) == [x] + RemoveFirst(h, c) by {
        assert ([x] + h)[0] == x && ([x] + h)[1..] == h;
      }
      CookLoopSkips(x, RemoveFirst(h, c), todo[1..], discard + [c]);
    }
  }

  /** The points side of one loop turn: the first card is still in the hand, so it scores its base. */
  lemma PointsStep(hand: seq<Card>, todo: seq<Card>, rest: int)
    requires todo != [] && todo[0] in hand
    requires rest == SumBase(todo[1..])
    ensures CardPoints(todo[0].cardType, hand) + rest == SumBase(todo)
  {
    ScoresBaseWhileInHand(todo[0], hand);
  }

  /** Every turn of the loop earns at least the base points of its card. */
  lemma AtLeastBaseStep(hand: seq<Card>, todo: seq<Card>, rest: int)
    requires todo != []
    requires rest >= SumBase(todo[1..])
    ensures CardPoints(todo[0].cardType, hand) + rest >= SumBase(todo)
  {
  }

  /** Multiset bookkeeping for one step of the cooking loop. */
  lemma RemoveStep<T>(h: multiset<T>, c: T, t: multiset<T>)
    requires multiset{c} + t <= h
    ensures c in h
    ensures t <= h - multiset{c}
    ensures (h - multiset{c}) - t == h - (multiset{c} + t)
  {
    assert h[c] >= 1;
    forall o ensures t[o] <= (h - multiset{c})[o] {
      assert (multiset{c} + t)[o] <= h[o];
    }
    forall o ensures ((h - multiset{c}) - t)[o] == (h - (multiset{c} + t))[o] {
      assert (multiset{c} + t)[o] <= h[o];
    }
  }

  /**
   * Executes Cook for the current player. Every identifier must name a card
   * in that hand; the named cards are processed in hand order.
   */
  function ExecuteCook(s: State, ids: set<int>): (r: Result<State>)
    requires Valid(s)
    ensures r.Ok? <==> ids <= IdSet(s.hands[s.currentPlayer])
    ensures r.Ok? ==> Valid(r.value)
    ensures r.Ok? ==> CookEffect(s, ids, r.value)
  {
    var p := s.currentPlayer;
    var hand := s.hands[p];
    if !(ids <= IdSet(hand)) then Failure("ingredient not in hand")
    else
      var todo := WithIds(hand, ids);
      var loop := CookLoop(hand, todo, s.discard);
      CookLoopTakes(hand, todo, s.discard);
      CookLoopKeeps(hand, ids, s.discard);
      var s1 := s.(hands := s.hands[p := loop.0], discard := loop.1,
                   actionsChosen := s.actionsChosen + [CookUsed]);
      CookConserves(s, todo, loop.0);
      Ok(AddPlayerScore(s1, p, loop.2))
  }

  /**
   * What a successful Cook does: the named cards leave the hand for the end
   * of the discard pile, the other cards stay in their order, the player's
   * score rises by the cooked cards' base points, the Cook category is
   * recorded, and nothing else changes.
   */
  ghost predicate CookEffect(s: State, ids: set<int>, r: State)
    requires Valid(s)
  {
    var p := s.currentPlayer;
    var todo := WithIds(s.hands[p], ids);
    && |r.hands| == |s.hands| && |r.scores| == |s.scores|
    && r.discard == s.discard + todo
    && r.hands[p] == WithoutIds(s.hands[p], ids)
    && multiset(r.hands[p]) == multiset(s.hands[p]) - multiset(todo)
    && (forall q :: 0 <= q < |s.hands| && q != p ==> r.hands[q] == s.hands[q])
    && r.scores[p] == s.scores[p] + SumBase(todo)
    && (forall q :: 0 <= q < |s.scores| && q != p ==> r.scores[q] == s.scores[q])
    && r.actionsChosen == s.actionsChosen + [CookUsed]
    && r.mainDeck == s.mainDeck && r.phase == s.phase
    && r.currentPlayer == s.currentPlayer && r.status == s.status
    && CardsInPlay(r) == CardsInPlay(s)
  }

  /** Moving the cooked cards from the hand to the discard pile keeps the game's cards. */
  lemma CookConserves(s: State, todo: seq<Card>, h: seq<Card>)
    requires Valid(s)
    requires multiset(todo) <= multiset(s.hands[s.currentPlayer])
    requires multiset(h) == multiset(s.hands[s.currentPlayer]) - multiset(todo)
    ensures CardsInPlay(s.(hands := s.hands[s.currentPlayer := h], discard := s.discard + todo)) == CardsInPlay(s)
  {
    var p := s.currentPlayer;
    HandsMultisetUpdate(s.hands, p, h);
    var after := HandsMultiset(s.hands[p := h]);
    var before := HandsMultiset(s.hands);
    var rest := multiset(s.mainDeck) + multiset(s.discard);
    assert multiset(h) + (multiset(todo) + rest) == multiset(s.hands[p]) + rest;
    Exchange(after, before, multiset(s.hands[p]), multiset(h), multiset(todo) + rest, rest);
    var s' := s.(hands := s.hands[p := h], discard := s.discard + todo);
    assert multiset(s.discard + todo) == multiset(s.discard) + multiset(todo);
    forall o ensures CardsInPlay(s')[o] == CardsInPlay(s)[o] {
      assert (after + (multiset(todo) + rest))[o] == (before + rest)[o];
    }
  }
}
