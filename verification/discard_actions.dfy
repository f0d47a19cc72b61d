/**
 * The discard executors. DiscardIngredient trades two cards for up to three
 * new ones, DiscardProtein trades one protein for as many cards as its type
 * draws, and the discard-phase Discard sheds one card. Cards named by
 * identifier must be in the current player's hand.
 */
module Discarding {
  import opened Wrappers
  import opened Cards
  import opened Ingredients
  import opened Decks
  import opened GameState

  /** Cards drawn after a DiscardIngredient. */
  const IngredientDraws: nat := 3

  /**
   * `r` is `s` after the current player put the cards `shed` on the discard
   * pile, kept `kept` of the hand, drew up to `draws` cards from the front
   * of the draw pile and recorded the category `used`; the other hands, the
   * scores, the phase, the turn and the status are unchanged.
   */
  predicate ShedAndDrew(s: State, r: State, shed: seq<Card>, kept: seq<Card>, draws: nat, used: Category)
    requires Valid(s)
  {
    var p := s.currentPlayer;
    var drawn := Min(draws, |s.mainDeck|);
    && |r.hands| == |s.hands|
    && r.discard == s.discard + shed
    && r.hands[p] == kept + s.mainDeck[..drawn]
    && r.mainDeck == s.mainDeck[drawn..]
    && (forall q :: 0 <= q < |s.hands| && q != p ==> r.hands[q] == s.hands[q])
    && r.actionsChosen == s.actionsChosen + [used]
    && r.scores == s.scores && r.phase == s.phase
    && r.currentPlayer == p && r.status == s.status
  }

  /**
   * Records the DiscardIngredients category, moves the card named `first`
   * and then the card named `second` from the hand to the discard pile, and
   * draws up to three cards, stopping early when the draw pile runs dry.
   */
  function ExecuteDiscardIngredient(s: State, first: int, second: int): (r: Result<State>)
    requires Valid(s)
    ensures r.Ok? <==> (first in IdSet(s.hands[s.currentPlayer]) &&
      second in IdSet(RemoveFirst(s.hands[s.currentPlayer], FindById(s.hands[s.currentPlayer], first).value)))
    ensures r.Ok? ==> Valid(r.value)
    ensures r.Ok? ==>
      var p := s.currentPlayer;
      var c0 := FindById(s.hands[p], first).value;
      var c1 := FindById(RemoveFirst(s.hands[p], c0), second).value;
      && c0.id == first && c1.id == second
      && ShedAndDrew(s, r.value, [c0, c1], RemoveFirst(RemoveFirst(s.hands[p], c0), c1),
                     IngredientDraws, DiscardIngredientsUsed)
      && CardsInPlay(r.value) == CardsInPlay(s)
  {
    var p := s.currentPlayer;
    var hand := s.hands[p];
    match FindById(hand, first)
    case None => Failure("first ingredient not in hand")
    case Some(c0) =>
      var h1 := RemoveFirst(hand, c0);
      match FindById(h1, second)
      case None => Failure("second ingredient not in hand")
      case Some(c1) => Ok(ShedTwo(s, c0, c1))
  }

  /**
   * The current player sheds `c0` and then `c1`, draws up to three cards and
   * records the DiscardIngredients category.
   */
  function ShedTwo(s: State, c0: Card, c1: Card): (r: State)
    requires Valid(s) && c0 in s.hands[s.currentPlayer]
    requires c1 in RemoveFirst(s.hands[s.currentPlayer], c0)
    ensures Valid(r)
    ensures ShedAndDrew(s, r, [c0, c1], RemoveFirst(RemoveFirst(s.hands[s.currentPlayer], c0), c1),
                        IngredientDraws, DiscardIngredientsUsed)
    ensures CardsInPlay(r) == CardsInPlay(s)
  {
    var p := s.currentPlayer;
    var h2 := RemoveFirst(RemoveFirst(s.hands[p], c0), c1);
    var d := DrawUpTo(h2, s.mainDeck, IngredientDraws);
    var r := s.(hands := s.hands[p := d.0], mainDeck := d.1, discard := s.discard + [c0, c1],
                actionsChosen := s.actionsChosen + [DiscardIngredientsUsed]);
    assert CardsInPlay(r) == CardsInPlay(s) by {
      DiscardTwoConserves(s, c0, c1, h2, d.0, d.1);
    }
    r
  }

  /** Shedding two cards and drawing replacements keeps the game's cards. */
  lemma DiscardTwoConserves(s: State, c0: Card, c1: Card, h2: seq<Card>, h3: seq<Card>, deck: seq<Card>)
    requires Valid(s)
    requires c0 in s.hands[s.currentPlayer]
    requires c1 in RemoveFirst(s.hands[s.currentPlayer], c0)
    requires h2 == RemoveFirst(RemoveFirst(s.hands[s.currentPlayer], c0), c1)
    requires (h3, deck) == DrawUpTo(h2, s.mainDeck, IngredientDraws)
    ensures CardsInPlay(s.(hands := s.hands[s.currentPlayer := h3], mainDeck := deck,
                           discard := s.discard + [c0, c1])) == CardsInPlay(s)
  {
    var p := s.currentPlayer;
    var h1 := RemoveFirst(s.hands[p], c0);
    var sA := s.(hands := s.hands[p := h1], discard := s.discard + [c0]);
    var sB := sA.(hands := sA.hands[p := h2], discard := sA.discard + [c1]);
    var sC := sB.(hands := sB.hands[p := h3], mainDeck := deck);
    assert CardsInPlay(sA) == CardsInPlay(s) by { MoveConserves(s, p, c0, h1); }
    assert CardsInPlay(sB) == CardsInPlay(sA) by { MoveConserves(sA, p, c1, h2); }
    assert CardsInPlay(sC) == CardsInPlay(sB) by { DrawConserves(sB, p, h3, deck, IngredientDraws); }
    AppendPair(s.discard, c0, c1);
    OverwriteTwice(s.hands, p, h1, h2, h3);
  }

  /** Updating one slot three times leaves only the last update. */
  lemma OverwriteTwice(hands: seq<seq<Card>>, p: nat, h1: seq<Card>, h2: seq<Card>, h3: seq<Card>)
    requires p < |hands|
    ensures hands[p := h1][p := h2][p := h3] == hands[p := h3]
  {
  }

  /** Appending two cards one at a time is appending the pair. */
  lemma AppendPair(d: seq<Card>, a: Card, b: Card)
    ensures d + [a] + [b] == d + [a, b]
  {
    assert |d + [a] + [b]| == |d + [a, b]|;
    forall i | 0 <= i < |d| + 2 ensures (d + [a] + [b])[i] == (d + [a, b])[i] {
    }
  }

  /**
   * Records the DiscardProtein category, moves the named card to the discard
   * pile and draws as many cards as its type's `DiscardCardDraws`, stopping
   * early when the draw pile runs dry.
   */
  function ExecuteDiscardProtein(s: State, id: int): (r: Result<State>)
    requires Valid(s)
    ensures r.Ok? <==> id in IdSet(s.hands[s.currentPlayer])
    ensures r.Ok? ==> Valid(r.value)
    ensures r.Ok? ==>
      var p := s.currentPlayer;
      var c := FindById(s.hands[p], id).value;
      && c in s.hands[p] && c.id == id
      && ShedAndDrew(s, r.value, [c], RemoveFirst(s.hands[p], c),
                     DiscardCardDraws(c.cardType), DiscardProteinUsed)
      && CardsInPlay(r.value) == CardsInPlay(s)
  {
    var p := s.currentPlayer;
    var hand := s.hands[p];
    match FindById(hand, id)
    case None => Failure("protein not in hand")
    case Some(c) => Ok(ShedOne(s, c, DiscardCardDraws(c.cardType), DiscardProteinUsed))
  }

  /**
   * The current player sheds card `c`, draws up to `k` cards and records
   * `used`.
   */
  function ShedOne(s: State, c: Card, k: nat, used: Category): (r: State)
    requires Valid(s) && c in s.hands[s.currentPlayer]
    ensures Valid(r)
    ensures ShedAndDrew(s, r, [c], RemoveFirst(s.hands[s.currentPlayer], c), k, used)
    ensures CardsInPlay(r) == CardsInPlay(s)
  {
    var p := s.currentPlayer;
    var h1 := RemoveFirst(s.hands[p], c);
    var d := DrawUpTo(h1, s.mainDeck, k);
    var r := s.(hands := s.hands[p := d.0], mainDeck := d.1, discard := s.discard + [c],
                actionsChosen := s.actionsChosen + [used]);
    assert CardsInPlay(r) == CardsInPlay(s) by {
      DiscardOneConserves(s, c, h1, d.0, d.1, k);
    }
    r
  }

  /** Shedding one card and drawing replacements keeps the game's cards. */
  lemma DiscardOneConserves(s: State, c: Card, h1: seq<Card>, h2: seq<Card>, deck: seq<Card>, k: nat)
    requires Valid(s)
    requires c in s.hands[s.currentPlayer]
    requires h1 == RemoveFirst(s.hands[s.currentPlayer], c)
    requires (h2, deck) == DrawUpTo(h1, s.mainDeck, k)
    ensures CardsInPlay(s.(hands := s.hands[s.currentPlayer := h2], mainDeck := deck,
                           discard := s.discard + [c])) == CardsInPlay(s)
  {
    var p := s.currentPlayer;
    var after := HandsMultiset(s.hands[p := h2]);
    var before := HandsMultiset(s.hands);
    var z1, z2 := multiset(deck), multiset(s.discard + [c]);
    var w1, w2 := multiset(s.mainDeck), multiset(s.discard);
    assert after + z1 + z2 == before + w1 + w2 by {
      HandsMultisetUpdate(s.hands, p, h2);
      assert multiset(h2) + multiset(deck) == multiset(h1) + multiset(s.mainDeck) by {
        DrawUpToConserves(h1, s.mainDeck, k);
      }
      HandSheds(s.hands[p], c, h1, h2, s.mainDeck, deck, s.discard);
      ExchangeTwo(after, before, multiset(s.hands[p]), multiset(h2), z1, z2, w1, w2);
    }
  }

  /** The cards of one hand, the draw pile and the discard pile are kept by shedding and drawing. */
  lemma HandSheds(hand: seq<Card>, c: Card, h1: seq<Card>, h2: seq<Card>, main: seq<Card>, deck: seq<Card>,
                  discard: seq<Card>)
    requires c in hand && multiset(h1) == multiset(hand) - multiset{c}
    requires multiset(h2) + multiset(deck) == multiset(h1) + multiset(main)
    ensures multiset(h2) + multiset(deck) + multiset(discard + [c])
         == multiset(hand) + multiset(main) + multiset(discard)
  {
    assert multiset(discard + [c]) == multiset(discard) + multiset{c};
    assert multiset(h1) + multiset{c} == multiset(hand);
    forall o ensures (multiset(h2) + multiset(deck) + multiset(discard + [c]))[o]
                  == (multiset(hand) + multiset(main) + multiset(discard))[o] {
      assert (multiset(h2) + multiset(deck))[o] == (multiset(h1) + multiset(main))[o];
      assert (multiset(h1) + multiset{c})[o] == multiset(hand)[o];
    }
  }

  /** Multiset bookkeeping: `Exchange` with the remainders given in two parts. */
  lemma ExchangeTwo<T>(a: multiset<T>, b: multiset<T>, x: multiset<T>, y: multiset<T>,
                       z1: multiset<T>, z2: multiset<T>, w1: multiset<T>, w2: multiset<T>)
    requires a + x == b + y
    requires y + z1 + z2 == x + w1 + w2
    ensures a + z1 + z2 == b + w1 + w2
  {
    forall o ensures (a + z1 + z2)[o] == (b + w1 + w2)[o] {
      assert (a + x)[o] == (b + y)[o];
      assert (y + z1 + z2)[o] == (x + w1 + w2)[o];
    }
  }

  /** The discard-phase Discard: the named card goes from the hand to the discard pile. */
  function ExecuteDiscard(s: State, id: int): (r: Result<State>)
    requires Valid(s)
    ensures r.Ok? <==> id in IdSet(s.hands[s.currentPlayer])
    ensures r.Ok? ==> Valid(r.value)
    ensures r.Ok? ==>
      var p := s.currentPlayer;
      var c := FindById(s.hands[p], id).value;
      && c.id == id
      && |r.value.hands| == |s.hands|
      && r.value.discard == s.discard + [c]
      && r.value.hands[p] == RemoveFirst(s.hands[p], c)
      && |r.value.hands[p]| == |s.hands[p]| - 1
      && multiset(r.value.hands[p]) == multiset(s.hands[p]) - multiset{c}
      && (forall q :: 0 <= q < |s.hands| && q != p ==> r.value.hands[q] == s.hands[q])
      && r.value == s.(hands := r.value.hands, discard := r.value.discard)
      && CardsInPlay(r.value) == CardsInPlay(s)
  {
    var p := s.currentPlayer;
    match FindById(s.hands[p], id)
    case None => Failure("card not in hand")
    case Some(c) => Ok(MoveToDiscard(s, p, c))
  }
}
