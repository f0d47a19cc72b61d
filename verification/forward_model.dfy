/**
 * The game's rules as a state machine: setting up the deck and the hands,
 * executing a chosen action, and the bookkeeping after it, which moves an
 * action phase into a discard phase and a discard phase into the next
 * player's turn, ending the game once anyone reaches fifty points.
 */
module ForwardModel {
  import opened Wrappers
  import opened Cards
  import opened Ingredients
  import opened Decks
  import opened GameState
  import opened Actions
  import opened Cooking
  import opened Discarding
  import opened LegalActions

  /** Cards dealt to each player at setup. */
  const HandSize: nat := 3

  /** A score at or above this ends the game. */
  const WinningScore: int := 50

  /**
   * A shuffle rearranges the cards it is given. The rules shuffle with a
   * random source; the model takes the shuffle as a parameter and assumes
   * only that it is a permutation.
   */
  ghost predicate IsShuffle(shuffle: seq<Card> -> seq<Card>)
  {
    forall cs :: multiset(shuffle(cs)) == multiset(cs)
  }

  // ---------------------------------------------------------------------
  // The deck
  // ---------------------------------------------------------------------

  /** `n` cards of type `t` with consecutive identifiers from `id`. */
  function Copies(t: CardType, n: nat, id: int): (r: seq<Card>)
    ensures |r| == n
    ensures forall i :: 0 <= i < n ==> r[i] == Card(id + i, t)
  {
    if n == 0 then [] else [Card(id, t)] + Copies(t, n - 1, id + 1)
  }

  /** Each listed type in its deck quantity, identifiers numbered consecutively from `id`. */
  function Stock(types: seq<CardType>, id: int): (r: seq<Card>)
    ensures |r| == TotalQuantity(types)
    ensures forall i :: 0 <= i < |r| ==> r[i].id == id + i
  {
    if types == [] then []
    else Copies(types[0], Quantity(types[0]), id) + Stock(types[1..], id + Quantity(types[0]))
  }

  /** The eighteen-card deck in catalog order, identifiers 0 to 17. */
  function FullDeck(): (r: seq<Card>)
    ensures |r| == 18
    ensures forall i :: 0 <= i < |r| ==> r[i].id == i
  {
    DeckSizeIsEighteen();
    Stock(AllTypes(), 0)
  }

  /** How many of the cards have type `t`. */
  function CountOfType(cards: seq<Card>, t: CardType): nat
  {
    if cards == [] then 0 else (if cards[0].cardType == t then 1 else 0) + CountOfType(cards[1..], t)
  }

  /** Counting distributes over concatenation. */
  lemma {:induction false} CountOfTypeAppend(a: seq<Card>, b: seq<Card>, t: CardType)
    ensures CountOfType(a + b, t) == CountOfType(a, t) + CountOfType(b, t)
    decreases |a|
  {
    if a != [] {
      assert (a + b)[0] == a[0];
      assert (a + b)[1..] == a[1..] + b;
      CountOfTypeAppend(a[1..], b, t);
    } else {
      assert a + b == b;
    }
  }

  /** Copies of one type count only toward that type. */
  lemma {:induction false} CountOfCopies(u: CardType, n: nat, id: int, t: CardType)
    ensures CountOfType(Copies(u, n, id), t) == if u == t then n else 0
    decreases n
  {
    if n > 0 {
      CountOfCopies(u, n - 1, id + 1, t);
    }
  }

  /** In a stock of distinct types, each listed type occurs in its deck quantity. */
  lemma {:induction false} CountOfStock(types: seq<CardType>, id: int, t: CardType)
    requires forall i, j :: 0 <= i < j < |types| ==> types[i] != types[j]
    ensures CountOfType(Stock(types, id), t) == if t in types then Quantity(t) else 0
    decreases |types|
  {
    if types != [] {
      StockCountStep(types, id, t);
      DistinctHead(types);
      CountOfStock(types[1..], id + Quantity(types[0]), t);
    }
  }

  /** A stock counts the first type's copies, then the rest of the stock. */
  lemma StockCountStep(types: seq<CardType>, id: int, t: CardType)
    requires types != []
    ensures CountOfType(Stock(types, id), t)
         == (if types[0] == t then Quantity(t) else 0) + CountOfType(Stock(types[1..], id + Quantity(types[0])), t)
  {
    var head := Copies(types[0], Quantity(types[0]), id);
    CountOfTypeAppend(head, Stock(types[1..], id + Quantity(types[0])), t);
    CountOfCopies(types[0], Quantity(types[0]), id, t);
  }

  /** The first of distinct elements is not among the rest, which are distinct too. */
  lemma DistinctHead<T>(xs: seq<T>)
    requires xs != [] && forall i, j :: 0 <= i < j < |xs| ==> xs[i] != xs[j]
    ensures xs[0] !in xs[1..]
    ensures forall i, j :: 0 <= i < j < |xs[1..]| ==> xs[1..][i] != xs[1..][j]
    ensures forall x :: x in xs <==> x == xs[0] || x in xs[1..]
  {
    assert xs == [xs[0]] + xs[1..];
  }

  /** The deck's identifiers are its positions, so no two cards share one. */
  lemma FullDeckIdsArePositions()
    ensures UniqueIds(FullDeck())
  {
    var d := FullDeck();
    assert forall i :: 0 <= i < |d| ==> d[i].id == i;
  }

  /** The deck holds each type in its quantity: one Shrimp, five Noodles, and so on. */
  lemma FullDeckCounts(t: CardType)
    ensures CountOfType(FullDeck(), t) == Quantity(t)
    ensures UniqueIds(FullDeck())
  {
    FullDeckIdsArePositions();
    AllTypesComplete(t);
    CountOfStock(AllTypes(), 0, t);
  }

  // ---------------------------------------------------------------------
  // Setup
  // ---------------------------------------------------------------------

  /** Deals up to three cards from the top of `deck` to each player after those in `hands`. */
  function Deal(n: nat, hands: seq<seq<Card>>, deck: seq<Card>): (r: (seq<seq<Card>>, seq<Card>))
    requires |hands| <= n
    decreases n - |hands|
    ensures |r.0| == n && r.0[..|hands|] == hands
    ensures HandsMultiset(r.0) + multiset(r.1) == HandsMultiset(hands) + multiset(deck)
  {
    if |hands| == n then
      assert hands[..|hands|] == hands;
      (hands, deck)
    else
      var d := DrawUpTo([], deck, HandSize);
      var more := hands + [d.0];
      var r := Deal(n, more, d.1);
      DealConserves(hands, d.0, d.1, deck, r.0, r.1);
      assert r.0[..|hands|] == r.0[..|more|][..|hands|];
      r
  }

  /** One round of dealing keeps the cards. */
  lemma DealConserves(hands: seq<seq<Card>>, h: seq<Card>, rest: seq<Card>, deck: seq<Card>,
                      dealt: seq<seq<Card>>, left: seq<Card>)
    requires (h, rest) == DrawUpTo([], deck, HandSize)
    requires HandsMultiset(dealt) + multiset(left) == HandsMultiset(hands + [h]) + multiset(rest)
    ensures HandsMultiset(dealt) + multiset(left) == HandsMultiset(hands) + multiset(deck)
  {
    var more := hands + [h];
    assert HandsMultiset(more) == HandsMultiset(hands) + multiset(h) by {
      assert more[..|more| - 1] == hands;
    }
    assert multiset(h) + multiset(rest) == multiset(deck) by {
      DrawUpToConserves([], deck, HandSize);
    }
    Regroup(HandsMultiset(dealt) + multiset(left), HandsMultiset(hands), multiset(h), multiset(rest), multiset(deck));
  }

  /** Multiset bookkeeping for one round of dealing. */
  lemma Regroup<T>(x: multiset<T>, dealt: multiset<T>, h: multiset<T>, rest: multiset<T>, deck: multiset<T>)
    requires x == (dealt + h) + rest && h + rest == deck
    ensures x == dealt + deck
  {
  }

  /** With enough cards in the deck, every player dealt gets exactly three. */
  lemma {:induction false} DealSizes(n: nat, hands: seq<seq<Card>>, deck: seq<Card>)
    requires |hands| <= n && |deck| >= HandSize * (n - |hands|)
    ensures var r := Deal(n, hands, deck);
      && |r.1| == |deck| - HandSize * (n - |hands|)
      && forall q :: |hands| <= q < n ==> |r.0[q]| == HandSize
    decreases n - |hands|
  {
    if |hands| < n {
      var d := DrawUpTo([], deck, HandSize);
      var more := hands + [d.0];
      var r := Deal(n, hands, deck);
      assert r == Deal(n, more, d.1);
      assert |d.0| == HandSize && |d.1| == |deck| - HandSize;
      DealSizes(n, more, d.1);
      forall q | |hands| <= q < n ensures |r.0[q]| == HandSize {
        if q == |hands| {
          assert r.0[..|more|] == more;
          assert r.0[q] == r.0[..|more|][q];
        }
      }
    }
  }

  /**
   * The initial state for `n` players: the full deck shuffled, three cards
   * dealt to each player in turn, zero scores, no category used, the
   * action phase, player 0 to move.
   */
  function Setup(n: nat, shuffle: seq<Card> -> seq<Card>): (r: State)
    requires n >= 1 && IsShuffle(shuffle)
    ensures Valid(r) && |r.hands| == n
    ensures CardsInPlay(r) == multiset(FullDeck())
    ensures n <= 6 ==>
      && (forall p :: 0 <= p < n ==> |r.hands[p]| == HandSize)
      && |r.mainDeck| == 18 - HandSize * n
    ensures forall p :: 0 <= p < n ==> GameScore(r, p) == 0
    ensures r.discard == [] && r.actionsChosen == []
    ensures r.phase == ActionPhase && r.currentPlayer == 0 && r.status == Ongoing
  {
    var full := FullDeck();
    var deck := shuffle(full);
    assert multiset(deck) == multiset(full);
    assert |deck| == 18 by {
      assert |multiset(deck)| == |multiset(full)|;
    }
    DealFrom(n, deck)
  }

  /** A fresh score counter at zero for each of `n` players. */
  function Zeros(n: nat): (r: seq<int>)
    ensures |r| == n && forall i :: 0 <= i < n ==> r[i] == 0
  {
    if n == 0 then [] else [0] + Zeros(n - 1)
  }

  /** The state after dealing from the shuffled `deck`. */
  function DealFrom(n: nat, deck: seq<Card>): (r: State)
    requires n >= 1 && |deck| == 18
    ensures Valid(r) && |r.hands| == n
    ensures CardsInPlay(r) == multiset(deck)
    ensures n <= 6 ==>
      && (forall p :: 0 <= p < n ==> |r.hands[p]| == HandSize)
      && |r.mainDeck| == 18 - HandSize * n
    ensures forall p :: 0 <= p < n ==> GameScore(r, p) == 0
    ensures r.discard == [] && r.actionsChosen == []
    ensures r.phase == ActionPhase && r.currentPlayer == 0 && r.status == Ongoing
  {
    var dealt := Deal(n, [], deck);
    var scores := Zeros(n);
    var r := State(dealt.0, dealt.1, [], scores, [], ActionPhase, 0, Ongoing);
    assert CardsInPlay(r) == multiset(deck) by {
      assert HandsMultiset([]) == multiset{};
      assert CardsInPlay(r) == HandsMultiset(dealt.0) + multiset(dealt.1) + multiset([]);
    }
    assert n <= 6 ==>
      && (forall p :: 0 <= p < n ==> |r.hands[p]| == HandSize)
      && |r.mainDeck| == 18 - HandSize * n
    by {
      SetupSizes(n, deck);
    }
    assert forall p :: 0 <= p < n ==> GameScore(r, p) == 0 by {
      assert r.scores == scores;
    }
    r
  }

  /** Dealing to at most six players from the full deck gives three cards each. */
  lemma SetupSizes(n: nat, deck: seq<Card>)
    requires |deck| == 18
    ensures n <= 6 ==>
      var r := Deal(n, [], deck);
      && (forall p :: 0 <= p < n ==> |r.0[p]| == HandSize)
      && |r.1| == 18 - HandSize * n
  {
    if n <= 6 {
      DealSizes(n, [], deck);
    }
  }

  // ---------------------------------------------------------------------
  // Executing an action and the turn machine
  // ---------------------------------------------------------------------

  /** Executes the chosen action; Pass does nothing here. */
  function Execute(s: State, a: Action): (r: Result<State>)
    requires Valid(s)
    ensures r.Ok? ==> Valid(r.value) && |r.value.hands| == |s.hands| && CardsInPlay(r.value) == CardsInPlay(s)
    ensures r.Ok? ==> r.value.phase == s.phase && r.value.status == s.status
    ensures r.Ok? && a.Cook? ==> r.value.actionsChosen == s.actionsChosen + [CookUsed]
    ensures r.Ok? && a.DiscardIngredient? ==> r.value.actionsChosen == s.actionsChosen + [DiscardIngredientsUsed]
    ensures r.Ok? && a.DiscardProtein? ==> r.value.actionsChosen == s.actionsChosen + [DiscardProteinUsed]
    ensures r.Ok? ==> s.actionsChosen <= r.value.actionsChosen
    ensures a.Pass? ==> r == Ok(s)
  {
    match a
    case Cook(ids) => ExecuteCook(s, ids)
    case DiscardIngredient(first, second) => ExecuteDiscardIngredient(s, first, second)
    case DiscardProtein(id) => ExecuteDiscardProtein(s, id)
    case Discard(id) => ExecuteDiscard(s, id)
    case Pass => Ok(s)
  }

  /** Some player has reached the winning score. */
  predicate SomeoneWon(scores: seq<int>)
  {
    exists i :: 0 <= i < |scores| && scores[i] >= WinningScore
  }

  /**
   * The bookkeeping after an action. Only Pass triggers it: the categories
   * are cleared; an action phase becomes a discard phase; after a discard
   * phase of an ongoing game the discard pile is shuffled back into the
   * draw pile, the next player draws one card and takes the turn; then the
   * game ends if any score has reached fifty.
   */
  function AfterAction(s: State, a: Action, shuffle: seq<Card> -> seq<Card>): (r: State)
    requires Valid(s) && IsShuffle(shuffle)
    ensures Valid(r) && |r.hands| == |s.hands| && CardsInPlay(r) == CardsInPlay(s)
    ensures r.scores == s.scores
    ensures !a.Pass? ==> r == s
    ensures a.Pass? ==> r.actionsChosen == []
    ensures a.Pass? && s.phase == ActionPhase ==> r == s.(actionsChosen := [], phase := DiscardPhase)
    ensures a.Pass? && s.phase == DiscardPhase && s.status == Ongoing ==> TurnPassed(s, r)
    ensures a.Pass? && s.phase == DiscardPhase ==> (r.status == Ended <==> s.status == Ended || SomeoneWon(s.scores))
  {
    if !a.Pass? then s
    else
      var s1 := s.(actionsChosen := []);
      if s1.phase == ActionPhase then s1.(phase := DiscardPhase)
      else
        var s2 := if s1.status == Ongoing then NextTurn(s1, shuffle) else s1;
        var r := if SomeoneWon(s2.scores) then s2.(status := Ended) else s2;
        assert s.status == Ongoing ==> TurnPassed(s, r) by {
          if s.status == Ongoing {
            TurnPassedIgnores(s, s1, s2, r);
          }
        }
        r
  }

  /**
   * `r` is `s` after the turn passed: the next player holds the turn in the
   * action phase, the discard pile is recycled into the draw pile, that
   * player has drawn one card if any was left, and the other hands are
   * untouched.
   */
  predicate TurnPassed(s: State, r: State)
    requires Valid(s)
  {
    var next := (s.currentPlayer + 1) % |s.hands|;
    && |r.hands| == |s.hands|
    && r.currentPlayer == next && r.phase == ActionPhase && r.discard == []
    && |r.mainDeck| + |r.hands[next]| == |s.mainDeck| + |s.discard| + |s.hands[next]|
    && s.hands[next] <= r.hands[next]
    && |r.hands[next]| == |s.hands[next]| + Min(1, |s.mainDeck| + |s.discard|)
    && (forall q :: 0 <= q < |s.hands| && q != next ==> r.hands[q] == s.hands[q])
  }

  /** Passing the turn says nothing about the turn memory before or the status after. */
  lemma TurnPassedIgnores(s: State, s1: State, s2: State, r: State)
    requires Valid(s) && s1 == s.(actionsChosen := []) && TurnPassed(s1, s2)
    requires r == s2 || r == s2.(status := Ended)
    ensures TurnPassed(s, r)
  {
  }

  /** Recycles the discard pile into the draw pile and gives the next player a card and the turn. */
  function NextTurn(s: State, shuffle: seq<Card> -> seq<Card>): (r: State)
    requires Valid(s) && IsShuffle(shuffle)
    ensures Valid(r) && CardsInPlay(r) == CardsInPlay(s)
    ensures TurnPassed(s, r)
    ensures r.scores == s.scores && r.actionsChosen == s.actionsChosen && r.status == s.status
  {
    var next := (s.currentPlayer + 1) % |s.hands|;
    var pile := s.mainDeck + s.discard;
    var deck := shuffle(pile);
    assert |deck| == |pile| by {
      assert |multiset(deck)| == |multiset(pile)|;
    }
    var recycled := s.(phase := ActionPhase, mainDeck := deck, discard := []);
    assert CardsInPlay(recycled) == CardsInPlay(s) by {
      assert multiset(deck) == multiset(s.mainDeck) + multiset(s.discard);
    }
    var r := DrawCards(recycled, next, 1).(currentPlayer := next);
    assert TurnPassed(s, r) by {
      DrawnTurnPassed(s, deck, r);
    }
    r
  }

  /** Drawing one card from the recycled pile for the next player and handing over the turn passes it. */
  lemma DrawnTurnPassed(s: State, deck: seq<Card>, r: State)
    requires Valid(s) && |deck| == |s.mainDeck| + |s.discard|
    requires var next := (s.currentPlayer + 1) % |s.hands|;
      r == DrawCards(s.(phase := ActionPhase, mainDeck := deck, discard := []), next, 1).(currentPlayer := next)
    ensures TurnPassed(s, r)
  {
  }

  /** One move: execute the action, then the bookkeeping after it. */
  function Step(s: State, a: Action, shuffle: seq<Card> -> seq<Card>): (r: Result<State>)
    requires Valid(s) && IsShuffle(shuffle)
    ensures r.Ok? <==> Execute(s, a).Ok?
    ensures r.Ok? ==> Valid(r.value) && |r.value.hands| == |s.hands| && CardsInPlay(r.value) == CardsInPlay(s)
    ensures r.Ok? && !a.Pass? ==> s.actionsChosen <= r.value.actionsChosen
    ensures r.Ok? && a.Pass? ==> r.value.actionsChosen == []
  {
    match Execute(s, a)
    case Failure(e) => Failure(e)
    case Ok(s1) => Ok(AfterAction(s1, a, shuffle))
  }

  // ---------------------------------------------------------------------
  // Properties of play
  // ---------------------------------------------------------------------

  /** The category an action uses up, if any. */
  function CategoryOf(a: Action): Option<Category>
  {
    match a
    case Cook(_) => Some(CookUsed)
    case DiscardIngredient(_, _) => Some(DiscardIngredientsUsed)
    case DiscardProtein(_) => Some(DiscardProteinUsed)
    case Discard(_) => None
    case Pass => None
  }

  /** Once a category is recorded, no action of that category is offered. */
  lemma UsedCategoryNotOffered(s: State, b: Action)
    requires Valid(s) && CategoryOf(b).Some? && CategoryOf(b).value in s.actionsChosen
    ensures b !in ComputeAvailableActions(s)
  {
    match b
    case Cook(_) => CookOffered(s, b);
    case DiscardIngredient(_, _) => PairDiscardOffered(s, b);
    case DiscardProtein(id) => ProteinDiscardOffered(s, id);
  }

  /**
   * Each category is used at most once per turn: after a Cook, a protein
   * discard or an ingredient discard succeeds, no action of the same
   * category is offered again by any later state reached without a Pass,
   * the only move that clears the turn's categories.
   */
  lemma OncePerTurn(s: State, a: Action, later: seq<Action>, b: Action, shuffle: seq<Card> -> seq<Card>)
    requires Valid(s) && IsShuffle(shuffle)
    requires CategoryOf(a).Some? && Replay(s, [a] + later, shuffle).Ok?
    requires forall i :: 0 <= i < |later| ==> !later[i].Pass?
    requires CategoryOf(b) == CategoryOf(a)
    ensures b !in ComputeAvailableActions(Replay(s, [a] + later, shuffle).value)
  {
    var moves := [a] + later;
    assert moves[0] == a && moves[1..] == later;
    var next := Step(s, a, shuffle).value;
    assert next == Execute(s, a).value;
    assert CategoryOf(a).value in next.actionsChosen;
    CategoryKept(next, later, shuffle, CategoryOf(a).value);
    UsedCategoryNotOffered(Replay(s, moves, shuffle).value, b);
  }

  /** A recorded category stays recorded through any moves that do not Pass. */
  lemma {:induction false} CategoryKept(s: State, moves: seq<Action>, shuffle: seq<Card> -> seq<Card>, c: Category)
    requires Valid(s) && IsShuffle(shuffle)
    requires c in s.actionsChosen && Replay(s, moves, shuffle).Ok?
    requires forall i :: 0 <= i < |moves| ==> !moves[i].Pass?
    ensures c in Replay(s, moves, shuffle).value.actionsChosen
    decreases |moves|
  {
    if moves != [] {
      var next := Step(s, moves[0], shuffle).value;
      assert c in next.actionsChosen;
      assert forall i :: 0 <= i < |moves[1..]| ==> !moves[1..][i].Pass? by {
        forall i | 0 <= i < |moves[1..]| ensures !moves[1..][i].Pass? {
          assert moves[1..][i] == moves[i + 1];
        }
      }
      CategoryKept(next, moves[1..], shuffle, c);
    }
  }

  /** Every offered action executes successfully. */
  lemma OfferedActionsSucceed(s: State, a: Action)
    requires Valid(s) && a in ComputeAvailableActions(s)
    ensures Execute(s, a).Ok?
  {
    match a
    case Cook(ids) => OfferedCookSucceeds(s, a);
    case DiscardIngredient(first, second) => OfferedPairSucceeds(s, a);
    case DiscardProtein(id) => OfferedProteinSucceeds(s, a);
    case Discard(id) => OfferedDiscardSucceeds(s, a);
    case Pass =>
  }

  /** An offered Cook names only cards of the hand. */
  lemma OfferedCookSucceeds(s: State, a: Action)
    requires Valid(s) && a in ComputeAvailableActions(s) && a.Cook?
    ensures Execute(s, a).Ok?
  {
    var hand := s.hands[s.currentPlayer];
    CookOffered(s, a);
    var types :| types <= TypeSet(hand) && IsRecipe(TypeSet(hand), types) && a.ingredients == RecipeIds(hand, types);
    forall id | id in a.ingredients ensures id in IdSet(hand) {
      var t :| t in types && FirstOfType(hand, t).id == id;
      assert FirstOfType(hand, t) in hand;
    }
  }

  /** An offered DiscardIngredient names two different cards of the hand. */
  lemma OfferedPairSucceeds(s: State, a: Action)
    requires Valid(s) && a in ComputeAvailableActions(s) && a.DiscardIngredient?
    ensures Execute(s, a).Ok?
  {
    var hand := s.hands[s.currentPlayer];
    PairDiscardOffered(s, a);
    var t :| IsPairOf(hand, t, a);
    var (f, k) := PairOf(hand, t).value;
    assert hand[f] in hand;
    var c0 := FindById(hand, a.first).value;
    assert hand[k] != c0;
    RemoveFirstKeeps(hand, c0, hand[k]);
  }

  /** An offered DiscardProtein names a card of the hand. */
  lemma OfferedProteinSucceeds(s: State, a: Action)
    requires Valid(s) && a in ComputeAvailableActions(s) && a.DiscardProtein?
    ensures Execute(s, a).Ok?
  {
    var hand := s.hands[s.currentPlayer];
    ProteinDiscardOffered(s, a.card);
    var m :| 0 <= m < |hand| && IsProtein(hand[m].cardType) && hand[m].id == a.card;
    assert hand[m] in hand;
  }

  /** An offered Discard names a card of the hand. */
  lemma OfferedDiscardSucceeds(s: State, a: Action)
    requires Valid(s) && a in ComputeAvailableActions(s) && a.Discard?
    ensures Execute(s, a).Ok?
  {
    var hand := s.hands[s.currentPlayer];
    NoDiscardInActionPhase(s);
    assert s.phase == DiscardPhase;
    var i :| 0 <= i < |ComputeAvailableActions(s)| && ComputeAvailableActions(s)[i] == a;
    assert hand[i] in hand;
  }

  /** The action phase offers no discard-phase Discard. */
  lemma NoDiscardInActionPhase(s: State)
    requires Valid(s)
    ensures s.phase == ActionPhase ==> forall a :: a in ComputeAvailableActions(s) ==> !a.Discard?
  {
    if s.phase == ActionPhase {
      ActionPhaseShape(s);
    }
  }

  /** Removing one card keeps every different card. */
  lemma RemoveFirstKeeps(cards: seq<Card>, c: Card, d: Card)
    requires d in cards && d != c
    ensures d in RemoveFirst(cards, c) && d.id in IdSet(RemoveFirst(cards, c))
  {
    if c in cards {
      assert multiset(RemoveFirst(cards, c))[d] == multiset(cards)[d];
    }
  }

  /** A sequence of distinct elements holds each at most once. */
  lemma {:induction false} DistinctAtMostOnce<T>(xs: seq<T>, c: T)
    requires forall i, j :: 0 <= i < j < |xs| ==> xs[i] != xs[j]
    ensures multiset(xs)[c] <= 1
    decreases |xs|
  {
    if xs != [] {
      assert xs == [xs[0]] + xs[1..];
      DistinctAtMostOnce(xs[1..], c);
      if c == xs[0] {
        assert c !in xs[1..];
      }
    }
  }

  /** A sequence holding each element at most once has distinct elements at distinct positions. */
  lemma {:induction false} AtMostOnceDistinct<T>(xs: seq<T>, i: nat, j: nat)
    requires forall c :: multiset(xs)[c] <= 1
    requires i < j < |xs|
    ensures xs[i] != xs[j]
    decreases |xs|
  {
    assert xs == [xs[0]] + xs[1..];
    forall c ensures multiset(xs[1..])[c] <= 1 {
      assert multiset(xs)[c] == multiset([xs[0]])[c] + multiset(xs[1..])[c];
    }
    if i == 0 {
      assert multiset(xs)[xs[0]] == 1 + multiset(xs[1..])[xs[0]];
      assert xs[1..][j - 1] == xs[j];
      assert xs[j] in multiset(xs[1..]) && xs[0] !in multiset(xs[1..]);
    } else {
      AtMostOnceDistinct(xs[1..], i - 1, j - 1);
    }
  }

  /** Every card of the pile carries its own position as identifier. */
  predicate IdsArePositions(deck: seq<Card>)
  {
    forall i :: 0 <= i < |deck| ==> deck[i].id == i
  }

  /** A card of such a pile sits at the position its identifier names. */
  lemma CardAtItsId(deck: seq<Card>, c: Card)
    requires IdsArePositions(deck) && c in deck
    ensures 0 <= c.id < |deck| && deck[c.id] == c
  {
  }

  /** While the game's cards are exactly such a pile's, a hand holds cards of the pile, each at most once. */
  lemma HandCardsOnce(s: State, p: nat, deck: seq<Card>)
    requires p < |s.hands| && CardsInPlay(s) == multiset(deck) && IdsArePositions(deck)
    ensures forall c :: multiset(s.hands[p])[c] <= 1
    ensures forall c :: c in s.hands[p] ==> c in deck
  {
    var hand := s.hands[p];
    assert multiset(hand) <= multiset(deck) by {
      HandInHands(s.hands, p);
    }
    assert forall i, j :: 0 <= i < j < |deck| ==> deck[i] != deck[j] by {
      forall i, j | 0 <= i < j < |deck| ensures deck[i] != deck[j] {
        assert deck[i].id == i && deck[j].id == j;
      }
    }
    forall c ensures multiset(hand)[c] <= 1 {
      DistinctAtMostOnce(deck, c);
    }
    forall c | c in hand ensures c in deck {
      assert c in multiset(hand);
    }
  }

  /**
   * While the game's cards are exactly the deck's, every hand has distinct
   * identifiers.
   */
  lemma HandsHaveUniqueIds(s: State, p: nat)
    requires p < |s.hands| && CardsInPlay(s) == multiset(FullDeck())
    ensures UniqueIds(s.hands[p])
  {
    var hand := s.hands[p];
    var deck := FullDeck();
    HandCardsOnce(s, p, deck);
    forall i, j | 0 <= i < |hand| && 0 <= j < |hand| && i != j ensures hand[i].id != hand[j].id {
      if i < j {
        AtMostOnceDistinct(hand, i, j);
      } else {
        AtMostOnceDistinct(hand, j, i);
      }
      CardAtItsId(deck, hand[i]);
      CardAtItsId(deck, hand[j]);
    }
  }

  /** Plays the moves in order from `s`, stopping at the first that fails. */
  function Replay(s: State, moves: seq<Action>, shuffle: seq<Card> -> seq<Card>): (r: Result<State>)
    requires Valid(s) && IsShuffle(shuffle)
    ensures r.Ok? ==> Valid(r.value) && |r.value.hands| == |s.hands| && CardsInPlay(r.value) == CardsInPlay(s)
    decreases |moves|
  {
    if moves == [] then Ok(s)
    else
      match Step(s, moves[0], shuffle)
      case Failure(e) => Failure(e)
      case Ok(next) => Replay(next, moves[1..], shuffle)
  }

  /**
   * In every game that follows the rules from setup, the cards in play are
   * always the eighteen of the deck and every hand has distinct identifiers.
   */
  lemma PlayKeepsDeck(n: nat, shuffle: seq<Card> -> seq<Card>, moves: seq<Action>, p: nat)
    requires n >= 1 && IsShuffle(shuffle)
    requires Replay(Setup(n, shuffle), moves, shuffle).Ok?
    requires p < n
    ensures CardsInPlay(Replay(Setup(n, shuffle), moves, shuffle).value) == multiset(FullDeck())
    ensures UniqueIds(Replay(Setup(n, shuffle), moves, shuffle).value.hands[p])
  {
    var s0 := Setup(n, shuffle);
    var r := Replay(s0, moves, shuffle).value;
    assert CardsInPlay(r) == CardsInPlay(s0);
    HandsHaveUniqueIds(r, p);
  }

  /** The hand of the worked example: Shrimp, Ginger and Noodles. */
  function ExampleHand(): seq<Card>
  {
    [Card(0, Shrimp), Card(1, Ginger), Card(2, Noodles)]
  }

  /** The example hand carries identifiers 0, 1 and 2. */
  lemma ExampleIds()
    ensures IdSet(ExampleHand()) == {0, 1, 2}
  {
    var hand := ExampleHand();
    assert hand[0] in hand && hand[1] in hand && hand[2] in hand;
  }

  /** Naming all three example cards selects the whole hand. */
  lemma ExampleSelection()
    ensures WithIds(ExampleHand(), {0, 1, 2}) == ExampleHand()
  {
    ExampleIds();
    WithAllIds(ExampleHand(), {0, 1, 2});
  }

  /** The example hand is worth 6 + 2 + 1 base points. */
  lemma ExampleBase()
    ensures SumBase(ExampleHand()) == 9
  {
    var hand := ExampleHand();
    assert hand[1..] == [Card(1, Ginger), Card(2, Noodles)];
    assert hand[1..][1..] == [Card(2, Noodles)];
  }

  /**
   * Cooking Shrimp, Ginger and Noodles scores 6 + 2 + 1 = 9: every cooked
   * card scores its base points, since a synergy never holds while the
   * scored card is still in hand.
   */
  lemma ShrimpGingerNoodlesScoresNine()
    ensures var s := State([ExampleHand()], [], [], [0], [], ActionPhase, 0, Ongoing);
      && ExecuteCook(s, {0, 1, 2}).Ok?
      && GameScore(ExecuteCook(s, {0, 1, 2}).value, 0) == 9
      && ExecuteCook(s, {0, 1, 2}).value.hands[0] == []
  {
    var s := State([ExampleHand()], [], [], [0], [], ActionPhase, 0, Ongoing);
    ExampleIds();
    ExampleSelection();
    ExampleBase();
    var r := ExecuteCook(s, {0, 1, 2});
    assert r.Ok?;
    assert CookEffect(s, {0, 1, 2}, r.value);
    assert multiset(r.value.hands[0]) == multiset{};
  }
}
