/**
 * The deck abstraction the rules rely on, over sequences of cards: drawing
 * takes the top (front) card and yields nothing on an empty deck, adding
 * appends, removing takes out the first equal card.
 */
module Decks {
  import opened Wrappers
  import opened Cards
  import opened Ingredients

  function Min(a: int, b: int): int
  {
    if a <= b then a else b
  }

  /** Draws the top card, or an empty draw when the deck is empty. */
  function Draw(deck: seq<Card>): (r: (Option<Card>, seq<Card>))
    ensures deck == [] ==> r == (None, [])
    ensures deck != [] ==> r.0 == Some(deck[0]) && [deck[0]] + r.1 == deck
  {
    if deck == [] then (None, []) else (Some(deck[0]), deck[1..])
  }

  /** Taking `k` cards from `c` followed by `rest` takes `c`, then `k - 1` cards of `rest`. */
  lemma TakeAfterHead(deck: seq<Card>, c: Card, rest: seq<Card>, k: nat)
    requires k > 0 && deck == [c] + rest
    ensures Min(k, |deck|) == 1 + Min(k - 1, |rest|)
    ensures deck[..Min(k, |deck|)] == [c] + rest[..Min(k - 1, |rest|)]
    ensures deck[Min(k, |deck|)..] == rest[Min(k - 1, |rest|)..]
  {
  }

  /**
   * Draws up to `k` cards into `hand`, one by one, stopping at the first empty
   * draw: the hand gains the top min(k, |deck|) cards in order.
   */
  function DrawUpTo(hand: seq<Card>, deck: seq<Card>, k: nat): (r: (seq<Card>, seq<Card>))
    ensures r.0 == hand + deck[..Min(k, |deck|)]
    ensures r.1 == deck[Min(k, |deck|)..]
    decreases k
  {
    if k == 0 then (hand, deck)
    else
      match Draw(deck)
      case (None, _) => (hand, deck)
      case (Some(c), rest) =>
        var r := DrawUpTo(hand + [c], rest, k - 1);
        TakeAfterHead(deck, c, rest, k);
        r
  }

  /** Drawing moves cards between the two piles without creating or losing any. */
  lemma DrawUpToConserves(hand: seq<Card>, deck: seq<Card>, k: nat)
    ensures multiset(DrawUpTo(hand, deck, k).0) + multiset(DrawUpTo(hand, deck, k).1)
         == multiset(hand) + multiset(deck)
  {
    var m := Min(k, |deck|);
    assert deck == deck[..m] + deck[m..];
  }

  /** The position of the first card equal to `c`. */
  function FirstIndex(cards: seq<Card>, c: Card): (i: nat)
    requires c in cards
    ensures i < |cards| && cards[i] == c
  {
    if cards[0] == c then 0 else 1 + FirstIndex(cards[1..], c)
  }

  /** No card before the first index equals `c`. */
  lemma {:induction false} FirstIndexIsFirst(cards: seq<Card>, c: Card)
    requires c in cards
    ensures c !in cards[..FirstIndex(cards, c)]
    decreases |cards|
  {
    if cards[0] != c {
      FirstIndexIsFirst(cards[1..], c);
      assert cards[..FirstIndex(cards, c)] == [cards[0]] + cards[1..][..FirstIndex(cards[1..], c)];
    }
  }

  /**
   * Removes the first card equal to `c`, keeping the others in order; leaves
   * the sequence alone when there is none.
   */
  function RemoveFirst(cards: seq<Card>, c: Card): (r: seq<Card>)
    ensures c in cards ==> r == cards[..FirstIndex(cards, c)] + cards[FirstIndex(cards, c) + 1..]
    ensures c in cards ==> multiset(r) == multiset(cards) - multiset{c}
    ensures c in cards ==> |r| == |cards| - 1
    ensures c !in cards ==> r == cards
  {
    if cards == [] then []
    else if cards[0] == c then
      assert cards == [cards[0]] + cards[1..];
      cards[1..]
    else
      assert cards == [cards[0]] + cards[1..];
      var rest := RemoveFirst(cards[1..], c);
      if c in cards[1..] then
        ConsSplit(cards, FirstIndex(cards[1..], c));
        [cards[0]] + rest
      else
        [cards[0]] + rest
  }

  /** Cutting element `j` out of a tail and putting the head back cuts element `j + 1` out of the whole. */
  lemma ConsSplit<T>(s: seq<T>, j: nat)
    requires j + 1 < |s|
    ensures [s[0]] + (s[1..][..j] + s[1..][j + 1..]) == s[..j + 1] + s[j + 2..]
  {
    assert s[1..][..j] == s[1..j + 1];
    assert s[1..][j + 1..] == s[j + 2..];
    assert [s[0]] + s[1..j + 1] == s[..j + 1];
  }

  /** The first card carrying identifier `id`, if any. */
  function FindById(cards: seq<Card>, id: int): (r: Option<Card>)
    ensures r.Some? ==> r.value in cards && r.value.id == id
    ensures r.None? <==> id !in IdSet(cards)
  {
    if cards == [] then None
    else if cards[0].id == id then Some(cards[0])
    else FindById(cards[1..], id)
  }

  /** The identifiers of the cards. */
  function IdSet(cards: seq<Card>): set<int>
  {
    set c | c in cards :: c.id
  }

  /** The distinct card types among the cards. */
  function TypeSet(cards: seq<Card>): set<CardType>
  {
    set c | c in cards :: c.cardType
  }

  /** No two positions hold cards with the same identifier. */
  predicate UniqueIds(cards: seq<Card>)
  {
    forall i, j :: 0 <= i < |cards| && 0 <= j < |cards| && i != j ==> cards[i].id != cards[j].id
  }

  /** Index of the first card of type `t`: the `findFirst` over a hand. */
  function IndexOfType(cards: seq<Card>, t: CardType): (r: Option<nat>)
    ensures r.Some? ==> r.value < |cards| && cards[r.value].cardType == t
    ensures r.Some? ==> forall m :: 0 <= m < r.value ==> cards[m].cardType != t
    ensures r.None? <==> t !in TypeSet(cards)
  {
    if cards == [] then None
    else if cards[0].cardType == t then Some(0)
    else
      match IndexOfType(cards[1..], t)
      case None =>
        assert TypeSet(cards) == {cards[0].cardType} + TypeSet(cards[1..]);
        None
      case Some(k) => Some(k + 1)
  }

  /** The cards whose identifiers are in `ids`, in hand order. */
  function WithIds(cards: seq<Card>, ids: set<int>): (r: seq<Card>)
    ensures multiset(r) <= multiset(cards)
    ensures forall c :: c in r <==> c in cards && c.id in ids
  {
    if cards == [] then []
    else
      assert cards == [cards[0]] + cards[1..];
      (if cards[0].id in ids then [cards[0]] else []) + WithIds(cards[1..], ids)
  }

  /** Naming every card's identifier selects all the cards. */
  lemma {:induction false} WithAllIds(cards: seq<Card>, ids: set<int>)
    requires forall c :: c in cards ==> c.id in ids
    ensures WithIds(cards, ids) == cards
    decreases |cards|
  {
    if cards != [] {
      assert cards == [cards[0]] + cards[1..];
      WithAllIds(cards[1..], ids);
    }
  }

  /** The cards whose identifiers are not in `ids`, in hand order. */
  function WithoutIds(cards: seq<Card>, ids: set<int>): (r: seq<Card>)
    ensures multiset(r) <= multiset(cards)
    ensures forall c :: c in r <==> c in cards && c.id !in ids
  {
    if cards == [] then []
    else
      assert cards == [cards[0]] + cards[1..];
      (if cards[0].id in ids then [] else [cards[0]]) + WithoutIds(cards[1..], ids)
  }

  /** Every card goes to exactly one side of the split by identifiers. */
  lemma {:induction false} SplitByIds(cards: seq<Card>, ids: set<int>)
    ensures multiset(WithIds(cards, ids)) + multiset(WithoutIds(cards, ids)) == multiset(cards)
    decreases |cards|
  {
    if cards != [] {
      assert cards == [cards[0]] + cards[1..];
      SplitByIds(cards[1..], ids);
    }
  }
}
