/**
 * Legal-action generation. In the action phase the current player may
 * discard a protein, discard a pair of equal-typed non-protein ingredients,
 * cook a recipe, or pass, each category at most once per turn; in the
 * discard phase a player holding more than three cards must shed one.
 */
module LegalActions {
  import opened Wrappers
  import opened Cards
  import opened Ingredients
  import opened Decks
  import opened GameState
  import opened Actions
  import opened Subsets

  // ---------------------------------------------------------------------
  // Ingredient pairs
  // ---------------------------------------------------------------------

  /** `other` is a different card of the same type as `card`. */
  predicate IsPartner(other: Card, card: Card)
  {
    !other.Equals(card) && other.cardType == card.cardType
  }

  /** The first position from `j` on holding a partner of `card`. */
  function Partner(hand: seq<Card>, card: Card, j: nat): (r: Option<nat>)
    decreases |hand| - j
    ensures r.Some? ==> j <= r.value < |hand| && IsPartner(hand[r.value], card)
    ensures r.Some? ==> forall m :: j <= m < r.value ==> !IsPartner(hand[m], card)
    ensures r.None? <==> forall m :: j <= m < |hand| ==> !IsPartner(hand[m], card)
  {
    if j >= |hand| then None
    else if IsPartner(hand[j], card) then Some(j)
    else Partner(hand, card, j + 1)
  }

  /**
   * The pair the rules offer for type `t`: the first card of that type and
   * the first later-or-earlier card of that type that is a different card.
   */
  function PairOf(hand: seq<Card>, t: CardType): (r: Option<(nat, nat)>)
    ensures r.Some? ==>
      && r.value.0 < |hand| && r.value.1 < |hand|
      && hand[r.value.0].cardType == t && hand[r.value.1].cardType == t
      && hand[r.value.0] != hand[r.value.1]
      && IndexOfType(hand, t) == Some(r.value.0)
    ensures r.None? <==>
      forall x, y :: 0 <= x < |hand| && 0 <= y < |hand| && hand[x].cardType == t && hand[y].cardType == t
        ==> hand[x] == hand[y]
  {
    match IndexOfType(hand, t)
    case None => None
    case Some(f) =>
      match Partner(hand, hand[f], 0)
      case None =>
        assert forall x :: 0 <= x < |hand| && hand[x].cardType == t ==> hand[x] == hand[f] by {
          forall x | 0 <= x < |hand| && hand[x].cardType == t ensures hand[x] == hand[f] {
            EqualsIsIdentity(hand[x], hand[f]);
          }
        }
        None
      case Some(k) =>
        EqualsIsIdentity(hand[k], hand[f]);
        Some((f, k))
  }

  /** The DiscardIngredient action offered for type `t`. */
  function PairAction(hand: seq<Card>, t: CardType): Action
    requires PairOf(hand, t).Some?
  {
    var (f, k) := PairOf(hand, t).value;
    DiscardIngredient(hand[f].id, hand[k].id)
  }

  /** `a` is the pair action of the non-protein type `t`. */
  predicate IsPairOf(hand: seq<Card>, t: CardType, a: Action)
  {
    !IsProtein(t) && PairOf(hand, t).Some? && a == PairAction(hand, t)
  }

  /**
   * The inner scan of the rules: for `card`, look from position `j` for a
   * partner, and offer a pair the first time one is found unless `card`'s
   * type has already been offered.
   */
  function PairScan(hand: seq<Card>, card: Card, j: nat, added: seq<CardType>): (r: (seq<CardType>, seq<Action>))
    decreases |hand| - j
    ensures card.cardType in added ==> r == (added, [])
    ensures card.cardType !in added && Partner(hand, card, j).None? ==> r == (added, [])
    ensures card.cardType !in added && Partner(hand, card, j).Some? ==>
      r == (added + [card.cardType], [DiscardIngredient(card.id, hand[Partner(hand, card, j).value].id)])
  {
    if j >= |hand| then (added, [])
    else if hand[j].Equals(card) then PairScan(hand, card, j + 1, added)
    else if card.cardType == hand[j].cardType && card.cardType !in added then
      assert Partner(hand, card, j) == Some(j);
      var rest := PairScan(hand, card, j + 1, added + [card.cardType]);
      assert card.cardType in added + [card.cardType];
      assert [DiscardIngredient(card.id, hand[j].id)] + rest.1 == [DiscardIngredient(card.id, hand[j].id)];
      (rest.0, [DiscardIngredient(card.id, hand[j].id)] + rest.1)
    else PairScan(hand, card, j + 1, added)
  }

  /**
   * The outer scan of the rules over the hand from position `i`: a protein
   * is offered for discard unless that category is used; any other card
   * runs the pair scan unless ingredient discards are used. `added` lists
   * the types already offered as pairs.
   */
  function ScanHand(hand: seq<Card>, chosen: seq<Category>, i: nat, added: seq<CardType>): (r: seq<Action>)
    decreases |hand| - i
    ensures forall a :: a in r ==> a.DiscardProtein? || a.DiscardIngredient?
  {
    if i >= |hand| then []
    else
      var card := hand[i];
      if IsProtein(card.cardType) then
        (if DiscardProteinUsed !in chosen then [DiscardProtein(card.id)] else []) + ScanHand(hand, chosen, i + 1, added)
      else if DiscardIngredientsUsed !in chosen then
        var inner := PairScan(hand, card, 0, added);
        inner.1 + ScanHand(hand, chosen, i + 1, inner.0)
      else ScanHand(hand, chosen, i + 1, added)
  }

  /**
   * Reference definition of the discards offered, card by card: a protein
   * when that category is free, and a pair at the first card of each
   * non-protein type that has two different cards.
   */
  function OfferedAt(hand: seq<Card>, chosen: seq<Category>, i: nat): seq<Action>
    requires i < |hand|
  {
    var t := hand[i].cardType;
    if IsProtein(t) then
      (if DiscardProteinUsed !in chosen then [DiscardProtein(hand[i].id)] else [])
    else if DiscardIngredientsUsed !in chosen && IndexOfType(hand, t) == Some(i) && PairOf(hand, t).Some? then
      [PairAction(hand, t)]
    else []
  }

  /** The reference offers from position `i` on. */
  function Offered(hand: seq<Card>, chosen: seq<Category>, i: nat): seq<Action>
    decreases |hand| - i
  {
    if i >= |hand| then [] else OfferedAt(hand, chosen, i) + Offered(hand, chosen, i + 1)
  }

  /** What the scan has recorded by position `i`: the paired types whose first card comes earlier. */
  predicate AddedBefore(hand: seq<Card>, i: nat, added: seq<CardType>)
  {
    forall t :: t in added <==> !IsProtein(t) && PairOf(hand, t).Some? && PairOf(hand, t).value.0 < i
  }

  /** The literal scan computes the reference offers. */
  lemma {:induction false} ScanMatchesReference(hand: seq<Card>, chosen: seq<Category>, i: nat, added: seq<CardType>)
    requires DiscardIngredientsUsed in chosen || AddedBefore(hand, i, added)
    ensures ScanHand(hand, chosen, i, added) == Offered(hand, chosen, i)
    decreases |hand| - i
  {
    if i < |hand| {
      var card := hand[i];
      var t := card.cardType;
      if IsProtein(t) {
        ScanMatchesReference(hand, chosen, i + 1, added);
      } else if DiscardIngredientsUsed in chosen {
        ScanMatchesReference(hand, chosen, i + 1, added);
      } else {
        var inner := PairScan(hand, card, 0, added);
        PairStep(hand, i, added);
        ScanMatchesReference(hand, chosen, i + 1, inner.0);
      }
    }
  }

  /** One step of the outer scan at a non-protein card keeps the record and agrees with the reference. */
  lemma PairStep(hand: seq<Card>, i: nat, added: seq<CardType>)
    requires i < |hand| && !IsProtein(hand[i].cardType)
    requires AddedBefore(hand, i, added)
    ensures AddedBefore(hand, i + 1, PairScan(hand, hand[i], 0, added).0)
    ensures PairScan(hand, hand[i], 0, added).1 ==
      (if IndexOfType(hand, hand[i].cardType) == Some(i) && PairOf(hand, hand[i].cardType).Some?
       then [PairAction(hand, hand[i].cardType)] else [])
  {
    var card := hand[i];
    var t := card.cardType;
    var f := IndexOfType(hand, t).value;
    var next := PairScan(hand, card, 0, added).0;
    assert f <= i;
    if t in added {
      assert f < i;
      AddedNext(hand, i, added, next);
    } else if PairOf(hand, t).Some? {
      assert f == i;
      assert Partner(hand, hand[f], 0).Some?;
      assert next == added + [t];
      AddedNext(hand, i, added, next);
    } else {
      assert Partner(hand, card, 0).None? by {
        forall m | 0 <= m < |hand| ensures !IsPartner(hand[m], card) {
          EqualsIsIdentity(hand[m], card);
        }
      }
      AddedNext(hand, i, added, next);
    }
  }

  /** The record after position `i` adds at most the type of the card at `i`, exactly when its pair starts there. */
  lemma AddedNext(hand: seq<Card>, i: nat, added: seq<CardType>, next: seq<CardType>)
    requires i < |hand| && AddedBefore(hand, i, added)
    requires forall u :: u in next <==> (u in added ||
      (u == hand[i].cardType && !IsProtein(u) && PairOf(hand, u).Some? && PairOf(hand, u).value.0 == i))
    ensures AddedBefore(hand, i + 1, next)
  {
    forall u ensures u in next <==> !IsProtein(u) && PairOf(hand, u).Some? && PairOf(hand, u).value.0 < i + 1 {
      if PairOf(hand, u).Some? && PairOf(hand, u).value.0 == i {
        assert hand[i].cardType == u;
      }
    }
  }

  /** Every pair action the reference offers from `i` on belongs to a paired type whose first card is at or after `i`. */
  lemma {:induction false} OfferedPairSource(hand: seq<Card>, chosen: seq<Category>, i: nat, a: Action)
    requires a in Offered(hand, chosen, i) && a.DiscardIngredient?
    ensures DiscardIngredientsUsed !in chosen
    ensures exists t :: IsPairOf(hand, t, a) && i <= IndexOfType(hand, t).value
    decreases |hand| - i
  {
    assert i < |hand| && (a in OfferedAt(hand, chosen, i) || a in Offered(hand, chosen, i + 1)) by {
      if i < |hand| {
        assert Offered(hand, chosen, i) == OfferedAt(hand, chosen, i) + Offered(hand, chosen, i + 1);
      }
    }
    if a in OfferedAt(hand, chosen, i) {
      assert IsPairOf(hand, hand[i].cardType, a);
    } else {
      OfferedPairSource(hand, chosen, i + 1, a);
      var t :| IsPairOf(hand, t, a) && i + 1 <= IndexOfType(hand, t).value;
    }
  }

  /** Every paired non-protein type whose first card is at or after `i` has its pair offered. */
  lemma {:induction false} OfferedPairComplete(hand: seq<Card>, chosen: seq<Category>, i: nat, t: CardType)
    requires DiscardIngredientsUsed !in chosen && !IsProtein(t) && PairOf(hand, t).Some?
    requires i <= IndexOfType(hand, t).value
    ensures PairAction(hand, t) in Offered(hand, chosen, i)
    decreases |hand| - i
  {
    if IndexOfType(hand, t).value == i {
      assert PairAction(hand, t) in OfferedAt(hand, chosen, i);
    } else {
      OfferedPairComplete(hand, chosen, i + 1, t);
    }
  }

  /** Two offered pair actions at different positions belong to different types. */
  lemma {:induction false} OfferedPairsOnePerType(hand: seq<Card>, chosen: seq<Category>, i: nat, x: nat, y: nat)
    requires x < y < |Offered(hand, chosen, i)|
    requires Offered(hand, chosen, i)[x].DiscardIngredient? && Offered(hand, chosen, i)[y].DiscardIngredient?
    ensures exists t, t' :: t != t' && IsPairOf(hand, t, Offered(hand, chosen, i)[x]) && IsPairOf(hand, t', Offered(hand, chosen, i)[y])
    decreases |hand| - i
  {
    var here := OfferedAt(hand, chosen, i);
    var rest := Offered(hand, chosen, i + 1);
    assert Offered(hand, chosen, i) == here + rest;
    if x < |here| {
      var t := hand[i].cardType;
      assert IsPairOf(hand, t, here[x]);
      var b := rest[y - |here|];
      OfferedPairSource(hand, chosen, i + 1, b);
      var t' :| IsPairOf(hand, t', b) && i + 1 <= IndexOfType(hand, t').value;
      assert t != t';
    } else {
      OfferedPairsOnePerType(hand, chosen, i + 1, x - |here|, y - |here|);
    }
  }

  /** Some protein card at position `i` or later carries `id`. */
  predicate ProteinIdFrom(hand: seq<Card>, i: nat, id: int)
  {
    exists m :: i <= m < |hand| && IsProtein(hand[m].cardType) && hand[m].id == id
  }

  /** A protein card from `i` on is the one at `i` or one from `i + 1` on. */
  lemma ProteinIdFromStep(hand: seq<Card>, i: nat, id: int)
    requires i < |hand|
    ensures ProteinIdFrom(hand, i, id) <==>
      (IsProtein(hand[i].cardType) && hand[i].id == id) || ProteinIdFrom(hand, i + 1, id)
  {
    if ProteinIdFrom(hand, i, id) {
      var m :| i <= m < |hand| && IsProtein(hand[m].cardType) && hand[m].id == id;
      if m != i {
        assert i + 1 <= m;
      }
    }
  }

  /** Proteins offered from `i` on: one per protein card, when that category is free. */
  lemma {:induction false} OfferedProteins(hand: seq<Card>, chosen: seq<Category>, i: nat, id: int)
    ensures DiscardProtein(id) in Offered(hand, chosen, i) <==>
      DiscardProteinUsed !in chosen && ProteinIdFrom(hand, i, id)
    decreases |hand| - i
  {
    if i < |hand| {
      var here := OfferedAt(hand, chosen, i);
      var a := DiscardProtein(id);
      assert a in Offered(hand, chosen, i) <==> a in here || a in Offered(hand, chosen, i + 1) by {
        assert Offered(hand, chosen, i) == here + Offered(hand, chosen, i + 1);
      }
      assert a in here <==> DiscardProteinUsed !in chosen && IsProtein(hand[i].cardType) && hand[i].id == id;
      OfferedProteins(hand, chosen, i + 1, id);
      ProteinIdFromStep(hand, i, id);
    }
  }

  // ---------------------------------------------------------------------
  // Cook recipes
  // ---------------------------------------------------------------------

  /** The first card of type `t` in the hand. */
  function FirstOfType(hand: seq<Card>, t: CardType): (r: Card)
    requires t in TypeSet(hand)
    ensures r in hand && r.cardType == t
    ensures exists f :: 0 <= f < |hand| && hand[f] == r && forall m :: 0 <= m < f ==> hand[m].cardType != t
  {
    hand[IndexOfType(hand, t).value]
  }

  /** The identifiers a Cook uses for the type set `types`: the first card of each type. */
  function RecipeIds(hand: seq<Card>, types: set<CardType>): (r: set<int>)
    requires types <= TypeSet(hand)
    ensures r <= IdSet(hand)
    ensures r == {} <==> types == {}
  {
    var r := set t | t in types :: FirstOfType(hand, t).id;
    assert r <= IdSet(hand) by {
      forall id | id in r ensures id in IdSet(hand) {
        var t :| t in types && FirstOfType(hand, t).id == id;
        assert FirstOfType(hand, t) in hand;
      }
    }
    assert types != {} ==> r != {} by {
      if types != {} {
        var t :| t in types;
        assert FirstOfType(hand, t).id in r;
      }
    }
    r
  }

  /**
   * Which type sets make a recipe, given the hand's distinct types `all`:
   * with three to five types only all of them; with more, any five that
   * include Noodles.
   */
  predicate IsRecipe(all: set<CardType>, types: set<CardType>)
  {
    || (3 <= |all| <= 5 && types == all)
    || (|all| > 5 && types <= all && |types| == 5 && Noodles in types)
  }

  /** `a` is a Cook of some recipe of the hand. */
  predicate IsRecipeCook(hand: seq<Card>, a: Action)
  {
    a.Cook? && exists types :: types <= TypeSet(hand) && IsRecipe(TypeSet(hand), types) && a.ingredients == RecipeIds(hand, types)
  }

  /** No Cook appears twice. */
  predicate NoRepeatedCooks(actions: seq<Action>)
  {
    forall x, y :: 0 <= x < y < |actions| && actions[x].Cook? ==> actions[x] != actions[y]
  }

  /** Adds a Cook of the first card of each type in `types`, unless an equal Cook is already listed. */
  function AddCookRecipe(actions: seq<Action>, hand: seq<Card>, types: set<CardType>): (r: seq<Action>)
    requires types <= TypeSet(hand)
    ensures actions <= r && |r| <= |actions| + 1
    ensures forall x :: |actions| <= x < |r| ==> r[x].Cook?
    ensures forall a :: a in r <==> a in actions || a == Cook(RecipeIds(hand, types))
    ensures NoRepeatedCooks(actions) ==> NoRepeatedCooks(r)
  {
    var cook := Cook(RecipeIds(hand, types));
    if exists a :: a in actions && Equals(a, cook) then actions
    else
      assert forall x :: 0 <= x < |actions| ==> !Equals(actions[x], cook);
      actions + [cook]
  }

  /** Runs through the listed type sets, adding a Cook for each of size five that includes Noodles. */
  function AddCookRecipes(actions: seq<Action>, hand: seq<Card>, recipes: seq<set<CardType>>): (r: seq<Action>)
    requires forall u :: u in recipes ==> u <= TypeSet(hand)
    decreases |recipes|
    ensures actions <= r
    ensures forall x :: |actions| <= x < |r| ==> r[x].Cook?
    ensures forall a :: a in r <==> (a in actions ||
      exists u :: u in recipes && |u| == 5 && Noodles in u && a == Cook(RecipeIds(hand, u)))
    ensures NoRepeatedCooks(actions) ==> NoRepeatedCooks(r)
  {
    if recipes == [] then actions
    else
      var u := recipes[0];
      var next := if |u| == 5 && Noodles in u then AddCookRecipe(actions, hand, u) else actions;
      assert forall v :: v in recipes <==> v == u || v in recipes[1..] by {
        assert recipes == [u] + recipes[1..];
      }
      AddCookRecipes(next, hand, recipes[1..])
  }

  /**
   * The cook part of the action phase: nothing once Cook is used or without
   * Noodles in hand; otherwise the recipes that the hand's distinct types
   * allow.
   */
  function CookOptions(actions: seq<Action>, hand: seq<Card>, chosen: seq<Category>): (r: seq<Action>)
    ensures actions <= r
    ensures forall x :: |actions| <= x < |r| ==> r[x].Cook?
    ensures forall a :: a in r <==> (a in actions ||
      (CookUsed !in chosen && Noodles in TypeSet(hand) && IsRecipeCook(hand, a)))
    ensures NoRepeatedCooks(actions) ==> NoRepeatedCooks(r)
  {
    if CookUsed in chosen then actions
    else if !exists i :: 0 <= i < |hand| && hand[i].cardType == Noodles then
      assert Noodles !in TypeSet(hand);
      actions
    else
      var filtered := Elements(TypesOf(hand));
      TypesOfElements(hand);
      if |filtered| < 3 then
        assert forall a :: !IsRecipeCook(hand, a);
        actions
      else if |filtered| <= 5 then
        FewTypesCooks(actions, hand, filtered);
        AddCookRecipe(actions, hand, filtered)
      else
        var recipes := Enumerate(IngredientSubsets(filtered));
        forall u ensures u in recipes <==> u <= filtered {
          PowersetExact(filtered, u);
        }
        ManyTypesCooks(actions, hand, filtered, recipes);
        AddCookRecipes(actions, hand, recipes)
  }

  /** With three to five distinct types, the one recipe is all of them. */
  lemma FewTypesCooks(actions: seq<Action>, hand: seq<Card>, filtered: set<CardType>)
    requires filtered == TypeSet(hand) && 3 <= |filtered| <= 5
    ensures forall a :: a in AddCookRecipe(actions, hand, filtered) <==> (a in actions || IsRecipeCook(hand, a))
  {
    forall a | IsRecipeCook(hand, a) ensures a == Cook(RecipeIds(hand, filtered)) {
      var types :| types <= TypeSet(hand) && IsRecipe(TypeSet(hand), types) && a.ingredients == RecipeIds(hand, types);
      assert types == filtered;
    }
    assert IsRecipe(TypeSet(hand), filtered);
  }

  /** With more than five distinct types, the recipes are the five-type subsets with Noodles. */
  lemma ManyTypesCooks(actions: seq<Action>, hand: seq<Card>, filtered: set<CardType>, recipes: seq<set<CardType>>)
    requires filtered == TypeSet(hand) && |filtered| > 5
    requires forall u :: u in recipes <==> u <= filtered
    ensures forall a :: a in AddCookRecipes(actions, hand, recipes) <==> (a in actions || IsRecipeCook(hand, a))
  {
    forall a | IsRecipeCook(hand, a)
      ensures exists u :: u in recipes && |u| == 5 && Noodles in u && a == Cook(RecipeIds(hand, u))
    {
      var types :| types <= TypeSet(hand) && IsRecipe(TypeSet(hand), types) && a.ingredients == RecipeIds(hand, types);
      assert types in recipes;
    }
    forall a | exists u :: u in recipes && |u| == 5 && Noodles in u && a == Cook(RecipeIds(hand, u))
      ensures IsRecipeCook(hand, a)
    {
      var u :| u in recipes && |u| == 5 && Noodles in u && a == Cook(RecipeIds(hand, u));
      assert IsRecipe(TypeSet(hand), u);
    }
  }

  /** The distinct types listed for a hand are the hand's type set. */
  lemma TypesOfElements(hand: seq<Card>)
    ensures Elements(TypesOf(hand)) == TypeSet(hand)
  {
    var ts := TypesOf(hand);
    forall t | t in TypeSet(hand) ensures t in Elements(ts) {
      var c :| c in hand && c.cardType == t;
      var i :| 0 <= i < |hand| && hand[i] == c;
      assert ts[i] == t;
    }
  }

  // ---------------------------------------------------------------------
  // The action list
  // ---------------------------------------------------------------------

  /**
   * The actions available to the current player: in the action phase the
   * discards, then the cooks, then Pass; in the discard phase one Discard
   * per card when more than three are held, otherwise only Pass.
   */
  function ComputeAvailableActions(s: State): (r: seq<Action>)
    requires Valid(s)
    ensures s.phase == ActionPhase ==> |r| >= 1 && r[|r| - 1] == Pass
    ensures s.phase == DiscardPhase && |s.hands[s.currentPlayer]| > 3 ==>
      |r| == |s.hands[s.currentPlayer]| && Pass !in r &&
      forall i :: 0 <= i < |r| ==> r[i] == Discard(s.hands[s.currentPlayer][i].id)
    ensures s.phase == DiscardPhase && |s.hands[s.currentPlayer]| <= 3 ==> r == [Pass]
  {
    var hand := s.hands[s.currentPlayer];
    match s.phase
    case ActionPhase =>
      var discards := ScanHand(hand, s.actionsChosen, 0, []);
      CookOptions(discards, hand, s.actionsChosen) + [Pass]
    case DiscardPhase =>
      if |hand| > 3 then seq(|hand|, i requires 0 <= i < |hand| => Discard(hand[i].id))
      else [Pass]
  }

  // ---------------------------------------------------------------------
  // Properties of the action list
  // ---------------------------------------------------------------------

  /** The discards of the action phase are the reference offers. */
  lemma ActionPhaseShape(s: State)
    requires Valid(s) && s.phase == ActionPhase
    ensures var hand := s.hands[s.currentPlayer];
      var discards := Offered(hand, s.actionsChosen, 0);
      && ComputeAvailableActions(s) == CookOptions(discards, hand, s.actionsChosen) + [Pass]
      && (forall a :: a in discards ==> a.DiscardProtein? || a.DiscardIngredient?)
  {
    var hand := s.hands[s.currentPlayer];
    ScanMatchesReference(hand, s.actionsChosen, 0, []);
  }

  /**
   * A protein discard naming `id` is offered exactly in the action phase,
   * while that category is unused, when a protein card in hand carries `id`.
   */
  lemma ProteinDiscardOffered(s: State, id: int)
    requires Valid(s)
    ensures DiscardProtein(id) in ComputeAvailableActions(s) <==>
      && s.phase == ActionPhase && DiscardProteinUsed !in s.actionsChosen
      && exists m :: 0 <= m < |s.hands[s.currentPlayer]| &&
           IsProtein(s.hands[s.currentPlayer][m].cardType) && s.hands[s.currentPlayer][m].id == id
  {
    var hand := s.hands[s.currentPlayer];
    if s.phase == ActionPhase {
      ActionPhaseShape(s);
      OfferedProteins(hand, s.actionsChosen, 0, id);
    }
  }

  /**
   * An ingredient-pair discard is offered exactly in the action phase, while
   * that category is unused, when it is the pair of some non-protein type.
   */
  lemma PairDiscardOffered(s: State, a: Action)
    requires Valid(s) && a.DiscardIngredient?
    ensures a in ComputeAvailableActions(s) <==>
      && s.phase == ActionPhase && DiscardIngredientsUsed !in s.actionsChosen
      && exists t :: IsPairOf(s.hands[s.currentPlayer], t, a)
  {
    var hand := s.hands[s.currentPlayer];
    var chosen := s.actionsChosen;
    if s.phase == ActionPhase {
      ActionPhaseShape(s);
      if a in Offered(hand, chosen, 0) {
        OfferedPairSource(hand, chosen, 0, a);
      }
      if DiscardIngredientsUsed !in chosen && exists t :: IsPairOf(hand, t, a) {
        var t :| IsPairOf(hand, t, a);
        OfferedPairComplete(hand, chosen, 0, t);
      }
    }
  }

  /** Two pair discards in the list belong to two different types. */
  lemma PairsOnePerType(s: State, x: nat, y: nat)
    requires Valid(s)
    requires x < y < |ComputeAvailableActions(s)|
    requires ComputeAvailableActions(s)[x].DiscardIngredient? && ComputeAvailableActions(s)[y].DiscardIngredient?
    ensures exists t, t' :: (t != t' &&
      IsPairOf(s.hands[s.currentPlayer], t, ComputeAvailableActions(s)[x]) &&
      IsPairOf(s.hands[s.currentPlayer], t', ComputeAvailableActions(s)[y]))
  {
    var hand := s.hands[s.currentPlayer];
    var chosen := s.actionsChosen;
    ActionPhaseShape(s);
    var discards := Offered(hand, chosen, 0);
    var r := ComputeAvailableActions(s);
    assert r[..|r| - 1] == CookOptions(discards, hand, chosen);
    assert y < |discards|;
    assert r[x] == discards[x] && r[y] == discards[y];
    OfferedPairsOnePerType(hand, chosen, 0, x, y);
  }

  /**
   * A Cook is offered exactly in the action phase, while Cook is unused and
   * Noodles is in hand, when it cooks a recipe of the hand.
   */
  lemma CookOffered(s: State, a: Action)
    requires Valid(s) && a.Cook?
    ensures a in ComputeAvailableActions(s) <==>
      && s.phase == ActionPhase && CookUsed !in s.actionsChosen
      && Noodles in TypeSet(s.hands[s.currentPlayer])
      && IsRecipeCook(s.hands[s.currentPlayer], a)
  {
    if s.phase == ActionPhase {
      ActionPhaseShape(s);
    }
  }

  /** No Cook is listed twice. */
  lemma CooksNotRepeated(s: State)
    requires Valid(s)
    ensures NoRepeatedCooks(ComputeAvailableActions(s))
  {
    if s.phase == ActionPhase {
      var hand := s.hands[s.currentPlayer];
      ActionPhaseShape(s);
      var discards := Offered(hand, s.actionsChosen, 0);
      var cooks := CookOptions(discards, hand, s.actionsChosen);
      forall x | 0 <= x < |discards| ensures !discards[x].Cook? {
        assert discards[x] in discards;
      }
      assert NoRepeatedCooks(cooks);
    }
  }

  /** With three to five distinct types, Noodles among them, and Cook unused, exactly one Cook is listed: all the types. */
  lemma OneCookForFewTypes(s: State)
    requires Valid(s) && s.phase == ActionPhase && CookUsed !in s.actionsChosen
    requires Noodles in TypeSet(s.hands[s.currentPlayer])
    requires 3 <= |TypeSet(s.hands[s.currentPlayer])| <= 5
    ensures var r := ComputeAvailableActions(s);
      var hand := s.hands[s.currentPlayer];
      && Cook(RecipeIds(hand, TypeSet(hand))) in r
      && forall x, y :: 0 <= x < |r| && 0 <= y < |r| && r[x].Cook? && r[y].Cook? ==> x == y
  {
    var r := ComputeAvailableActions(s);
    var hand := s.hands[s.currentPlayer];
    var cook := Cook(RecipeIds(hand, TypeSet(hand)));
    assert cook in r by {
      assert IsRecipe(TypeSet(hand), TypeSet(hand));
      CookOffered(s, cook);
    }
    assert NoRepeatedCooks(r) by {
      CooksNotRepeated(s);
    }
    assert forall x :: 0 <= x < |r| && r[x].Cook? ==> r[x] == cook by {
      forall x | 0 <= x < |r| && r[x].Cook? ensures r[x] == cook {
        assert r[x] in r;
        CookOffered(s, r[x]);
        var types :| types <= TypeSet(hand) && IsRecipe(TypeSet(hand), types) && r[x].ingredients == RecipeIds(hand, types);
        assert types == TypeSet(hand);
      }
    }
  }

  /** With fewer than three distinct types no Cook is listed. */
  lemma NoCookForFewerThanThree(s: State)
    requires Valid(s) && |TypeSet(s.hands[s.currentPlayer])| < 3
    ensures forall a :: a in ComputeAvailableActions(s) ==> !a.Cook?
  {
    forall a | a in ComputeAvailableActions(s) && a.Cook? ensures false {
      CookOffered(s, a);
    }
  }

  /**
   * With more than five distinct types, the Cooks listed are exactly those
   * of the five-type subsets that include Noodles, while Cook is unused
   * and Noodles is in hand.
   */
  lemma CooksForManyTypes(s: State, types: set<CardType>)
    requires Valid(s) && s.phase == ActionPhase && CookUsed !in s.actionsChosen
    requires |TypeSet(s.hands[s.currentPlayer])| > 5 && Noodles in TypeSet(s.hands[s.currentPlayer])
    requires types <= TypeSet(s.hands[s.currentPlayer])
    ensures |types| == 5 && Noodles in types ==>
      Cook(RecipeIds(s.hands[s.currentPlayer], types)) in ComputeAvailableActions(s)
    ensures forall a :: a in ComputeAvailableActions(s) && a.Cook? ==>
      exists u :: u <= TypeSet(s.hands[s.currentPlayer]) && |u| == 5 && Noodles in u &&
        a.ingredients == RecipeIds(s.hands[s.currentPlayer], u)
  {
    var hand := s.hands[s.currentPlayer];
    CookOffered(s, Cook(RecipeIds(hand, types)));
    forall a | a in ComputeAvailableActions(s) && a.Cook?
      ensures exists u :: u <= TypeSet(hand) && |u| == 5 && Noodles in u && a.ingredients == RecipeIds(hand, u)
    {
      CookOffered(s, a);
    }
  }

  /** Different types have different first cards, hence different identifiers when identifiers are unique. */
  lemma FirstIdsDiffer(hand: seq<Card>, t: CardType, u: CardType)
    requires UniqueIds(hand) && t in TypeSet(hand) && u in TypeSet(hand) && t != u
    ensures FirstOfType(hand, t).id != FirstOfType(hand, u).id
  {
    var f := IndexOfType(hand, t).value;
    var g := IndexOfType(hand, u).value;
    assert f != g;
  }

  /** With unique identifiers a recipe names one card per type. */
  lemma {:induction false} RecipeIdsCount(hand: seq<Card>, types: set<CardType>)
    requires UniqueIds(hand) && types <= TypeSet(hand)
    ensures |RecipeIds(hand, types)| == |types|
    decreases types
  {
    if types != {} {
      var t :| t in types;
      var rest := types - {t};
      SplitOff(types, t);
      var id := FirstOfType(hand, t).id;
      var ids := RecipeIds(hand, rest);
      assert |ids| == |rest| by {
        RecipeIdsCount(hand, rest);
      }
      RecipeIdsSplit(hand, rest, t);
      assert id !in ids by {
        forall u | u in rest ensures FirstOfType(hand, u).id != id {
          FirstIdsDiffer(hand, u, t);
        }
      }
      AddFresh(ids, id);
    }
  }

  /** A recipe with one more type names the first card of that type as well. */
  lemma RecipeIdsSplit(hand: seq<Card>, rest: set<CardType>, t: CardType)
    requires rest + {t} <= TypeSet(hand)
    ensures RecipeIds(hand, rest + {t}) == RecipeIds(hand, rest) + {FirstOfType(hand, t).id}
  {
  }

  /** Taking one element out of a set and putting it back gives the set, one element larger. */
  lemma SplitOff<T>(s: set<T>, x: T)
    requires x in s
    ensures s == (s - {x}) + {x} && |s| == |s - {x}| + 1
  {
  }

  /** Adding a new element to a finite set grows it by one. */
  lemma AddFresh<T>(a: set<T>, x: T)
    requires x !in a
    ensures |a + {x}| == |a| + 1
  {
  }

  /** With unique identifiers the cards a recipe names are the first card of each of its types. */
  lemma RecipeCards(hand: seq<Card>, types: set<CardType>, c: Card)
    requires UniqueIds(hand) && types <= TypeSet(hand) && c in hand
    ensures c.id in RecipeIds(hand, types) <==> c.cardType in types && c == FirstOfType(hand, c.cardType)
  {
    if c.id in RecipeIds(hand, types) {
      var t :| t in types && FirstOfType(hand, t).id == c.id;
      var i :| 0 <= i < |hand| && hand[i] == c;
      var f := IndexOfType(hand, t).value;
      assert hand[f].id == hand[i].id;
      assert i == f;
    }
  }
}
