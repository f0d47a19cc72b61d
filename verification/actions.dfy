/** The actions a player can take, named by card identifiers. */
module Actions {

  datatype Action =
    | Cook(ingredients: set<int>)
    | DiscardIngredient(first: int, second: int)
    | DiscardProtein(card: int)
    | Discard(card: int)
    | Pass

  /**
   * Action equality as the action classes define it: a Cook compares its set
   * of ingredient identifiers, a DiscardIngredient its ordered pair of
   * identifiers, a DiscardProtein its single identifier. It coincides with
   * value equality of the datatype.
   */
  function Equals(a: Action, b: Action): (r: bool)
    ensures r <==> a == b
  {
    match a
    case Cook(ids) => b.Cook? && b.ingredients == ids
    case DiscardIngredient(x, y) => b.DiscardIngredient? && [b.first, b.second] == [x, y]
    case DiscardProtein(c) => b.DiscardProtein? && b.card == c
    case Discard(c) => b.Discard? && b.card == c
    case Pass => b.Pass?
  }

  /** The pair of a DiscardIngredient is ordered: swapping two different cards gives a different action. */
  lemma DiscardIngredientIsOrdered(x: int, y: int)
    ensures Equals(DiscardIngredient(x, y), DiscardIngredient(y, x)) <==> x == y
  {
  }

  /** Two Cooks are equal exactly when their ingredient sets are, however they were built. */
  lemma CookEqualityIsSetEquality(a: set<int>, b: set<int>)
    ensures Equals(Cook(a), Cook(b)) <==> a == b
  {
  }
}
