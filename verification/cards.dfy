/**
 * The card catalog of Stir Fry: eight immutable card types, each with base
 * points, the number of cards drawn when it is discarded as a protein, its
 * quantity in the deck and its list of synergy rules.
 */
module Cards {

  datatype CardType = Shrimp | Pork | Chicken | Ginger | GreenOnion | SoySauce | Mushrooms | Noodles

  /** A synergy: when its conditions hold, the card scores `points` instead of its base. */
  datatype Synergy = Synergy(conditions: seq<CardType>, points: int)

  /** The card types in declaration order; every type occurs exactly once. */
  function AllTypes(): (r: seq<CardType>)
    ensures |r| == 8
    ensures forall i, j :: 0 <= i < j < |r| ==> r[i] != r[j]
  {
    [Shrimp, Pork, Chicken, Ginger, GreenOnion, SoySauce, Mushrooms, Noodles]
  }

  /** Every card type is listed in the catalog order. */
  lemma AllTypesComplete(t: CardType)
    ensures t in AllTypes()
  {
    var all := AllTypes();
    match t
    case Shrimp => assert all[0] == t;
    case Pork => assert all[1] == t;
    case Chicken => assert all[2] == t;
    case Ginger => assert all[3] == t;
    case GreenOnion => assert all[4] == t;
    case SoySauce => assert all[5] == t;
    case Mushrooms => assert all[6] == t;
    case Noodles => assert all[7] == t;
  }

  /** The identifier of the enum constant, which is what the type's `toString` yields. */
  function ConstantName(t: CardType): string
  {
    match t
    case Shrimp => "SHRIMP"
    case Pork => "PORK"
    case Chicken => "CHICKEN"
    case Ginger => "GINGER"
    case GreenOnion => "GREEN_ONION"
    case SoySauce => "SOY_SAUCE"
    case Mushrooms => "MUSHROOMS"
    case Noodles => "NOODLES"
  }

  /**
   * The display name held in the catalog (`getName`). It is never empty and
   * never the constant name that `toString` yields.
   */
  function DisplayName(t: CardType): (r: string)
    ensures |r| > 0 && r != ConstantName(t)
  {
    match t
    case Shrimp => "Shrimp"
    case Pork => "Pork"
    case Chicken => "Chicken"
    case Ginger => "Ginger"
    case GreenOnion => "GreenOnion"
    case SoySauce => "SoySauce"
    case Mushrooms => "Mushrooms"
    case Noodles => "Noodles"
  }

  /** Different types have different display names. */
  lemma DisplayNameIdentifiesType(t: CardType, u: CardType)
    ensures DisplayName(t) == DisplayName(u) <==> t == u
  {
  }

  /** The three protein types, the ones the DiscardProtein action accepts. */
  predicate IsProtein(t: CardType)
  {
    t == Chicken || t == Shrimp || t == Pork
  }

  /** Points a card scores when none of its synergies applies. */
  function BasePoints(t: CardType): (r: int)
    ensures r >= 1
  {
    match t
    case Shrimp => 6
    case Pork => 5
    case Chicken => 3
    case Ginger => 2
    case GreenOnion => 3
    case SoySauce => 1
    case Mushrooms => 2
    case Noodles => 1
  }

  /** Cards drawn after discarding a card of this type: positive exactly for the proteins. */
  function DiscardCardDraws(t: CardType): (r: nat)
    ensures r > 0 <==> IsProtein(t)
    ensures t == Shrimp ==> r == 4
    ensures t == Pork ==> r == 3
    ensures t == Chicken ==> r == 2
  {
    match t
    case Shrimp => 4
    case Pork => 3
    case Chicken => 2
    case _ => 0
  }

  /** Number of copies of the type in a fresh deck. */
  function Quantity(t: CardType): (r: nat)
    ensures r >= 1
  {
    match t
    case Shrimp => 1
    case Pork => 1
    case Chicken => 1
    case Ginger => 2
    case GreenOnion => 2
    case SoySauce => 3
    case Mushrooms => 3
    case Noodles => 5
  }

  /**
   * The static synergy table. Only Noodles has none; no synergy names its
   * own type as a condition; each has one or two conditions and pays more
   * than the owning type's base points.
   */
  function Synergies(t: CardType): (r: seq<Synergy>)
    ensures r == [] <==> t == Noodles
    ensures forall i :: 0 <= i < |r| ==> 1 <= |r[i].conditions| <= 2
    ensures forall i :: 0 <= i < |r| ==> t !in r[i].conditions
    ensures forall i :: 0 <= i < |r| ==> r[i].points > BasePoints(t)
  {
    match t
    case Shrimp => [Synergy([Ginger], 9), Synergy([SoySauce, Ginger], 11)]
    case Pork => [Synergy([Mushrooms], 8)]
    case Chicken => [Synergy([GreenOnion], 5), Synergy([Ginger, GreenOnion], 7)]
    case Ginger => [Synergy([Pork], 4)]
    case GreenOnion => [Synergy([Shrimp], 5)]
    case SoySauce => [Synergy([GreenOnion], 2), Synergy([Ginger], 3)]
    case Mushrooms => [Synergy([Chicken], 3)]
    case Noodles => []
  }

  /** Sum of the quantities of a list of types. */
  function TotalQuantity(ts: seq<CardType>): nat
  {
    if ts == [] then 0 else Quantity(ts[0]) + TotalQuantity(ts[1..])
  }

  /** The quantities of the eight types add up to an 18-card deck. */
  lemma DeckSizeIsEighteen()
    ensures TotalQuantity(AllTypes()) == 18
  {
  }
}
