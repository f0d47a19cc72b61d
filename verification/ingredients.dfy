/**
 * A card instance: a component identifier together with its immutable card
 * type. Hands and piles hold these; actions name them by identifier, since a
 * hand may hold several cards of one type.
 */
module Ingredients {
  import opened Cards

  datatype Card = Card(id: int, cardType: CardType) {

    /** The type the card was built with. */
    function GetCardType(): (r: CardType)
      ensures this == Card(id, r)
    {
      cardType
    }

    /** The deep copy keeps both the identifier and the type. */
    function Copy(): (r: Card)
      ensures r.id == id && r.GetCardType() == GetCardType()
    {
      Card(id, cardType)
    }

    /**
     * Card equality: the component part (its identifier) and the card type
     * must both agree.
     */
    predicate Equals(other: Card): (r: bool)
      ensures r <==> this == other
    {
      id == other.id && cardType == other.cardType
    }

    /** The printed form is the type's constant name; the identifier plays no part. */
    function ToString(): (r: string)
      ensures forall u :: ConstantName(u) == r ==> u == cardType
    {
      ConstantName(cardType)
    }
  }

  /** Building a card with an explicit identifier. */
  function NewCard(t: CardType, componentId: int): (r: Card)
    ensures r.GetCardType() == t && r.id == componentId
  {
    Card(componentId, t)
  }

  /** Two cards of one type print the same, whatever their identifiers. */
  lemma ToStringIgnoresId(a: Card, b: Card)
    requires a.cardType == b.cardType
    ensures a.ToString() == b.ToString()
  {
  }

  /** `Equals` is exactly value equality, so equal cards always share their type. */
  lemma EqualsIsIdentity(a: Card, b: Card)
    ensures a.Equals(b) <==> a == b
    ensures a.Equals(b) ==> a.GetCardType() == b.GetCardType()
  {
  }
}
