/**
 * Sets of card types: the recursive powerset the rules engine builds when a
 * hand holds more than five distinct types, and a fixed listing of any set
 * of type sets, standing in for the unspecified iteration order of a hash
 * set.
 */
module Subsets {
  import opened Cards

  /**
   * The powerset as the rules engine computes it: the empty set has only
   * itself as subset; otherwise the subsets of every one-smaller set,
   * together with the set itself.
   */
  function IngredientSubsets(s: set<CardType>): (r: set<set<CardType>>)
    ensures s in r && {} in r
    ensures forall u :: u in r ==> u <= s
    decreases s
  {
    if s == {} then {{}}
    else
      var r := (set item, u | item in s && u in IngredientSubsets(s - {item}) :: u) + {s};
      assert {} in r by {
        var item :| item in s;
        assert {} in IngredientSubsets(s - {item});
      }
      r
  }

  /** The recursion computes exactly the powerset. */
  lemma {:induction false} PowersetExact(s: set<CardType>, u: set<CardType>)
    ensures u in IngredientSubsets(s) <==> u <= s
    decreases s
  {
    if s == {} {
      assert IngredientSubsets(s) == {{}};
      if u <= s {
        assert u == {};
      }
    } else {
      if u in IngredientSubsets(s) && u != s {
        var item :| item in s && u in IngredientSubsets(s - {item});
        PowersetExact(s - {item}, u);
      }
      if u <= s && u != s {
        assert !(s <= u);
        var item :| item in s && item !in u;
        PowersetExact(s - {item}, u);
      }
    }
  }

  /** The whole set and the empty set are always among its subsets. */
  lemma PowersetHasEnds(s: set<CardType>)
    ensures s in IngredientSubsets(s) && {} in IngredientSubsets(s)
  {
    PowersetExact(s, s);
    PowersetExact(s, {});
  }

  /** The set of the types listed in `xs`. */
  function Elements(xs: seq<CardType>): set<CardType>
  {
    set x | x in xs
  }

  /**
   * Every subset of the types in `xs`: those without the first type, then
   * the same again with it added.
   */
  function SubsetSeq(xs: seq<CardType>): (r: seq<set<CardType>>)
    ensures |r| >= 1
  {
    if xs == [] then [{}]
    else
      var rest := SubsetSeq(xs[1..]);
      rest + seq(|rest|, i requires 0 <= i < |rest| => rest[i] + {xs[0]})
  }

  /** The listing holds exactly the subsets of the listed types. */
  lemma {:induction false} SubsetSeqExact(xs: seq<CardType>, u: set<CardType>)
    ensures u in SubsetSeq(xs) <==> u <= Elements(xs)
    decreases |xs|
  {
    if xs == [] {
      if u <= Elements(xs) {
        assert u == {};
      }
    } else {
      var rest := SubsetSeq(xs[1..]);
      var added := seq(|rest|, i requires 0 <= i < |rest| => rest[i] + {xs[0]});
      assert SubsetSeq(xs) == rest + added;
      assert Elements(xs) == Elements(xs[1..]) + {xs[0]} by {
        assert xs == [xs[0]] + xs[1..];
      }
      if u in SubsetSeq(xs) {
        if u in rest {
          SubsetSeqExact(xs[1..], u);
        } else {
          var i :| 0 <= i < |added| && added[i] == u;
          SubsetSeqExact(xs[1..], rest[i]);
        }
      }
      if u <= Elements(xs) {
        var v := u - {xs[0]};
        SubsetSeqExact(xs[1..], v);
        var i :| 0 <= i < |rest| && rest[i] == v;
        if xs[0] in u {
          assert added[i] == u;
        } else {
          assert v == u;
        }
      }
    }
  }

  /** No entry of `us` occurs twice. */
  predicate Distinct<T(==)>(us: seq<T>)
  {
    forall i, j :: 0 <= i < j < |us| ==> us[i] != us[j]
  }

  /** The listing of subsets repeats none, provided the listed types repeat none. */
  lemma {:induction false} SubsetSeqDistinct(xs: seq<CardType>)
    requires Distinct(xs)
    ensures Distinct(SubsetSeq(xs))
    decreases |xs|
  {
    if xs != [] {
      var x := xs[0];
      var rest := SubsetSeq(xs[1..]);
      var added := seq(|rest|, i requires 0 <= i < |rest| => rest[i] + {x});
      assert SubsetSeq(xs) == rest + added;
      SubsetSeqDistinct(xs[1..]);
      forall i | 0 <= i < |rest| ensures x !in rest[i] {
        SubsetSeqExact(xs[1..], rest[i]);
        assert x !in Elements(xs[1..]);
      }
      forall i, j | 0 <= i < j < |added| ensures added[i] != added[j] {
        assert added[i] - {x} == rest[i];
        assert added[j] - {x} == rest[j];
      }
      forall i, j | 0 <= i < |rest| && 0 <= j < |added| ensures rest[i] != added[j] {
        assert x in added[j];
      }
      ConcatDistinct(rest, added);
    }
  }

  /** Two lists without repeats and without common entries concatenate to one without repeats. */
  lemma ConcatDistinct<T>(a: seq<T>, b: seq<T>)
    requires Distinct(a) && Distinct(b)
    requires forall i, j :: 0 <= i < |a| && 0 <= j < |b| ==> a[i] != b[j]
    ensures Distinct(a + b)
  {
    forall i, j | 0 <= i < j < |a + b| ensures (a + b)[i] != (a + b)[j] {
      if j < |a| {
      } else if i < |a| {
        assert (a + b)[j] == b[j - |a|];
      } else {
        assert (a + b)[i] == b[i - |a|] && (a + b)[j] == b[j - |a|];
      }
    }
  }

  /** Keeps, in order, the entries of `us` that belong to `chosen`. */
  function Keep(us: seq<set<CardType>>, chosen: set<set<CardType>>): (r: seq<set<CardType>>)
    ensures forall u :: u in r <==> u in us && u in chosen
    ensures Distinct(us) ==> Distinct(r)
  {
    if us == [] then []
    else
      var rest := Keep(us[1..], chosen);
      assert Distinct(us) ==> Distinct(rest) by {
        if Distinct(us) {
          assert Distinct(us[1..]) by {
            forall i, j | 0 <= i < j < |us[1..]| ensures us[1..][i] != us[1..][j] {
              assert us[1..][i] == us[i + 1] && us[1..][j] == us[j + 1];
            }
          }
        }
      }
      assert Distinct(us) ==> us[0] !in rest;
      (if us[0] in chosen then [us[0]] else []) + rest
  }

  /**
   * A listing of a set of type sets: its members in the order of a fixed
   * enumeration of all 256 type sets.
   */
  function Enumerate(chosen: set<set<CardType>>): (r: seq<set<CardType>>)
    ensures forall u :: u in r <==> u in chosen
    ensures Distinct(r)
  {
    var all := SubsetSeq(AllTypes());
    SubsetSeqDistinct(AllTypes());
    forall u | u in chosen ensures u in all {
      forall t | t in u ensures t in Elements(AllTypes()) {
        AllTypesComplete(t);
      }
      SubsetSeqExact(AllTypes(), u);
    }
    Keep(all, chosen)
  }
}
