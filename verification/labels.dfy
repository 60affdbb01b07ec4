/**
  The detail-label classifier shared by both back ends: a lower-cased label is mapped
  to at most one named product field by an ordered table of substring tests, and the
  first row of the table that matches wins.
*/
module Labels {

  import opened Wrappers
  import opened Text

  /** The product fields a detail label can fill. */
  datatype Field =
    | Asin
    | Manufacturer
    | CountryOfOrigin
    | DateFirstAvailable
    | ModelNumber
    | Weight
    | Dimensions
    | IncludedComponents
    | GenericName
    | Composition

  /** The rows of the table, in the order they are tried. */
  const Precedence: seq<Field> :=
    [Asin, Manufacturer, CountryOfOrigin, DateFirstAvailable, ModelNumber,
     Weight, Dimensions, IncludedComponents, GenericName, Composition]

  /** Position of a field's row in the table. */
  function Rank(f: Field): (r: nat)
    ensures r < |Precedence| && Precedence[r] == f
  {
    match f
    case Asin => 0
    case Manufacturer => 1
    case CountryOfOrigin => 2
    case DateFirstAvailable => 3
    case ModelNumber => 4
    case Weight => 5
    case Dimensions => 6
    case IncludedComponents => 7
    case GenericName => 8
    case Composition => 9
  }

  /** The substring test of one row of the table, on an already lower-cased key. */
  predicate Matches(f: Field, key: string) {
    match f
    case Asin => Contains(key, "asin")
    case Manufacturer => Contains(key, "manufacturer")
    case CountryOfOrigin => Contains(key, "country of origin")
    case DateFirstAvailable => Contains(key, "date first available")
    case ModelNumber => Contains(key, "model") && Contains(key, "number")
    case Weight => Contains(key, "weight")
    case Dimensions => Contains(key, "dimension")
    case IncludedComponents => Contains(key, "included") && Contains(key, "component")
    case GenericName => Contains(key, "generic name")
    case Composition => Contains(key, "composition") || Contains(key, "ingredients")
  }

  /** The `switch` of Go's `extractProductDetails`, case by case in source order. */
  function Classify(key: string): Option<Field> {
    if Contains(key, "asin") then Some(Asin)
    else if Contains(key, "manufacturer") then Some(Manufacturer)
    else if Contains(key, "country of origin") then Some(CountryOfOrigin)
    else if Contains(key, "date first available") then Some(DateFirstAvailable)
    else if Contains(key, "model") && Contains(key, "number") then Some(ModelNumber)
    else if Contains(key, "weight") then Some(Weight)
    else if Contains(key, "dimension") then Some(Dimensions)
    else if Contains(key, "included") && Contains(key, "component") then Some(IncludedComponents)
    else if Contains(key, "generic name") then Some(GenericName)
    else if Contains(key, "composition") || Contains(key, "ingredients") then Some(Composition)
    else None
  }

  /**
    The `if`/`elif` chain of Python's table loop. It differs from the Go switch only in
    its weight test, written `"item weight" in key or "weight" in key`.
  */
  function ClassifyPy(key: string): Option<Field> {
    if Contains(key, "asin") then Some(Asin)
    else if Contains(key, "manufacturer") then Some(Manufacturer)
    else if Contains(key, "country of origin") then Some(CountryOfOrigin)
    else if Contains(key, "date first available") then Some(DateFirstAvailable)
    else if Contains(key, "model") && Contains(key, "number") then Some(ModelNumber)
    else if Contains(key, "item weight") || Contains(key, "weight") then Some(Weight)
    else if Contains(key, "dimension") then Some(Dimensions)
    else if Contains(key, "included") && Contains(key, "component") then Some(IncludedComponents)
    else if Contains(key, "generic name") then Some(GenericName)
    else if Contains(key, "composition") || Contains(key, "ingredients") then Some(Composition)
    else None
  }

  /**
    First-match-wins, stated against the table: a key lands in field `f` exactly when
    `f`'s test matches and no test of an earlier row does; it lands nowhere exactly
    when no test matches.
  */
  lemma ClassifyFirstMatchWins(key: string, f: Field)
    ensures Classify(key) == Some(f) <==>
              Matches(f, key) && forall g: Field :: Rank(g) < Rank(f) ==> !Matches(g, key)
    ensures Classify(key).None? <==> forall g: Field :: !Matches(g, key)
  {
    if Classify(key) == Some(f) {
      forall g: Field | Rank(g) < Rank(f) ensures !Matches(g, key) {
        NoEarlierMatch(key, f, g);
      }
    }
    if forall g: Field :: Rank(g) < Rank(f) ==> !Matches(g, key) {
      EarlierRowsFail(key, Rank(f));
    }
    ClassifyNone(key);
  }

  /** The row a key is classified into comes before no row whose test matches. */
  lemma NoEarlierMatch(key: string, f: Field, g: Field)
    requires Classify(key) == Some(f) && Rank(g) < Rank(f)
    ensures !Matches(g, key)
  {
    match g
    case Asin =>
    case Manufacturer =>
    case CountryOfOrigin =>
    case DateFirstAvailable =>
    case ModelNumber =>
    case Weight =>
    case Dimensions =>
    case IncludedComponents =>
    case GenericName =>
    case Composition =>
  }

  /** A key lands nowhere exactly when no row's test matches. */
  lemma ClassifyNone(key: string)
    ensures Classify(key).None? <==> forall g: Field :: !Matches(g, key)
  {
    if forall g: Field :: !Matches(g, key) {
      EarlierRowsFail(key, |Precedence|);
    }
  }

  /** When no row before position `n` matches, each of those rows is seen to fail. */
  lemma EarlierRowsFail(key: string, n: nat)
    requires n <= |Precedence|
    requires forall g: Field :: Rank(g) < n ==> !Matches(g, key)
    ensures n > 0 ==> !Matches(Asin, key)
    ensures n > 1 ==> !Matches(Manufacturer, key)
    ensures n > 2 ==> !Matches(CountryOfOrigin, key)
    ensures n > 3 ==> !Matches(DateFirstAvailable, key)
    ensures n > 4 ==> !Matches(ModelNumber, key)
    ensures n > 5 ==> !Matches(Weight, key)
    ensures n > 6 ==> !Matches(Dimensions, key)
    ensures n > 7 ==> !Matches(IncludedComponents, key)
    ensures n > 8 ==> !Matches(GenericName, key)
    ensures n > 9 ==> !Matches(Composition, key)
  {
    assert Rank(Asin) == 0 && Rank(Manufacturer) == 1 && Rank(CountryOfOrigin) == 2;
    assert Rank(DateFirstAvailable) == 3 && Rank(ModelNumber) == 4 && Rank(Weight) == 5;
    assert Rank(Dimensions) == 6 && Rank(IncludedComponents) == 7 && Rank(GenericName) == 8;
    assert Rank(Composition) == 9;
  }

  /**
    Python's chain classifies every key as Go's switch does: a key holding
    "item weight" holds "weight", so the extra disjunct changes nothing.
  */
  lemma ClassifyPyAgreesWithGo(key: string)
    ensures ClassifyPy(key) == Classify(key)
  {
    if Contains(key, "item weight") {
      assert "item weight" == "item " + "weight";
      ContainsTail(key, "item ", "weight");
    }
  }
}
