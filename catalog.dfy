/**
 * The static reference tables of the pricing service and the product-type
 * lookup that reads them. The tables are constants: nothing writes them
 * after they are built.
 */
module Catalog {
  import opened Text

  /** One entry of the product database, keyed by a lower-case product word. */
  datatype ProductType = ProductType(
    key: string,
    categories: seq<string>,
    baseDepreciation: real,
    marketFactor: real)

  /** The product database, in the order its entries are scanned. */
  const ProductDatabase: seq<ProductType> := [
    ProductType("iphone", ["iPhone 14", "iPhone 13", "iPhone 12", "iPhone SE"], 0.15, 0.85),
    ProductType("macbook", ["MacBook Pro", "MacBook Air", "MacBook"], 0.12, 0.80),
    ProductType("laptop", ["Dell", "HP", "Lenovo", "ASUS"], 0.15, 0.75),
    ProductType("tablet", ["iPad", "Samsung Tab", "iPad Pro"], 0.14, 0.78),
    ProductType("camera", ["DSLR", "Mirrorless", "Action Camera"], 0.10, 0.82),
    ProductType("smartwatch", ["Apple Watch", "Samsung Watch", "Fitbit"], 0.18, 0.72),
    ProductType("headphones", ["AirPods", "Sony", "Bose", "JBL"], 0.20, 0.70),
    ProductType("gaming", ["PlayStation", "Xbox", "Nintendo"], 0.16, 0.76)
  ]

  /** The yearly depreciation used when no product word matches. */
  const DefaultDepreciation: real := 0.15

  /** The fraction of the original price kept for each condition grade. */
  const ConditionMultipliers: map<string, real> := map[
    "New" := 0.95,
    "Like New" := 0.85,
    "Good" := 0.70,
    "Fair" := 0.50,
    "Poor" := 0.30
  ]

  /** The multiplier used for a condition grade missing from the table. */
  const DefaultConditionMultiplier: real := 0.70

  /** Entry `i` is the first entry of `table` whose key occurs in `s`. */
  ghost predicate IsFirstMatch(table: seq<ProductType>, s: string, i: int)
  {
    && 0 <= i < |table|
    && Occurs(table[i].key, s)
    && forall j :: 0 <= j < i ==> !Occurs(table[j].key, s)
  }

  /** No key of `table` occurs in `s`. */
  ghost predicate NoMatch(table: seq<ProductType>, s: string)
  {
    forall j :: 0 <= j < |table| ==> !Occurs(table[j].key, s)
  }

  /**
   * The scan over the database: the depreciation of the first entry whose
   * key occurs in `s`, or the default when none does.
   */
  function ScanDepreciation(table: seq<ProductType>, s: string): (d: real)
    ensures NoMatch(table, s) ==> d == DefaultDepreciation
    ensures forall i :: IsFirstMatch(table, s, i) ==> d == table[i].baseDepreciation
    ensures d == DefaultDepreciation || exists i :: 0 <= i < |table| && d == table[i].baseDepreciation
  {
    if table == [] then
      DefaultDepreciation
    else if Contains(table[0].key, s) then
      table[0].baseDepreciation
    else
      var d := ScanDepreciation(table[1..], s);
      assert forall i :: IsFirstMatch(table, s, i) ==> IsFirstMatch(table[1..], s, i - 1);
      assert NoMatch(table, s) ==> NoMatch(table[1..], s);
      assert forall i :: 0 <= i < |table| - 1 ==> table[1..][i] == table[i + 1];
      d
  }

  /** Every yearly depreciation in `table` lies between 10% and 20%. */
  predicate RatesInRange(table: seq<ProductType>)
  {
    forall i :: 0 <= i < |table| ==> 0.10 <= table[i].baseDepreciation <= 0.20
  }

  /** The yearly depreciation of a product, found from its lower-cased name. */
  function ProductDepreciation(productName: string): (d: real)
    ensures 0.10 <= d <= 0.20
  {
    assert RatesInRange(ProductDatabase);
    ScanDepreciation(ProductDatabase, Lower(productName))
  }

  /** The eight keys of the product database are pairwise different. */
  lemma DatabaseKeysDistinct()
    ensures |ProductDatabase| == 8
    ensures forall i, j :: 0 <= i < j < |ProductDatabase| ==> ProductDatabase[i].key != ProductDatabase[j].key
  {
    // the eight keys already differ in their first letters
    assert forall k :: 0 <= k < |ProductDatabase| ==> ProductDatabase[k].key[0] == "imltcshg"[k];
  }

  /**
   * Every key is a non-empty lower-case word without whitespace, so it can
   * occur in a lower-cased name, and every yearly rate lies between 10% and 20%.
   */
  lemma DatabaseWellFormed()
    ensures KeysAreWords(ProductDatabase)
    ensures forall j :: 0 <= j < |ProductDatabase| ==> Lower(ProductDatabase[j].key) == ProductDatabase[j].key
    ensures RatesInRange(ProductDatabase)
  {
    forall j | 0 <= j < |ProductDatabase|
      ensures ProductDatabase[j].key != [] && SpaceFree(ProductDatabase[j].key)
      ensures Lower(ProductDatabase[j].key) == ProductDatabase[j].key
    {
      var k := ProductDatabase[j].key;
      assert forall i :: 0 <= i < |k| ==> 'a' <= k[i] <= 'z';
    }
  }

  /**
   * The five condition grades, each keeping strictly less of the price than
   * the grade above it, from 95% for "New" down to 30% for "Poor".
   */
  lemma ConditionGradesOrdered()
    ensures ConditionMultipliers.Keys == {"New", "Like New", "Good", "Fair", "Poor"}
    ensures forall c :: c in ConditionMultipliers ==> 0.30 <= ConditionMultipliers[c] <= 0.95
    ensures ConditionMultipliers["Poor"] < ConditionMultipliers["Fair"] < ConditionMultipliers["Good"]
      < ConditionMultipliers["Like New"] < ConditionMultipliers["New"]
    ensures DefaultConditionMultiplier == ConditionMultipliers["Good"]
  {
  }

  /** The multiplier for a condition grade, or the default for an unknown grade. */
  function ConditionMultiplier(condition: string): (m: real)
    ensures 0.30 <= m <= 0.95
    ensures condition !in ConditionMultipliers ==> m == DefaultConditionMultiplier
  {
    if condition in ConditionMultipliers then ConditionMultipliers[condition] else DefaultConditionMultiplier
  }

  /** "Apple iPhone 13 Pro" is found through the first entry, "iphone", and priced as an iPhone. */
  lemma IphoneDepreciation()
    ensures IsFirstMatch(ProductDatabase, Lower("Apple iPhone 13 Pro"), 0)
    ensures ProductDepreciation("Apple iPhone 13 Pro") == 0.15
  {
    var s := Lower("Apple iPhone 13 Pro");
    assert s == "apple iphone 13 pro";
    assert s == "apple " + "iphone" + " 13 pro";
    assert s[6..12] == "iphone";
    assert OccursAt("iphone", s, 6);
    assert IsFirstMatch(ProductDatabase, s, 0);
  }

  /** Lower-casing the sample name "MacBook laptop". */
  lemma LowerMacbookLaptop()
    ensures Lower("MacBook laptop") == "macbook laptop"
  {
    var s := Lower("MacBook laptop");
    assert |s| == 14;
    assert s[0] == 'm' && s[3] == 'b';
  }

  /** "macbook laptop" holds the word "macbook" but not "iphone". */
  lemma MacbookNotIphone()
    ensures Occurs("macbook", "macbook laptop") && !Occurs("iphone", "macbook laptop")
  {
    var s := "macbook laptop";
    assert s[0..7] == "macbook";
    assert OccursAt("macbook", s, 0);
    // there is no letter i, so "iphone" cannot start anywhere
    FirstCharAbsent("iphone", s);
  }

  /** "MacBook laptop" matches both "macbook" and "laptop"; the earlier entry wins. */
  lemma MacbookBeforeLaptop()
    ensures ProductDepreciation("MacBook laptop") == 0.12
  {
    LowerMacbookLaptop();
    MacbookNotIphone();
    assert IsFirstMatch(ProductDatabase, "macbook laptop", 1);
  }

  /** A name that contains no product word falls back to the default depreciation. */
  lemma UnknownProductDefault(productName: string)
    requires NoMatch(ProductDatabase, Lower(productName))
    ensures ProductDepreciation(productName) == DefaultDepreciation
  {
  }

  /** "Roku Box" contains no product word, so it gets the default. */
  lemma RokuBoxDefault()
    ensures NoMatch(ProductDatabase, Lower("Roku Box"))
    ensures ProductDepreciation("Roku Box") == DefaultDepreciation
  {
    var s := Lower("Roku Box");
    assert s == "roku box";
    forall j | 0 <= j < |ProductDatabase|
      ensures !Occurs(ProductDatabase[j].key, s)
    {
      FirstCharAbsent(ProductDatabase[j].key, s);
    }
    UnknownProductDefault("Roku Box");
  }

  /** The scan sees a text only through which keys occur in it. */
  lemma {:induction false} ScanSeesOnlyOccurrences(table: seq<ProductType>, s: string, t: string)
    requires forall j :: 0 <= j < |table| ==> (Occurs(table[j].key, s) <==> Occurs(table[j].key, t))
    ensures ScanDepreciation(table, s) == ScanDepreciation(table, t)
  {
    if table != [] {
      assert Occurs(table[0].key, s) <==> Occurs(table[0].key, t);
      ScanSeesOnlyOccurrences(table[1..], s, t);
    }
  }

  /** Every key of the database is a non-empty word without whitespace. */
  predicate KeysAreWords(table: seq<ProductType>)
  {
    forall j :: 0 <= j < |table| ==> table[j].key != [] && SpaceFree(table[j].key)
  }

  /**
   * The handler strips the product name before the lookup; stripping never
   * changes the depreciation found.
   */
  lemma StripKeepsDepreciation(productName: string)
    ensures ProductDepreciation(Strip(productName)) == ProductDepreciation(productName)
  {
    DatabaseWellFormed();
    forall j | 0 <= j < |ProductDatabase|
      ensures Occurs(ProductDatabase[j].key, Lower(Strip(productName)))
          <==> Occurs(ProductDatabase[j].key, Lower(productName))
    {
      StripKeepsOccurrence(ProductDatabase[j].key, productName);
    }
    ScanSeesOnlyOccurrences(ProductDatabase, Lower(Strip(productName)), Lower(productName));
  }

  /** Names that differ only in the ASCII case of their letters get the same depreciation. */
  lemma LookupIgnoresCase(s: string, t: string)
    requires SameUpToCase(s, t)
    ensures ProductDepreciation(s) == ProductDepreciation(t)
  {
    LowerIgnoresCase(s, t);
  }
}
