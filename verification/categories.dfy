/** The category normaliser of the ingestion step: the configured exclusion
    list, the exclusion test over an item's candidate category paths, and the
    choice of the longest candidate path. */
module Categories {

  /** An entry of the configured exclusion list: a bare category name or a
      list of names from the root down. */
  datatype ExclusionEntry = Name(name: string) | Path(names: seq<string>)

  /** The exclusion list, identical in the library and in the older script. */
  const ExcludeCategories: seq<ExclusionEntry> := [
    Name("Apparel"),
    Name("Baby & Kids"),
    Name("Clearance"),
    Name("Computers & Tablets"),
    Name("Furniture"),
    Name("Gift Cards"),
    Name("Health & Beauty"),
    Name("Jewelry"),
    Name("Lawn & Garden"),
    Name("MobileDeli"),
    Name("Office"),
    Name("Patio & Outdoor Living"),
    Name("Toys & Video Games"),
    Name("TV & Electronics"),
    Name("Sports & Fitness"),
    Path(["Appliances", "Cooling & Heating", "Electric Fireplaces"]),
    Path(["Appliances", "Cooling & Heating", "Air Conditioners"]),
    Path(["Appliances", "Cooling & Heating", "Heaters & Radiators"]),
    Path(["Appliances", "Freezers"]),
    Path(["Appliances", "Mini Fridges & Wine Coolers"]),
    Path(["Appliances", "Small Kitchen Appliances", "Popcorn Makers & Specialty"]),
    Path(["Appliances", "Small Kitchen Appliances", "Rice Cookers, Steamers & Fryers"]),
    Path(["Appliances", "Small Kitchen Appliances", "Specialty Beverages"]),
    Path(["Appliances", "Small Kitchen Appliances", "Toasters, Ovens & Indoor Grills"]),
    Path(["Grocery, Household & Pet", "Pet"]),
    Path(["Grocery, Household & Pet", "Cleaning & Household Goods", "Laundry & Clothing Care"]),
    Path(["Grocery, Household & Pet", "Cleaning & Household Goods", "Vacuums & Floor Care"]),
    Path(["Home", "Bedding & Bath", "Mattress Pads & Toppers"]),
    Path(["Home", "Bedding & Bath", "Sheet Sets"]),
    Path(["Home", "Bedding & Bath", "Pillows"]),
    Path(["Home", "Bedding & Bath", "Comforters, Quilts & Bedspreads"]),
    Path(["Home", "Bedding & Bath", "Blankets & Throws"]),
    Path(["Home", "Bedding & Bath", "Shower Rods, Curtains & Hardware"]),
    Path(["Home", "Bedding & Bath", "Bed & Bath Aids"]),
    Path(["Home", "Bedding & Bath", "Bath Rugs"]),
    Path(["Home", "Flowers & Plants"]),
    Path(["Home", "Home Decor"]),
    Path(["Home", "Luggage"]),
    Path(["Home", "Rugs & Flooring"])
  ]

  /** The tuple an entry becomes: a bare name is a 1-tuple, a list is the
      tuple of its names. */
  function Rule(e: ExclusionEntry): seq<string> {
    match e
    case Name(n) => [n]
    case Path(p) => p
  }

  /** The set of rule tuples built from the exclusion list; no prefixes of a
      multi-name rule are added. */
  function ExclusionSet(entries: seq<ExclusionEntry>): set<seq<string>> {
    set e | e in entries :: Rule(e)
  }

  /** Some prefix `path[..n]` with `k <= n <= |path|` is a rule. */
  function PrefixExcluded(path: seq<string>, rules: set<seq<string>>, k: nat): (excluded: bool)
    requires 1 <= k
    ensures excluded <==> exists n :: k <= n <= |path| && path[..n] in rules
    decreases |path| - k
  {
    k <= |path| && (path[..k] in rules || PrefixExcluded(path, rules, k + 1))
  }

  /** `_exclude(categories, exclude_categories)`: true iff some candidate path
      has a non-empty prefix that is exactly one of the rules. */
  function Exclude(candidates: seq<seq<string>>, rules: set<seq<string>>): (excluded: bool)
    ensures excluded <==>
      exists i, n :: 0 <= i < |candidates| && 1 <= n <= |candidates[i]| && candidates[i][..n] in rules
    decreases |candidates|
  {
    if candidates == [] then false
    else
      var excludedHere := PrefixExcluded(candidates[0], rules, 1);
      var excludedLater := Exclude(candidates[1..], rules);
      assert excludedLater <==>
        exists i, n :: 1 <= i < |candidates| && 1 <= n <= |candidates[i]| && candidates[i][..n] in rules
      by {
        forall i, n | 1 <= i < |candidates| && 1 <= n <= |candidates[i]|
          ensures candidates[1..][i - 1][..n] == candidates[i][..n]
        {
        }
        if excludedLater {
          var i, n :| 0 <= i < |candidates[1..]| && 1 <= n <= |candidates[1..][i]| && candidates[1..][i][..n] in rules;
          assert candidates[i + 1][..n] in rules;
        }
      }
      excludedHere || excludedLater
  }

  /** The exclusion set holds exactly the entries' tuples: bare names become
      1-tuples, lists become tuples. */
  lemma {:induction false} ExclusionSetMembers(entries: seq<ExclusionEntry>, r: seq<string>)
    ensures r in ExclusionSet(entries) <==>
      (exists n :: Name(n) in entries && r == [n]) || Path(r) in entries
  {
    if r in ExclusionSet(entries) {
      var e :| e in entries && Rule(e) == r;
      match e
      case Name(n) => assert Name(n) in entries && r == [n];
      case Path(p) => assert Path(r) in entries;
    }
    if exists n :: Name(n) in entries && r == [n] {
      var n :| Name(n) in entries && r == [n];
      assert Rule(Name(n)) == r;
    }
    if Path(r) in entries {
      assert Rule(Path(r)) == r;
    }
  }

  /** An entry whose rule is neither ["Appliances"] nor
      ["Appliances", "Cooling & Heating"]. */
  predicate SparesApplianceAncestors(e: ExclusionEntry) {
    (e.Name? && e.name != "Appliances") || (e.Path? && (|e.names| >= 3 || (|e.names| == 2 && e.names[1] != "Cooling & Heating")))
  }

  /** No configured entry is "Appliances" or "Appliances > Cooling & Heating". */
  lemma {:induction false} ConfiguredShapes()
    ensures forall e :: e in ExcludeCategories ==> SparesApplianceAncestors(e)
  {
    var c := ExcludeCategories;
    forall i | 0 <= i < |c| ensures SparesApplianceAncestors(c[i]) {
      if i < 15 {
        assert c[i].Name?;
        assert |c[i].name| != 10 || c[i].name[0] != 'A';
      } else {
        assert c[i].Path?;
      }
    }
  }

  /** Neither "Appliances" nor "Appliances > Cooling & Heating" is a rule. */
  lemma {:induction false} ApplianceAncestorsAreNotRules(r: seq<string>)
    requires r == ["Appliances"] || r == ["Appliances", "Cooling & Heating"]
    ensures r !in ExclusionSet(ExcludeCategories)
  {
    ConfiguredShapes();
    ExclusionSetMembers(ExcludeCategories, r);
  }

  /** The configured list is not expanded into prefixes: a product filed only
      under "Appliances", or under "Appliances > Cooling & Heating", is kept. */
  lemma {:induction false} PrefixOfRuleNotExcluded(path: seq<string>)
    requires path == ["Appliances"] || path == ["Appliances", "Cooling & Heating"]
    ensures !Exclude([path], ExclusionSet(ExcludeCategories))
  {
    ApplianceAncestorsAreNotRules(["Appliances"]);
    ApplianceAncestorsAreNotRules(["Appliances", "Cooling & Heating"]);
    forall n | 1 <= n <= |path| ensures path[..n] == ["Appliances"] || path[..n] == ["Appliances", "Cooling & Heating"] {
      if n == 1 {
        assert path[..n] == ["Appliances"];
      }
    }
  }

  /** A product anywhere under "Appliances > Freezers" is dropped, whatever
      its other candidates. */
  lemma {:induction false} PathRuleMatchesAtAnyDepth(others: seq<seq<string>>, below: seq<string>)
    ensures Exclude(others + [["Appliances", "Freezers"] + below], ExclusionSet(ExcludeCategories))
  {
    var freezers := others + [["Appliances", "Freezers"] + below];
    assert Path(["Appliances", "Freezers"]) in ExcludeCategories;
    ExclusionSetMembers(ExcludeCategories, ["Appliances", "Freezers"]);
    assert freezers[|others|][..2] == ["Appliances", "Freezers"];
  }

  /** Anything under the bare name "Office" is dropped, whatever its other
      candidates. */
  lemma {:induction false} NameRuleMatchesAtAnyDepth(others: seq<seq<string>>, below: seq<string>)
    ensures Exclude(others + [["Office"] + below], ExclusionSet(ExcludeCategories))
  {
    var office := others + [["Office"] + below];
    assert Name("Office") in ExcludeCategories;
    ExclusionSetMembers(ExcludeCategories, ["Office"]);
    assert office[|others|][..1] == ["Office"];
  }

  /** An item without candidate paths, or whose only candidate is the empty
      path, is never excluded, whatever the rules. */
  lemma ExcludeWithoutNames(candidates: seq<seq<string>>, rules: set<seq<string>>)
    requires forall i :: 0 <= i < |candidates| ==> candidates[i] == []
    ensures !Exclude(candidates, rules)
  {
  }

  /** Index of the candidate `max(categories, key=len)` returns: a longest
      one, and the first among equally long ones. */
  function LongestIndex(candidates: seq<seq<string>>): (i: nat)
    requires |candidates| > 0
    ensures i < |candidates|
    ensures forall j :: 0 <= j < |candidates| ==> |candidates[j]| <= |candidates[i]|
    ensures forall j :: 0 <= j < i ==> |candidates[j]| < |candidates[i]|
    decreases |candidates|
  {
    if |candidates| == 1 then 0
    else
      var later := 1 + LongestIndex(candidates[1..]);
      assert candidates[later] == candidates[1..][later - 1];
      if |candidates[later]| > |candidates[0]| then later else 0
  }

  /** The candidate path `_insert_categories` walks. */
  function Longest(candidates: seq<seq<string>>): seq<string>
    requires |candidates| > 0
  {
    candidates[LongestIndex(candidates)]
  }
}
