/** The inventory downloader: search-API records are normalised into
    inventory items (name, category paths, url, price), and the result pages
    are requested one after another until the last record is reached. The
    HTTP request is a parameter `send` from a request payload to the page the
    API answers with. */
module Inventory {
  import opened Common
  import opened Strings

  /** The club whose price is taken out of a `clubid_price` field. */
  const ClubId := "0001"

  /** Records requested per page. */
  const PageSize: nat := 120

  /** The first entry of a visual variant's `nonvisualVariant` list. */
  datatype Variant = Variant(productUrl: string, clubidPrice: Option<string>, displayPrice: string)

  /** One entry of a record's `visualVariant` list. */
  datatype VisualVariant = VisualVariant(nonvisual: seq<Variant>)

  /** One `gbi_categories` object: its members in document order, each a
      level key and a category name that may be null. */
  type GbiCategory = seq<(string, Option<string>)>

  /** The `allMeta` object of a search record; a `gbi_categories` entry may
      be null. */
  datatype Record = Record(title: string, gbiCategories: seq<Option<GbiCategory>>, visualVariants: seq<VisualVariant>)

  /** A page of search results. */
  datatype Page = Page(records: seq<Record>, recordEnd: nat, totalRecordCount: nat)

  /** The fields of the request payload that depend on the position. */
  datatype Payload = Payload(skip: nat, pageSize: nat)

  /** Python truthiness of an optional string: present and non-empty. */
  predicate Truthy(s: Option<string>) {
    s.Some? && s.value != ""
  }

  // ---------------------------------------------------------------------
  // Pages and requests

  function EndIndex(page: Page): nat {
    page.recordEnd
  }

  /** The last page has been read when its end index is the total count. */
  predicate Done(page: Page) {
    EndIndex(page) == page.totalRecordCount
  }

  /** The request for the page starting at `start`. */
  function CreatePayload(start: nat): (p: Payload)
    ensures p.skip == start && p.pageSize == 120
  {
    Payload(start, PageSize)
  }

  // ---------------------------------------------------------------------
  // Club prices

  /** `dict([piece.split("_") for piece in pieces])` as the list of pairs
      handed to `dict`: ValueError unless every piece splits into exactly
      two halves. */
  function ClubPairs(pieces: seq<string>): Result<seq<(string, string)>>
    decreases |pieces|
  {
    if pieces == [] then Ok([])
    else
      var halves := Split(pieces[0], '_');
      if |halves| != 2 then Err(ValueError)
      else match ClubPairs(pieces[1..])
        case Err(e) => Err(e)
        case Ok(rest) => Ok([(halves[0], halves[1])] + rest)
  }

  /** The pairs are read iff every piece has exactly two halves, one pair
      per piece; otherwise the error is ValueError. */
  lemma {:induction false} ClubPairsShape(pieces: seq<string>)
    ensures var r := ClubPairs(pieces);
      && (r.Ok? <==> forall i :: 0 <= i < |pieces| ==> |Split(pieces[i], '_')| == 2)
      && (r.Err? ==> r.error == ValueError)
      && (r.Ok? ==> |r.value| == |pieces|)
    decreases |pieces|
  {
    if pieces != [] {
      ClubPairsShape(pieces[1..]);
      assert forall i :: 1 <= i < |pieces| ==> pieces[1..][i - 1] == pieces[i];
    }
  }

  /** The value a dict built from `pairs` holds for `key`: the last pair
      with that key wins. */
  function LastValue(pairs: seq<(string, string)>, key: string): Option<string>
    decreases |pairs|
  {
    if pairs == [] then None
    else if pairs[|pairs| - 1].0 == key then Some(pairs[|pairs| - 1].1)
    else LastValue(pairs[..|pairs| - 1], key)
  }

  /** The lookup finds nothing iff no pair has the key, and otherwise the
      value of the last pair that has it. */
  lemma {:induction false} LastValueWins(pairs: seq<(string, string)>, key: string)
    ensures var v := LastValue(pairs, key);
      && (v.None? <==> forall i :: 0 <= i < |pairs| ==> pairs[i].0 != key)
      && (v.Some? ==> exists i :: 0 <= i < |pairs| && pairs[i] == (key, v.value)
                        && forall j :: i < j < |pairs| ==> pairs[j].0 != key)
    decreases |pairs|
  {
    if pairs != [] && pairs[|pairs| - 1].0 != key {
      var init := pairs[..|pairs| - 1];
      LastValueWins(init, key);
      assert forall i :: 0 <= i < |init| ==> init[i] == pairs[i];
    }
  }

  /** The club "0001" price in a `clubid_price` field: pieces separated by
      ';', each a key and a price separated by '_'. */
  function ClubPrice(clubidPrice: string): Result<string> {
    match ClubPairs(Split(clubidPrice, ';'))
    case Err(e) => Err(e)
    case Ok(pairs) =>
      match LastValue(pairs, ClubId)
      case None => Err(KeyError(ClubId))
      case Some(p) => Ok(p)
  }

  /** A `clubid_price` field written from a list of (key, price) pairs. */
  function EncodeClubPrices(pairs: seq<(string, string)>): string {
    Join(seq(|pairs|, i requires 0 <= i < |pairs| => Join([pairs[i].0, pairs[i].1], '_')), ';')
  }

  /** Neither separator occurs in any key or price. */
  predicate PlainPairs(pairs: seq<(string, string)>) {
    forall i :: 0 <= i < |pairs| ==>
      ';' !in pairs[i].0 && ';' !in pairs[i].1 && '_' !in pairs[i].0 && '_' !in pairs[i].1
  }

  lemma JoinWithout(parts: seq<string>, sep: char, c: char)
    requires c != sep
    requires forall i :: 0 <= i < |parts| ==> c !in parts[i]
    ensures c !in Join(parts, sep)
    decreases |parts|
  {
    if |parts| > 1 {
      JoinWithout(parts[1..], sep, c);
    }
  }

  /** Decoding a field written from plain pairs gives the pairs back. */
  lemma {:induction false} ClubPairsDecode(pairs: seq<(string, string)>)
    requires |pairs| >= 1 && PlainPairs(pairs)
    ensures ClubPairs(Split(EncodeClubPrices(pairs), ';')) == Ok(pairs)
  {
    var pieces := seq(|pairs|, i requires 0 <= i < |pairs| => Join([pairs[i].0, pairs[i].1], '_'));
    forall i | 0 <= i < |pieces| ensures ';' !in pieces[i] && Split(pieces[i], '_') == [pairs[i].0, pairs[i].1] {
      JoinWithout([pairs[i].0, pairs[i].1], '_', ';');
      SplitJoin([pairs[i].0, pairs[i].1], '_');
    }
    SplitJoin(pieces, ';');
    PiecesDecode(pairs, pieces);
  }

  lemma {:induction false} PiecesDecode(pairs: seq<(string, string)>, pieces: seq<string>)
    requires |pieces| == |pairs|
    requires forall i :: 0 <= i < |pieces| ==> Split(pieces[i], '_') == [pairs[i].0, pairs[i].1]
    ensures ClubPairs(pieces) == Ok(pairs)
    decreases |pairs|
  {
    if pairs != [] {
      PiecesDecode(pairs[1..], pieces[1..]);
      assert Split(pieces[0], '_') == [pairs[0].0, pairs[0].1];
      assert pairs == [(pairs[0].0, pairs[0].1)] + pairs[1..];
    }
  }

  /** Round trip: the club price of a field written from plain pairs is the
      price of the last pair for club "0001", and KeyError when there is
      none. */
  lemma {:induction false} ClubPriceRoundTrip(pairs: seq<(string, string)>)
    requires |pairs| >= 1 && PlainPairs(pairs)
    ensures var r := ClubPrice(EncodeClubPrices(pairs));
      && (r.Ok? ==> exists i :: 0 <= i < |pairs| && pairs[i] == (ClubId, r.value)
                       && forall j :: i < j < |pairs| ==> pairs[j].0 != ClubId)
      && (r.Err? <==> forall i :: 0 <= i < |pairs| ==> pairs[i].0 != ClubId)
      && (r.Err? ==> r.error == KeyError(ClubId))
  {
    ClubPairsDecode(pairs);
    LastValueWins(pairs, ClubId);
  }

  /** A piece that is not a key/price pair makes the field unreadable. */
  lemma {:induction false} ClubPriceRejectsLoosePiece(clubidPrice: string, i: nat)
    requires i < |Split(clubidPrice, ';')| && |Split(Split(clubidPrice, ';')[i], '_')| != 2
    ensures ClubPrice(clubidPrice) == Err(ValueError)
  {
    ClubPairsShape(Split(clubidPrice, ';'));
  }

  // ---------------------------------------------------------------------
  // Variant prices

  /** The price one visual variant contributes: the club price when its
      first non-visual variant has a non-empty `clubid_price`, its display
      price otherwise; IndexError when it has no non-visual variant. */
  function VariantPrice(v: VisualVariant): Result<string> {
    if v.nonvisual == [] then Err(IndexError)
    else if Truthy(v.nonvisual[0].clubidPrice) then ClubPrice(v.nonvisual[0].clubidPrice.value)
    else Ok(v.nonvisual[0].displayPrice)
  }

  /** A variant with a club price field written from plain pairs is priced
      at the last "0001" price in it, and one without such a field at its
      display price. */
  lemma {:induction false} VariantPriceSource(v: VisualVariant, pairs: seq<(string, string)>)
    requires v.nonvisual != []
    requires v.nonvisual[0].clubidPrice.Some? ==> v.nonvisual[0].clubidPrice.value == EncodeClubPrices(pairs)
    requires |pairs| >= 1 && PlainPairs(pairs)
    ensures !Truthy(v.nonvisual[0].clubidPrice) ==> VariantPrice(v) == Ok(v.nonvisual[0].displayPrice)
    ensures Truthy(v.nonvisual[0].clubidPrice) && VariantPrice(v).Ok? ==>
      exists i :: 0 <= i < |pairs| && pairs[i] == (ClubId, VariantPrice(v).value)
    ensures Truthy(v.nonvisual[0].clubidPrice) ==>
      (VariantPrice(v).Err? <==> forall i :: 0 <= i < |pairs| ==> pairs[i].0 != ClubId)
  {
    ClubPriceRoundTrip(pairs);
  }

  /** The prices of the visual variants in visiting order, or the first
      exception. */
  function VariantPrices(vs: seq<VisualVariant>): Result<seq<string>> {
    MapResults(VariantPrice, vs)
  }

  /** `max(prices)` under Python's `str` order. */
  function MaxOf(ps: seq<string>): string
    requires ps != []
    decreases |ps|
  {
    if |ps| == 1 then ps[0]
    else
      var rest := MaxOf(ps[1..]);
      if LexLe(ps[0], rest) then rest else ps[0]
  }

  lemma {:induction false} MaxOfIsMax(ps: seq<string>)
    requires ps != []
    ensures MaxOf(ps) in ps && forall i :: 0 <= i < |ps| ==> LexLe(ps[i], MaxOf(ps))
    decreases |ps|
  {
    LexLeReflexive(ps[0]);
    if |ps| > 1 {
      var rest := MaxOf(ps[1..]);
      MaxOfIsMax(ps[1..]);
      LexLeTotal(ps[0], rest);
      assert forall i :: 1 <= i < |ps| ==> ps[i] == ps[1..][i - 1];
      if !LexLe(ps[0], rest) {
        forall i | 1 <= i < |ps| ensures LexLe(ps[i], ps[0]) {
          LexLeTransitive(ps[i], rest, ps[0]);
        }
      }
    }
  }

  /** `min(prices)` under Python's `str` order. */
  function MinOf(ps: seq<string>): string
    requires ps != []
    decreases |ps|
  {
    if |ps| == 1 then ps[0]
    else
      var rest := MinOf(ps[1..]);
      if LexLe(rest, ps[0]) then rest else ps[0]
  }

  lemma {:induction false} MinOfIsMin(ps: seq<string>)
    requires ps != []
    ensures MinOf(ps) in ps && forall i :: 0 <= i < |ps| ==> LexLe(MinOf(ps), ps[i])
    decreases |ps|
  {
    LexLeReflexive(ps[0]);
    if |ps| > 1 {
      var rest := MinOf(ps[1..]);
      MinOfIsMin(ps[1..]);
      LexLeTotal(ps[0], rest);
      assert forall i :: 1 <= i < |ps| ==> ps[i] == ps[1..][i - 1];
      if !LexLe(rest, ps[0]) {
        forall i | 1 <= i < |ps| ensures LexLe(ps[0], ps[i]) {
          LexLeTransitive(ps[0], rest, ps[i]);
        }
      }
    }
  }

  /** The price of a product from its collected variant prices: one price
      when they are all the same string, the lowest and highest otherwise;
      ValueError when there are none. */
  function PriceOf(ps: seq<string>): Result<Price> {
    if ps == [] then Err(ValueError)
    else
      var hi := MaxOf(ps);
      var lo := MinOf(ps);
      if hi == lo then Ok(Single(hi)) else Ok(Range(lo, hi))
  }

  /** ValueError for no prices; a single price exactly when every collected
      price is the same string; otherwise the least and greatest of them,
      which differ. */
  lemma {:induction false} PriceOfBounds(ps: seq<string>)
    ensures var r := PriceOf(ps);
      && (r.Err? <==> ps == [])
      && (r.Err? ==> r.error == ValueError)
      && (r.Ok? && r.value.Single? ==> forall i :: 0 <= i < |ps| ==> ps[i] == r.value.price)
      && (r.Ok? && r.value.Range? ==>
            && r.value.low != r.value.high && r.value.low in ps && r.value.high in ps
            && forall i :: 0 <= i < |ps| ==> LexLe(r.value.low, ps[i]) && LexLe(ps[i], r.value.high))
      && (r.Ok? && r.value.Range? ==> exists i, j :: 0 <= i < |ps| && 0 <= j < |ps| && ps[i] != ps[j])
  {
    if ps != [] {
      MaxOfIsMax(ps);
      MinOfIsMin(ps);
      var hi, lo := MaxOf(ps), MinOf(ps);
      if hi == lo {
        forall i | 0 <= i < |ps| ensures ps[i] == hi {
          LexLeAntisymmetric(ps[i], hi);
        }
      }
    }
  }

  /** The price depends only on which strings were collected, so collecting
      them into a set (as the source does) gives the same price. */
  lemma {:induction false} PriceOfSameElements(a: seq<string>, b: seq<string>)
    requires forall x :: x in a <==> x in b
    ensures PriceOf(a) == PriceOf(b)
  {
    if b != [] {
      assert b[0] in a;
    }
    if a != [] {
      assert a[0] in b;
      MaxOfIsMax(a);
      MaxOfIsMax(b);
      MinOfIsMin(a);
      MinOfIsMin(b);
      var ha, hb := MaxOf(a), MaxOf(b);
      var la, lb := MinOf(a), MinOf(b);
      var ia :| 0 <= ia < |a| && a[ia] == hb;
      var ib :| 0 <= ib < |b| && b[ib] == ha;
      LexLeAntisymmetric(ha, hb);
      var ja :| 0 <= ja < |a| && a[ja] == lb;
      var jb :| 0 <= jb < |b| && b[jb] == la;
      LexLeAntisymmetric(la, lb);
    }
  }

  /** Prices are compared as text: "10.99" sorts before "9.99". */
  lemma PricesCompareAsText()
    ensures PriceOf(["9.99", "10.99"]) == Ok(Range("10.99", "9.99"))
  {
    var ps := ["9.99", "10.99"];
    assert LexLe(ps[1], ps[0]) && !LexLe(ps[0], ps[1]);
  }

  /** `get_price(item_info)` as a value. */
  function PriceFor(vs: seq<VisualVariant>): Result<Price> {
    match VariantPrices(vs)
    case Err(e) => Err(e)
    case Ok(ps) => PriceOf(ps)
  }

  /** `get_price`: the variant prices are gathered into the `prices` set
      (kept as its distinct elements, in insertion order), then reduced to
      one price or a (min, max) range. */
  method GetPrice(vs: seq<VisualVariant>) returns (r: Result<Price>)
    ensures r == PriceFor(vs)
  {
    var prices: seq<string> := [];
    ghost var seen: seq<string> := [];
    for i := 0 to |vs|
      invariant VariantPrices(vs[..i]) == Ok(seen)
      invariant forall x :: x in prices <==> x in seen
    {
      assert vs[..i + 1][..i] == vs[..i];
      var p := VariantPrice(vs[i]);
      if p.Err? {
        MapResultsFailEarly(VariantPrice, vs, i + 1);
        return Err(p.error);
      }
      if p.value !in prices {
        prices := prices + [p.value];
      }
      seen := seen + [p.value];
    }
    assert vs[..|vs|] == vs;
    PriceOfSameElements(prices, seen);
    r := PriceOf(prices);
  }

  // ---------------------------------------------------------------------
  // Category paths

  /** Members in ascending key order. */
  predicate SortedByKey(s: GbiCategory) {
    forall i, j :: 0 <= i < j < |s| ==> LexLe(s[i].0, s[j].0)
  }

  /** No key occurs twice, as in any object `json.loads` returns. */
  predicate KeysDistinct(s: GbiCategory) {
    forall i, j :: 0 <= i < j < |s| ==> s[i].0 != s[j].0
  }

  /** `p` placed before the first member whose key is not below its own. */
  function InsertByKey(p: (string, Option<string>), s: GbiCategory): GbiCategory
    decreases |s|
  {
    if s == [] then [p]
    else if LexLe(p.0, s[0].0) then [p] + s
    else [s[0]] + InsertByKey(p, s[1..])
  }

  /** Inserting adds exactly the one member. */
  lemma {:induction false} InsertByKeyPermutes(p: (string, Option<string>), s: GbiCategory)
    ensures multiset(InsertByKey(p, s)) == multiset(s) + multiset{p}
    decreases |s|
  {
    if s != [] && !LexLe(p.0, s[0].0) {
      InsertByKeyPermutes(p, s[1..]);
      assert InsertByKey(p, s) == [s[0]] + InsertByKey(p, s[1..]);
      assert s == [s[0]] + s[1..];
    }
  }

  /** A member whose key is below every key of a sorted sequence can go in
      front of it. */
  lemma SortedCons(x: (string, Option<string>), s: GbiCategory)
    requires SortedByKey(s) && forall y :: y in s ==> LexLe(x.0, y.0)
    ensures SortedByKey([x] + s)
  {
    forall i, j | 0 <= i < j < |[x] + s| ensures LexLe(([x] + s)[i].0, ([x] + s)[j].0) {
      assert ([x] + s)[j] == s[j - 1];
      if i > 0 {
        assert ([x] + s)[i] == s[i - 1];
      }
    }
  }

  /** Inserting into a sorted sequence keeps it sorted. */
  lemma {:induction false} InsertByKeySorted(p: (string, Option<string>), s: GbiCategory)
    requires SortedByKey(s)
    ensures SortedByKey(InsertByKey(p, s))
    decreases |s|
  {
    if s == [] {
      assert InsertByKey(p, s) == [p];
    } else if LexLe(p.0, s[0].0) {
      forall y | y in s ensures LexLe(p.0, y.0) {
        var j :| 0 <= j < |s| && s[j] == y;
        if j == 0 {
          assert y == s[0];
        } else {
          LexLeTransitive(p.0, s[0].0, y.0);
        }
      }
      SortedCons(p, s);
      assert InsertByKey(p, s) == [p] + s;
    } else {
      var rest := InsertByKey(p, s[1..]);
      LexLeTotal(p.0, s[0].0);
      SortedTail(s);
      InsertByKeySorted(p, s[1..]);
      InsertByKeyPermutes(p, s[1..]);
      forall y | y in rest ensures LexLe(s[0].0, y.0) {
        assert y in multiset(rest);
        if y != p {
          assert y in multiset(s[1..]);
          var j :| 0 <= j < |s[1..]| && s[1..][j] == y;
          assert s[j + 1] == y;
        }
      }
      SortedCons(s[0], rest);
      assert InsertByKey(p, s) == [s[0]] + rest;
    }
  }

  /** The members ordered by key (`sorted(gbi_category)` looked up one key
      at a time). */
  function SortByKey(s: GbiCategory): GbiCategory
    decreases |s|
  {
    if s == [] then [] else InsertByKey(s[0], SortByKey(s[1..]))
  }

  /** The ordering is sorted by key and a permutation of the members. */
  lemma {:induction false} SortByKeySorted(s: GbiCategory)
    ensures SortedByKey(SortByKey(s)) && multiset(SortByKey(s)) == multiset(s)
    decreases |s|
  {
    if s != [] {
      var rest := SortByKey(s[1..]);
      SortByKeySorted(s[1..]);
      InsertByKeySorted(s[0], rest);
      InsertByKeyPermutes(s[0], rest);
      assert SortByKey(s) == InsertByKey(s[0], rest);
      assert s == [s[0]] + s[1..];
    }
  }

  /** Two key-sorted orderings of the same members, with distinct keys, are
      the same sequence. */
  lemma {:induction false} SortedUnique(a: GbiCategory, b: GbiCategory)
    requires SortedByKey(a) && SortedByKey(b) && KeysDistinct(a)
    requires multiset(a) == multiset(b)
    ensures a == b
    decreases |a|
  {
    assert |a| == |multiset(a)| && |b| == |multiset(b)|;
    if a != [] {
      SortedHeads(a, b);
      assert a == [a[0]] + a[1..];
      assert b == [b[0]] + b[1..];
      assert multiset(a) == multiset{a[0]} + multiset(a[1..]);
      assert multiset(b) == multiset{b[0]} + multiset(b[1..]);
      forall x ensures multiset(a[1..])[x] == multiset(b[1..])[x] {
        assert multiset(a)[x] == multiset{a[0]}[x] + multiset(a[1..])[x];
        assert multiset(b)[x] == multiset{b[0]}[x] + multiset(b[1..])[x];
      }
      assert multiset(a[1..]) == multiset(b[1..]);
      SortedTail(a);
      SortedTail(b);
      SortedUnique(a[1..], b[1..]);
    }
  }

  lemma SortedTail(s: GbiCategory)
    requires s != [] && SortedByKey(s)
    ensures SortedByKey(s[1..])
    ensures KeysDistinct(s) ==> KeysDistinct(s[1..])
  {
    assert forall i :: 0 <= i < |s[1..]| ==> s[1..][i] == s[i + 1];
  }

  /** Both orderings start with the member of least key. */
  lemma SortedHeads(a: GbiCategory, b: GbiCategory)
    requires SortedByKey(a) && SortedByKey(b) && KeysDistinct(a)
    requires multiset(a) == multiset(b) && a != [] && b != []
    ensures a[0] == b[0]
  {
    assert a[0] in multiset(b) && b[0] in multiset(a);
    var j :| 0 <= j < |b| && b[j] == a[0];
    var i :| 0 <= i < |a| && a[i] == b[0];
    if i == 0 {
      LexLeReflexive(a[0].0);
    }
    if j == 0 {
      LexLeReflexive(b[0].0);
    }
    LexLeAntisymmetric(a[0].0, b[0].0);
  }

  /** The non-empty names among the members, in member order. */
  function TruthyValues(s: GbiCategory): seq<string>
    decreases |s|
  {
    if s == [] then []
    else (if Truthy(s[0].1) then [s[0].1.value] else []) + TruthyValues(s[1..])
  }

  /** The kept names are exactly the non-empty names of the members. */
  lemma {:induction false} TruthyValuesNames(s: GbiCategory)
    ensures var names := TruthyValues(s);
      && (forall n :: n in names ==> n != "" && exists p :: p in s && p.1 == Some(n))
      && (forall p :: p in s && Truthy(p.1) ==> p.1.value in names)
    decreases |s|
  {
    if s != [] {
      var head := if Truthy(s[0].1) then [s[0].1.value] else [];
      var rest := TruthyValues(s[1..]);
      TruthyValuesNames(s[1..]);
      assert TruthyValues(s) == head + rest;
      assert s == [s[0]] + s[1..];
      forall n | n in head + rest ensures n != "" && exists p :: p in s && p.1 == Some(n) {
        if n in head {
          assert s[0] in s && s[0].1 == Some(n);
        } else {
          var p :| p in s[1..] && p.1 == Some(n);
          assert p in s;
        }
      }
      forall p | p in s && Truthy(p.1) ensures p.1.value in head + rest {
        if p != s[0] {
          assert p in s[1..];
        }
      }
    }
  }

  /** The category path one `gbi_categories` object describes: the names
      in ascending key order, without null or empty names. */
  function CategoryPath(entry: GbiCategory): seq<string> {
    TruthyValues(SortByKey(entry))
  }

  /** The path holds exactly the non-empty names of the object. */
  lemma {:induction false} CategoryPathNames(entry: GbiCategory)
    ensures var names := CategoryPath(entry);
      && (forall n :: n in names ==> n != "" && exists p :: p in entry && p.1 == Some(n))
      && (forall p :: p in entry && Truthy(p.1) ==> p.1.value in names)
  {
    var sorted := SortByKey(entry);
    var names := TruthyValues(sorted);
    assert CategoryPath(entry) == names;
    SortByKeySorted(entry);
    TruthyValuesNames(sorted);
    forall n | n in names ensures n != "" && exists p :: p in entry && p.1 == Some(n) {
      var p :| p in sorted && p.1 == Some(n);
      assert p in multiset(sorted);
    }
    forall p | p in entry && Truthy(p.1) ensures p.1.value in names {
      assert p in multiset(entry);
    }
  }

  /** The path does not depend on the order of the members in the
      document. */
  lemma {:induction false} CategoryPathIgnoresOrder(e1: GbiCategory, e2: GbiCategory)
    requires KeysDistinct(e1) && multiset(e1) == multiset(e2)
    ensures CategoryPath(e1) == CategoryPath(e2)
  {
    var s1, s2 := SortByKey(e1), SortByKey(e2);
    SortByKeySorted(e1);
    SortByKeySorted(e2);
    KeysDistinctPermuted(e1, s1);
    SortedUnique(s1, s2);
  }

  /** Members already in key order give their names in that order. */
  lemma {:induction false} CategoryPathInKeyOrder(entry: GbiCategory)
    requires KeysDistinct(entry) && SortedByKey(entry)
    ensures CategoryPath(entry) == TruthyValues(entry)
  {
    SortByKeySorted(entry);
    KeysDistinctPermuted(entry, SortByKey(entry));
    SortedUnique(SortByKey(entry), entry);
  }

  /** With distinct keys no member occurs twice. */
  lemma {:induction false} DistinctOnce(a: GbiCategory, x: (string, Option<string>))
    requires KeysDistinct(a)
    ensures multiset(a)[x] <= 1
    decreases |a|
  {
    if a != [] {
      assert a == [a[0]] + a[1..];
      assert forall m :: 0 <= m < |a[1..]| ==> a[1..][m].0 != a[0].0;
      assert a[0] !in a[1..];
      DistinctOnce(a[1..], x);
    }
  }

  lemma KeysDistinctPermuted(a: GbiCategory, b: GbiCategory)
    requires KeysDistinct(a) && multiset(a) == multiset(b)
    ensures KeysDistinct(b)
  {
    forall i, j | 0 <= i < j < |b| ensures b[i].0 != b[j].0 {
      DistinctOnce(a, b[i]);
      assert b == b[..i] + [b[i]] + b[i + 1..j] + [b[j]] + b[j + 1..];
      assert b[i] != b[j];
      assert b[i] in multiset(a) && b[j] in multiset(a);
      var k :| 0 <= k < |a| && a[k] == b[i];
      var l :| 0 <= l < |a| && a[l] == b[j];
    }
  }

  /** The `gbi_categories` entries that are neither null nor empty. */
  function Present(gbi: seq<Option<GbiCategory>>): seq<GbiCategory>
    decreases |gbi|
  {
    if gbi == [] then []
    else (if gbi[0].Some? && gbi[0].value != [] then [gbi[0].value] else []) + Present(gbi[1..])
  }

  /** Null and empty entries are dropped and every other entry is kept. */
  lemma {:induction false} PresentEntries(gbi: seq<Option<GbiCategory>>)
    ensures var kept := Present(gbi);
      && (forall e :: e in kept ==> e != [] && Some(e) in gbi)
      && (forall i :: 0 <= i < |gbi| && gbi[i].Some? && gbi[i].value != [] ==> gbi[i].value in kept)
      && |kept| <= |gbi|
    decreases |gbi|
  {
    if gbi != [] {
      PresentEntries(gbi[1..]);
      assert forall i :: 1 <= i < |gbi| ==> gbi[i] == gbi[1..][i - 1];
    }
  }

  /** The `categories` list of an item: one path per present entry, in
      entry order. */
  function CategoryPaths(gbi: seq<Option<GbiCategory>>): seq<seq<string>> {
    PathsOf(Present(gbi))
  }

  /** One path per entry, in entry order. */
  function PathsOf(entries: seq<GbiCategory>): (paths: seq<seq<string>>)
    ensures |paths| == |entries|
    ensures forall k :: 0 <= k < |entries| ==> paths[k] == CategoryPath(entries[k])
    decreases |entries|
  {
    if entries == [] then []
    else PathsOf(entries[..|entries| - 1]) + [CategoryPath(entries[|entries| - 1])]
  }

  /** The loop over the present entries that appends one path each. */
  method CategoriesOf(gbi: seq<Option<GbiCategory>>) returns (categories: seq<seq<string>>)
    ensures categories == CategoryPaths(gbi)
  {
    var present := Present(gbi);
    categories := [];
    for j := 0 to |present|
      invariant categories == PathsOf(present[..j])
    {
      assert present[..j + 1][..j] == present[..j];
      categories := categories + [CategoryPath(present[j])];
    }
    assert present[..|present|] == present;
  }

  // ---------------------------------------------------------------------
  // Records and pages

  /** The inventory item one record becomes; IndexError when it has no
      variant to take the url from, or the price's exception. */
  function ItemOf(rec: Record): Result<Item> {
    if rec.visualVariants == [] || rec.visualVariants[0].nonvisual == [] then Err(IndexError)
    else
      match PriceFor(rec.visualVariants)
      case Err(e) => Err(e)
      case Ok(price) =>
        Ok(Item(rec.title, CategoryPaths(rec.gbiCategories), rec.visualVariants[0].nonvisual[0].productUrl, price))
  }

  /** The items of a page's records in record order, or the first
      exception. */
  function ItemsOf(records: seq<Record>): Result<seq<Item>> {
    MapResults(ItemOf, records)
  }

  /** One item per record, in record order: its name is the title, its url
      the first variant's product url, its categories the present category
      paths and its price the record's price; a record that cannot be read
      fails the page. */
  lemma {:induction false} ItemsOfFields(records: seq<Record>)
    ensures var r := ItemsOf(records);
      && (r.Ok? <==> forall k :: 0 <= k < |records| ==> ItemOf(records[k]).Ok?)
      && (r.Ok? ==> |r.value| == |records| && forall k :: 0 <= k < |records| ==>
            && r.value[k].name == records[k].title
            && r.value[k].url == records[k].visualVariants[0].nonvisual[0].productUrl
            && r.value[k].categories == CategoryPaths(records[k].gbiCategories)
            && PriceFor(records[k].visualVariants) == Ok(r.value[k].price))
  {
    MapResultsOk(ItemOf, records);
  }

  /** `process_page_items`: one item appended per record. */
  method ProcessPageItems(page: Page) returns (r: Result<seq<Item>>)
    ensures r == ItemsOf(page.records)
  {
    var records := page.records;
    var pageItems: seq<Item> := [];
    for i := 0 to |records|
      invariant ItemsOf(records[..i]) == Ok(pageItems)
    {
      assert records[..i + 1][..i] == records[..i];
      var rec := records[i];
      var categories := CategoriesOf(rec.gbiCategories);
      if rec.visualVariants == [] || rec.visualVariants[0].nonvisual == [] {
        MapResultsFailEarly(ItemOf, records, i + 1);
        return Err(IndexError);
      }
      var url := rec.visualVariants[0].nonvisual[0].productUrl;
      var price := GetPrice(rec.visualVariants);
      if price.Err? {
        MapResultsFailEarly(ItemOf, records, i + 1);
        return Err(price.error);
      }
      pageItems := pageItems + [Item(rec.title, categories, url, price.value)];
    }
    assert records[..|records|] == records;
    r := Ok(pageItems);
  }

  // ---------------------------------------------------------------------
  // The download loop

  /** `_update_inventory` on the in-memory document: the page's items are
      appended to the "inventory" list (KeyError when there is none) and
      nothing else changes. */
  function UpdateInventory(current: Document, items: seq<Item>): (r: Result<Document>)
    ensures r.Err? <==> "inventory" !in current
    ensures r.Err? ==> r.error == KeyError("inventory")
    ensures r.Ok? ==> r.value.Keys == current.Keys && r.value["inventory"] == current["inventory"] + items
    ensures r.Ok? ==> forall k :: k in current && k != "inventory" ==> r.value[k] == current[k]
  {
    if "inventory" !in current then Err(KeyError("inventory"))
    else Ok(current["inventory" := current["inventory"] + items])
  }

  /** The document `download` starts from: a cleared inventory when there
      is a file to write it to, an empty document otherwise. */
  function Initial(hasFile: bool): Document {
    if hasFile then map["inventory" := []] else map[]
  }

  /** What the inventory file holds after a write of `inventory`. */
  function Saved(hasFile: bool, inventory: Document): Option<Document> {
    if hasFile then Some(inventory) else None
  }

  /** `process_page_items` as a value. */
  function ReadPage(page: Page): Result<seq<Item>> {
    ItemsOf(page.records)
  }

  /** The loop from the request at `start` on, with `fuel` requests left,
      each answered page turned into items by `read`; the result and the
      file's last contents. */
  function CrawlOn(send: Payload -> Page, read: Page -> Result<seq<Item>>, start: nat, fuel: nat,
                   inventory: Document, hasFile: bool): (Result<Document>, Option<Document>)
    decreases fuel
  {
    if fuel == 0 then (Ok(inventory), Saved(hasFile, inventory))
    else
      var page := send(CreatePayload(start));
      match read(page)
      case Err(e) => (Err(e), Saved(hasFile, inventory))
      case Ok(items) =>
        match UpdateInventory(inventory, items)
        case Err(e) => (Err(e), Saved(hasFile, inventory))
        case Ok(next) =>
          if Done(page) then (Ok(next), Saved(hasFile, next))
          else CrawlOn(send, read, EndIndex(page), fuel - 1, next, hasFile)
  }

  /** `download(inventory_filepath)` with at most `fuel` requests. */
  function DownloadOn(hasFile: bool, send: Payload -> Page, fuel: nat): (Result<Document>, Option<Document>) {
    CrawlOn(send, ReadPage, 0, fuel, Initial(hasFile), hasFile)
  }

  /** The offset of the `k`-th request after the one at `start`. */
  function Offset(send: Payload -> Page, start: nat, k: nat): nat
    decreases k
  {
    if k == 0 then start else Offset(send, EndIndex(send(CreatePayload(start))), k - 1)
  }

  /** The page answering that request. */
  function PageAt(send: Payload -> Page, start: nat, k: nat): Page {
    send(CreatePayload(Offset(send, start, k)))
  }

  /** Each request starts where the previous page ended. */
  lemma {:induction false} NextRequest(send: Payload -> Page, start: nat, k: nat)
    ensures Offset(send, start, k + 1) == EndIndex(PageAt(send, start, k))
    decreases k
  {
    if k > 0 {
      NextRequest(send, EndIndex(send(CreatePayload(start))), k - 1);
    }
  }

  /** The items of the first `m` pages from `start`, in request order. */
  function Collected(send: Payload -> Page, read: Page -> Result<seq<Item>>, start: nat, m: nat): seq<Item>
    decreases m
  {
    if m == 0 then []
    else
      var page := send(CreatePayload(start));
      (match read(page) case Ok(items) => items case Err(_) => [])
        + Collected(send, read, EndIndex(page), m - 1)
  }

  /** One request that reads a page which is not the last, with a file. */
  lemma CrawlAdvance(send: Payload -> Page, read: Page -> Result<seq<Item>>, start: nat, fuel: nat, acc: seq<Item>)
    requires fuel > 0
    requires read(send(CreatePayload(start))).Ok? && !Done(send(CreatePayload(start)))
    ensures var page := send(CreatePayload(start));
      CrawlOn(send, read, start, fuel, map["inventory" := acc], true)
      == CrawlOn(send, read, EndIndex(page), fuel - 1, map["inventory" := acc + read(page).value], true)
  {
    var items := read(send(CreatePayload(start))).value;
    assert map["inventory" := acc]["inventory" := acc + items] == map["inventory" := acc + items];
  }

  /** Pages 0..n-1 are readable and none is the last. */
  predicate ReadOn(send: Payload -> Page, read: Page -> Result<seq<Item>>, start: nat, n: nat) {
    forall k :: 0 <= k < n ==> read(PageAt(send, start, k)).Ok? && !Done(PageAt(send, start, k))
  }

  /** The requests after the first are the requests from where it ended. */
  lemma ShiftRequests(send: Payload -> Page, read: Page -> Result<seq<Item>>, start: nat, n: nat)
    requires n > 0 && ReadOn(send, read, start, n)
    ensures read(send(CreatePayload(start))).Ok? && !Done(send(CreatePayload(start)))
    ensures ReadOn(send, read, EndIndex(send(CreatePayload(start))), n - 1)
    ensures PageAt(send, start, n) == PageAt(send, EndIndex(send(CreatePayload(start))), n - 1)
  {
    var next := EndIndex(send(CreatePayload(start)));
    assert PageAt(send, start, 0) == send(CreatePayload(start));
    forall k | 0 <= k < n - 1
      ensures read(PageAt(send, next, k)).Ok? && !Done(PageAt(send, next, k))
    {
      assert PageAt(send, start, k + 1) == PageAt(send, next, k);
    }
  }

  /** The request that reads the last page, or fails, with a file. */
  lemma CrawlLast(send: Payload -> Page, read: Page -> Result<seq<Item>>, start: nat, fuel: nat, acc: seq<Item>)
    requires fuel > 0
    ensures var c := CrawlOn(send, read, start, fuel, map["inventory" := acc], true);
      var page := send(CreatePayload(start));
      && (read(page).Ok? && Done(page) ==>
            c.0 == Ok(map["inventory" := acc + Collected(send, read, start, 1)]) && c.1 == Some(c.0.value))
      && (read(page).Err? ==>
            c.0 == Err(read(page).error) && c.1 == Some(map["inventory" := acc + Collected(send, read, start, 0)]))
  {
    var page := send(CreatePayload(start));
    var inv := map["inventory" := acc];
    assert Collected(send, read, start, 0) == [];
    assert acc + [] == acc;
    if read(page).Ok? {
      var items := read(page).value;
      assert Collected(send, read, EndIndex(page), 0) == [];
      assert Collected(send, read, start, 1) == items;
      assert inv["inventory" := acc + items] == map["inventory" := acc + items];
    }
  }

  /** With a file: when pages 0..n-1 are readable and not the last and
      page n is the last, the download ends after page n holding every
      page's items in request order, and the file holds the same. */
  lemma {:induction false} CrawlCollects(send: Payload -> Page, read: Page -> Result<seq<Item>>, start: nat, fuel: nat, acc: seq<Item>, n: nat)
    requires n < fuel && ReadOn(send, read, start, n)
    requires read(PageAt(send, start, n)).Ok? && Done(PageAt(send, start, n))
    ensures var c := CrawlOn(send, read, start, fuel, map["inventory" := acc], true);
      c.0 == Ok(map["inventory" := acc + Collected(send, read, start, n + 1)]) && c.1 == Some(c.0.value)
    decreases n
  {
    if n > 0 {
      ShiftRequests(send, read, start, n);
      var page := send(CreatePayload(start));
      var next := EndIndex(page);
      var items := read(page).value;
      CrawlAdvance(send, read, start, fuel, acc);
      CrawlCollects(send, read, next, fuel - 1, acc + items, n - 1);
      assert Collected(send, read, start, n + 1) == items + Collected(send, read, next, n);
      assert acc + Collected(send, read, start, n + 1) == (acc + items) + Collected(send, read, next, n);
    } else {
      assert PageAt(send, start, 0) == send(CreatePayload(start));
      CrawlLast(send, read, start, fuel, acc);
    }
  }

  /** With a file: when pages 0..n-1 are readable and not the last and
      page n cannot be read, the download fails with page n's exception and
      the file keeps the items of the pages before it. */
  lemma {:induction false} CrawlKeepsProgress(send: Payload -> Page, read: Page -> Result<seq<Item>>, start: nat, fuel: nat, acc: seq<Item>, n: nat)
    requires n < fuel && ReadOn(send, read, start, n)
    requires read(PageAt(send, start, n)).Err?
    ensures var c := CrawlOn(send, read, start, fuel, map["inventory" := acc], true);
      c.0 == Err(read(PageAt(send, start, n)).error)
      && c.1 == Some(map["inventory" := acc + Collected(send, read, start, n)])
    decreases n
  {
    if n > 0 {
      ShiftRequests(send, read, start, n);
      var page := send(CreatePayload(start));
      var next := EndIndex(page);
      var items := read(page).value;
      CrawlAdvance(send, read, start, fuel, acc);
      CrawlKeepsProgress(send, read, next, fuel - 1, acc + items, n - 1);
      assert Collected(send, read, start, n) == items + Collected(send, read, next, n - 1);
      assert acc + Collected(send, read, start, n) == (acc + items) + Collected(send, read, next, n - 1);
    } else {
      assert PageAt(send, start, 0) == send(CreatePayload(start));
      CrawlLast(send, read, start, fuel, acc);
    }
  }

  /** Without a file the in-memory document has no "inventory" list, so the
      first page's update fails (unless reading that page fails first). */
  lemma {:induction false} DownloadWithoutFile(send: Payload -> Page, fuel: nat)
    requires fuel >= 1
    ensures var c := DownloadOn(false, send, fuel);
      && c.1 == None && c.0.Err?
      && (ReadPage(send(CreatePayload(0))).Ok? ==> c.0.error == KeyError("inventory"))
  {
  }

  /** The crawl from `start` stops by the `n`-th request after it: some
      page up to that one is the last or cannot be read. */
  predicate StopsBy(send: Payload -> Page, start: nat, n: nat) {
    exists k :: 0 <= k <= n && (Done(PageAt(send, start, k)) || ReadPage(PageAt(send, start, k)).Err?)
  }

  /** When the crawl from `start` stops by request `n` and the first page
      is readable and not the last, the crawl from that page's end index
      stops one request sooner. */
  lemma LaterStop(send: Payload -> Page, start: nat, n: nat)
    requires StopsBy(send, start, n)
    requires ReadPage(send(CreatePayload(start))).Ok? && !Done(send(CreatePayload(start)))
    ensures n > 0 && StopsBy(send, EndIndex(send(CreatePayload(start))), n - 1)
  {
    var next := EndIndex(send(CreatePayload(start)));
    var k :| 0 <= k <= n && (Done(PageAt(send, start, k)) || ReadPage(PageAt(send, start, k)).Err?);
    assert PageAt(send, start, 0) == send(CreatePayload(start));
    assert k > 0;
    assert PageAt(send, start, k) == PageAt(send, next, k - 1);
  }

  /** One request of the loop, whatever reads the pages. */
  lemma CrawlStep(send: Payload -> Page, read: Page -> Result<seq<Item>>, start: nat, fuel: nat,
                  inventory: Document, hasFile: bool)
    requires fuel > 0
    ensures var page := send(CreatePayload(start));
      var c := CrawlOn(send, read, start, fuel, inventory, hasFile);
      && (read(page).Err? ==> c == (Err(read(page).error), Saved(hasFile, inventory)))
      && (read(page).Ok? && UpdateInventory(inventory, read(page).value).Err? ==>
            c == (Err(KeyError("inventory")), Saved(hasFile, inventory)))
      && (read(page).Ok? && UpdateInventory(inventory, read(page).value).Ok? && Done(page) ==>
            c == (UpdateInventory(inventory, read(page).value), Saved(hasFile, UpdateInventory(inventory, read(page).value).value)))
      && (read(page).Ok? && UpdateInventory(inventory, read(page).value).Ok? && !Done(page) ==>
            c == CrawlOn(send, read, EndIndex(page), fuel - 1, UpdateInventory(inventory, read(page).value).value, hasFile))
  {
  }

  /** One pass of the loop body: request the page at `start`, read its
      items and append them to the inventory; the crawl from `start` either
      ends with this page (with the result and the file it leaves) or goes
      on from the page's end index with the updated inventory. */
  method FetchPage(send: Payload -> Page, start: nat, inventory: Document, hasFile: bool, ghost fuel: nat)
    returns (page: Page, r: Result<Document>)
    requires fuel > 0
    ensures page == send(CreatePayload(start))
    ensures r.Ok? ==> ReadPage(page).Ok? && r == UpdateInventory(inventory, ReadPage(page).value)
    ensures r.Err? ==> CrawlOn(send, ReadPage, start, fuel, inventory, hasFile) == (r, Saved(hasFile, inventory))
    ensures r.Ok? && Done(page) ==> CrawlOn(send, ReadPage, start, fuel, inventory, hasFile) == (r, Saved(hasFile, r.value))
    ensures r.Ok? && !Done(page) ==>
      CrawlOn(send, ReadPage, start, fuel, inventory, hasFile) == CrawlOn(send, ReadPage, EndIndex(page), fuel - 1, r.value, hasFile)
  {
    page := send(CreatePayload(start));
    var items := ProcessPageItems(page);
    CrawlStep(send, ReadPage, start, fuel, inventory, hasFile);
    if items.Err? {
      return page, Err(items.error);
    }
    r := UpdateInventory(inventory, items.value);
  }

  /** `download`: request pages from offset 0, append each page's items,
      stop after the first page whose end index is the total count, and
      otherwise continue from that end index. `bound` is a request count
      by which the crawl stops; the result does not depend on it. Without
      a file the first request always ends it. */
  method Download(hasFile: bool, send: Payload -> Page, ghost bound: nat) returns (r: Result<Document>, saved: Option<Document>)
    requires hasFile ==> StopsBy(send, 0, bound)
    ensures (r, saved) == DownloadOn(hasFile, send, bound + 1)
  {
    var inventory := Initial(hasFile);
    saved := Saved(hasFile, inventory);
    var start := 0;
    ghost var fuel := bound + 1;
    while true
      invariant 0 < fuel
      invariant hasFile ==> StopsBy(send, start, fuel - 1)
      invariant !hasFile ==> "inventory" !in inventory
      invariant saved == Saved(hasFile, inventory)
      invariant DownloadOn(hasFile, send, bound + 1) == CrawlOn(send, ReadPage, start, fuel, inventory, hasFile)
      decreases fuel
    {
      var page, updated := FetchPage(send, start, inventory, hasFile, fuel);
      if updated.Err? {
        return updated, saved;
      }
      inventory := updated.value;
      saved := Saved(hasFile, inventory);
      if Done(page) {
        return updated, saved;
      }
      LaterStop(send, start, fuel - 1);
      start := EndIndex(page);
      fuel := fuel - 1;
    }
  }
}
