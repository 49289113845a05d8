/**
 * The catalogue view `all_products` (products/views.py): it reads `sort`,
 * `direction` and `q` from the query string, orders the products, rejects an
 * empty search, filters on the search term and describes the current sorting.
 * Rendering, the flash message and the redirect are represented by the
 * `Outcome` value the view produces.
 */
module ProductViews {
  import opened Wrappers
  import opened Strings
  import opened Fields
  import opened QuerySet

  /** `request.GET`: the query-string parameters, one value per key. */
  type Params = map<string, string>

  datatype Outcome =
    /** "Please enter search criteria...", then a redirect to the unfiltered list. */
    | EmptySearch
    /** The page context: `products`, `search_term` and `current_sorting`. */
    | Listing(products: seq<Product>, searchTerm: Option<string>, currentSorting: string)

  /** How an f-string prints an optional string: `None` prints as "None". */
  function Show(v: Option<string>): string
  {
    if v.None? then "None" else v.value
  }

  /** The `direction` variable: `direction` is read only when `sort` is also given. */
  function Direction(params: Params): Option<string>
  {
    if "sort" in params && "direction" in params then Some(params["direction"]) else None
  }

  /**
   * The string handed to `order_by`: the `sort` value, or `lower_name` for
   * 'name', with a '-' in front when `direction` is 'desc'.
   */
  function OrderByArgument(params: Params): string
    requires "sort" in params
  {
    var sortkey := if params["sort"] == "name" then "lower_name" else params["sort"];
    if Direction(params) == Some("desc") then "-" + sortkey else sortkey
  }

  /** The ordering the parameters select, if any; `lower_name` is annotated only for 'name'. */
  function RequestedOrdering(params: Params): Option<Ordering>
  {
    if "sort" in params then
      Some(ParseOrderBy(OrderByArgument(params), params["sort"] == "name"))
    else
      None
  }

  // ---------------------------------------------------------------------------
  // What the ordering promises, stated on the raw parameters
  // ---------------------------------------------------------------------------

  /** `sort` carries Django's own descending mark, a leading '-'. */
  predicate HasMinus(sort: string)
  {
    |sort| > 0 && sort[0] == '-'
  }

  /**
   * The value a product is compared on for `sort`: its lower-cased name for
   * 'name', else the raw column `sort` names once a leading '-' is read off.
   */
  function SortValue(p: Product, sort: string): FieldValue
  {
    if sort == "name" then Text(Lower(p.name))
    else if HasMinus(sort) then Field(p, sort[1..])
    else Field(p, sort)
  }

  /** The listing descends when `sort` is '-field' or `direction` is 'desc'. */
  predicate Descends(params: Params)
    requires "sort" in params
  {
    HasMinus(params["sort"]) || ("direction" in params && params["direction"] == "desc")
  }

  /** Both marks at once: `order_by` receives '--field', which Django rejects. */
  predicate DoubleMinus(params: Params)
    requires "sort" in params
  {
    HasMinus(params["sort"]) && "direction" in params && params["direction"] == "desc"
  }

  /** `s` is ordered on `sort`: non-decreasing, or non-increasing when `descending`. */
  ghost predicate OrderedOn(s: seq<Product>, sort: string, descending: bool)
  {
    forall i, j :: 0 <= i < j < |s| ==>
      if descending then ValueLe(SortValue(s[j], sort), SortValue(s[i], sort))
      else ValueLe(SortValue(s[i], sort), SortValue(s[j], sort))
  }

  /** The products after the sorting stage: `Product.objects.all()`, ordered when `sort` is given. */
  function Ordered(products: seq<Product>, params: Params): (r: seq<Product>)
    ensures multiset(r) == multiset(products)
    ensures "sort" !in params ==> r == products
    ensures "sort" in params && !DoubleMinus(params) ==> OrderedOn(r, params["sort"], Descends(params))
  {
    match RequestedOrdering(params)
    case None => products
    case Some(o) =>
      var r := OrderBy(products, o);
      if DoubleMinus(params) then r else SortedIsOrderedOn(r, params); r
  }

  /** What `order_by` compares is the sort value, in the direction `Descends` names. */
  lemma OrderingReadsSortValue(params: Params, p: Product)
    requires "sort" in params && !DoubleMinus(params)
    ensures RequestedOrdering(params).value.descending == Descends(params)
    ensures KeyValue(p, RequestedOrdering(params).value.key) == SortValue(p, params["sort"])
  {
    var sort := params["sort"];
    var sortkey := if sort == "name" then "lower_name" else sort;
    if Direction(params) == Some("desc") {
      assert OrderByArgument(params) == "-" + sortkey;
      assert ("-" + sortkey)[1..] == sortkey;
    } else {
      assert OrderByArgument(params) == sortkey;
    }
  }

  lemma SortedIsOrderedOn(s: seq<Product>, params: Params)
    requires "sort" in params && !DoubleMinus(params)
    requires Sorted(s, RequestedOrdering(params).value)
    ensures OrderedOn(s, params["sort"], Descends(params))
  {
    var o := RequestedOrdering(params).value;
    forall i, j | 0 <= i < j < |s|
      ensures if Descends(params) then ValueLe(SortValue(s[j], params["sort"]), SortValue(s[i], params["sort"]))
              else ValueLe(SortValue(s[i], params["sort"]), SortValue(s[j], params["sort"]))
    {
      assert Before(o, s[i], s[j]);
      OrderingReadsSortValue(params, s[i]);
      OrderingReadsSortValue(params, s[j]);
    }
  }

  // ---------------------------------------------------------------------------
  // all_products
  // ---------------------------------------------------------------------------

  /**
   * The view's query logic. The source calls `Lower` at products/views.py:34
   * without importing it (products/views.py:1-5), so as written `sort=name`
   * raises NameError; this is the intended case-insensitive name sort. The
   * as-written behaviour is `AllProductsAsWritten` below.
   */
  function AllProducts(products: seq<Product>, params: Params): Outcome
  {
    if params == map[] then
      Listing(products, None, CurrentSorting(params))
    else
      var ordered := Ordered(products, params);
      var query := Get(params, "q");
      if query == Some("") then
        EmptySearch
      else
        var found := if query.Some? then Filter(ordered, query.value) else ordered;
        Listing(found, query, CurrentSorting(params))
  }

  /** `current_sorting`: the f-string `f'{sort}_{direction}'`. */
  function CurrentSorting(params: Params): string
  {
    Show(Get(params, "sort")) + "_" + Show(Direction(params))
  }

  // ---------------------------------------------------------------------------
  // Properties
  // ---------------------------------------------------------------------------

  /** With no parameters the products come back as they are. */
  lemma NoParametersIsIdentity(products: seq<Product>)
    ensures AllProducts(products, map[]) == Listing(products, None, "None_None")
  {
  }

  /** Without `sort` and `q` (only `direction`, or unrelated keys) nothing changes either. */
  lemma NoSortNoSearchIsIdentity(products: seq<Product>, params: Params)
    requires "sort" !in params && "q" !in params
    ensures AllProducts(products, params) == Listing(products, None, "None_None")
  {
  }

  /** The view fails exactly when `q` is given and empty, whatever `sort` and `direction` say. */
  lemma EmptySearchExactlyWhenQueryEmpty(products: seq<Product>, params: Params)
    ensures AllProducts(products, params) == EmptySearch <==> "q" in params && params["q"] == ""
  {
  }

  /** A product is listed exactly when it matches the search (or there is none), as often as it was stocked. */
  lemma ListingHoldsExactlyTheMatches(products: seq<Product>, params: Params, p: Product)
    requires AllProducts(products, params).Listing?
    ensures var listed := AllProducts(products, params).products;
      && (p in listed <==> p in products && ("q" !in params || Matches(p, params["q"])))
      && multiset(listed)[p] ==
         if "q" !in params || Matches(p, params["q"]) then multiset(products)[p] else 0
  {
    var listed := AllProducts(products, params).products;
    if params != map[] && "q" in params {
      FilterKeepsExactlyMatches(Ordered(products, params), params["q"], p);
    }
    assert p in listed <==> p in multiset(listed);
    assert p in products <==> p in multiset(products);
  }

  /** Searching only leaves products out of the ordered list; it never reorders them. */
  lemma ListingFollowsTheOrder(products: seq<Product>, params: Params)
    requires AllProducts(products, params).Listing?
    ensures IsSubsequence(AllProducts(products, params).products, Ordered(products, params))
  {
    var ordered := Ordered(products, params);
    if params != map[] && "q" in params {
      FilterIsSubsequence(ordered, params["q"]);
    } else {
      var idx := seq(|ordered|, k requires 0 <= k < |ordered| => k);
      assert Embeds(ordered, ordered, idx);
    }
  }

  /**
   * With `sort`, the listed products are ordered on the lower-cased name for
   * 'name' and on the raw column otherwise, descending for a '-field' sort or
   * for `direction=desc` (both at once is Django's FieldError).
   */
  lemma ListingIsOrdered(products: seq<Product>, params: Params)
    requires "sort" in params && AllProducts(products, params).Listing?
    ensures !DoubleMinus(params) ==>
      OrderedOn(AllProducts(products, params).products, params["sort"], Descends(params))
  {
    var o := RequestedOrdering(params).value;
    var ordered := OrderBy(products, o);
    if "q" in params && !DoubleMinus(params) {
      FilterKeepsSorted(ordered, params["q"], o);
      SortedIsOrderedOn(Filter(ordered, params["q"]), params);
    }
  }

  /**
   * The sort fixes the listing up to ties: any arrangement of the products
   * ordered on `sort` carries the same sequence of sort values as the listing.
   */
  lemma ListingOrderIsDetermined(products: seq<Product>, params: Params, t: seq<Product>)
    requires "sort" in params && "q" !in params && !DoubleMinus(params)
    requires multiset(t) == multiset(products)
    requires OrderedOn(t, params["sort"], Descends(params))
    ensures var listed := AllProducts(products, params).products;
      |listed| == |t| &&
      forall i :: 0 <= i < |t| ==> SortValue(listed[i], params["sort"]) == SortValue(t[i], params["sort"])
  {
    var o := RequestedOrdering(params).value;
    var listed := AllProducts(products, params).products;
    assert listed == OrderBy(products, o);
    forall i, j | 0 <= i < j < |t|
      ensures Before(o, t[i], t[j])
    {
      OrderingReadsSortValue(params, t[i]);
      OrderingReadsSortValue(params, t[j]);
    }
    SortedKeysUnique(listed, t, o);
    forall i | 0 <= i < |t|
      ensures SortValue(listed[i], params["sort"]) == SortValue(t[i], params["sort"])
    {
      assert Keys(listed, o)[i] == Keys(t, o)[i];
      OrderingReadsSortValue(params, t[i]);
      OrderingReadsSortValue(params, listed[i]);
    }
  }

  /** Without `sort` the products keep their stored order, and a `direction` alone changes nothing. */
  lemma ListingWithoutSortKeepsStoredOrder(products: seq<Product>, params: Params)
    requires "sort" !in params && AllProducts(products, params).Listing?
    ensures IsSubsequence(AllProducts(products, params).products, products)
    ensures "q" !in params ==> AllProducts(products, params).products == products
  {
    ListingFollowsTheOrder(products, params);
  }

  /**
   * Any `direction` other than 'desc' adds no '-': the order is the one `sort`
   * alone gives (ascending unless `sort` is '-field'), yet the direction is
   * echoed in `current_sorting`.
   */
  lemma OtherDirectionIsIgnored(products: seq<Product>, params: Params)
    requires "sort" in params && "direction" in params && params["direction"] != "desc"
    requires AllProducts(products, params).Listing?
    ensures OrderedOn(AllProducts(products, params).products, params["sort"], HasMinus(params["sort"]))
    ensures AllProducts(products, params).currentSorting == params["sort"] + "_" + params["direction"]
  {
    ListingIsOrdered(products, params);
  }

  /** `current_sorting` is `{sort}_{direction}`, with "None" for what is absent and `direction` counted only beside `sort`. */
  lemma CurrentSortingFormat(products: seq<Product>, params: Params)
    requires AllProducts(products, params).Listing?
    ensures AllProducts(products, params).currentSorting ==
      if "sort" !in params then "None_None"
      else if "direction" in params then params["sort"] + "_" + params["direction"]
      else params["sort"] + "_None"
  {
    ListingCarriesCurrentSorting(products, params);
    CurrentSortingOf(params);
  }

  lemma ListingCarriesCurrentSorting(products: seq<Product>, params: Params)
    requires AllProducts(products, params).Listing?
    ensures AllProducts(products, params).currentSorting == CurrentSorting(params)
  {
  }

  lemma CurrentSortingOf(params: Params)
    ensures CurrentSorting(params) ==
      if "sort" !in params then "None_None"
      else if "direction" in params then params["sort"] + "_" + params["direction"]
      else params["sort"] + "_None"
  {
    if "sort" in params {
      assert Get(params, "sort") == Some(params["sort"]);
    } else {
      assert Get(params, "sort") == None && Direction(params) == None;
    }
  }

  /** `search_term` echoes `q` when given (it is then non-empty), and is None otherwise. */
  lemma SearchTermEchoed(products: seq<Product>, params: Params)
    requires AllProducts(products, params).Listing?
    ensures AllProducts(products, params).searchTerm == if "q" in params then Some(params["q"]) else None
    ensures AllProducts(products, params).searchTerm != Some("")
  {
  }

  // ---------------------------------------------------------------------------
  // Worked cases
  // ---------------------------------------------------------------------------

  /** Sorting by name ignores case: "apple" comes before "Banana", although 'B' < 'a'. */
  lemma NameSortIgnoresCaseExample()
    ensures AllProducts([Banana, Apple], map["sort" := "name"]).products == [Apple, Banana]
  {
    var o := Ordering(LowerName, false);
    BananaAfterApple();
    OrderPair(Banana, Apple, o);
    assert OrderByArgument(map["sort" := "name"]) == "lower_name";
    SortOnlyOrders([Banana, Apple], map["sort" := "name"]);
  }

  const Banana := Product("Banana", "", map[])
  const Apple := Product("apple", "", map[])

  lemma BananaAfterApple()
    ensures !Before(Ordering(LowerName, false), Banana, Apple)
  {
    assert Lower("Banana") == "banana" && Lower("apple") == "apple";
    assert !StrLe("banana", "apple");
  }

  const Cheap := Product("Cheap", "", map["price" := Num(1)])
  const Dear := Product("Dear", "", map["price" := Num(2)])

  /** Django's own '-' inside `sort` sorts descending: `?sort=-price` lists the dearer product first. */
  lemma MinusSortDescendsExample()
    ensures AllProducts([Cheap, Dear], map["sort" := "-price"]).products == [Dear, Cheap]
  {
    var o := Ordering(Column("price"), true);
    assert Field(Cheap, "price") == Num(1) && Field(Dear, "price") == Num(2);
    assert !Before(o, Cheap, Dear);
    OrderPair(Cheap, Dear, o);
    assert OrderByArgument(map["sort" := "-price"]) == "-price" && "-price"[1..] == "price";
    SortOnlyOrders([Cheap, Dear], map["sort" := "-price"]);
  }

  /** Two products, the first of which may not stand first, are swapped. */
  lemma OrderPair(x: Product, y: Product, o: Ordering)
    requires !Before(o, x, y)
    ensures OrderBy([x, y], o) == [y, x]
  {
    assert [x, y][1..] == [y] && [y][1..] == [];
    assert OrderBy([y], o) == [y];
    assert Insert(x, [y], o) == [y] + Insert(x, [], o);
  }

  /** A request with only `sort` lists `order_by` of the products under the requested ordering. */
  lemma SortOnlyOrders(products: seq<Product>, params: Params)
    requires "sort" in params && params == map["sort" := params["sort"]]
    ensures AllProducts(products, params).products == OrderBy(products, RequestedOrdering(params).value)
  {
    assert "q" !in params && "direction" !in params;
  }


  const GoInAction := Product("Go in Action", "Kennedy", map[])
  const RustBook := Product("Rust Book", "Klabnik", map[])

  lemma KennedySearch()
    ensures IContains(GoInAction.author, "KENNEDY")
    ensures !IContains(RustBook.name, "KENNEDY") && !IContains(RustBook.author, "KENNEDY")
  {
    assert Lower("KENNEDY") == "kennedy";
    assert Lower("Kennedy") == "kennedy";
    assert OccursAt("kennedy", "kennedy", 0);
    RustBookLacks("kennedy", 'y');
  }

  lemma BookSearch()
    ensures IContains(RustBook.name, "book")
    ensures !IContains(GoInAction.name, "book") && !IContains(GoInAction.author, "book")
  {
    BookInRustBook();
    BookNotInGoInActionName();
    BookNotInGoInActionAuthor();
  }

  lemma BookInRustBook()
    ensures IContains(RustBook.name, "book")
  {
    assert Lower("book") == "book";
    assert Lower("Rust Book") == "rust book";
    assert OccursAt("book", "rust book", 5);
  }

  lemma BookNotInGoInActionName()
    ensures !IContains(GoInAction.name, "book")
  {
    assert Lower("book") == "book";
    assert Lower("Go in Action") == "go in action";
    MissingCharRulesOut("go in action", "book", 'b');
  }

  lemma BookNotInGoInActionAuthor()
    ensures !IContains(GoInAction.author, "book")
  {
    assert Lower("book") == "book";
    assert Lower("Kennedy") == "kennedy";
    MissingCharRulesOut("kennedy", "book", 'b');
  }

  lemma RustBookLacks(needle: string, c: char)
    requires c in needle && c !in "rust book" && c !in "klabnik" && Lower(needle) == needle
    ensures !IContains(RustBook.name, needle) && !IContains(RustBook.author, needle)
  {
    assert Lower("Rust Book") == "rust book";
    assert Lower("Klabnik") == "klabnik";
    MissingCharRulesOut("rust book", needle, c);
    MissingCharRulesOut("klabnik", needle, c);
  }

  /** Without `sort`, a search filters the stored order and leaves the descriptor at `None_None`. */
  lemma SearchWithoutSort(products: seq<Product>, params: Params)
    requires "sort" !in params && "q" in params && params["q"] != ""
    ensures AllProducts(products, params) == Listing(Filter(products, params["q"]), Some(params["q"]), "None_None")
  {
  }

  /** The search is an OR over the two fields: a match on the author alone keeps a product. */
  lemma SearchByAuthorExample()
    ensures AllProducts([GoInAction, RustBook], map["q" := "KENNEDY"]).products == [GoInAction]
  {
    KennedySearch();
    FilterPair("KENNEDY");
    SearchWithoutSort([GoInAction, RustBook], map["q" := "KENNEDY"]);
  }

  /** ... and so does a match on the name alone. */
  lemma SearchByNameExample()
    ensures AllProducts([GoInAction, RustBook], map["q" := "book"]).products == [RustBook]
  {
    BookSearch();
    FilterPair("book");
    SearchWithoutSort([GoInAction, RustBook], map["q" := "book"]);
  }

  /** Filtering the two sample products keeps those that match, in their order. */
  lemma FilterPair(query: string)
    ensures Filter([GoInAction, RustBook], query) ==
      (if Matches(GoInAction, query) then [GoInAction] else []) +
      (if Matches(RustBook, query) then [RustBook] else [])
  {
    var s := [GoInAction, RustBook];
    assert s[1..] == [RustBook] && s[1..][1..] == [];
  }

  // ---------------------------------------------------------------------------
  // The view as written: `Lower` is not imported
  // ---------------------------------------------------------------------------

  /** An exception the view raises instead of producing a page. */
  datatype Raised = NameError(name: string)

  datatype AsWritten = Raises(error: Raised) | Returns(outcome: Outcome)

  /**
   * `all_products` as the source has it: reaching products/views.py:34 looks
   * up the unbound name `Lower`, so every request with `sort=name` raises;
   * every other request behaves as `AllProducts`.
   */
  function AllProductsAsWritten(products: seq<Product>, params: Params): AsWritten
  {
    if params != map[] && "sort" in params && params["sort"] == "name" then
      Raises(NameError("Lower"))
    else
      Returns(AllProducts(products, params))
  }

  /**
   * As written, no product list can be sorted by name, and even an empty
   * search fails instead of being redirected. The corrected view redirects
   * exactly the empty search and otherwise lists the products ordered on
   * their lower-cased names.
   */
  lemma AsWrittenNameSortRaises(products: seq<Product>, params: Params)
    requires "sort" in params && params["sort"] == "name"
    ensures AllProductsAsWritten(products, params) == Raises(NameError("Lower"))
    ensures AllProducts(products, params) == EmptySearch <==> "q" in params && params["q"] == ""
    ensures AllProducts(products, params).Listing? ==>
      OrderedOn(AllProducts(products, params).products, "name", Descends(params))
  {
    if AllProducts(products, params).Listing? {
      ListingIsOrdered(products, params);
    }
  }

  /** Apart from `sort=name`, the source as written and the corrected view agree. */
  lemma AsWrittenAgreesElsewhere(products: seq<Product>, params: Params)
    requires !("sort" in params && params["sort"] == "name")
    ensures AllProductsAsWritten(products, params) == Returns(AllProducts(products, params))
  {
  }
}
