/** The `products` store (stores/products.ts): the catalog state fetched from
    the data endpoint, with the categories as an identifier-keyed record. The
    getters are functions of the state fields they read; the actions are
    methods of the store object. `$fetch` and `Date.now()` are parameters. */
module ProductsStore {
  import opened Common
  import opened Catalog

  /** How long fetched data counts as fresh: five minutes, in milliseconds. */
  const CacheDuration: int := 5 * 60 * 1000

  const UnknownCategory: string := "Unknown Category"
  const UnnamedCategory: string := "Unnamed Category"

  // ---------------------------------------------------------------------------
  // Getters

  /** getProductById: the first product whose identifier is strictly equal
      to `id`. */
  function GetProductById(products: seq<Product>, id: ProductId): (r: Option<Product>)
    ensures r.None? <==> forall p :: p in products ==> p.id != id
    ensures r.Some? ==> r.value in products && r.value.id == id
    ensures r.Some? ==> exists i :: (0 <= i < |products| && products[i] == r.value
      && forall j :: 0 <= j < i ==> products[j].id != id)
  {
    FindProductById(products, id)
  }

  /** getCategoryById: `categories[id]`, undefined when absent. */
  function GetCategoryById(categories: Record<Category>, id: string): (r: Option<Category>)
    ensures r.Some? <==> id in categories.values
    ensures r.Some? ==> r.value == categories.values[id]
  {
    categories.Get(id)
  }

  /** getAllCategories: the record's values, in its key order. */
  function GetAllCategories(categories: Record<Category>): (r: seq<Category>)
    requires categories.Valid()
    ensures |r| == |categories.keys|
    ensures forall i :: 0 <= i < |r| ==> r[i] == categories.values[categories.keys[i]]
    ensures forall c :: c in r <==> exists k :: k in categories.values && categories.values[k] == c
  {
    var r := categories.Values();
    assert forall k :: k in categories.values ==> k in categories.keys;
    forall c | exists k :: k in categories.values && categories.values[k] == c
      ensures c in r
    {
      var k :| k in categories.values && categories.values[k] == c;
      var i :| 0 <= i < |categories.keys| && categories.keys[i] == k;
      assert r[i] == c;
    }
    r
  }

  /** getMainCategories: the categories of level 1, in the record's order. */
  function GetMainCategories(categories: Record<Category>): (r: seq<Category>)
    requires categories.Valid()
    ensures Subseq(r, categories.Values())
    ensures forall c :: c in r <==> c in categories.Values() && c.level == Some(1)
    ensures forall c :: multiset(r)[c] == if c.level == Some(1) then multiset(categories.Values())[c] else 0
  {
    Filter(categories.Values(), (c: Category) => c.level == Some(1))
  }

  /** A product matches a (lowercased) query when its English name, its Danish
      name or its brand contains it, all lowercased. */
  predicate MatchesQuery(p: Product, query: string) {
    Contains(Lower(p.name.en), query) || Contains(Lower(p.name.dk), query) || Contains(Lower(p.brand), query)
  }

  /** searchResults: nothing for an empty query; otherwise the products that
      match the lowercased query, in order. The query is not trimmed. */
  function SearchResults(products: seq<Product>, searchQuery: string): (r: seq<Product>)
    ensures searchQuery == "" ==> r == []
    ensures Subseq(r, products)
    ensures searchQuery != "" ==>
      forall p :: p in r <==> p in products && MatchesQuery(p, Lower(searchQuery))
    ensures searchQuery != "" ==>
      forall p :: multiset(r)[p] == if MatchesQuery(p, Lower(searchQuery)) then multiset(products)[p] else 0
  {
    if searchQuery == "" then []
    else
      var query := Lower(searchQuery);
      Filter(products, (p: Product) => MatchesQuery(p, query))
  }

  /** filteredProducts: a non-empty query decides alone and gives the search
      results; otherwise a selected category keeps the products that list it,
      in order; otherwise all products. */
  function FilteredProducts(products: seq<Product>, searchQuery: string,
                            selectedCategoryId: Option<string>): (r: seq<Product>)
    ensures searchQuery != "" ==> r == SearchResults(products, searchQuery)
    ensures searchQuery == "" && selectedCategoryId.Some? && selectedCategoryId.value != "" ==>
      Subseq(r, products) &&
      (forall p :: p in r <==> p in products && selectedCategoryId.value in p.categories) &&
      forall p :: multiset(r)[p] == if selectedCategoryId.value in p.categories then multiset(products)[p] else 0
    ensures searchQuery == "" && (selectedCategoryId.None? || selectedCategoryId.value == "") ==>
      r == products
  {
    if searchQuery != "" then
      var query := Lower(searchQuery);
      Filter(products, (p: Product) => MatchesQuery(p, query))
    else if selectedCategoryId.Some? && selectedCategoryId.value != "" then
      var selected := selectedCategoryId.value;
      Filter(products, (p: Product) => selected in p.categories)
    else
      products
  }

  /** getCategoryName: 'Unknown Category' for an absent identifier; else the
      English name, or the Danish one when the English is empty; a non-empty
      string name as it is; otherwise 'Unnamed Category'. */
  function GetCategoryName(categories: Record<Category>, id: string): (r: string)
    ensures r != ""
    ensures id !in categories.values ==> r == UnknownCategory
    ensures id in categories.values ==>
      var name := categories.values[id].name;
      (name.Localized? && name.en != "" ==> r == name.en) &&
      (name.Localized? && name.en == "" && name.dk != "" ==> r == name.dk) &&
      (name.Plain? && name.text != "" ==> r == name.text) &&
      (name.NoName? || name == Plain("") || name == Localized("", "") ==> r == UnnamedCategory)
  {
    if id !in categories.values then UnknownCategory
    else
      match categories.values[id].name
      case Localized(en, dk) =>
        if en != "" then en else if dk != "" then dk else UnnamedCategory
      case Plain(text) =>
        if text != "" then text else UnnamedCategory
      case NoName => UnnamedCategory
  }

  // ---------------------------------------------------------------------------
  // Properties of the search

  /** The search is case-insensitive in the query: lowercasing the query
      first changes nothing. */
  lemma SearchIgnoresQueryCase(products: seq<Product>, searchQuery: string)
    ensures SearchResults(products, Lower(searchQuery)) == SearchResults(products, searchQuery)
  {
    LowerIdempotent(searchQuery);
    if searchQuery != "" {
      FilterCongruent(products,
        (p: Product) => MatchesQuery(p, Lower(Lower(searchQuery))),
        (p: Product) => MatchesQuery(p, Lower(searchQuery)));
    }
  }

  /** Typing more characters only narrows the results. */
  lemma SearchNarrows(products: seq<Product>, searchQuery: string, more: string)
    requires searchQuery != ""
    ensures forall p :: p in SearchResults(products, searchQuery + more) ==> p in SearchResults(products, searchQuery)
  {
    LowerAppend(searchQuery, more);
    forall p | p in SearchResults(products, searchQuery + more)
      ensures p in SearchResults(products, searchQuery)
    {
      var q, m := Lower(searchQuery), Lower(more);
      if Contains(Lower(p.name.en), q + m) {
        ContainsPrefix(Lower(p.name.en), q, m);
      } else if Contains(Lower(p.name.dk), q + m) {
        ContainsPrefix(Lower(p.name.dk), q, m);
      } else {
        ContainsPrefix(Lower(p.brand), q, m);
      }
    }
  }

  /** With no query and no selection, filtering keeps everything; a query made
      of whitespace is still a query. */
  lemma FilterDefaults(products: seq<Product>)
    ensures FilteredProducts(products, "", None) == products
    ensures FilteredProducts(products, "", Some("")) == products
    ensures FilteredProducts(products, " ", None) == SearchResults(products, " ")
  {
  }

  // ---------------------------------------------------------------------------
  // The store object and its actions

  /** What `$fetch('/api/data')` returns. The endpoint's file fallback sends
      no `products` when the data file has none. */
  datatype FetchedData = FetchedData(
    products: Option<seq<Product>>,
    categories: Record<Category>,
    promotionalSpots: Option<seq<PromotionalSpot>>,
    source: string)

  /** The value fetchData resolves to: the current data when it is fresh, or
      the fetched payload. */
  datatype FetchReturn =
    | Current(products: Option<seq<Product>>, categories: Record<Category>, promotionalSpots: seq<PromotionalSpot>)
    | Fetched(data: FetchedData)

  /** fetchData skips the request unless forced when the data was fetched
      less than five minutes ago; a timestamp of 0 counts as never. */
  predicate IsFresh(force: bool, lastFetched: Option<int>, now: int)
    ensures IsFresh(force, lastFetched, now) <==>
      !force && lastFetched.Some? && lastFetched.value != 0 && now < lastFetched.value + 300000
  {
    !force && lastFetched.Some? && lastFetched.value != 0 && now - lastFetched.value < CacheDuration
  }

  /** What the development-mode log throws when the fetched payload had no
      `products`: it reads the length of the undefined array. */
  const ProductsLengthError: string := "Cannot read properties of undefined (reading 'length')"

  class Store {
    /** None once a payload without `products` was stored (undefined). */
    var products: Option<seq<Product>>
    var categories: Record<Category>
    var promotionalSpots: seq<PromotionalSpot>
    var searchQuery: string
    var selectedCategoryId: Option<string>
    var dataSource: Option<string>
    var isLoading: bool
    var isHydrated: bool
    var lastFetched: Option<int>

    ghost predicate Valid()
      reads this
    {
      categories.Valid()
    }

    /** The initial state. */
    constructor ()
      ensures Valid()
      ensures products == Some([]) && categories == EmptyRecord() && promotionalSpots == []
      ensures searchQuery == "" && selectedCategoryId == None && dataSource == None
      ensures !isLoading && !isHydrated && lastFetched == None
    {
      products := Some([]);
      categories := EmptyRecord();
      promotionalSpots := [];
      searchQuery := "";
      selectedCategoryId := None;
      dataSource := None;
      isLoading := false;
      isHydrated := false;
      lastFetched := None;
    }

    /** fetchData(force). `now` is the clock when it is called, `completedAt`
        the clock when the response arrives, `fetched` what the request
        yields (the payload, or the error it throws), and `development`
        whether NODE_ENV is 'development'. In development the store logs the
        number of categories and products after storing the payload; without
        `products` that log throws, so the call rejects with the state
        already replaced. */
    method FetchData(force: bool, now: int, completedAt: int, fetched: Result<FetchedData, string>,
                     development: bool)
      returns (outcome: Result<FetchReturn, string>)
      requires Valid()
      requires fetched.Success? ==> fetched.value.categories.Valid()
      modifies this
      ensures Valid()
      ensures searchQuery == old(searchQuery) && selectedCategoryId == old(selectedCategoryId)
      ensures IsFresh(force, old(lastFetched), now) ==>
        outcome == Success(Current(old(products), old(categories), old(promotionalSpots))) &&
        products == old(products) && categories == old(categories) &&
        promotionalSpots == old(promotionalSpots) && dataSource == old(dataSource) &&
        isLoading == old(isLoading) && isHydrated == old(isHydrated) && lastFetched == old(lastFetched)
      ensures !IsFresh(force, old(lastFetched), now) ==> !isLoading
      ensures !IsFresh(force, old(lastFetched), now) && fetched.Success? ==>
        outcome == (if development && fetched.value.products.None? then Failure(ProductsLengthError)
                    else Success(Fetched(fetched.value))) &&
        products == fetched.value.products && categories == fetched.value.categories &&
        promotionalSpots == fetched.value.promotionalSpots.GetOr([]) &&
        dataSource == Some(fetched.value.source) &&
        lastFetched == Some(completedAt) && isHydrated
      ensures !IsFresh(force, old(lastFetched), now) && fetched.Failure? ==>
        outcome == Failure(fetched.error) &&
        products == old(products) && categories == old(categories) &&
        promotionalSpots == old(promotionalSpots) && dataSource == old(dataSource) &&
        isHydrated == old(isHydrated) && lastFetched == old(lastFetched)
    {
      if !force && lastFetched.Some? && lastFetched.value != 0 && now - lastFetched.value < CacheDuration {
        return Success(Current(products, categories, promotionalSpots));
      }
      isLoading := true;
      match fetched {
        case Success(data) =>
          products := data.products;
          categories := data.categories;
          promotionalSpots := if data.promotionalSpots.Some? then data.promotionalSpots.value else [];
          dataSource := Some(data.source);
          lastFetched := Some(completedAt);
          isHydrated := true;
          if development && products.None? {
            outcome := Failure(ProductsLengthError);
          } else {
            outcome := Success(Fetched(data));
          }
        case Failure(error) =>
          outcome := Failure(error);
      }
      isLoading := false;
    }

    /** setSearchQuery(query) */
    method SetSearchQuery(query: string)
      modifies this`searchQuery
      ensures searchQuery == query
    {
      searchQuery := query;
    }

    /** setSelectedCategory(categoryId) */
    method SetSelectedCategory(categoryId: string)
      modifies this`selectedCategoryId
      ensures selectedCategoryId == Some(categoryId)
    {
      selectedCategoryId := Some(categoryId);
    }
  }

  /** A fetch that completed at a non-zero time keeps the data fresh for the
      next five minutes, and a forced fetch is never skipped. */
  lemma FreshAfterFetch(completedAt: int, later: int)
    requires completedAt != 0 && completedAt <= later < completedAt + CacheDuration
    ensures IsFresh(false, Some(completedAt), later)
    ensures !IsFresh(true, Some(completedAt), later)
    ensures !IsFresh(false, None, later) && !IsFresh(false, Some(0), later)
  {
  }
}
