/** The `product` store (stores/product.ts): the catalog read from the bundled
    data file, with the categories as one root tree. Category lookup and the
    category-aware search walk the tree below the root. */
module ProductStore {
  import opened Common
  import opened Catalog

  // ---------------------------------------------------------------------------
  // Specification of the tree walks

  /** The first node of `nodes` with identifier `id`. */
  function FirstWithId(nodes: seq<Category>, id: string): (r: Option<Category>)
    ensures r.None? <==> forall c :: c in nodes ==> c.id != id
    ensures r.Some? ==> exists i :: (0 <= i < |nodes| && nodes[i] == r.value && r.value.id == id
      && forall j :: 0 <= j < i ==> nodes[j].id != id)
  {
    if nodes == [] then None
    else if nodes[0].id == id then Some(nodes[0])
    else
      var r := FirstWithId(nodes[1..], id);
      assert nodes == [nodes[0]] + nodes[1..];
      if r.Some? then
        var i :| (0 <= i < |nodes[1..]| && nodes[1..][i] == r.value && r.value.id == id
          && forall j :: 0 <= j < i ==> nodes[1..][j].id != id);
        assert nodes[i + 1] == r.value;
        r
      else r
  }

  lemma {:induction false} FirstWithIdAppend(a: seq<Category>, b: seq<Category>, id: string)
    ensures FirstWithId(a + b, id) == if FirstWithId(a, id).Some? then FirstWithId(a, id) else FirstWithId(b, id)
  {
    if a == [] {
      assert a + b == b;
    } else {
      assert (a + b)[0] == a[0];
      assert (a + b)[1..] == a[1..] + b;
      FirstWithIdAppend(a[1..], b, id);
    }
  }

  /** A category's own name matches the query when it is the bilingual object
      and either language, lowercased, contains the query; a plain string name
      has no `en` or `dk` and never matches. */
  predicate CategoryMatches(c: Category, query: string) {
    c.name.Localized? && (Contains(Lower(c.name.en), query) || Contains(Lower(c.name.dk), query))
  }

  /** The identifiers of the nodes of `nodes` whose name matches. */
  function MatchingIds(nodes: seq<Category>, query: string): set<string> {
    set c | c in nodes && CategoryMatches(c, query) :: c.id
  }

  lemma MatchingIdsAppend(a: seq<Category>, b: seq<Category>, query: string)
    ensures MatchingIds(a + b, query) == MatchingIds(a, query) + MatchingIds(b, query)
  {
    assert forall c :: c in a + b <==> c in a || c in b;
  }

  /** A product matches the search when its English name, brand, colour or
      one of its sizes contains the query (all lowercased), or when one of its
      categories is among the matching category identifiers. */
  predicate ProductMatches(p: Product, query: string, categoryIds: set<string>) {
    Contains(Lower(p.name.en), query) ||
    Contains(Lower(p.brand), query) ||
    Contains(Lower(p.color), query) ||
    (exists size :: size in p.size && Contains(Lower(SizeString(size)), query)) ||
    (exists catId :: catId in p.categories && catId in categoryIds)
  }

  /** The search results for a root tree: nothing when the trimmed query is
      empty; otherwise the products, in order, that match the lowercased and
      trimmed query against the categories strictly below the root. */
  function SearchSpec(products: seq<Product>, root: Category, searchQuery: string): (r: seq<Product>)
    ensures Trim(searchQuery) == "" ==> r == []
    ensures Subseq(r, products)
    ensures Trim(searchQuery) != "" ==>
      var query := Trim(Lower(searchQuery));
      forall p :: p in r <==>
        p in products && ProductMatches(p, query, MatchingIds(PreorderForest(root.categories), query))
    ensures Trim(searchQuery) != "" ==>
      var query := Trim(Lower(searchQuery));
      forall p :: multiset(r)[p] ==
        if ProductMatches(p, query, MatchingIds(PreorderForest(root.categories), query)) then multiset(products)[p] else 0
  {
    if Trim(searchQuery) == "" then []
    else
      var query := Trim(Lower(searchQuery));
      var ids := MatchingIds(PreorderForest(root.categories), query);
      Filter(products, (p: Product) => ProductMatches(p, query, ids))
  }

  /** The search is the filter by ProductMatches with the matching
      identifiers of the categories below the root. */
  lemma SearchByFilter(products: seq<Product>, root: Category, searchQuery: string, ids: set<string>)
    requires Trim(searchQuery) != ""
    requires ids == {} + MatchingIds(PreorderForest(root.categories), Trim(Lower(searchQuery)))
    ensures SearchSpec(products, root, searchQuery) ==
      Filter(products, (p: Product) => ProductMatches(p, Trim(Lower(searchQuery)), ids))
  {
    var query := Trim(Lower(searchQuery));
    FilterCongruent(products,
      (p: Product) => ProductMatches(p, query, ids),
      (p: Product) => ProductMatches(p, query, MatchingIds(PreorderForest(root.categories), query)));
  }

  /** The root itself is never searched: its name plays no part. */
  lemma RootNameIgnored(products: seq<Product>, root: Category, name: CategoryName, searchQuery: string)
    ensures SearchSpec(products, root.(name := name), searchQuery) == SearchSpec(products, root, searchQuery)
  {
  }

  /** A product listed under a category below the root whose name contains
      the query is found even when none of its own fields does. */
  lemma FoundThroughCategory(products: seq<Product>, root: Category, searchQuery: string, p: Product, c: Category)
    requires Trim(searchQuery) != ""
    requires p in products
    requires c in PreorderForest(root.categories)
    requires CategoryMatches(c, Trim(Lower(searchQuery)))
    requires c.id in p.categories
    ensures p in SearchSpec(products, root, searchQuery)
  {
    var query := Trim(Lower(searchQuery));
    assert c.id in MatchingIds(PreorderForest(root.categories), query);
  }

  // ---------------------------------------------------------------------------
  // Getters

  /** filteredProducts: all products when no category is selected (null or
      ''); otherwise those whose category list literally holds the selected
      identifier, in order. Subcategories are not included. */
  function FilteredProducts(products: seq<Product>, selectedCategoryId: Option<string>): (r: seq<Product>)
    ensures selectedCategoryId.None? || selectedCategoryId.value == "" ==> r == products
    ensures selectedCategoryId.Some? && selectedCategoryId.value != "" ==> Subseq(r, products)
    ensures selectedCategoryId.Some? && selectedCategoryId.value != "" ==>
      forall p :: p in r <==> p in products && selectedCategoryId.value in p.categories
    ensures selectedCategoryId.Some? && selectedCategoryId.value != "" ==>
      forall p :: multiset(r)[p] == if selectedCategoryId.value in p.categories then multiset(products)[p] else 0
  {
    if selectedCategoryId.None? || selectedCategoryId.value == "" then products
    else
      var selected := selectedCategoryId.value;
      Filter(products, (p: Product) => selected in p.categories)
  }

  /** Selecting a category never yields a product of a subcategory that does
      not list the selected identifier itself. */
  lemma NoDescendantExpansion(products: seq<Product>, selected: string, p: Product)
    requires selected != ""
    requires selected !in p.categories
    ensures p !in FilteredProducts(products, Some(selected))
  {
  }

  // ---------------------------------------------------------------------------
  // The recursive walks

  /** findMatchingCategories(categories): adds to `matching` the identifier of
      every node of `categories` and their descendants whose name matches. */
  method FindMatchingCategories(categories: seq<Category>, query: string, matching: set<string>)
    returns (result: set<string>)
    ensures result == matching + MatchingIds(PreorderForest(categories), query)
    decreases categories
  {
    result := matching;
    for i := 0 to |categories|
      invariant result == matching + MatchingIds(PreorderForest(categories[..i]), query)
    {
      var category := categories[i];
      if CategoryMatches(category, query) {
        result := result + {category.id};
      }
      result := FindMatchingCategories(category.categories, query, result);
      PreorderForestSnoc(categories, i);
      MatchingIdsAppend(PreorderForest(categories[..i]), Preorder(category), query);
      MatchingIdsAppend([category], PreorderForest(category.categories), query);
    }
    assert categories[..|categories|] == categories;
  }

  /** findCategory(categories): the first node with identifier `id` in a
      depth-first walk of `categories`, or null. */
  method FindCategory(categories: seq<Category>, id: string) returns (found: Option<Category>)
    ensures found == FirstWithId(PreorderForest(categories), id)
    decreases categories
  {
    for i := 0 to |categories|
      invariant FirstWithId(PreorderForest(categories[..i]), id).None?
    {
      var category := categories[i];
      PreorderForestSnoc(categories, i);
      FirstWithIdAppend(PreorderForest(categories[..i]), Preorder(category), id);
      FirstWithIdAppend([category], PreorderForest(category.categories), id);
      PrefixFirst(categories, i + 1, id);
      if category.id == id {
        return Some(category);
      }
      var sub := FindCategory(category.categories, id);
      if sub.Some? {
        return sub;
      }
    }
    assert categories[..|categories|] == categories;
    return None;
  }

  /** A match among the first `n` trees is the match of the whole forest. */
  lemma PrefixFirst(categories: seq<Category>, n: nat, id: string)
    requires n <= |categories|
    ensures FirstWithId(PreorderForest(categories[..n]), id).Some? ==>
      FirstWithId(PreorderForest(categories), id) == FirstWithId(PreorderForest(categories[..n]), id)
  {
    assert categories == categories[..n] + categories[n..];
    PreorderForestAppend(categories[..n], categories[n..]);
    FirstWithIdAppend(PreorderForest(categories[..n]), PreorderForest(categories[n..]), id);
  }

  // ---------------------------------------------------------------------------
  // The store object

  class Store {
    var products: seq<Product>
    var categories: Category
    var selectedCategoryId: Option<string>
    var promotionalSpots: seq<PromotionalSpot>
    var searchQuery: string

    /** The initial state, read from the data file: missing products or spots
        become []. */
    constructor (data: DataFile)
      requires data.categories.Some?
      ensures products == data.products.GetOr([]) && categories == data.categories.value
      ensures promotionalSpots == data.promotionalSpots.GetOr([])
      ensures selectedCategoryId == None && searchQuery == ""
    {
      products := data.products.GetOr([]);
      categories := data.categories.value;
      selectedCategoryId := None;
      promotionalSpots := data.promotionalSpots.GetOr([]);
      searchQuery := "";
    }

    /** searchResults: collects the matching category identifiers below the
        root, then filters the products. */
    method SearchResults() returns (results: seq<Product>)
      ensures results == SearchSpec(products, categories, searchQuery)
    {
      if Trim(searchQuery) == "" {
        return [];
      }
      var query := Trim(Lower(searchQuery));
      var matchingCategoryIds := FindMatchingCategories(categories.categories, query, {});
      results := Filter(products, (p: Product) => ProductMatches(p, query, matchingCategoryIds));
      SearchByFilter(products, categories, searchQuery, matchingCategoryIds);
    }

    /** allCategories / getAllCategories: the root's direct children. */
    method GetAllCategories() returns (r: seq<Category>)
      ensures r == categories.categories
    {
      r := categories.categories;
    }

    /** getMainCategories: the root's direct children. */
    method GetMainCategories() returns (mainCategories: seq<Category>)
      ensures mainCategories == categories.categories
    {
      mainCategories := categories.categories;
    }

    /** getProductById(id): the first product whose identifier is the number
        `id`; a product whose identifier is the string of the same digits is
        not found. */
    method GetProductById(id: int) returns (r: Option<Product>)
      ensures r.None? <==> forall p :: p in products ==> p.id != NumberId(id)
      ensures r.Some? ==> r.value in products && r.value.id == NumberId(id)
      ensures r == FindProductById(products, NumberId(id))
    {
      r := FindProductById(products, NumberId(id));
    }

    /** getCategoryById(id): the first category with identifier `id` in a
        depth-first walk below the root; the root itself is never returned. */
    method GetCategoryById(id: string) returns (r: Option<Category>)
      ensures r.None? <==> forall c :: c in PreorderForest(categories.categories) ==> c.id != id
      ensures r == FirstWithId(PreorderForest(categories.categories), id)
    {
      r := FindCategory(categories.categories, id);
    }

    method SetSelectedCategory(categoryId: Option<string>)
      modifies this`selectedCategoryId
      ensures selectedCategoryId == categoryId
    {
      selectedCategoryId := categoryId;
    }

    method SetSearchQuery(query: string)
      modifies this`searchQuery
      ensures searchQuery == query
    {
      searchQuery := query;
    }

    /** clearSearch: empties the query, after which the search finds nothing. */
    method ClearSearch()
      modifies this`searchQuery
      ensures searchQuery == ""
      ensures SearchSpec(products, categories, searchQuery) == []
    {
      searchQuery := "";
    }
  }
}
