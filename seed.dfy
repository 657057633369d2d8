/** The part of the seeding script (scripts/seed.ts) that computes what is
    written: the check that the data file has its three sections, and the
    flattening of the category tree into one row per category. */
module Seed {
  import opened Common
  import opened Catalog

  /** A category row as stored in the `categories` collection: the parent is
      referenced by identifier, and the children only by their identifiers. */
  datatype CategoryRow = CategoryRow(
    id: string,
    parentCategoryId: string,
    level: int,
    name: CategoryName,
    subcategoryIds: seq<string>)

  /** The sections the seeding script needs, once all three are present. */
  datatype SeedData = SeedData(
    products: seq<Product>,
    categories: Category,
    promotionalSpots: seq<PromotionalSpot>)

  /** The data file is refused when `products`, `categories` or
      `promotionalSpots` is missing; otherwise all three are used as read. */
  function ValidateDataFile(file: DataFile): (r: Result<SeedData, string>)
    ensures r.Failure? <==>
      file.products.None? || file.categories.None? || file.promotionalSpots.None?
    ensures r.Success? ==>
      r.value == SeedData(file.products.value, file.categories.value, file.promotionalSpots.value)
  {
    match file
    case DataFile(Some(products), Some(categories), Some(spots)) =>
      Success(SeedData(products, categories, spots))
    case _ =>
      Failure("Data file missing required structure")
  }

  /** The row written for one node: a missing parent becomes '', a missing
      level 0, a missing name the bilingual placeholder, and the embedded
      children are replaced by their identifiers. */
  function RowOf(c: Category): (r: CategoryRow)
    ensures r.id == c.id
    ensures c.parentCategoryId.Some? ==> r.parentCategoryId == c.parentCategoryId.value
    ensures c.parentCategoryId.None? ==> r.parentCategoryId == ""
    ensures c.level.Some? ==> r.level == c.level.value
    ensures c.level.None? ==> r.level == 0
    ensures IsTruthyName(r.name) && (IsTruthyName(c.name) ==> r.name == c.name)
    ensures |r.subcategoryIds| == |c.categories|
    ensures forall i :: 0 <= i < |c.categories| ==> r.subcategoryIds[i] == c.categories[i].id
  {
    CategoryRow(
      c.id,
      c.parentCategoryId.GetOr(""),
      c.level.GetOr(0),
      NameOrDefault(c.name),
      Ids(c.categories))
  }

  function RowsOf(cs: seq<Category>): (r: seq<CategoryRow>)
    ensures |r| == |cs|
    ensures forall i :: 0 <= i < |cs| ==> r[i] == RowOf(cs[i])
  {
    seq(|cs|, i requires 0 <= i < |cs| => RowOf(cs[i]))
  }

  lemma RowsOfAppend(a: seq<Category>, b: seq<Category>)
    ensures RowsOf(a + b) == RowsOf(a) + RowsOf(b)
  {
  }

  /** The rows the seeding script produces for a tree. */
  function SeedRows(c: Category): seq<CategoryRow> {
    RowsOf(Preorder(c))
  }

  /** The growing array of rows that the recursive calls share. */
  class RowList {
    var rows: seq<CategoryRow>

    constructor ()
      ensures rows == []
    {
      rows := [];
    }

    method Push(row: CategoryRow)
      modifies this
      ensures rows == old(rows) + [row]
    {
      rows := rows + [row];
    }
  }

  /** `flattenCategories(category, result)`: appends the row of `category` and
      then, child by child, the rows of each child's subtree to `result`, and
      returns the same array. A null tree appends nothing. */
  method FlattenCategories(category: Option<Category>, result: RowList) returns (r: RowList)
    modifies result
    ensures r == result
    ensures result.rows == old(result.rows) + (if category.Some? then SeedRows(category.value) else [])
    decreases if category.Some? then |Preorder(category.value)| else 0
  {
    if category.None? {
      return result;
    }
    var c := category.value;
    result.Push(RowOf(c));
    var kids := c.categories;
    ghost var start := old(result.rows) + [RowOf(c)];
    for i := 0 to |kids|
      invariant result.rows == start + RowsOf(PreorderForest(kids[..i]))
    {
      ChildSmaller(c, i);
      SeedRowsStep(start, result.rows, kids, i);
      var _ := FlattenCategories(Some(kids[i]), result);
    }
    SeedRowsUnfold(old(result.rows), result.rows, c);
    return result;
  }

  /** Appending the rows of child `i` extends the rows of the first `i`
      children's subtrees to those of the first `i + 1`. */
  lemma SeedRowsStep(start: seq<CategoryRow>, rows: seq<CategoryRow>, kids: seq<Category>, i: nat)
    requires i < |kids|
    requires rows == start + RowsOf(PreorderForest(kids[..i]))
    ensures rows + SeedRows(kids[i]) == start + RowsOf(PreorderForest(kids[..i + 1]))
  {
    PreorderForestSnoc(kids, i);
    RowsOfAppend(PreorderForest(kids[..i]), Preorder(kids[i]));
  }

  /** A node's row followed by the rows of all its children's subtrees are the
      rows of its own subtree. */
  lemma SeedRowsUnfold(before: seq<CategoryRow>, rows: seq<CategoryRow>, c: Category)
    requires rows == before + [RowOf(c)] + RowsOf(PreorderForest(c.categories[..|c.categories|]))
    ensures rows == before + SeedRows(c)
  {
    assert c.categories[..|c.categories|] == c.categories;
    RowsOfAppend([c], PreorderForest(c.categories));
  }

  /** `flattenCategories(jsonData.categories)` with a fresh result array. */
  method FlattenTree(tree: Category) returns (rows: seq<CategoryRow>)
    ensures rows == SeedRows(tree)
  {
    var list := new RowList();
    var r := FlattenCategories(Some(tree), list);
    rows := list.rows;
  }
}
