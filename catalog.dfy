/** The catalog's entities (types/index.ts) and the walks over the category
    tree that several parts of the storefront share. */
module Catalog {
  import opened Common

  /** A product identifier is a number or a string; `===` distinguishes `1` from `"1"`. */
  datatype ProductId = NumberId(n: int) | StringId(s: string)

  /** Stock is a count or a placeholder text such as "in stock". */
  datatype Stock = StockCount(count: int) | StockText(text: string)

  /** A size label is a string ("XS") or a number (38). */
  datatype SizeLabel = SizeText(text: string) | SizeNumber(n: int)

  /** String(size) */
  function SizeString(size: SizeLabel): string {
    match size
    case SizeText(t) => t
    case SizeNumber(n) => DecimalString(n)
  }

  datatype ProductName = ProductName(dk: string, en: string)

  datatype ProductVariant = ProductVariant(
    stock: Stock,
    color: string,
    size: seq<SizeLabel>,
    images: Option<seq<string>>)

  datatype Product = Product(
    id: ProductId,
    brand: string,
    price: real,
    stock: Stock,
    color: string,
    size: seq<SizeLabel>,
    name: ProductName,
    images: seq<string>,
    categories: seq<string>,
    variant: Option<seq<ProductVariant>>)

  /** A category name is normally the bilingual object, but the data may also
      hold a plain string or nothing at all. */
  datatype CategoryName = Localized(en: string, dk: string) | Plain(text: string) | NoName

  /** A category in tree form: `categories` holds the embedded child nodes. */
  datatype Category = Category(
    id: string,
    parentCategoryId: Option<string>,
    level: Option<int>,
    name: CategoryName,
    categories: seq<Category>)

  datatype FocalPoint = FocalPoint(x: real, y: real)

  datatype SpotImage = SpotImage(
    aspectRatio: string,
    imageUrl: string,
    focalPoint: FocalPoint,
    maxWidth: string,
    alt: string)

  datatype PromotionalSpot = PromotionalSpot(
    link: string,
    position: int,
    kind: string,
    image: SpotImage,
    imageAltText: string,
    alias: string)

  /** The data file (data/data.json): a product list, one category tree and
      the promotional spots; any of the three keys may be missing. */
  datatype DataFile = DataFile(
    products: Option<seq<Product>>,
    categories: Option<Category>,
    promotionalSpots: Option<seq<PromotionalSpot>>)

  const UnknownCategoryName: CategoryName := Localized("Unknown Category", "Ukendt kategori")

  /** A name is falsy in JavaScript when it is absent or the empty string; an
      object is always truthy, even when both of its languages are empty. */
  predicate IsTruthyName(name: CategoryName) {
    name.Localized? || (name.Plain? && name.text != "")
  }

  /** `name || { en: 'Unknown Category', dk: 'Ukendt kategori' }` */
  function NameOrDefault(name: CategoryName): (r: CategoryName)
    ensures IsTruthyName(r)
    ensures IsTruthyName(name) ==> r == name
    ensures !IsTruthyName(name) ==> r == UnknownCategoryName
  {
    if IsTruthyName(name) then name else UnknownCategoryName
  }

  // ---------------------------------------------------------------------------
  // Identifier lookup

  /** `products.find(p => p.id === id)`: the first product whose identifier is
      strictly equal to `id` (same kind and same value), or undefined. */
  function FindProductById(products: seq<Product>, id: ProductId): (r: Option<Product>)
    ensures r.None? <==> forall p :: p in products ==> p.id != id
    ensures r.Some? ==> exists i :: (0 <= i < |products| && products[i] == r.value
      && r.value.id == id && forall j :: 0 <= j < i ==> products[j].id != id)
  {
    if products == [] then None
    else if products[0].id == id then Some(products[0])
    else
      var r := FindProductById(products[1..], id);
      assert products == [products[0]] + products[1..];
      if r.Some? then
        var i :| (0 <= i < |products[1..]| && products[1..][i] == r.value
          && r.value.id == id && forall j :: 0 <= j < i ==> products[1..][j].id != id);
        assert products[i + 1] == r.value;
        r
      else r
  }

  // ---------------------------------------------------------------------------
  // Depth-first walks

  /** Every node of the tree rooted at `c`, each before its children, the
      children in their stored order. */
  function Preorder(c: Category): (r: seq<Category>)
    ensures |r| >= 1 && r[0] == c
  {
    [c] + PreorderForest(c.categories)
  }

  /** The preorder walks of a list of sibling trees, one after the other. */
  function PreorderForest(cs: seq<Category>): seq<Category> {
    if cs == [] then [] else Preorder(cs[0]) + PreorderForest(cs[1..])
  }

  function Ids(cs: seq<Category>): (r: seq<string>)
    ensures |r| == |cs|
    ensures forall i :: 0 <= i < |cs| ==> r[i] == cs[i].id
  {
    seq(|cs|, i requires 0 <= i < |cs| => cs[i].id)
  }

  lemma {:induction false} PreorderForestAppend(a: seq<Category>, b: seq<Category>)
    ensures PreorderForest(a + b) == PreorderForest(a) + PreorderForest(b)
  {
    if a == [] {
      assert a + b == b;
    } else {
      assert (a + b)[0] == a[0];
      assert (a + b)[1..] == a[1..] + b;
      PreorderForestAppend(a[1..], b);
    }
  }

  lemma PreorderForestSnoc(cs: seq<Category>, i: nat)
    requires i < |cs|
    ensures PreorderForest(cs[..i + 1]) == PreorderForest(cs[..i]) + Preorder(cs[i])
  {
    assert cs[..i + 1] == cs[..i] + [cs[i]];
    PreorderForestAppend(cs[..i], [cs[i]]);
    assert [cs[i]][1..] == [];
  }

  /** The walk of a tree lists the node itself, then the walk of each child's
      subtree as one contiguous block, the blocks in the children's order. */
  lemma ChildSubtreeBlock(c: Category, j: nat)
    requires j < |c.categories|
    ensures 1 + |PreorderForest(c.categories[..j])| + |Preorder(c.categories[j])| <= |Preorder(c)|
    ensures Preorder(c)[1 + |PreorderForest(c.categories[..j])|..
      1 + |PreorderForest(c.categories[..j])| + |Preorder(c.categories[j])|] == Preorder(c.categories[j])
  {
    var kids := c.categories;
    assert kids == kids[..j + 1] + kids[j + 1..];
    PreorderForestAppend(kids[..j + 1], kids[j + 1..]);
    PreorderForestSnoc(kids, j);
    var before, sub, after := PreorderForest(kids[..j]), Preorder(kids[j]), PreorderForest(kids[j + 1..]);
    assert Preorder(c) == ([c] + before) + sub + after;
    SliceMiddle([c] + before, sub, after);
  }

  /** A child's subtree is strictly smaller than its parent's. */
  lemma ChildSmaller(c: Category, j: nat)
    requires j < |c.categories|
    ensures |Preorder(c.categories[j])| < |Preorder(c)|
  {
    ChildSubtreeBlock(c, j);
  }

  lemma SliceMiddle<T>(a: seq<T>, b: seq<T>, c: seq<T>)
    ensures (a + b + c)[|a|..|a| + |b|] == b
  {
  }
}
