/** The catalog data endpoint (server/api/data.ts): the two category codecs it
    uses (flattening the file's tree into an identifier-keyed record, and
    linking the database's flat rows), the codec that rebuilds a tree from flat
    rows, and the endpoint's decision between its cache, the database and the
    local data file. The database and the file are represented by their
    outcomes, passed in as values. */
module DataApi {
  import opened Common
  import opened Catalog
  import Seed

  type CategoryRow = Seed.CategoryRow

  // ===========================================================================
  // Flattening the file's category tree (flattenCategories)

  /** The entry written for a node: a copy of the node, its nested children
      kept, with a missing name replaced by the bilingual placeholder. */
  function FlatEntry(c: Category): (r: Category)
    ensures r.id == c.id && r.parentCategoryId == c.parentCategoryId && r.level == c.level
    ensures r.categories == c.categories
    ensures IsTruthyName(r.name)
    ensures IsTruthyName(c.name) ==> r.name == c.name
    ensures !IsTruthyName(c.name) ==> r.name == UnknownCategoryName
  {
    c.(name := NameOrDefault(c.name))
  }

  /** Writes the entry of every node with a non-empty identifier into `rec`,
      in the order of `nodes`; a later node overwrites an earlier one with the
      same identifier. */
  function WriteNodes(rec: Record<Category>, nodes: seq<Category>): (r: Record<Category>)
    requires rec.Valid()
    ensures r.Valid()
    decreases |nodes|
  {
    if nodes == [] then rec
    else
      var prev := WriteNodes(rec, nodes[..|nodes| - 1]);
      var n := nodes[|nodes| - 1];
      if n.id != "" then prev.Put(n.id, FlatEntry(n)) else prev
  }

  /** What flattenCategories leaves in `rec`: the entries of the tree's nodes in
      depth-first order; nothing for a null tree. */
  function FlattenSpec(rec: Record<Category>, tree: Option<Category>): (r: Record<Category>)
    requires rec.Valid()
    ensures r.Valid()
  {
    if tree.None? then rec else WriteNodes(rec, Preorder(tree.value))
  }

  lemma {:induction false} WriteNodesAppend(rec: Record<Category>, a: seq<Category>, b: seq<Category>)
    requires rec.Valid()
    ensures WriteNodes(rec, a + b) == WriteNodes(WriteNodes(rec, a), b)
    decreases |b|
  {
    if b == [] {
      assert a + b == a;
    } else {
      assert (a + b)[..|a + b| - 1] == a + b[..|b| - 1];
      assert (a + b)[|a + b| - 1] == b[|b| - 1];
      WriteNodesAppend(rec, a, b[..|b| - 1]);
    }
  }

  /** The keys after flattening are the keys before it plus the non-empty
      identifiers of the nodes. */
  lemma {:induction false} WriteNodesKeys(rec: Record<Category>, nodes: seq<Category>)
    requires rec.Valid()
    ensures WriteNodes(rec, nodes).values.Keys ==
      rec.values.Keys + (set n | n in nodes && n.id != "" :: n.id)
    decreases |nodes|
  {
    if nodes != [] {
      var init := nodes[..|nodes| - 1];
      WriteNodesKeys(rec, init);
      assert nodes == init + [nodes[|nodes| - 1]];
      assert forall n :: n in nodes <==> n in init || n == nodes[|nodes| - 1];
    }
  }

  /** A key that no node of the tree carries keeps its previous value. */
  lemma {:induction false} WriteNodesUntouched(rec: Record<Category>, nodes: seq<Category>, k: string)
    requires rec.Valid()
    requires k in rec.values
    requires forall n :: n in nodes ==> n.id != k
    ensures k in WriteNodes(rec, nodes).values
    ensures WriteNodes(rec, nodes).values[k] == rec.values[k]
    decreases |nodes|
  {
    if nodes != [] {
      assert forall n :: n in nodes[..|nodes| - 1] ==> n in nodes;
      WriteNodesUntouched(rec, nodes[..|nodes| - 1], k);
    }
  }

  /** Last write wins: the entry for a node's identifier is that node's entry
      when no later node has the same identifier. */
  lemma {:induction false} WriteNodesLastWins(rec: Record<Category>, nodes: seq<Category>, i: nat)
    requires rec.Valid()
    requires i < |nodes| && nodes[i].id != ""
    requires forall j :: i < j < |nodes| ==> nodes[j].id != nodes[i].id
    ensures nodes[i].id in WriteNodes(rec, nodes).values
    ensures WriteNodes(rec, nodes).values[nodes[i].id] == FlatEntry(nodes[i])
    decreases |nodes|
  {
    if i < |nodes| - 1 {
      var init := nodes[..|nodes| - 1];
      WriteNodesLastWins(rec, init, i);
    }
  }

  /** The non-empty identifiers among `nodes`, in order. */
  function NonEmptyIds(nodes: seq<Category>): (r: seq<string>)
    ensures forall x :: x in r <==> x != "" && x in Ids(nodes)
    decreases |nodes|
  {
    if nodes == [] then []
    else
      var init := nodes[..|nodes| - 1];
      var n := nodes[|nodes| - 1];
      assert Ids(nodes) == Ids(init) + [n.id];
      NonEmptyIds(init) + (if n.id != "" then [n.id] else [])
  }

  /** With distinct identifiers that are new to the record, flattening appends
      the non-empty identifiers to the keys in depth-first order. */
  lemma {:induction false} WriteNodesOrder(rec: Record<Category>, nodes: seq<Category>)
    requires rec.Valid()
    requires Distinct(Ids(nodes))
    requires forall n :: n in nodes ==> n.id !in rec.values
    ensures WriteNodes(rec, nodes).keys == rec.keys + NonEmptyIds(nodes)
    decreases |nodes|
  {
    if nodes != [] {
      var init := nodes[..|nodes| - 1];
      var n := nodes[|nodes| - 1];
      WriteNodesOrderStep(rec, nodes);
      WriteNodesOrder(rec, init);
      var prev := WriteNodes(rec, init);
      assert NonEmptyIds(nodes) == NonEmptyIds(init) + (if n.id != "" then [n.id] else []);
      if n.id != "" {
        assert WriteNodes(rec, nodes) == prev.Put(n.id, FlatEntry(n));
      } else {
        assert WriteNodes(rec, nodes) == prev;
      }
    }
  }

  /** The hypotheses of WriteNodesOrder carry over to all nodes but the last,
      and the last node's identifier is not yet a key. */
  lemma WriteNodesOrderStep(rec: Record<Category>, nodes: seq<Category>)
    requires rec.Valid()
    requires nodes != []
    requires Distinct(Ids(nodes))
    requires forall n :: n in nodes ==> n.id !in rec.values
    ensures Distinct(Ids(nodes[..|nodes| - 1]))
    ensures forall n :: n in nodes[..|nodes| - 1] ==> n.id !in rec.values
    ensures nodes[|nodes| - 1].id !in WriteNodes(rec, nodes[..|nodes| - 1]).values
  {
    var init := nodes[..|nodes| - 1];
    var n := nodes[|nodes| - 1];
    assert Ids(nodes) == Ids(init) + [n.id];
    DistinctAppend(Ids(init), [n.id]);
    assert forall m :: m in init ==> m in nodes;
    WriteNodesKeys(rec, init);
    forall m | m in init
      ensures m.id != n.id
    {
      var j :| 0 <= j < |init| && init[j] == m;
      assert Ids(init)[j] == m.id;
    }
  }

  /** The flattened record of a tree whose identifiers are distinct: its keys
      are the tree's non-empty identifiers in depth-first order, and each maps
      to its own node's entry. A null tree leaves the record as it was. */
  lemma FlattenTreeRecord(tree: Category)
    requires Distinct(Ids(Preorder(tree)))
    ensures FlattenSpec(EmptyRecord(), None) == EmptyRecord()
    ensures FlattenSpec(EmptyRecord(), Some(tree)).keys == NonEmptyIds(Preorder(tree))
    ensures forall n :: n in Preorder(tree) && n.id != "" ==>
      n.id in FlattenSpec(EmptyRecord(), Some(tree)).values &&
      FlattenSpec(EmptyRecord(), Some(tree)).values[n.id] == FlatEntry(n)
  {
    var nodes := Preorder(tree);
    WriteNodesOrder(EmptyRecord(), nodes);
    forall n | n in nodes && n.id != ""
      ensures n.id in WriteNodes(EmptyRecord(), nodes).values
      ensures WriteNodes(EmptyRecord(), nodes).values[n.id] == FlatEntry(n)
    {
      var i :| 0 <= i < |nodes| && nodes[i] == n;
      assert Ids(nodes)[i] == n.id;
      forall j | i < j < |nodes| ensures nodes[j].id != n.id {
        assert Ids(nodes)[j] == nodes[j].id;
      }
      WriteNodesLastWins(EmptyRecord(), nodes, i);
    }
  }

  /** The caller-supplied record that the recursive calls write into. */
  class CategoryIndex {
    var record: Record<Category>

    constructor ()
      ensures record == EmptyRecord()
    {
      record := EmptyRecord();
    }

    /** `result[key] = value` */
    method Set(key: string, value: Category)
      requires record.Valid()
      modifies this
      ensures record == old(record).Put(key, value)
    {
      record := record.Put(key, value);
    }
  }

  lemma WriteNodesStep(rec: Record<Category>, kids: seq<Category>, i: nat)
    requires rec.Valid()
    requires i < |kids|
    ensures WriteNodes(rec, PreorderForest(kids[..i + 1]))
      == WriteNodes(WriteNodes(rec, PreorderForest(kids[..i])), Preorder(kids[i]))
  {
    PreorderForestSnoc(kids, i);
    WriteNodesAppend(rec, PreorderForest(kids[..i]), Preorder(kids[i]));
  }

  lemma WriteNodesUnfold(rec: Record<Category>, c: Category)
    requires rec.Valid()
    ensures WriteNodes(rec, [c]) == if c.id != "" then rec.Put(c.id, FlatEntry(c)) else rec
    ensures WriteNodes(rec, Preorder(c))
      == WriteNodes(WriteNodes(rec, [c]), PreorderForest(c.categories[..|c.categories|]))
  {
    assert c.categories[..|c.categories|] == c.categories;
    WriteNodesAppend(rec, [c], PreorderForest(c.categories));
    assert [c][..0] == [];
  }

  /** `flattenCategories(categoriesTree, result)`: writes the node (when its
      identifier is non-empty) and then each child's subtree into `result`, and
      returns the same record. */
  method FlattenCategories(categoriesTree: Option<Category>, result: CategoryIndex) returns (r: CategoryIndex)
    requires result.record.Valid()
    modifies result
    ensures r == result
    ensures result.record == FlattenSpec(old(result.record), categoriesTree)
    decreases if categoriesTree.Some? then |Preorder(categoriesTree.value)| else 0
  {
    if categoriesTree.None? {
      return result;
    }
    var c := categoriesTree.value;
    if c.id != "" {
      result.Set(c.id, FlatEntry(c));
    }
    WriteNodesUnfold(old(result.record), c);
    ghost var start := WriteNodes(old(result.record), [c]);
    var kids := c.categories;
    assert kids[..0] == [];
    for i := 0 to |kids|
      invariant result.record.Valid()
      invariant result.record == WriteNodes(start, PreorderForest(kids[..i]))
    {
      ChildSubtreeBlock(c, i);
      WriteNodesStep(start, kids, i);
      var _ := FlattenCategories(Some(kids[i]), result);
    }
    return result;
  }

  // ===========================================================================
  // Rows and the identifiers of rows

  function RowIds(rows: seq<CategoryRow>): (r: seq<string>)
    ensures |r| == |rows|
    ensures forall i :: 0 <= i < |rows| ==> r[i] == rows[i].id
  {
    seq(|rows|, i requires 0 <= i < |rows| => rows[i].id)
  }

  function RowIdSet(rows: seq<CategoryRow>): set<string> {
    set row | row in rows :: row.id
  }

  /** The last row with identifier `k`: the one a map keyed by identifier holds
      after all rows were written in order. */
  function LastWithId(rows: seq<CategoryRow>, k: string): (r: CategoryRow)
    requires k in RowIdSet(rows)
    ensures r in rows && r.id == k
    decreases |rows|
  {
    var last := rows[|rows| - 1];
    if last.id == k then last
    else
      var init := rows[..|rows| - 1];
      assert rows == init + [last];
      assert k in RowIdSet(init);
      LastWithId(init, k)
  }

  /** No row after the one LastWithId picks has the same identifier. */
  lemma {:induction false} LastWithIdIsLast(rows: seq<CategoryRow>, k: string)
    requires k in RowIdSet(rows)
    ensures exists i :: (0 <= i < |rows| && rows[i] == LastWithId(rows, k) &&
      forall j :: i < j < |rows| ==> rows[j].id != k)
    decreases |rows|
  {
    var last := rows[|rows| - 1];
    if last.id != k {
      var init := rows[..|rows| - 1];
      assert rows == init + [last];
      assert k in RowIdSet(init);
      LastWithIdIsLast(init, k);
      var i :| 0 <= i < |init| && init[i] == LastWithId(init, k) &&
        forall j :: i < j < |init| ==> init[j].id != k;
      assert rows[i] == LastWithId(rows, k);
    }
  }

  /** The identifiers of the rows whose parent is `parent`, in input order. */
  function IdsWithParent(rows: seq<CategoryRow>, parent: string): seq<string>
    decreases |rows|
  {
    if rows == [] then []
    else
      var last := rows[|rows| - 1];
      IdsWithParent(rows[..|rows| - 1], parent) + (if last.parentCategoryId == parent then [last.id] else [])
  }

  lemma {:induction false} IdsWithParentAppend(a: seq<CategoryRow>, b: seq<CategoryRow>, parent: string)
    ensures IdsWithParent(a + b, parent) == IdsWithParent(a, parent) + IdsWithParent(b, parent)
    decreases |b|
  {
    if b == [] {
      assert a + b == a;
    } else {
      assert (a + b)[..|a + b| - 1] == a + b[..|b| - 1];
      assert (a + b)[|a + b| - 1] == b[|b| - 1];
      IdsWithParentAppend(a, b[..|b| - 1], parent);
    }
  }

  /** An identifier is listed under `parent` exactly when some row with that
      identifier names `parent` as its parent. */
  lemma {:induction false} IdsWithParentMembers(rows: seq<CategoryRow>, parent: string, x: string)
    ensures x in IdsWithParent(rows, parent) <==>
      exists row :: row in rows && row.parentCategoryId == parent && row.id == x
    decreases |rows|
  {
    if rows != [] {
      var init := rows[..|rows| - 1];
      IdsWithParentMembers(init, parent, x);
      assert rows == init + [rows[|rows| - 1]];
      assert forall row :: row in rows <==> row in init || row == rows[|rows| - 1];
    }
  }

  lemma IdsWithParentSnoc(rows: seq<CategoryRow>, i: nat, parent: string)
    requires i < |rows|
    ensures IdsWithParent(rows[..i + 1], parent) ==
      IdsWithParent(rows[..i], parent) + (if rows[i].parentCategoryId == parent then [rows[i].id] else [])
  {
    RowsSnoc(rows, i);
  }

  /** Extending the rows by one: how the identifier set, the last row per
      identifier and the children lists change. */
  lemma RowsSnoc(rows: seq<CategoryRow>, i: nat)
    requires i < |rows|
    ensures RowIds(rows[..i + 1]) == RowIds(rows[..i]) + [rows[i].id]
    ensures RowIdSet(rows[..i + 1]) == RowIdSet(rows[..i]) + {rows[i].id}
    ensures forall k :: k in RowIdSet(rows[..i + 1]) ==>
      LastWithId(rows[..i + 1], k) == if k == rows[i].id then rows[i] else LastWithId(rows[..i], k)
    ensures forall k :: (IdsWithParent(rows[..i + 1], k) ==
      IdsWithParent(rows[..i], k) + (if rows[i].parentCategoryId == k then [rows[i].id] else []))
  {
    var pre := rows[..i + 1];
    assert pre == rows[..i] + [rows[i]];
    assert pre[..|pre| - 1] == rows[..i];
    assert pre[|pre| - 1] == rows[i];
    forall k | k in RowIdSet(pre)
      ensures LastWithId(pre, k) == if k == rows[i].id then rows[i] else LastWithId(rows[..i], k)
    {
      if k != rows[i].id {
        assert k in RowIdSet(rows[..i]);
      }
    }
  }

  // ===========================================================================
  // Rebuilding a tree from flat rows (resolveNestedCategories)

  /** A node built from a row: the row's fields and the identifiers of the
      nodes linked under it (each identifier stands for the one node object the
      map holds for it). */
  datatype ResolvedCategory = ResolvedCategory(row: CategoryRow, categories: seq<string>)

  /** What pass 1 has built from `rows`: one childless node per identifier,
      holding the last row with that identifier. */
  function IndexedMap(rows: seq<CategoryRow>): map<string, ResolvedCategory> {
    map k | k in RowIdSet(rows) :: ResolvedCategory(LastWithId(rows, k), [])
  }

  /** What pass 2 has built after its first `n` rows: every node of `rows`,
      with the rows among the first `n` that name it as their parent linked
      under it, except under `parentId`. */
  function LinkedMap(rows: seq<CategoryRow>, parentId: string, n: nat): map<string, ResolvedCategory>
    requires n <= |rows|
  {
    map k | k in RowIdSet(rows) ::
      ResolvedCategory(LastWithId(rows, k), if k == parentId then [] else IdsWithParent(rows[..n], k))
  }

  /** One first-pass step replaces the node for the row's identifier by a
      childless node built from that row. */
  lemma IndexStep(rows: seq<CategoryRow>, i: nat)
    requires i < |rows|
    ensures IndexedMap(rows[..i + 1]) == IndexedMap(rows[..i])[rows[i].id := ResolvedCategory(rows[i], [])]
  {
    RowsSnoc(rows, i);
    var after := IndexedMap(rows[..i])[rows[i].id := ResolvedCategory(rows[i], [])];
    forall k | k in after
      ensures after[k] == IndexedMap(rows[..i + 1])[k]
    {
    }
    MapsEqual(after, IndexedMap(rows[..i + 1]));
  }

  /** Before pass 2 nothing is linked. */
  lemma IndexedIsLinked(rows: seq<CategoryRow>, parentId: string)
    ensures IndexedMap(rows) == LinkedMap(rows, parentId, 0)
  {
    assert rows[..0] == [];
    MapsEqual(IndexedMap(rows), LinkedMap(rows, parentId, 0));
  }

  lemma LinkValues(rows: seq<CategoryRow>, parentId: string, i: nat)
    requires i < |rows|
    ensures var before := LinkedMap(rows, parentId, i);
      var p := rows[i].parentCategoryId;
      var after := if p != parentId && p in before
        then before[p := before[p].(categories := before[p].categories + [rows[i].id])]
        else before;
      forall k :: k in after ==> after[k] == LinkedMap(rows, parentId, i + 1)[k]
  {
    var before := LinkedMap(rows, parentId, i);
    var p := rows[i].parentCategoryId;
    if p != parentId && p in before {
      var after := before[p := before[p].(categories := before[p].categories + [rows[i].id])];
      forall k | k in after
        ensures after[k] == LinkedMap(rows, parentId, i + 1)[k]
      {
        assert k in before;
        IdsWithParentSnoc(rows, i, k);
      }
    } else {
      forall k | k in before
        ensures before[k] == LinkedMap(rows, parentId, i + 1)[k]
      {
        assert k == parentId || k != p;
        IdsWithParentSnoc(rows, i, k);
      }
    }
  }

  /** One second-pass step: a row under `parentId` is appended to the
      result; a row with another known parent is appended to that parent's
      children; any other row changes nothing. */
  lemma LinkStep(rows: seq<CategoryRow>, parentId: string, i: nat)
    requires i < |rows|
    ensures IdsWithParent(rows[..i + 1], parentId) ==
      IdsWithParent(rows[..i], parentId) + (if rows[i].parentCategoryId == parentId then [rows[i].id] else [])
    ensures var before := LinkedMap(rows, parentId, i);
      var p := rows[i].parentCategoryId;
      LinkedMap(rows, parentId, i + 1) ==
        if p != parentId && p in before
        then before[p := before[p].(categories := before[p].categories + [rows[i].id])]
        else before
  {
    IdsWithParentSnoc(rows, i, parentId);
    var before := LinkedMap(rows, parentId, i);
    var p := rows[i].parentCategoryId;
    LinkValues(rows, parentId, i);
    var after := if p != parentId && p in before
      then before[p := before[p].(categories := before[p].categories + [rows[i].id])]
      else before;
    MapsEqual(after, LinkedMap(rows, parentId, i + 1));
  }

  /** `resolveNestedCategories(categories, parentId)`. Pass 1 creates one node
      per identifier with no children; pass 2 appends each row whose parent is
      `parentId` to the result and links every other row whose parent is a
      known identifier under that parent; all other rows are dropped. The
      result is returned as the identifiers of its root nodes together with
      the map of all nodes. */
  method ResolveNestedCategories(categories: seq<CategoryRow>, parentId: string)
    returns (resolvedCategories: seq<string>, categoryMap: map<string, ResolvedCategory>)
    ensures categoryMap.Keys == RowIdSet(categories)
    ensures forall k :: k in categoryMap ==> categoryMap[k].row == LastWithId(categories, k)
    ensures resolvedCategories == IdsWithParent(categories, parentId)
    ensures forall k :: k in categoryMap ==>
      categoryMap[k].categories == if k == parentId then [] else IdsWithParent(categories, k)
  {
    categoryMap := map[];
    assert categories[..0] == [];
    for i := 0 to |categories|
      invariant categoryMap == IndexedMap(categories[..i])
    {
      var category := categories[i];
      IndexStep(categories, i);
      categoryMap := categoryMap[category.id := ResolvedCategory(category, [])];
    }
    assert categories[..|categories|] == categories;

    resolvedCategories := [];
    IndexedIsLinked(categories, parentId);
    for i := 0 to |categories|
      invariant resolvedCategories == IdsWithParent(categories[..i], parentId)
      invariant categoryMap == LinkedMap(categories, parentId, i)
    {
      var category := categories[i];
      LinkStep(categories, parentId, i);
      if category.parentCategoryId == parentId {
        resolvedCategories := resolvedCategories + [category.id];
      } else if category.parentCategoryId in categoryMap {
        var parent := categoryMap[category.parentCategoryId];
        categoryMap := categoryMap[category.parentCategoryId := parent.(categories := parent.categories + [category.id])];
      }
    }
    assert categories[..|categories|] == categories;
  }

  /** Every row is placed at most once: under `parentId` among the roots, under
      its known parent, or nowhere when its parent is unknown. */
  lemma ResolvedPlacement(rows: seq<CategoryRow>, parentId: string, x: string)
    ensures x in IdsWithParent(rows, parentId) <==>
      exists row :: row in rows && row.parentCategoryId == parentId && row.id == x
    ensures forall k :: k in RowIdSet(rows) && k != parentId ==>
      (x in IdsWithParent(rows, k) <==> exists row :: row in rows && row.parentCategoryId == k && row.id == x)
  {
    IdsWithParentMembers(rows, parentId, x);
    forall k | k in RowIdSet(rows) && k != parentId
      ensures x in IdsWithParent(rows, k) <==> exists row :: row in rows && row.parentCategoryId == k && row.id == x
    {
      IdsWithParentMembers(rows, k, x);
    }
  }

  // ===========================================================================
  // Linking the database rows into an identifier-keyed record (handler, first
  // and second pass)

  /** A record entry built from a database row: the row's fields, and the
      identifiers of the entries pushed onto its `categories` array. */
  datatype LinkedCategory = LinkedCategory(
    id: string,
    parentCategoryId: string,
    level: int,
    name: CategoryName,
    categories: seq<string>)

  function LinkedEntry(row: CategoryRow): (r: LinkedCategory)
    ensures r.id == row.id && r.parentCategoryId == row.parentCategoryId
    ensures r.level == row.level && r.name == row.name
    ensures r.categories == []
  {
    LinkedCategory(row.id, row.parentCategoryId, row.level, row.name, [])
  }

  /** The distinct elements of `s` in order of first appearance. */
  function FirstOccurrences(s: seq<string>): (r: seq<string>)
    ensures Distinct(r)
    ensures forall x :: x in r <==> x in s
    decreases |s|
  {
    if s == [] then []
    else
      var init := s[..|s| - 1];
      var prev := FirstOccurrences(init);
      assert s == init + [s[|s| - 1]];
      if s[|s| - 1] in prev then prev else prev + [s[|s| - 1]]
  }

  /** The row identifiers in first-appearance order are exactly the row
      identifiers. */
  lemma FirstOccurrencesOfRows(rows: seq<CategoryRow>)
    ensures forall k :: k in FirstOccurrences(RowIds(rows)) <==> k in RowIdSet(rows)
  {
    forall k ensures k in FirstOccurrences(RowIds(rows)) <==> k in RowIdSet(rows) {
      if k in RowIds(rows) {
        var i :| 0 <= i < |rows| && RowIds(rows)[i] == k;
        assert rows[i] in rows;
      }
      if k in RowIdSet(rows) {
        var row :| row in rows && row.id == k;
        var i :| 0 <= i < |rows| && rows[i] == row;
        assert RowIds(rows)[i] == k;
      }
    }
  }

  /** What the handler's two passes build: one entry per distinct row
      identifier, keyed in first-appearance order; each entry has the fields of
      the last row with its identifier, and as children the identifiers, in
      input order, of the rows whose non-empty parent is that key. */
  function LinkedCategoryMap(rows: seq<CategoryRow>): (r: Record<LinkedCategory>)
    ensures r.Valid()
  {
    FirstOccurrencesOfRows(rows);
    Record(FirstOccurrences(RowIds(rows)), map k | k in RowIdSet(rows) ::
      LinkedEntry(LastWithId(rows, k)).(categories := if k == "" then [] else IdsWithParent(rows, k)))
  }

  /** What the first pass has built from `rows`: keys in first appearance
      order, each holding a childless entry from the last row with that key. */
  function CollectedMap(rows: seq<CategoryRow>): (r: Record<LinkedCategory>)
    ensures r.Valid()
  {
    FirstOccurrencesOfRows(rows);
    Record(FirstOccurrences(RowIds(rows)), map k | k in RowIdSet(rows) :: LinkedEntry(LastWithId(rows, k)))
  }

  /** What the second pass has built after its first `n` rows. */
  function AttachedMap(rows: seq<CategoryRow>, n: nat): (r: Record<LinkedCategory>)
    requires n <= |rows|
    ensures r.Valid()
  {
    FirstOccurrencesOfRows(rows);
    Record(FirstOccurrences(RowIds(rows)), map k | k in RowIdSet(rows) ::
      LinkedEntry(LastWithId(rows, k)).(categories := if k == "" then [] else IdsWithParent(rows[..n], k)))
  }

  lemma CollectKeys(rows: seq<CategoryRow>, i: nat)
    requires i < |rows|
    ensures FirstOccurrences(RowIds(rows[..i + 1])) ==
      var prev := FirstOccurrences(RowIds(rows[..i]));
      if rows[i].id in RowIdSet(rows[..i]) then prev else prev + [rows[i].id]
  {
    RowsSnoc(rows, i);
    var ids := RowIds(rows[..i + 1]);
    assert ids[..|ids| - 1] == RowIds(rows[..i]);
    assert ids[|ids| - 1] == rows[i].id;
  }

  lemma CollectValues(rows: seq<CategoryRow>, i: nat, before: map<string, LinkedCategory>)
    requires i < |rows|
    requires before.Keys == RowIdSet(rows[..i])
    requires forall k :: k in before ==> before[k] == LinkedEntry(LastWithId(rows[..i], k))
    ensures var after := before[rows[i].id := LinkedEntry(rows[i])];
      after.Keys == RowIdSet(rows[..i + 1]) &&
      forall k :: k in after ==> after[k] == LinkedEntry(LastWithId(rows[..i + 1], k))
  {
    RowsSnoc(rows, i);
    var after := before[rows[i].id := LinkedEntry(rows[i])];
    forall k | k in after
      ensures after[k] == LinkedEntry(LastWithId(rows[..i + 1], k))
    {
      if k != rows[i].id {
        assert k in before;
      }
    }
  }

  lemma CollectedValuesStep(rows: seq<CategoryRow>, i: nat)
    requires i < |rows|
    ensures CollectedMap(rows[..i + 1]).values ==
      CollectedMap(rows[..i]).values[rows[i].id := LinkedEntry(rows[i])]
  {
    var before := CollectedMap(rows[..i]).values;
    CollectValues(rows, i, before);
    MapsEqual(before[rows[i].id := LinkedEntry(rows[i])], CollectedMap(rows[..i + 1]).values);
  }

  /** One first-pass step puts the row's childless entry under its identifier. */
  lemma CollectStep(rows: seq<CategoryRow>, i: nat)
    requires i < |rows|
    ensures CollectedMap(rows[..i + 1]) == CollectedMap(rows[..i]).Put(rows[i].id, LinkedEntry(rows[i]))
  {
    RowsSnoc(rows, i);
    CollectKeys(rows, i);
    CollectedValuesStep(rows, i);
  }

  lemma AttachValues(rows: seq<CategoryRow>, i: nat, before: map<string, LinkedCategory>)
    requires i < |rows|
    requires before.Keys == RowIdSet(rows)
    requires forall k :: k in before ==>
      before[k] == LinkedEntry(LastWithId(rows, k)).(categories :=
        if k == "" then [] else IdsWithParent(rows[..i], k))
    ensures var p := rows[i].parentCategoryId;
      var after := if p != "" && p in before
        then before[p := before[p].(categories := before[p].categories + [rows[i].id])]
        else before;
      forall k :: k in after ==>
        after[k] == LinkedEntry(LastWithId(rows, k)).(categories :=
          if k == "" then [] else IdsWithParent(rows[..i + 1], k))
  {
    var p := rows[i].parentCategoryId;
    if p != "" && p in before {
      var after := before[p := before[p].(categories := before[p].categories + [rows[i].id])];
      forall k | k in after
        ensures after[k] == LinkedEntry(LastWithId(rows, k)).(categories :=
          if k == "" then [] else IdsWithParent(rows[..i + 1], k))
      {
        assert k in before;
        IdsWithParentSnoc(rows, i, k);
      }
    } else {
      forall k | k in before
        ensures before[k] == LinkedEntry(LastWithId(rows, k)).(categories :=
          if k == "" then [] else IdsWithParent(rows[..i + 1], k))
      {
        assert k == "" || k != p;
        IdsWithParentSnoc(rows, i, k);
      }
    }
  }

  /** One second-pass step appends the row's identifier to the children of
      its parent when that parent is non-empty and has an entry, and changes
      nothing otherwise. */
  lemma AttachedValuesStep(rows: seq<CategoryRow>, i: nat)
    requires i < |rows|
    ensures var before := AttachedMap(rows, i).values;
      var p := rows[i].parentCategoryId;
      AttachedMap(rows, i + 1).values ==
        if p != "" && p in before
        then before[p := before[p].(categories := before[p].categories + [rows[i].id])]
        else before
  {
    var before := AttachedMap(rows, i).values;
    var p := rows[i].parentCategoryId;
    AttachValues(rows, i, before);
    var next := if p != "" && p in before
      then before[p := before[p].(categories := before[p].categories + [rows[i].id])]
      else before;
    MapsEqual(next, AttachedMap(rows, i + 1).values);
  }

  /** One second-pass step appends the row's identifier to the children of
      its parent when that parent is non-empty and has an entry, and changes
      nothing otherwise. */
  lemma AttachStep(rows: seq<CategoryRow>, i: nat)
    requires i < |rows|
    ensures var before := AttachedMap(rows, i);
      var p := rows[i].parentCategoryId;
      AttachedMap(rows, i + 1) ==
        if p != "" && p in before.values
        then before.Put(p, before.values[p].(categories := before.values[p].categories + [rows[i].id]))
        else before
  {
    AttachedValuesStep(rows, i);
  }

  /** Before the second pass the first pass's record has no children yet. */
  lemma CollectedIsAttached(rows: seq<CategoryRow>)
    ensures CollectedMap(rows) == AttachedMap(rows, 0)
  {
    assert rows[..0] == [];
    var collected, attached := CollectedMap(rows), AttachedMap(rows, 0);
    forall k | k in collected.values
      ensures collected.values[k] == attached.values[k]
    {
    }
    MapsEqual(collected.values, attached.values);
  }

  /** After the second pass over all rows the record is LinkedCategoryMap. */
  lemma AttachedAll(rows: seq<CategoryRow>)
    ensures AttachedMap(rows, |rows|) == LinkedCategoryMap(rows)
  {
    assert rows[..|rows|] == rows;
    var attached, spec := AttachedMap(rows, |rows|), LinkedCategoryMap(rows);
    forall k | k in attached.values
      ensures attached.values[k] == spec.values[k]
    {
    }
    MapsEqual(attached.values, spec.values);
  }

  /** The handler's inline two-pass build of `categoriesMap` from the rows of
      the `categories` collection. */
  method BuildCategoryMap(categoriesFromMongo: seq<CategoryRow>) returns (categoriesMap: Record<LinkedCategory>)
    ensures categoriesMap == LinkedCategoryMap(categoriesFromMongo)
  {
    categoriesMap := CollectRows(categoriesFromMongo);
    categoriesMap := AttachChildren(categoriesFromMongo, categoriesMap);
    AttachedAll(categoriesFromMongo);
  }

  /** First pass: one entry per row identifier, later rows overwriting earlier ones. */
  method CollectRows(rows: seq<CategoryRow>) returns (categoriesMap: Record<LinkedCategory>)
    ensures categoriesMap == CollectedMap(rows)
  {
    categoriesMap := EmptyRecord();
    assert rows[..0] == [];
    for i := 0 to |rows|
      invariant categoriesMap == CollectedMap(rows[..i])
    {
      var cat := rows[i];
      CollectStep(rows, i);
      categoriesMap := categoriesMap.Put(cat.id, LinkedEntry(cat));
    }
    assert rows[..|rows|] == rows;
  }

  /** Second pass: each row with a non-empty, known parent is pushed onto that
      parent's children. */
  method AttachChildren(rows: seq<CategoryRow>, collected: Record<LinkedCategory>)
    returns (categoriesMap: Record<LinkedCategory>)
    requires collected == CollectedMap(rows)
    ensures categoriesMap == AttachedMap(rows, |rows|)
  {
    categoriesMap := collected;
    CollectedIsAttached(rows);
    for i := 0 to |rows|
      invariant categoriesMap == AttachedMap(rows, i)
    {
      categoriesMap := AttachChild(rows, i, categoriesMap);
    }
  }

  /** The second pass's callback for the row `rows[i]`. */
  method AttachChild(rows: seq<CategoryRow>, i: nat, categoriesMap: Record<LinkedCategory>)
    returns (updated: Record<LinkedCategory>)
    requires i < |rows| && categoriesMap == AttachedMap(rows, i)
    ensures updated == AttachedMap(rows, i + 1)
  {
    var cat := rows[i];
    AttachStep(rows, i);
    updated := categoriesMap;
    if cat.parentCategoryId != "" && cat.parentCategoryId in categoriesMap.values {
      var parent := categoriesMap.values[cat.parentCategoryId];
      updated := categoriesMap.Put(cat.parentCategoryId, parent.(categories := parent.categories + [cat.id]));
    }
  }

  /** A row whose parent is empty or is no row's identifier is linked under no
      entry; a listed child always names the entry as its parent. */
  lemma LinkedChildren(rows: seq<CategoryRow>, k: string, x: string)
    requires k in LinkedCategoryMap(rows).values
    ensures x in LinkedCategoryMap(rows).values[k].categories <==>
      k != "" && exists row :: row in rows && row.parentCategoryId == k && row.id == x
  {
    IdsWithParentMembers(rows, k, x);
  }

  // ===========================================================================
  // The endpoint: cache, database, data file, error

  /** How long a cached response is served: five minutes, in milliseconds. */
  const CacheDuration: int := 5 * 60 * 1000

  const MongoSource: string := "mongodb"
  const FileSource: string := "local_file"
  const MissingUriMessage: string := "MongoDB URI is not configured"
  const BothFailedMessage: string := "Failed to fetch data from both MongoDB and fallback file"

  /** The three collections as read from the database. */
  datatype MongoData = MongoData(
    products: seq<Product>,
    categories: seq<CategoryRow>,
    promotionalSpots: Option<seq<PromotionalSpot>>)

  datatype CategoriesPayload =
    | FromMongo(linked: Record<LinkedCategory>)
    | FromFile(nested: Record<Category>)

  /** The response body; `products` is whatever the source held, and a data
      file without products yields none. */
  datatype Payload = Payload(
    source: string,
    products: Option<seq<Product>>,
    categories: CategoriesPayload,
    promotionalSpots: seq<PromotionalSpot>)

  datatype CacheEntry = CacheEntry(data: Payload, timestamp: int, source: string)

  /** The error raised when both sources fail, carrying both messages. */
  datatype HttpError = HttpError(
    statusCode: int,
    statusMessage: string,
    mongoError: string,
    fallbackError: string)

  /** isCacheValid(): a cached response exists and is younger than five minutes. */
  predicate IsCacheValid(cache: Option<CacheEntry>, now: int)
    ensures cache.None? ==> !IsCacheValid(cache, now)
    ensures cache.Some? ==> (IsCacheValid(cache, now) <==> now < cache.value.timestamp + 300000)
  {
    cache.Some? && now - cache.value.timestamp < CacheDuration
  }

  function MongoPayload(data: MongoData): Payload {
    Payload(MongoSource, Some(data.products), FromMongo(LinkedCategoryMap(data.categories)),
      data.promotionalSpots.GetOr([]))
  }

  function FilePayload(file: DataFile): Payload {
    Payload(FileSource, file.products, FromFile(FlattenSpec(EmptyRecord(), file.categories)),
      file.promotionalSpots.GetOr([]))
  }

  /** The database attempt: a missing connection string fails before any
      connection is made. */
  function MongoAttempt(mongodbUri: string, mongo: Result<MongoData, string>): Result<MongoData, string> {
    if mongodbUri == "" then Failure(MissingUriMessage) else mongo
  }

  datatype Response = Response(body: Result<Payload, HttpError>, cache: Option<CacheEntry>)

  /** The handler's decision. `now` is the clock when the request arrives,
      `doneAt` the clock when a successful fetch stores its result; `mongo` and
      `file` are the outcomes the two sources would give. */
  function Respond(cache: Option<CacheEntry>, now: int, doneAt: int, mongodbUri: string,
                   mongo: Result<MongoData, string>, file: Result<DataFile, string>): (r: Response)
    ensures r.body.Failure? <==> !IsCacheValid(cache, now) && (mongodbUri == "" || mongo.Failure?) && file.Failure?
    ensures r.body.Failure? ==> r.body.error.statusCode == 500 && r.body.error.fallbackError == file.error
  {
    if IsCacheValid(cache, now) then Response(Success(cache.value.data), cache)
    else match MongoAttempt(mongodbUri, mongo)
      case Success(data) =>
        var payload := MongoPayload(data);
        Response(Success(payload), Some(CacheEntry(payload, doneAt, MongoSource)))
      case Failure(mongoError) =>
        match file
        case Success(parsed) =>
          var payload := FilePayload(parsed);
          Response(Success(payload), Some(CacheEntry(payload, doneAt, FileSource)))
        case Failure(fallbackError) =>
          Response(Failure(HttpError(500, BothFailedMessage, mongoError, fallbackError)), cache)
  }

  /** While the cache is valid the cached body is returned and neither source
      is consulted: the answer is the same whatever they would have given. */
  lemma CacheHitIgnoresSources(cache: Option<CacheEntry>, now: int, doneAt: int, uri: string,
                               mongo1: Result<MongoData, string>, file1: Result<DataFile, string>,
                               mongo2: Result<MongoData, string>, file2: Result<DataFile, string>)
    requires IsCacheValid(cache, now)
    ensures Respond(cache, now, doneAt, uri, mongo1, file1) == Respond(cache, now, doneAt, uri, mongo2, file2)
    ensures Respond(cache, now, doneAt, uri, mongo1, file1) == Response(Success(cache.value.data), cache)
  {
  }

  /** A cache miss tries the database first, then the file; the first source
      that succeeds is cached with its provenance, and the spots default to []. */
  lemma SourcePrecedence(cache: Option<CacheEntry>, now: int, doneAt: int, uri: string,
                         mongo: Result<MongoData, string>, file: Result<DataFile, string>)
    requires !IsCacheValid(cache, now)
    ensures var r := Respond(cache, now, doneAt, uri, mongo, file);
      (uri != "" && mongo.Success? ==>
        r.body == Success(MongoPayload(mongo.value)) && r.body.value.source == "mongodb"
        && r.cache == Some(CacheEntry(r.body.value, doneAt, "mongodb"))
        && (mongo.value.promotionalSpots.None? ==> r.body.value.promotionalSpots == []))
      && ((uri == "" || mongo.Failure?) && file.Success? ==>
        r.body == Success(FilePayload(file.value)) && r.body.value.source == "local_file"
        && r.cache == Some(CacheEntry(r.body.value, doneAt, "local_file"))
        && (file.value.promotionalSpots.None? ==> r.body.value.promotionalSpots == []))
  {
  }

  /** When both sources fail the request fails with status 500, both messages
      are carried, and the cache is left as it was. */
  lemma BothSourcesFail(cache: Option<CacheEntry>, now: int, doneAt: int, uri: string,
                        mongo: Result<MongoData, string>, file: Result<DataFile, string>)
    requires !IsCacheValid(cache, now)
    requires uri == "" || mongo.Failure?
    requires file.Failure?
    ensures var r := Respond(cache, now, doneAt, uri, mongo, file);
      r.cache == cache && r.body.Failure? && r.body.error.statusCode == 500
      && r.body.error.mongoError == (if uri == "" then MissingUriMessage else mongo.error)
      && r.body.error.fallbackError == file.error
  {
  }

  /** The cache is written only by a successful fetch. */
  lemma CacheWrittenOnlyOnSuccess(cache: Option<CacheEntry>, now: int, doneAt: int, uri: string,
                                  mongo: Result<MongoData, string>, file: Result<DataFile, string>)
    ensures var r := Respond(cache, now, doneAt, uri, mongo, file);
      r.cache != cache ==> r.body.Success? && r.cache == Some(CacheEntry(r.body.value, doneAt, r.body.value.source))
  {
  }

  /** A second request less than five minutes after a successful fetch gets
      the same body without consulting either source. */
  lemma RepeatWithinWindow(cache: Option<CacheEntry>, now: int, doneAt: int, uri: string,
                           mongo: Result<MongoData, string>, file: Result<DataFile, string>,
                           later: int, laterDone: int, uri2: string,
                           mongo2: Result<MongoData, string>, file2: Result<DataFile, string>)
    requires Respond(cache, now, doneAt, uri, mongo, file).body.Success?
    requires later - doneAt < CacheDuration
    requires later - (if IsCacheValid(cache, now) then cache.value.timestamp else doneAt) < CacheDuration
    ensures var first := Respond(cache, now, doneAt, uri, mongo, file);
      Respond(first.cache, later, laterDone, uri2, mongo2, file2) == Response(first.body, first.cache)
  {
  }

  /** The module-level cache slot of the endpoint. */
  class Endpoint {
    var cache: Option<CacheEntry>

    constructor ()
      ensures cache == None
    {
      cache := None;
    }

    /** The request handler: serve the valid cache, else read the database and
        link its category rows, else read the data file and flatten its
        category tree; cache and return the first success, or fail with both
        messages. */
    method Handle(now: int, doneAt: int, mongodbUri: string,
                  mongo: Result<MongoData, string>, file: Result<DataFile, string>)
      returns (body: Result<Payload, HttpError>)
      modifies this
      ensures Response(body, cache) == Respond(old(cache), now, doneAt, mongodbUri, mongo, file)
    {
      if IsCacheValid(cache, now) {
        return Success(cache.value.data);
      }
      var mongoError: string;
      if mongodbUri == "" {
        mongoError := MissingUriMessage;
      } else if mongo.Failure? {
        mongoError := mongo.error;
      } else {
        var categoriesMap := BuildCategoryMap(mongo.value.categories);
        var promotionalSpots := if mongo.value.promotionalSpots.Some? then mongo.value.promotionalSpots.value else [];
        var result := Payload(MongoSource, Some(mongo.value.products), FromMongo(categoriesMap), promotionalSpots);
        cache := Some(CacheEntry(result, doneAt, MongoSource));
        return Success(result);
      }
      if file.Failure? {
        return Failure(HttpError(500, BothFailedMessage, mongoError, file.error));
      }
      var parsedData := file.value;
      var index := new CategoryIndex();
      var flattened := FlattenCategories(parsedData.categories, index);
      var promotionalSpots := if parsedData.promotionalSpots.Some? then parsedData.promotionalSpots.value else [];
      var result := Payload(FileSource, parsedData.products, FromFile(flattened.record), promotionalSpots);
      cache := Some(CacheEntry(result, doneAt, FileSource));
      return Success(result);
    }
  }
}
