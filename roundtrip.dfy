/** The two codecs composed: a tree flattened by the seeding script
    (scripts/seed.ts) and rebuilt by resolveNestedCategories
    (server/api/data.ts) with parent '' comes back with the same nodes, the same
    parent-to-child edges and the same sibling order, provided the tree is well
    formed. */
module RoundTrip {
  import opened Common
  import opened Catalog
  import opened Seed
  import DataApi

  /** Every child names its parent by identifier, all the way down. */
  predicate WellLinked(c: Category) {
    forall i :: 0 <= i < |c.categories| ==>
      c.categories[i].parentCategoryId == Some(c.id) && WellLinked(c.categories[i])
  }

  /** A tree the round trip reconstructs: the root has no parent (absent or
      ''), every child names its parent, and the identifiers are non-empty and
      pairwise distinct. */
  predicate WellFormed(t: Category) {
    t.parentCategoryId.GetOr("") == "" &&
    WellLinked(t) &&
    Distinct(Ids(Preorder(t))) &&
    "" !in Ids(Preorder(t))
  }

  /** The identifiers of the children of every node with identifier `k`,
      listed node by node. */
  function ChildrenOf(nodes: seq<Category>, k: string): seq<string> {
    if nodes == [] then []
    else (if nodes[0].id == k then Ids(nodes[0].categories) else []) + ChildrenOf(nodes[1..], k)
  }

  lemma {:induction false} ChildrenOfAppend(a: seq<Category>, b: seq<Category>, k: string)
    ensures ChildrenOf(a + b, k) == ChildrenOf(a, k) + ChildrenOf(b, k)
  {
    if a == [] {
      assert a + b == b;
    } else {
      assert (a + b)[1..] == a[1..] + b;
      ChildrenOfAppend(a[1..], b, k);
    }
  }

  /** With distinct identifiers, the children listed for a node's identifier
      are that node's children; an identifier no node carries has none. */
  lemma {:induction false} ChildrenOfDistinct(nodes: seq<Category>, k: string)
    requires Distinct(Ids(nodes))
    ensures k !in Ids(nodes) ==> ChildrenOf(nodes, k) == []
    ensures forall n :: n in nodes && n.id == k ==> ChildrenOf(nodes, k) == Ids(n.categories)
  {
    if nodes != [] {
      assert Ids(nodes) == [nodes[0].id] + Ids(nodes[1..]);
      DistinctAppend([nodes[0].id], Ids(nodes[1..]));
      ChildrenOfDistinct(nodes[1..], k);
      if nodes[0].id == k {
        assert k !in Ids(nodes[1..]);
      }
      forall n | n in nodes && n.id == k
        ensures ChildrenOf(nodes, k) == Ids(n.categories)
      {
        if n != nodes[0] {
          assert n in nodes[1..];
          var i :| 0 <= i < |nodes[1..]| && nodes[1..][i] == n;
          assert Ids(nodes[1..])[i] == k;
          assert nodes[0].id != k;
        }
      }
    }
  }

  lemma IdsAppend(a: seq<Category>, b: seq<Category>)
    ensures Ids(a + b) == Ids(a) + Ids(b)
  {
  }

  /** The identifiers of a tree's walk: the root's, then its descendants'. */
  lemma PreorderIds(c: Category)
    ensures Ids(Preorder(c)) == [c.id] + Ids(PreorderForest(c.categories))
  {
    IdsAppend([c], PreorderForest(c.categories));
  }

  lemma PreorderForestCons(cs: seq<Category>)
    requires cs != []
    ensures PreorderForest(cs) == Preorder(cs[0]) + PreorderForest(cs[1..])
    ensures Ids(PreorderForest(cs)) == Ids(Preorder(cs[0])) + Ids(PreorderForest(cs[1..]))
    ensures Ids(cs) == [cs[0].id] + Ids(cs[1..])
  {
    IdsAppend(Preorder(cs[0]), PreorderForest(cs[1..]));
    IdsCons(cs);
  }

  lemma IdsCons(cs: seq<Category>)
    requires cs != []
    ensures Ids(cs) == [cs[0].id] + Ids(cs[1..])
  {
    var r := [cs[0].id] + Ids(cs[1..]);
    forall i | 0 <= i < |cs|
      ensures r[i] == Ids(cs)[i]
    {
      if i > 0 {
        assert r[i] == Ids(cs[1..])[i - 1];
      }
    }
  }

  /** The rows of one tree: its own row, then its descendants' rows. */
  lemma TreeRowsParents(c: Category, k: string)
    ensures DataApi.IdsWithParent(RowsOf(Preorder(c)), k) ==
      (if c.parentCategoryId.GetOr("") == k then [c.id] else []) +
      DataApi.IdsWithParent(RowsOf(PreorderForest(c.categories)), k)
  {
    RowsOfAppend([c], PreorderForest(c.categories));
    DataApi.IdsWithParentAppend(RowsOf([c]), RowsOf(PreorderForest(c.categories)), k);
    assert RowsOf([c])[..0] == [];
  }

  /** The hypotheses of ForestRowsParents carry over to the first tree's
      children (under that tree's identifier) and to the remaining trees. */
  lemma ForestSplit(cs: seq<Category>, p: string)
    requires cs != []
    requires forall c :: c in cs ==> c.parentCategoryId.GetOr("") == p && WellLinked(c)
    requires Distinct(Ids(PreorderForest(cs)))
    requires p !in Ids(PreorderForest(cs))
    ensures forall d :: d in cs[0].categories ==> d.parentCategoryId.GetOr("") == cs[0].id && WellLinked(d)
    ensures forall c :: c in cs[1..] ==> c.parentCategoryId.GetOr("") == p && WellLinked(c)
    ensures Distinct(Ids(PreorderForest(cs[0].categories))) && Distinct(Ids(PreorderForest(cs[1..])))
    ensures Distinct(Ids(Preorder(cs[0])))
    ensures cs[0].id !in Ids(PreorderForest(cs[0].categories)) && cs[0].id !in Ids(PreorderForest(cs[1..]))
    ensures p != cs[0].id && p !in Ids(PreorderForest(cs[0].categories)) && p !in Ids(PreorderForest(cs[1..]))
  {
    var c, rest := cs[0], cs[1..];
    assert c in cs;
    PreorderForestCons(cs);
    PreorderIds(c);
    var treeIds, kidIds, restIds := Ids(Preorder(c)), Ids(PreorderForest(c.categories)), Ids(PreorderForest(rest));
    DistinctAppend(treeIds, restIds);
    DistinctAppend([c.id], kidIds);
    assert forall x :: x in rest ==> x in cs;
    assert c.id in treeIds;
    forall d | d in c.categories
      ensures d.parentCategoryId.GetOr("") == c.id && WellLinked(d)
    {
      var i :| 0 <= i < |c.categories| && c.categories[i] == d;
    }
  }

  /** The rows of a forest listed under `k`, split into those of the first
      tree and those of the remaining trees. */
  lemma ForestRowsCons(cs: seq<Category>, k: string)
    requires cs != []
    ensures DataApi.IdsWithParent(RowsOf(PreorderForest(cs)), k) ==
      (if cs[0].parentCategoryId.GetOr("") == k then [cs[0].id] else []) +
      DataApi.IdsWithParent(RowsOf(PreorderForest(cs[0].categories)), k) +
      DataApi.IdsWithParent(RowsOf(PreorderForest(cs[1..])), k)
    ensures ChildrenOf(PreorderForest(cs), k) ==
      (if cs[0].id == k then Ids(cs[0].categories) else []) +
      ChildrenOf(PreorderForest(cs[0].categories), k) +
      ChildrenOf(PreorderForest(cs[1..]), k)
  {
    var c, rest := cs[0], cs[1..];
    PreorderForestCons(cs);
    RowsOfAppend(Preorder(c), PreorderForest(rest));
    DataApi.IdsWithParentAppend(RowsOf(Preorder(c)), RowsOf(PreorderForest(rest)), k);
    TreeRowsParents(c, k);
    ChildrenOfAppend(Preorder(c), PreorderForest(rest), k);
    ChildrenOfAppend([c], PreorderForest(c.categories), k);
  }

  /** Puts together the rows listed under `k` from the first tree's and the
      remaining trees' contributions. */
  lemma ForestRowsCombine(cs: seq<Category>, p: string, k: string)
    requires cs != []
    requires cs[0].parentCategoryId.GetOr("") == p && p != cs[0].id
    requires DataApi.IdsWithParent(RowsOf(PreorderForest(cs[0].categories)), k) ==
      if k == cs[0].id then Ids(cs[0].categories) else ChildrenOf(PreorderForest(cs[0].categories), k)
    requires DataApi.IdsWithParent(RowsOf(PreorderForest(cs[1..])), k) ==
      if k == p then Ids(cs[1..]) else ChildrenOf(PreorderForest(cs[1..]), k)
    requires k == p || k == cs[0].id ==> ChildrenOf(PreorderForest(cs[0].categories), k) == []
    requires k == cs[0].id ==> ChildrenOf(PreorderForest(cs[1..]), k) == []
    ensures DataApi.IdsWithParent(RowsOf(PreorderForest(cs)), k) ==
      if k == p then Ids(cs) else ChildrenOf(PreorderForest(cs), k)
  {
    ForestRowsCons(cs, k);
    PreorderForestCons(cs);
    var c := cs[0];
    CombineParts(k == p, k == c.id, c.id,
      DataApi.IdsWithParent(RowsOf(PreorderForest(cs)), k), ChildrenOf(PreorderForest(cs), k),
      DataApi.IdsWithParent(RowsOf(PreorderForest(c.categories)), k),
      DataApi.IdsWithParent(RowsOf(PreorderForest(cs[1..])), k),
      ChildrenOf(PreorderForest(c.categories), k), ChildrenOf(PreorderForest(cs[1..]), k),
      Ids(c.categories), Ids(cs[1..]), Ids(cs));
  }

  /** The bookkeeping of ForestRowsCombine on plain sequences: `kp` says the
      identifier asked for is the forest's parent, `kc` that it is the first
      root's identifier. */
  lemma CombineParts(kp: bool, kc: bool, first: string, rows: seq<string>, children: seq<string>,
                     kidRows: seq<string>, restRows: seq<string>,
                     kidChildren: seq<string>, restChildren: seq<string>,
                     firstKids: seq<string>, restRoots: seq<string>, roots: seq<string>)
    requires !(kp && kc)
    requires rows == (if kp then [first] else []) + kidRows + restRows
    requires children == (if kc then firstKids else []) + kidChildren + restChildren
    requires kidRows == if kc then firstKids else kidChildren
    requires restRows == if kp then restRoots else restChildren
    requires kp || kc ==> kidChildren == []
    requires kc ==> restChildren == []
    requires roots == [first] + restRoots
    ensures rows == if kp then roots else children
  {
    if kp {
      assert rows == [first] + [] + restRoots;
    } else if kc {
      assert rows == [] + firstKids + [];
    } else {
      assert rows == [] + kidChildren + restChildren;
    }
  }

  /** The central step: in the rows of a well-formed forest whose roots name
      `p` as parent, the rows listed under `p` are the roots, and the rows
      listed under any other identifier are the children of the node with that
      identifier. */
  lemma {:induction false} ForestRowsParents(cs: seq<Category>, p: string, k: string)
    requires forall c :: c in cs ==> c.parentCategoryId.GetOr("") == p && WellLinked(c)
    requires Distinct(Ids(PreorderForest(cs)))
    requires p !in Ids(PreorderForest(cs))
    ensures DataApi.IdsWithParent(RowsOf(PreorderForest(cs)), k) ==
      if k == p then Ids(cs) else ChildrenOf(PreorderForest(cs), k)
    decreases cs
  {
    if cs == [] {
      return;
    }
    var c, rest := cs[0], cs[1..];
    ForestSplit(cs, p);
    ForestRowsParents(c.categories, c.id, k);
    ForestRowsParents(rest, p, k);
    ChildrenOfDistinct(PreorderForest(c.categories), k);
    ChildrenOfDistinct(PreorderForest(rest), k);
    assert c in cs;
    ForestRowsCombine(cs, p, k);
  }

  /** With distinct identifiers, the last row carrying a node's identifier is
      that node's row. */
  lemma LastRowOfNode(nodes: seq<Category>, n: Category)
    requires Distinct(Ids(nodes))
    requires n in nodes
    ensures n.id in DataApi.RowIdSet(RowsOf(nodes))
    ensures DataApi.LastWithId(RowsOf(nodes), n.id) == RowOf(n)
  {
  }

  lemma RowIdSetOfNodes(nodes: seq<Category>)
    ensures DataApi.RowIdSet(RowsOf(nodes)) == set n | n in nodes :: n.id
  {
    var rows := RowsOf(nodes);
    forall x | x in DataApi.RowIdSet(rows) ensures x in set n | n in nodes :: n.id {
      var row :| row in rows && row.id == x;
      var i :| 0 <= i < |rows| && rows[i] == row;
      assert nodes[i] in nodes;
    }
    forall x | x in set n | n in nodes :: n.id ensures x in DataApi.RowIdSet(rows) {
      var n :| n in nodes && n.id == x;
      var i :| 0 <= i < |nodes| && nodes[i] == n;
      assert rows[i] in rows;
    }
  }

  lemma PreorderAsForest(t: Category)
    ensures PreorderForest([t]) == Preorder(t)
  {
    assert [t][1..] == [];
  }

  /** The rows of a well-formed tree, as resolveNestedCategories reads them
      under parent '': the identifiers are the tree's, and the root is the only
      row under ''. */
  lemma SeedRowsRoot(t: Category)
    requires WellFormed(t)
    ensures DataApi.RowIdSet(SeedRows(t)) == set n | n in Preorder(t) :: n.id
    ensures DataApi.IdsWithParent(SeedRows(t), "") == [t.id]
  {
    PreorderAsForest(t);
    ForestRowsParents([t], "", "");
    RowIdSetOfNodes(Preorder(t));
  }

  /** Every node of a well-formed tree keeps its own row, and the rows listed
      under its identifier are its children in their stored order. */
  lemma SeedRowsNode(t: Category, n: Category)
    requires WellFormed(t) && n in Preorder(t)
    ensures n.id != ""
    ensures n.id in DataApi.RowIdSet(SeedRows(t))
    ensures DataApi.LastWithId(SeedRows(t), n.id) == RowOf(n)
    ensures DataApi.IdsWithParent(SeedRows(t), n.id) == Ids(n.categories)
  {
    var nodes := Preorder(t);
    PreorderAsForest(t);
    LastRowOfNode(nodes, n);
    ForestRowsParents([t], "", n.id);
    ChildrenOfDistinct(nodes, n.id);
    var i :| 0 <= i < |nodes| && nodes[i] == n;
    assert Ids(nodes)[i] == n.id;
  }

  /** Whatever satisfies the contract of resolveNestedCategories on the rows of
      a well-formed tree under parent '' is the tree again. */
  lemma ResolvedIsTree(t: Category, resolvedCategories: seq<string>,
                       categoryMap: map<string, DataApi.ResolvedCategory>)
    requires WellFormed(t)
    requires categoryMap.Keys == DataApi.RowIdSet(SeedRows(t))
    requires forall k :: k in categoryMap ==> categoryMap[k].row == DataApi.LastWithId(SeedRows(t), k)
    requires resolvedCategories == DataApi.IdsWithParent(SeedRows(t), "")
    requires forall k :: k in categoryMap ==>
      categoryMap[k].categories == if k == "" then [] else DataApi.IdsWithParent(SeedRows(t), k)
    ensures resolvedCategories == [t.id]
    ensures categoryMap.Keys == set n | n in Preorder(t) :: n.id
    ensures forall n :: n in Preorder(t) ==>
      n.id in categoryMap && categoryMap[n.id] == DataApi.ResolvedCategory(RowOf(n), Ids(n.categories))
  {
    SeedRowsRoot(t);
    forall n | n in Preorder(t)
      ensures n.id in categoryMap && categoryMap[n.id] == DataApi.ResolvedCategory(RowOf(n), Ids(n.categories))
    {
      SeedRowsNode(t, n);
    }
  }

  /** Flattening a well-formed tree with the seeding script and resolving the
      rows under parent '' yields exactly one root, the tree's root; one node
      per tree node carrying that node's row (its name, level and parent with
      the seeding defaults applied); and under each node the identifiers of its
      children in their original order. */
  method FlattenThenResolve(t: Category)
    returns (resolvedCategories: seq<string>, categoryMap: map<string, DataApi.ResolvedCategory>)
    requires WellFormed(t)
    ensures resolvedCategories == [t.id]
    ensures categoryMap.Keys == set n | n in Preorder(t) :: n.id
    ensures forall n :: n in Preorder(t) ==>
      n.id in categoryMap && categoryMap[n.id] == DataApi.ResolvedCategory(RowOf(n), Ids(n.categories))
  {
    var rows := FlattenTree(t);
    resolvedCategories, categoryMap := DataApi.ResolveNestedCategories(rows, "");
    ResolvedIsTree(t, resolvedCategories, categoryMap);
  }
}
