# Storefront catalog core, modelled in Dafny

This project models the catalog logic of a small Nuxt storefront:

- **The category codecs.** The seeding script (`scripts/seed.ts`) flattens the
  nested category tree into one database row per category, each row naming
  its children by identifier. The data endpoint (`server/api/data.ts`) does
  three things with categories:
  - flattens the data file's tree into an identifier-keyed record;
  - links the database rows into an identifier-keyed record;
  - defines `resolveNestedCategories`, which rebuilds a tree from flat rows.
- **The data endpoint's decision.** It serves a five-minute in-memory cache.
  On a miss it reads MongoDB, then the local data file, then fails with both
  error messages. It writes the cache only on success.
- **The two Pinia stores.**
  - `stores/products.ts` holds a flat category record. Its getters are id
    lookup, main categories, display name, search and filtering. Its actions
    are `fetchData` and the two setters.
  - `stores/product.ts` holds one root tree. It has recursive category lookup,
    a search that also matches through category names, and literal category
    filtering.

## Files

| file | module | what it holds |
|---|---|---|
| `common.dfy` | `Common` | `Option` and `Result`; ASCII models of `toLowerCase`, `trim` and `includes`; order-preserving `Filter`; `Record`, a JavaScript object used as a dictionary (insertion-ordered keys) |
| `catalog.dfy` | `Catalog` | the entities of `types/index.ts`; product lookup by strict identifier; depth-first walks of a category tree |
| `seed.dfy` | `Seed` | the data-file check and the recursive row flattening of the seeding script |
| `data.dfy` | `DataApi` | record flattening, `resolveNestedCategories`, the two-pass database build, and the endpoint (a class holding the cache slot) |
| `roundtrip.dfy` | `RoundTrip` | the seeding flatten followed by `resolveNestedCategories` gives the tree back |
| `products_store.dfy` | `ProductsStore` | the `products` store |
| `product_store.dfy` | `ProductStore` | the `product` store |

### Modelling choices

**Object identity.**
- `resolveNestedCategories` and the database build push shared node objects
  onto children arrays.
- The model records each pushed node by its identifier, which is its key in
  the map. A children list is therefore a `seq<string>`, and two children
  lists that name the same identifier share that one node, as they do in the
  program.

**Records.** A JavaScript object used as a dictionary is a `Record`: a key
sequence plus a map.
- Writing an existing key keeps its position.
- Writing a new key appends it.
- `Object.values` follows the key sequence.

**Category names.**
- A name is `Localized(en, dk)`, `Plain(text)` or `NoName`.
- JavaScript's `name || default` is `NameOrDefault`: an object is always
  truthy, and an empty string or an absent name is falsy.

**Children.** A category's children are a plain sequence. An absent
`categories` key and an empty array are the same value.

**Outside inputs.** The clock, the database, the file system and `$fetch`
are parameters:
- `now` / `doneAt` / `completedAt` are clock readings;
- `mongo` / `file` / `fetched` are `Result` values holding what the source
  would return or the message it would throw.

**The stores' getters.**
- Pinia getters of `stores/products.ts` are functions of the state fields
  they read.
- Where the source loops (`searchResults` and `getCategoryById` of
  `stores/product.ts`), the model is a method with the loop, proved against
  a specification function.

### Behaviour worth noting (the model follows the code)

- The endpoint's fallback does not check that the data file has all three
  keys. A file without `products` yields a payload with no products, and a
  file without `categories` yields an empty record. Only the seeding script
  refuses such a file (`Seed.ValidateDataFile`).
- The endpoint's flattening keeps each entry's nested `categories` array. It
  does not replace the array by child identifiers.
- Provenance is `'mongodb'` or `'local_file'`.
- The seed-then-resolve round trip preserves sibling order
  (`RoundTrip.FlattenThenResolve`).
- Search differs between the two stores:
  - `stores/products.ts` matches on the English name, the Danish name and the
    brand, and ignores categories.
  - `stores/product.ts` matches on the English name, brand, colour and sizes,
    and on categories whose name matches. It does not search the Danish
    product name, and it does not expand a matching category to its
    descendants' products.
- `getCategoryName` also returns a non-empty plain-string name as it is.
- There are no source timeouts.

## Model

| member | source | states |
|---|---|---|
| `Catalog.NameOrDefault` | scripts/seed.ts:164 | the result is always a truthy name; a truthy name is kept, and an absent or empty one becomes the bilingual "Unknown Category" / "Ukendt kategori" |
| `Catalog.FindProductById` | stores/products.ts:31-33 | undefined exactly when no product has a strictly equal identifier; otherwise the first product whose identifier is equal in kind and value |
| `Seed.ValidateDataFile` | scripts/seed.ts:86-89 | the file is refused exactly when `products`, `categories` or `promotionalSpots` is missing; otherwise the three sections are used as read |
| `Seed.RowOf` | scripts/seed.ts:159-167 | the row of a node keeps its identifier; a missing parent becomes '' and a missing level 0; the name is always truthy, a truthy one kept; the children become their identifiers, in order |
| `Seed.FlattenCategories` | scripts/seed.ts:156-177 | the accumulator keeps its earlier rows and gains one row per node in preorder (node before children, children in order); a null tree adds nothing; the same array is returned |
| `Seed.FlattenTree` | scripts/seed.ts:179 | flattening into a fresh array yields exactly the preorder rows of the tree |
| `Seed.SeedRowsStep` | scripts/seed.ts:170-174 | the rows of the first i+1 children's subtrees are those of the first i followed by the whole subtree of child i |
| `DataApi.FlatEntry` | server/api/data.ts:33-37 | the entry written for a node is a copy with the same identifier, parent, level and nested children; a truthy name is kept and a missing or empty one becomes the bilingual placeholder |
| `DataApi.FlattenCategories` | server/api/data.ts:28-48 | the record afterwards is the record before with every node of the tree written in depth-first order, skipping empty identifiers; a null tree leaves it unchanged; the same record is returned |
| `DataApi.FlattenTreeRecord` | server/api/data.ts:28-47 | with distinct identifiers, the keys are the tree's non-empty identifiers in depth-first order, and each maps to a copy of its node (children kept, a missing name replaced by the placeholder); a null tree gives the empty record |
| `DataApi.WriteNodesKeys` | server/api/data.ts:32-44 | the keys after flattening are the keys before plus the non-empty identifiers of all visited nodes, including children of nodes with an empty identifier |
| `DataApi.WriteNodesUntouched` | server/api/data.ts:32-38 | a key that no visited node carries keeps its previous value |
| `DataApi.WriteNodesLastWins` | server/api/data.ts:33-37 | the entry for an identifier is the copy of the last node carrying it |
| `DataApi.WriteNodesOrder` | server/api/data.ts:41-45 | with distinct new identifiers the keys are appended in visiting order |
| `DataApi.LastWithId` | server/api/data.ts:56-58 | the node kept for an identifier is built from a row carrying it |
| `DataApi.LastWithIdIsLast` | server/api/data.ts:56-58 | the row kept for an identifier is the last row carrying it |
| `DataApi.IdsWithParentMembers` | server/api/data.ts:61-71 | an identifier is listed under a parent exactly when some row with that identifier names that parent |
| `DataApi.ResolveNestedCategories` | server/api/data.ts:51-75 | one node per distinct identifier, holding the last row with it; the result lists, in input order, the rows whose parent is `parentId`; every other node's children are, in input order, the rows naming it as parent; the node named `parentId` itself gets none |
| `DataApi.ResolvedPlacement` | server/api/data.ts:61-72 | a row is placed under `parentId` or under its known parent exactly when it names it, so each row is placed at most once and rows with an unknown parent nowhere |
| `DataApi.IndexStep` | server/api/data.ts:56-58 | one first-pass step: the map after one more row is the map before with the node for that row's identifier replaced by a childless node built from the row |
| `DataApi.LinkStep` | server/api/data.ts:61-72 | one second-pass step: a row under `parentId` is appended to the result and changes no node; a row with another known parent is appended to that parent's children; any other row changes nothing |
| `DataApi.LinkedEntry` | server/api/data.ts:112-118 | the first-pass entry for a row copies its identifier, parent, level and name, and starts with no children |
| `DataApi.FirstOccurrences` | server/api/data.ts:111-119 | the record's keys are distinct and are exactly the row identifiers |
| `DataApi.BuildCategoryMap` | server/api/data.ts:108-126 | the built record is `LinkedCategoryMap`: keys are the row identifiers in first-appearance order; each entry has the fields of the last row with its identifier and as children the rows, in input order, whose non-empty parent is that key |
| `DataApi.CollectRows` | server/api/data.ts:111-119 | after the first pass every row identifier has a childless entry from the last row with it, keys in first-appearance order |
| `DataApi.AttachChildren` | server/api/data.ts:122-126 | after the second pass each entry's children are the rows with that non-empty parent, in input order, and nothing else changed |
| `DataApi.CollectStep` | server/api/data.ts:112-118 | one first-pass step: the record after one more row is the record before with the row's childless entry put under its identifier (the key appended only when new) |
| `DataApi.AttachStep` | server/api/data.ts:123-125 | one second-pass step: the row's identifier is appended to its parent's children when the parent is non-empty and has an entry; otherwise the record is unchanged |
| `DataApi.AttachChild` | server/api/data.ts:122-126 | the second pass's callback takes the record after the first i rows to the record after the first i+1 |
| `DataApi.LinkedChildren` | server/api/data.ts:122-126 | an entry's children are exactly the rows naming it as a non-empty parent; rows with an empty or unknown parent stay in the record but are linked nowhere |
| `DataApi.IsCacheValid` | server/api/data.ts:21-23 | no cache is never valid; a cached response is valid exactly while less than 300000 ms (five minutes) have passed since its timestamp |
| `DataApi.Respond` | server/api/data.ts:82-217 | the request fails exactly when the cache is not valid, the database attempt fails (or no URI is set) and the data file fails too; the failure is a 500 that carries the file's message |
| `DataApi.CacheHitIgnoresSources` | server/api/data.ts:82-85 | while the cache is valid the cached body is returned, the cache is untouched, and the answer does not depend on what either source would give |
| `DataApi.SourcePrecedence` | server/api/data.ts:91-205 | on a miss a database success is cached and returned with source 'mongodb'; otherwise a file success is cached and returned with source 'local_file'; the spots default to [] on both paths |
| `DataApi.BothSourcesFail` | server/api/data.ts:206-217 | when both sources fail the response is a 500 error carrying the database message (or the missing-URI message) and the file message, and the cache is unchanged |
| `DataApi.CacheWrittenOnlyOnSuccess` | server/api/data.ts:137-142 | the cache changes only when the response succeeds, and then holds that body with its source and the completion time |
| `DataApi.RepeatWithinWindow` | server/api/data.ts:19-24 | a request less than five minutes after a successful one gets the same body from the cache |
| `DataApi.Endpoint.constructor` | server/api/data.ts:13-17 | the cache slot starts empty |
| `DataApi.Endpoint.Handle` | server/api/data.ts:77-219 | the handler's body and new cache are those of the decision `Respond`: valid cache, else database (rows linked by the two passes), else file (tree flattened), else the combined error |
| `RoundTrip.ChildrenOfDistinct` | scripts/seed.ts:166 | with distinct identifiers the children listed for an identifier are those of the one node carrying it |
| `RoundTrip.ForestRowsParents` | scripts/seed.ts:160-173 | in the seeded rows of a well-formed forest under parent `p`, the rows naming `p` are the forest's roots and the rows naming any other identifier are that node's children, in order |
| `RoundTrip.LastRowOfNode` | scripts/seed.ts:160-167 | with distinct identifiers, the last row with a node's identifier is that node's row |
| `RoundTrip.SeedRowsRoot` | scripts/seed.ts:162 | the seeded rows of a well-formed tree have exactly the tree's identifiers, and only the root names '' as parent |
| `RoundTrip.SeedRowsNode` | scripts/seed.ts:160-166 | every node of a well-formed tree keeps its own row, and the rows naming it as parent are its children in stored order |
| `RoundTrip.ResolvedIsTree` | server/api/data.ts:51-75 | any result meeting the contract of `resolveNestedCategories` on those rows under '' is the tree: one root, one node per tree node with that node's row, each node's children in order |
| `RoundTrip.FlattenThenResolve` | server/api/data.ts:51-75 | seeding then resolving a well-formed tree under '' returns its root alone, one node per tree node carrying that node's row (identifier, level, parent, name), and under each node its children's identifiers in stored order |
| `ProductsStore.GetProductById` | stores/products.ts:31-33 | undefined exactly when no product has a strictly equal identifier; otherwise the first product with that identifier |
| `ProductsStore.GetCategoryById` | stores/products.ts:34-36 | the record's entry for the identifier, undefined exactly when it is absent |
| `ProductsStore.GetAllCategories` | stores/products.ts:37-39 | one element per key, and exactly the record's values |
| `ProductsStore.GetMainCategories` | stores/products.ts:41-43 | exactly the categories of level 1, as an order-preserving subsequence of the record's values, each as often as it occurs there |
| `ProductsStore.SearchResults` | stores/products.ts:44-54 | [] for an empty query (whitespace is a query); otherwise an order-preserving subsequence holding exactly the products whose English name, Danish name or brand contains the lowercased query, each as often as in the input |
| `ProductsStore.SearchIgnoresQueryCase` | stores/products.ts:47-53 | lowercasing the query first leaves the results unchanged |
| `ProductsStore.SearchNarrows` | stores/products.ts:44-54 | extending a non-empty query never adds results |
| `ProductsStore.FilteredProducts` | stores/products.ts:55-72 | a non-empty query gives exactly the search results; else a selected non-empty category keeps, in order and with their multiplicity, exactly the products listing it; else all products |
| `ProductsStore.FilterDefaults` | stores/products.ts:55-71 | no query and no (or an empty) selection gives all products; a whitespace query is searched |
| `ProductsStore.GetCategoryName` | stores/products.ts:74-93 | never empty; 'Unknown Category' for an absent identifier; else the non-empty English name, else the non-empty Danish name, else a non-empty plain-string name, else 'Unnamed Category' |
| `ProductsStore.IsFresh` | stores/products.ts:99-100 | the request is skipped exactly when not forced and the last fetch has a non-zero timestamp less than 300000 ms (five minutes) before now |
| `ProductsStore.FreshAfterFetch` | stores/products.ts:99-100 | a fetch completed at a non-zero time keeps the data fresh for five minutes; forcing, no timestamp or a zero timestamp never counts as fresh |
| `ProductsStore.Store.constructor` | stores/products.ts:18-28 | the initial state: empty data, empty query, nothing selected, not loading, not hydrated, never fetched |
| `ProductsStore.Store.FetchData` | stores/products.ts:97-138 | fresh data is returned as it is with nothing changed; otherwise a success replaces products (undefined when the payload has none), categories, spots (default []) and source, stamps the completion time and marks the store hydrated, then returns the payload, except in development mode with no products, where the log throws and the call rejects with the state already replaced; a failed request changes no data and returns its error; either way loading ends false; query and selection never change |
| `ProductsStore.Store.SetSearchQuery` | stores/products.ts:148-150 | the query becomes the argument and no other field changes |
| `ProductsStore.Store.SetSelectedCategory` | stores/products.ts:152-154 | the selection becomes the argument and no other field changes |
| `ProductStore.FirstWithId` | stores/product.ts:93-101 | null exactly when no node has the identifier; otherwise the first node that has it |
| `ProductStore.FirstWithIdAppend` | stores/product.ts:93-101 | the first match in a concatenation is the first part's match if it has one, else the second's |
| `ProductStore.FindCategory` | stores/product.ts:90-105 | the recursive loop with early return yields the first node with the identifier in a depth-first walk of the given trees |
| `ProductStore.Store.GetCategoryById` | stores/product.ts:88-108 | the first node with the identifier in a depth-first walk strictly below the root, null exactly when none has it; the root is never returned |
| `ProductStore.FilteredProducts` | stores/product.ts:20-27 | all products when nothing (or '') is selected; otherwise an order-preserving subsequence holding exactly the products whose category list literally contains the selected identifier, each as often as in the input |
| `ProductStore.NoDescendantExpansion` | stores/product.ts:24-26 | a product that does not list the selected identifier itself is never included |
| `ProductStore.MatchingIdsAppend` | stores/product.ts:39-50 | the matching identifiers of two node lists together are the union of each list's |
| `ProductStore.FindMatchingCategories` | stores/product.ts:36-51 | the set afterwards is the set before plus the identifiers of every node of the given trees, at any depth, whose English or Danish name contains the query |
| `ProductStore.SearchSpec` | stores/product.ts:28-79 | [] when the trimmed query is empty; otherwise an order-preserving subsequence holding exactly the products whose English name, brand, colour or a size contains the lowercased trimmed query, or that list a matching category below the root, each as often as in the input |
| `ProductStore.Store.SearchResults` | stores/product.ts:28-79 | the getter's set-collecting walk and filter give exactly `SearchSpec` of the current state |
| `ProductStore.SearchByFilter` | stores/product.ts:54-78 | the collected identifier set feeds the same filter as the specification |
| `ProductStore.RootNameIgnored` | stores/product.ts:53-54 | the root's own name plays no part in the search |
| `ProductStore.FoundThroughCategory` | stores/product.ts:72-75 | a product listing a category below the root whose name contains the query is found even if no own field matches |
| `ProductStore.Store.GetProductById` | stores/product.ts:85-87 | the first product whose identifier is the number given; a string identifier with the same digits never matches |
| `ProductStore.Store.GetAllCategories` | stores/product.ts:112-115 | the root's direct children |
| `ProductStore.Store.GetMainCategories` | stores/product.ts:116-121 | the root's direct children |
| `ProductStore.Store.constructor` | stores/product.ts:6-18 | products and spots from the data file (missing ones become []), the root tree, no selection, an empty query |
| `ProductStore.Store.SetSelectedCategory` | stores/product.ts:109-111 | the selection becomes the argument (a string or null) and no other field changes |
| `ProductStore.Store.SetSearchQuery` | stores/product.ts:122-124 | the query becomes the argument and no other field changes |
| `ProductStore.Store.ClearSearch` | stores/product.ts:125-127 | the query becomes '' and the search then finds nothing |

## Left out

- Database clients, connections and collection reads; file-system probing of
  the four candidate paths; `JSON.parse`; `setHeader`, including the
  Cache-Control header; `$fetch`. Each source is represented by its outcome,
  a `Result` passed in.
- Wall-clock time: `Date.now()` readings are parameters.
- The seeding script's database writes and its connect-and-retry loop. They
  are network I/O around the modelled flattening and check.
- Logging output (`console.log` and `console.error`). The log lines are not
  modelled; the one log that can throw (the development-mode log of
  `fetchData` in `stores/products.ts`, which reads the length of the stored
  products) is modelled for its effect, with NODE_ENV as a parameter.
- Getters of `stores/products.ts` on a store whose `products` is undefined
  (after a payload without products): `getProductById`, `searchResults` with
  a non-empty query, and `filteredProducts` with a query or a selection throw
  there; `filteredProducts` with neither returns undefined. The getter
  functions take the products array as a `seq`, so neither the throw nor the
  undefined result is represented. The category getters do not read
  `products` and are unaffected.
- The diagnostics scripts, configuration files, the SSR bootstrap plugin,
  the composables, and the component test. These are not part of this model.
- `ensureHydrated` in `stores/products.ts` depends on `import.meta.client`,
  the rendering environment.
- Concurrent requests racing on the endpoint's cache slot. The handler is
  modelled as running one request at a time.
- Unicode: lowercasing and trimming are modelled for ASCII only.
- JSON serialisation of the linked category graphs. A node that names itself
  as its parent would make the graph cyclic; the model keeps the links as
  identifiers and does not serialise them.
- JavaScript's ordering of integer-like object keys. `Object.values` lists
  integer-like keys first, in ascending order; the model uses insertion order
  for all keys.
- ProductsStore.GetAllCategories: states the values in insertion order, not
  JavaScript's integer-key-first order.
- ProductsStore.GetMainCategories: states the values in insertion order, not
  JavaScript's integer-key-first order.
- Prototype properties of plain objects (`categories['constructor']`). Record
  lookups see only stored keys.
- Rows or nodes missing `id` or `name` in other shapes than modelled:
  - identifiers are strings;
  - an absent and an empty `categories` array are the same value;
  - sizes are strings or integers (fractional sizes are not rendered by
    `String`);
  - prices are reals and take part in no operation.
- The fetched payload of `stores/products.ts` has its categories typed as
  category objects. Linked database entries are not distinguished from
  flattened file entries there.
- ProductStore.Store.constructor: a data file without `categories` is not
  modelled. `allCategories`, a search with a non-blank query and the
  category lookups would then throw; `filteredProducts` and a blank search
  would not read the categories.
- The endpoint's `MONGODB_DB_NAME` is only passed to the database client.
