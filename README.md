# Commerce catalog navigation, modelled in Dafny

This project models the catalog navigation of the TYPO3 commerce extension
(`Classes/ViewHelpers/Navigation.php`). The navigation reads the catalog's
category tree, products and manufacturers. From them it builds a nested menu
array. It then marks the path to the current category or product with menu
item states, and finally settles one state per menu item for the renderer.

The catalog is a value (`Catalog.Store`). It holds the category and product
relations in query order, the records as `getDataRow` returns them, the
manufacturer titles, the master parent of each product, the parent uid list of
each category and the parent category of each category. The TypoScript
configuration (`Settings.Config`) and the request variables
(`Settings.Request`) are values handed in.

A PHP menu array is an ordered map. It is modelled as `MenuTree.Tree`, a
sequence of (key, node) entries. Reading a key takes its first entry. Writing
an existing key replaces that entry in place, and writing a new key appends
it. A key is a category or product uid (`Uid`), a manufacturer pseudo-category
(`Manu`, the `PHP_INT_MAX` prefix followed by the manufacturer uid), or the
null key that PHP reads when a path runs out. A node records the fields the
navigation reads and writes: the page and parent ids, depth, leaf flag, kind,
the path (own key first, as the comma string is written), `ITEM_STATE`,
`ITEM_STATES_LIST`, `--subLevel--` and `_SUB_MENU`.

The modules follow the parts of the class:

- `MenuTree`: arrays, the write `$t[$k] = $n`, and `arrayMerge`.
- `Catalog` and `MenuBuild`: `isLeaf`, `hasSubChild`, the catalog queries and
  `makeSubChildArrayPostRender`.
- `MenuShape`: the structural invariant of a built array (`Layered`). Keys are
  unique per level. Every node records its depth, parent id and path. An
  opened `_SUB_MENU` is a copy of the sub-level.
- `Navigation`: the navigation object. It holds `makeArrayPostRender`,
  `getManufacturerAsCategory`, `getRootCategory`, `makeErrorMenu` and `init`.
  These update the object's fields (`choosenCat`, `cat`, `pid`, `mTree`,
  `pathParents`, `mDepth`, ...).
- `StateResolution`: `processArrayPostRender`, the walk that writes the states
  along the selected path.
- `PathResolution`: `getRootLine`, `fixPathParents`, the path strip of `init`
  and the `entryLevel` cut.
- `MenuInit`: the root category chosen by user group, the error menu entries,
  the menu cache and the path `init` derives.
- `ItemStates`: `clear`, the final state of each item.
- `MenuSort`: `sortArrayList` and `sortAllMenuArray`.
- `Rootline`: `renderRootline` and `getCategoryRootlineforTypoScript`.
- `Findings`: the code as written where it differs from what it evidently
  intends.

Behaviour kept as the code has it:

- `maxLevel` is handed to `makeSubChildArrayPostRender` as its manufacturer
  argument (`Classes/ViewHelpers/Navigation.php:792-800`). With the default
  `PHP_INT_MAX` budget, this lists only the products whose manufacturer uid
  equals the remaining budget. `Navigation.SubLevelKey` states it.
- `isLeaf` answers 2 for uid 0, and the builder treats 2 as a leaf.
- A write to a missing key creates the entry. This holds for
  `processArrayPostRender` and for the shown product it marks.
- `fixPathParents` ends with the empty list when the target never occurs.
- 'alphabetiDesc' sorts titles in ascending `strcmp` order of their upper-case
  forms. The top level of the menu is never sorted: only sub-levels are.
- With 'noAct', `init` clears the path and the depth, but then still derives
  the path of the configured category (`:434-514`).
- Every category item of `renderRootline` is CUR unless a product is shown.
- In `processArrayPostRender`, a node on the way down whose `parent_id`
  equals `showUid` becomes CUR (IFSUB with a sub-level). Its list then lacks
  IFSUB in one branch (`:1104-1107`), and the model keeps that list.

The two places where the code does not do what it evidently intends (see
"## Findings") are modelled twice. `Findings` and `MenuSort.SortAllLeavesSubMenu`
model the code as written. The menu builder and `init` use the corrected
behaviour.

## Model

| member | source | states |
|---|---|---|
| Catalog.HasSubChild | Classes/ViewHelpers/Navigation.php:1207-1220 | 2 exactly for uid 0; 1 exactly when the category has product relations; 0 otherwise |
| Catalog.IsLeaf | Classes/ViewHelpers/Navigation.php:1183-1197 | 2 exactly for uid 0; 0 (inner node) exactly when the category has child categories or products; 1 when it has neither |
| Catalog.ProductQuery | Classes/ViewHelpers/Navigation.php:903-908 | the product query keeps exactly the related products that match the manufacturer restriction, never more rows than relations |
| Catalog.RowsOf | Classes/ViewHelpers/Navigation.php:1598 | `findByUids` yields only records of requested products, every requested product that exists contributes its record, and there are never more rows than listed uids |
| MenuTree.Put | Classes/ViewHelpers/Navigation.php:1503-1505 | after `$t[$k] = $n` the key reads `$n`; the key list is unchanged when the key existed, else the key is appended |
| MenuTree.PutOther | Classes/ViewHelpers/Navigation.php:1503-1505 | a write leaves every other key's presence and node unchanged |
| MenuTree.ArrayMerge | Classes/ViewHelpers/Navigation.php:1500-1507 | the loop writes each entry of `arr2`, in order, into `arr1`: the result is `Merge(arr1, arr2)` |
| MenuTree.MergeLookup | Classes/ViewHelpers/Navigation.php:1500-1507 | a key is in the merge iff it is in either array; keys of `arr2` hold `arr2`'s node; the other keys of `arr1` keep theirs |
| MenuTree.MergeEntries | Classes/ViewHelpers/Navigation.php:1500-1507 | every entry of a merge comes from one of the two arrays |
| MenuTree.MergeEntryFrom | Classes/ViewHelpers/Navigation.php:1500-1507 | an entry of a merge is `arr2`'s entry when `arr2` has its key, and `arr1`'s entry otherwise |
| MenuTree.MergeKeysPrefix | Classes/ViewHelpers/Navigation.php:1500-1507 | the keys of `arr1` keep their positions at the front of the merge |
| MenuTree.MergeUnique | Classes/ViewHelpers/Navigation.php:1500-1507 | merging into an array with unique keys keeps keys unique |
| MenuTree.MergeIdempotent | Classes/ViewHelpers/Navigation.php:802-817 | merging the same product array a second time (the repeated merge for visitors with user groups) changes nothing |
| MenuShape.MergeLayered | Classes/ViewHelpers/Navigation.php:776-802 | merging two arrays built for the same level keeps that level well formed |
| MenuBuild.LiveKeys | Classes/ViewHelpers/Navigation.php:711-715 | a key is listed iff its uid is among the relations and its record is not deleted |
| MenuBuild.ManufacturerKeysOf | Classes/ViewHelpers/Navigation.php:1602-1605 | a manufacturer key is listed iff some product row carries that non-zero manufacturer uid |
| MenuBuild.MakeSubChildArrayPostRender | Classes/ViewHelpers/Navigation.php:890-996 | the keys are the live queried products, first occurrence first; each entry is a leaf below the category with the product's record, depth and path; it is CUR exactly when it is the shown product, else NO; the level is well formed |
| MenuBuild.AddProduct | Classes/ViewHelpers/Navigation.php:926-992 | one pass of the product loop keeps the key list and the entry invariant for the next prefix of the query |
| Navigation.Navigation.constructor | Classes/ViewHelpers/Navigation.php:86-187 | a new navigation has no menu array, no path, depth 2, the `PHP_INT_MAX` level budget and 'noAct' off |
| Navigation.Navigation.GetManufacturerAsCategory | Classes/ViewHelpers/Navigation.php:1571-1667 | the keys are `ManufacturerLevelKeys` of the store: false (None) exactly when the category has no product relations, otherwise one pseudo-category per distinct manufacturer; each a well-formed entry below the category with its key first in its path; `choosenCat` becomes the requested manufacturer exactly when one is requested and an entry was written |
| Navigation.Navigation.ManufacturerRows | Classes/ViewHelpers/Navigation.php:1600-1664 | the loop writes one pseudo-category per distinct non-zero manufacturer of the rows, each a `ManufacturerEntry`, and the level stays well formed |
| Navigation.Navigation.AddManufacturer | Classes/ViewHelpers/Navigation.php:1603-1662 | one pass of the loop keeps the key list and the entry invariant for the next prefix of the rows |
| Navigation.Navigation.MakeManufacturerNode | Classes/ViewHelpers/Navigation.php:1624-1660 | the pseudo-category has the category as parent, the given depth, NO, its key first in its path, and the manufacturer's products as sub-level when the category has products and products are shown |
| Navigation.Navigation.MakeArrayPostRender | Classes/ViewHelpers/Navigation.php:670-875 | empty once the budget is used up; otherwise the keys are the live child categories in query order, or, without any, the product list (nothing when products are not shown); every category entry is a `CategoryEntry`, which describes the whole nested menu below it level by level (`SubLevelEntry`), and every product entry a `ProductEntry`; every level is well formed; `choosenCat` becomes the requested manufacturer exactly when one is requested and some category of the built menu lists a manufacturer (`LevelListsManufacturer`), and is unchanged otherwise |
| Navigation.Navigation.CategoryLevel | Classes/ViewHelpers/Navigation.php:689-858 | the loop over the child relations writes one `CategoryEntry` per live child category, in relation order, with the remaining budget; the level is well formed; `choosenCat` becomes the requested manufacturer exactly when one is requested and a live child or a category below one lists a manufacturer (`AnyListsManufacturer`) |
| Navigation.Navigation.AddCategory | Classes/ViewHelpers/Navigation.php:716-855 | one pass of the category loop keeps the key list and the `CategoryEntry` invariant for the next prefix of the relation rows, and `choosenCat` for that prefix as `AnyListsManufacturer` states |
| Navigation.Navigation.MakeCategoryNode | Classes/ViewHelpers/Navigation.php:712-858 | a category node carries the record's fields, the root as parent, the depth, its uid first in its path, IFSUB with list IFSUB,NO when inner and NO when a leaf, exactly the sub-level keys `SubLevelKey` names, and each sub-level entry is the manufacturer, product or child category node its key calls for (`SubLevelEntry`); `choosenCat` becomes the requested manufacturer exactly when one is requested and the category or one below it lists a manufacturer (`NodeListsManufacturer`) |
| Navigation.Navigation.InnerLevel | Classes/ViewHelpers/Navigation.php:771-818 | the sub-level of an inner category merges the manufacturer level, the recursive call and the product list (twice for logged-in visitors with group options), later arrays overwriting equal keys: exactly the `SubLevelKey` keys, each entry as `SubLevelEntry` says, well formed; `choosenCat` becomes the requested manufacturer exactly when one is requested and a category below lists a manufacturer (`LevelListsManufacturer`) |
| Navigation.Navigation.ProductMerges | Classes/ViewHelpers/Navigation.php:791-817 | the product list (twice for logged-in visitors with group options) written over the level so far: the keys of either, each entry the product list's when it has the key and the earlier entry otherwise, every product entry a `ProductEntry`, well formed |
| Navigation.Navigation.ManufacturerSubLevel | Classes/ViewHelpers/Navigation.php:754-769 | the manufacturer merge (corrected: `false` merges nothing) leaves exactly the category's manufacturer keys, each a `ManufacturerEntry` with its product list, well formed; `choosenCat` becomes the requested manufacturer exactly when one is requested and the category's products have a manufacturer |
| Navigation.Navigation.ChildLevel | Classes/ViewHelpers/Navigation.php:776-789 | the recursive call under the remaining budget gives exactly the child-level keys; a child category key holds that category's `CategoryEntry` with one level less, any other key a `ProductEntry`; well formed; `choosenCat` becomes the requested manufacturer exactly when one is requested and a category below lists a manufacturer (`LevelListsManufacturer`) |
| Navigation.Navigation.ProductSubLevel | Classes/ViewHelpers/Navigation.php:791-817 | the product list holds exactly the products of the manufacturer uid equal to the budget, each a `ProductEntry`, well formed |
| Navigation.ManufacturerLevel | Classes/ViewHelpers/Navigation.php:755-768 | merging the manufacturer level into an empty array keeps exactly its keys and its shape |
| Navigation.NoProductsNoManufacturers | Classes/ViewHelpers/Navigation.php:1594-1596 | without product relations there are no manufacturer keys |
| Navigation.InnerLevelKeys | Classes/ViewHelpers/Navigation.php:862-872 | the recursive result holds the child categories, or the product list when there are none |
| Navigation.InnerSubLevel | Classes/ViewHelpers/Navigation.php:754-818 | the three merges of an inner category give exactly the keys `SubLevelKey` names |
| Navigation.LeafSubLevel | Classes/ViewHelpers/Navigation.php:754-771 | a leaf category keeps only its manufacturer level |
| Navigation.ProductMergeEntries | Classes/ViewHelpers/Navigation.php:802 | after the product merge an entry is the product's entry when the product list has its key, else the earlier entry |
| Navigation.ProductMergeTwice | Classes/ViewHelpers/Navigation.php:802-817 | merging the product list a second time leaves each entry the second list's entry or the entry from before both merges |
| Navigation.InnerSubLevelEntries | Classes/ViewHelpers/Navigation.php:771-818 | after the three merges every entry of an inner category's sub-level is the entry `SubLevelEntry` calls for |
| Navigation.ProductKeyHasRelation | Classes/ViewHelpers/Navigation.php:791 | a listed product implies a product relation, so `hasSubChild` is 1 |
| Navigation.Navigation.GetRootCategory | Classes/ViewHelpers/Navigation.php:571-602 | the category of the first group option naming one of the visitor's groups, when options are on and a visitor is logged in; the configured category otherwise |
| MenuInit.FirstApplying | Classes/ViewHelpers/Navigation.php:579-596 | the index of the first option that applies, with no earlier option applying, or -1 when none does |
| Navigation.Navigation.MakeErrorMenu | Classes/ViewHelpers/Navigation.php:612-630 | `max` entries (none when `max` <= 0) keyed 0 .. max-1 in order, each the error leaf with page and parent equal to its index; keys unique |
| MenuInit.MenuCache.Cached | Classes/ViewHelpers/Navigation.php:1479-1490 | the stored array for the hash, or an empty array |
| MenuInit.MenuCache.Save | Classes/ViewHelpers/Navigation.php:1458-1468 | the cache maps the hash to the array, and every other hash is unchanged |
| Navigation.Navigation.BuildTree | Classes/ViewHelpers/Navigation.php:368-423 | a non-empty cached array is used unless caching is off; otherwise the array is what `makeArrayPostRender` builds from the root category (`BuiltMenu`: its categories, products and nested levels), sorted when the sort type is 'alphabetiDesc', and `choosenCat` becomes the requested manufacturer exactly when one is requested and a category of the menu lists a manufacturer; it is stored exactly when caching is on |
| Navigation.Navigation.Locate | Classes/ViewHelpers/Navigation.php:434-514 | the chosen item is the requested category, else the shown product's master category, else unchanged; the path is the requested one, else the reversed root-first path of the chosen item, else empty; the depth follows from it |
| Navigation.Navigation.ChooseItem | Classes/ViewHelpers/Navigation.php:434-455 | with 'noAct' the path is cleared and the depth is 0; otherwise the chosen item is the requested category, else the master parent of the shown product, else unchanged |
| Navigation.Navigation.ResolvePath | Classes/ViewHelpers/Navigation.php:457-514 | a requested path is used as given; for a positive chosen item, the root-first rootline (or parent list cut at the root) with the root and non-positive ids stripped, cut at the first top-level key for visitors with group options, then reversed; the depth is its length (plus one with a manufacturer) unless requested; otherwise no path and depth 0 |
| Navigation.Navigation.GroupFix | Classes/ViewHelpers/Navigation.php:496-498 | the path is cut at the first top-level key exactly when group options are on and a visitor is logged in |
| Navigation.Navigation.RootFirstPath | Classes/ViewHelpers/Navigation.php:472-498 | the root-first path appended to the current path, as `RootFirstParents` defines it |
| Navigation.Navigation.CutEntryLevel | Classes/ViewHelpers/Navigation.php:520-536 | for `entryLevel` > 0 the array becomes the sub-level reached along the root-first path, one level per step, and as many path elements and depth levels are dropped; otherwise nothing changes |
| Navigation.Navigation.MarkPath | Classes/ViewHelpers/Navigation.php:520-543 | the outcome is `Marked` of the array, path and depth it starts from: after the entry-level cut, a non-empty path is walked by `processArrayPostRender`; the walked array, null when the cut ran off the array, or an abort when PHP stops with a TypeError |
| Navigation.Navigation.WalkPath | Classes/ViewHelpers/Navigation.php:538-540 | with a non-empty path the outcome is `processArrayPostRender`'s array, or an abort on a null array or a path the array does not hold; with an empty path the array is returned as it is |
| Navigation.Navigation.Setup | Classes/ViewHelpers/Navigation.php:299-338 | the page, entry level, 'noAct', level budget, root category, chosen item, shown product, depth and expansion are set from the configuration and request |
| Navigation.Navigation.Init | Classes/ViewHelpers/Navigation.php:293-544 | the root category and page as configured; the five-entry error menu when either is not positive; otherwise the menu array is the cached one or the built (`BuiltMenu`) and sorted one, the item the build starts from is the requested manufacturer when the menu was built, one is requested and a category lists it (`LevelListsManufacturer`), and the configured category otherwise, and the outcome is that array cut at the entry level and marked along the path derived for that item (`Finished`, `Marked`); caching off leaves the cache alone |
| Navigation.Navigation.Render | Classes/ViewHelpers/Navigation.php:366-544 | the array is fetched or built and sorted; the item it hands to `Finish` is the requested manufacturer when the array was built, one is requested and a category of the menu lists it, and the chosen item as before otherwise; `Finish` marks it |
| Navigation.Navigation.Finish | Classes/ViewHelpers/Navigation.php:425-544 | the chosen item, the path and the depth as `Locate` derives them, and the outcome `Marked` gives for the array with that path |
| Navigation.InitMarksChosen | Classes/ViewHelpers/Navigation.php:434-544 | with no requested path, no entry level, no group cut, no manufacturer and no shown product, the outcome for a well-formed array marks the chosen category's node CUR, or IFSUB over a sub-level |
| PathResolution.Reverse | Classes/ViewHelpers/Navigation.php:1527 | `array_reverse`: same length, element i is element n-1-i |
| PathResolution.RootLineFromLeads | Classes/ViewHelpers/Navigation.php:1519-1555 | in a well-formed array, a non-empty `getRootLine` result starts with the ancestors, leads through the array to a node whose key equals the searched key, and is that node's path reversed |
| PathResolution.RootLineSelects | Classes/ViewHelpers/Navigation.php:457-540 | handing the rootline of the chosen category to `processArrayPostRender` marks that very node CUR, or IFSUB over a sub-level, with CUR among its proposals |
| PathResolution.ProcessAlong | Classes/ViewHelpers/Navigation.php:1079-1112 | walking a path the array holds never aborts and gives its last node the last-level states |
| PathResolution.FirstEqual | Classes/ViewHelpers/Navigation.php:554-564 | the first index loosely equal to the target, with none before it, or -1 when none is |
| PathResolution.SuffixFrom | Classes/ViewHelpers/Navigation.php:554-564 | the suffix from the first element equal to the target, or empty when none is |
| PathResolution.FixPathParents | Classes/ViewHelpers/Navigation.php:554-564 | the shifting recursion leaves exactly `SuffixFrom` and ends on every input |
| PathResolution.Kept | Classes/ViewHelpers/Navigation.php:490-494 | an element is kept iff it is in the list and is neither the root category nor <= 0 |
| PathResolution.KeptAll | Classes/ViewHelpers/Navigation.php:490-494 | a path without the root category and without uids <= 0 comes through the strip unchanged |
| PathResolution.StripRoot | Classes/ViewHelpers/Navigation.php:486-494 | the loop appends exactly the kept elements, in order, to the parents gathered so far |
| PathResolution.EntryLevelFollows | Classes/ViewHelpers/Navigation.php:520-536 | cutting `entryLevel` levels along a path the array holds gives the sub-level of the node at that depth |
| StateResolution.ProcessArrayPostRender | Classes/ViewHelpers/Navigation.php:1007-1117 | the in-place walk yields `Process`; with `mDepth` 0 the array is unchanged |
| StateResolution.WalkDown | Classes/ViewHelpers/Navigation.php:1079-1112 | the way-down branch yields `Process` |
| StateResolution.ScanManufacturers | Classes/ViewHelpers/Navigation.php:1009-1015 | the path is replaced by the path of the last pseudo-category of the requested manufacturer under the chosen category, if any |
| StateResolution.MarkLast | Classes/ViewHelpers/Navigation.php:1031-1078 | the writes to the last-level node give `LastNode` |
| StateResolution.MarkWay | Classes/ViewHelpers/Navigation.php:1083-1108 | the writes to a node on the way down give the `WayStates` proposals and change nothing else |
| StateResolution.ProcessDown | Classes/ViewHelpers/Navigation.php:1079-1112 | a walk deeper than one level succeeds exactly when the popped node exists with a sub-level and the walk below succeeds, and then writes that node back with the walked sub-level |
| StateResolution.ProcessLast | Classes/ViewHelpers/Navigation.php:1022-1078 | a walk of depth 1 writes exactly the last-level node of `path[0]` |
| StateResolution.ProcessAnnotates | Classes/ViewHelpers/Navigation.php:1007-1117 | the walk only proposes states, adds the shown product and opens sub-menus: every existing entry keeps its key, position and every other field |
| StateResolution.ProcessFrame | Classes/ViewHelpers/Navigation.php:1021-1112 | at the top level only the written key changes: every other key keeps its node, and the key list grows at most by the written key |
| StateResolution.LastLevel | Classes/ViewHelpers/Navigation.php:1031-1078 | at the last level the chosen node is CUR (IFSUB with the long list over a sub-level); with a shown product that product is CUR and the node ACT; another node is ACT; a non-empty sub-level is opened |
| ItemStates.FirstEnabledIsFirst | Classes/ViewHelpers/Navigation.php:1265-1276 | the picked state is the first state in priority order that is enabled and listed, or NO exactly when there is none |
| ItemStates.ResolveState | Classes/ViewHelpers/Navigation.php:1262-1276 | the loop over the priority list picks `FirstEnabled` |
| ItemStates.Clear | Classes/ViewHelpers/Navigation.php:1236-1283 | the loops give `Cleared`: nothing without a commerce first item or with any DO_NOT_RENDER item; otherwise each item with a list and a state other than NO gets its first enabled listed state |
| ItemStates.DoNotRenderClearsAll | Classes/ViewHelpers/Navigation.php:1242-1246 | one item that must not be rendered empties the whole array |
| ItemStates.ClearedStates | Classes/ViewHelpers/Navigation.php:1254-1278 | settled items and items without a list are untouched; the others end with NO or with a state that is both enabled and in their list |
| ItemStates.ListedCurrentResolves | Classes/ViewHelpers/Navigation.php:149-159 | an item proposing CUR with CUR enabled settles on CURIFSUB when that is enabled and proposed, else CUR |
| MenuSort.Upper | Classes/ViewHelpers/Navigation.php:1704 | `strtoupper` maps exactly the ASCII lower-case letters up and keeps the length |
| MenuSort.StrLeqTotal | Classes/ViewHelpers/Navigation.php:1704 | the `strcmp` order is total |
| MenuSort.StrLeqTrans | Classes/ViewHelpers/Navigation.php:1704 | the `strcmp` order is transitive |
| MenuSort.SortPerm | Classes/ViewHelpers/Navigation.php:1698-1710 | the sort is a permutation of the level |
| MenuSort.SortOrdered | Classes/ViewHelpers/Navigation.php:1698-1710 | the sorted level is in title order |
| MenuSort.SortOrderedSame | Classes/ViewHelpers/Navigation.php:1698-1710 | sorting a level already in order changes nothing |
| MenuSort.SortArrayList | Classes/ViewHelpers/Navigation.php:1698-1710 | success exactly for 'alphabetiDesc', and then the level is ordered and a permutation of the input; otherwise it is unchanged |
| MenuSort.SortAllMenuArray | Classes/ViewHelpers/Navigation.php:1677-1687 | the recursive sort (with opened sub-menus refreshed) yields `SortAllSynced` |
| MenuSort.SortAllSyncedSorted | Classes/ViewHelpers/Navigation.php:1677-1687 | the top-level keys stay as they were, every sub-level at every depth is in title order, and every opened sub-menu still shows its sub-level |
| MenuSort.MapSyncedSort | Classes/ViewHelpers/Navigation.php:1680-1684 | sorting a level commutes with sorting inside its entries |
| Rootline.CategoryRootline | Classes/ViewHelpers/Navigation.php:1396-1443 | empty for uid 0; otherwise ends with the category's own item; each item is the CUR (NO with a shown product) item of its category, the parent of the next one, and the first one sits right below the root |
| Rootline.RenderRootline | Classes/ViewHelpers/Navigation.php:1378-1382 | the rootline with its first `entryLevel` items shifted off, empty when there are fewer |
| Findings.ManufacturerMergeAsWritten | Classes/ViewHelpers/Navigation.php:754-769 | the merge aborts exactly when `getManufacturerAsCategory` answered false; otherwise it is the corrected merge and its entries come from the two arrays |
| Findings.ManufacturerMergeAborts | Classes/ViewHelpers/Navigation.php:1594-1596 | for every store, category and level: the merge as written aborts exactly when the category has no product relations; otherwise every manufacturer of its products is in the merged level with the node built for it |
| Findings.ManufacturerMergeAbortsOn | Classes/ViewHelpers/Navigation.php:1594-1596 | a category shown with manufacturers through 'all' but without product relations: `getManufacturerAsCategory` answers false and the merge as written aborts |
| Navigation.LevelListsWitness | Classes/ViewHelpers/Navigation.php:1642-1644 | the build writes a pseudo-category only when some category shows its manufacturers and has one |
| Navigation.AnyListsWitness | Classes/ViewHelpers/Navigation.php:711-855 | a manufacturer listed below one of the uids comes from a category that shows its manufacturers and has one |
| Navigation.NodeListsWitness | Classes/ViewHelpers/Navigation.php:754-789 | a manufacturer listed at or below a category comes from a category that shows its manufacturers and has one |
| Navigation.ChildListsManufacturer | Classes/ViewHelpers/Navigation.php:711-769 | a live child category that shows a manufacturer makes the build of its parent write a pseudo-category |
| Navigation.AnyListsMember | Classes/ViewHelpers/Navigation.php:711-855 | one live uid of the list under which a manufacturer is listed is enough for the loop to list one |
| MenuSort.SortAllLeavesSubMenu | Classes/ViewHelpers/Navigation.php:1677-1687 | with the sort as written, an opened sub-menu keeps its old order while its sub-level is sorted |

## Left out

- Database access: the SQL strings, the repositories and the language overlay
  are replaced by the `Catalog.Store` value. The `hideEmptyCategories` test of
  `getDataRow` is represented by the category being absent from the store.
- The md5 cache key is a parameter (`hash`), and the TYPO3 cache is the
  `MenuCache` map.
- Link building is not modelled: `_ADD_GETVARS`, `generateChash`,
  `htmlspecialchars`/`strip_tags`, the argument separator and the additional
  node fields. Titles are opaque strings.
- The request variables, the page id, the frontend user's groups, the basket
  and `no_cache` are parameters or fields set by the caller.
  `GeneralUtility::_GPmerged`, the basket initialisation and `DebugUtility`
  output are not modelled.
- `processConf` is not modelled. It registers `clear` as the item processor in
  the TypoScript, and the depth it sets is overwritten by `init` (`:336`).
- `getDataRow`, `storeHash` and `getHash` are library and database calls. They
  are the store lookups and the cache map.
- `Rootline.CategoryRootline`: the recursion up the parent relation is
  bounded by a `fuel` parameter. The PHP recursion has no bound, so a cyclic
  parent relation, which would not terminate in PHP, yields None here.
- `MenuSort.SortArrayList`: `uasort` is modelled as a stable sort. PHP 7's
  sort is not stable for equal titles, so the relative order of equal titles
  is not captured.
- `Navigation.Navigation.GetRootCategory`: the PHP loop reads one option past
  the list and compares against an unset `groups` entry. `trimExplode` turns
  that entry into `''`. The extra read selects nothing unless the visitor's
  group list has an empty element. In that case, when no real option applied,
  it picks the unset (null) category, and `init` answers the error menu. This
  case is not modelled.
- Navigation.Navigation.MakeArrayPostRender: uses the corrected manufacturer
  merge. A category shown with manufacturers but without product relations
  gets an empty manufacturer level, where PHP stops with a TypeError at
  `:756`. The abort is modelled only by `Findings.ManufacturerMergeAsWritten`.
- Navigation.Navigation.MakeCategoryNode: the same corrected manufacturer
  merge (`:754-769`). It returns a node where PHP aborts.
- Navigation.Navigation.BuildTree: the built array is sorted with
  `SortAllSynced`, which refreshes the opened `_SUB_MENU` copies. With
  'alphabetiDesc' and `expandAll` set, PHP leaves those copies in build order
  (`:1677-1687`). It also carries the corrected manufacturer merge.
- Navigation.Navigation.Init: inherits both corrections. With 'alphabetiDesc'
  and `expandAll`, its opened sub-menus are sorted where PHP's are not. A
  category shown with manufacturers but without products gives a menu where
  PHP stops with a TypeError.
- The `sortingOrder` hooks of `makeArrayPostRender` (`:697-705`) and
  `makeSubChildArrayPostRender` (`:913-921`) call code outside this
  repository. The model is the behaviour with no hook installed, where the
  SQL order stays as configured.
- Catalog.RowsOf: rows come in the order of the requested uids. The SQL `IN`
  query of `findByUids` promises no order. A uid listed twice gives its row
  twice, where SQL gives it once. This does not matter here, because the
  manufacturer loop writes each manufacturer only once.
- Nodes written for entries that did not exist (the shown product and path
  keys missing from the array) take default field values. PHP's fields stay
  unset in that case.
- `renderRootline`'s link and title strings are not modelled, and neither is
  the product title overlay.
- The other files of the repository are not part of this model:
  `Classes/Controller/BasketController.php`, `tree/class.browsetree.php`,
  `Classes/Tree/Leaf/ProductView.php` and
  `treelib/class.tx_commerce_leaf_articleview.php`. They dispatch hooks and
  build HTML.

## Findings

| source | as written | input that shows it | evidently intended | confidence | as-written member | corrected member |
|---|---|---|---|---|---|---|
| Classes/ViewHelpers/Navigation.php:754-769 | `arrayMerge(array &$arr1, array &$arr2)` receives the `false` that `getManufacturerAsCategory` returns without product relations (`:1594-1596`), and PHP stops with a TypeError | `displayManuForCat = all` and a category with no product relations (`Findings.ManufacturerMergeAborts` for every store, `Findings.ManufacturerMergeAbortsOn` for one) | merge nothing, as the `is_array($arr2)` test inside `arrayMerge` (`:1502`) is written to do | not executed | Findings.ManufacturerMergeAsWritten | Navigation.Navigation.ManufacturerSubLevel |
| Classes/ViewHelpers/Navigation.php:1677-1687 | `sortAllMenuArray` sorts each `--subLevel--` but leaves the `_SUB_MENU` copy made at `:821` in its old order | an opened sub-level with titles "B", "A" | the opened sub-menu shows the sorted sub-level | not executed | MenuSort.SortAllLeavesSubMenu | MenuSort.SortAllSyncedSorted |
