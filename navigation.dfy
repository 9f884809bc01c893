/** The navigation object: configuration, request variables and the working state
    of one menu rendering, and the builders whose results depend on that state. */
module Navigation {
  import opened Wrappers
  import opened MenuTree
  import opened Catalog
  import opened Settings
  import opened MenuShape
  import opened MenuBuild
  import opened MenuSort
  import opened StateResolution
  import opened PathResolution
  import opened MenuInit

  /** The node `getManufacturerAsCategory` writes for manufacturer `m` below
      category `cat`: a pseudo-category (no 'CommerceMenu' flag) titled with the
      manufacturer, whose sub-level lists that manufacturer's products of `cat`. */
  ghost predicate ManufacturerEntry(s: Store, conf: Config, showUid: int, expandAll: int, pid: int, pageUid: int, cat: int, depth: int, path: seq<Key>, e: Entry) {
    e.key.Manu? && e.key.manufacturer != 0 &&
    var m := e.key.manufacturer;
    var n := e.node;
    !n.commerceMenu && n.pid == pid && n.pageUid == pageUid
    && n.title == ManufacturerTitle(s, m) && n.navTitle == ManufacturerTitle(s, m) && n.hidden == 0
    && n.parentId == Some(cat) && n.depth == depth && n.path == [e.key] + path
    && n.leaf == IsLeaf(s, cat) && n.kind == ManufacturerItem(m, HasSubChild(s, cat))
    && n.state == Some(NO) && n.statesList == []
    && (n.subLevel.Some? <==> HasSubChild(s, cat) == 1 && conf.showProducts)
    && (n.subLevel.Some? ==> Keys(n.subLevel.value) == Distinct(ProductKeys(s, cat, Some(m))))
    && (n.subLevel.Some? ==> forall pe :: pe in n.subLevel.value.entries ==> ProductEntry(s, showUid, pageUid, cat, depth + 1, n.path, pe))
    && n.subMenu == (if Expands(expandAll, depth) then n.subLevel else None)
  }

  /** The keys of a category's '--subLevel--': its manufacturers when the category
      lists them; its live sub-categories while the level budget lasts (or, when
      it has none, the products the recursive call lists instead); and its live
      products when products are shown.  Both product lists are filtered by a
      manufacturer uid equal to the level budget of the call that makes them,
      because `makeArrayPostRender` passes its `$maxLevel` in the
      `$manufacturerUid` argument of `makeSubChildArrayPostRender`. */
  ghost predicate SubLevelKey(s: Store, conf: Config, c: int, budget: int, k: Key) {
    (ShowsManufacturers(conf, c) && k in ManufacturerKeys(s, c))
    || (budget >= 1 && ChildLevelKey(s, conf, c, budget, k))
    || (conf.showProducts && k in ProductKeys(s, c, Some(budget)))
  }

  /** The keys of the recursive call's result, given a budget of at least one. */
  ghost predicate ChildLevelKey(s: Store, conf: Config, c: int, budget: int, k: Key) {
    k in CategoryKeys(s, c) || (|CategoryKeys(s, c)| == 0 && conf.showProducts && k in ProductKeys(s, c, Some(budget - 1)))
  }

  /** The node `makeArrayPostRender` writes for a live category: the record's
      fields, the leaf and product flags, the state IFSUB for an inner node and NO
      for a leaf, and a sub-level holding exactly the `SubLevelKey`s, each entry
      as `SubLevelEntry` describes it, opened as '_SUB_MENU' when the expand
      option reaches its depth. */
  ghost predicate CategoryEntry(s: Store, conf: Config, showUid: int, expandAll: int, pageUid: int, depth: int, budget: int, e: Entry)
    decreases e, 1
  {
    e.key.Uid? && Live(s.categories, e.key.uid) &&
    var c := e.key.uid;
    var row := s.categories[c];
    var n := e.node;
    n.commerceMenu && n.pid == row.pid && n.pageUid == pageUid
    && n.title == row.title && n.navTitle == row.navTitle && n.hidden == row.hidden
    && n.leaf == IsLeaf(s, c) && n.kind == CategoryItem(HasSubChild(s, c))
    && n.state == Some(if n.leaf == 0 then IFSUB else NO)
    && n.statesList == (if n.leaf == 0 then [IFSUB, NO] else [])
    && (n.subLevel.Some? <==> n.leaf == 0 || ShowsManufacturers(conf, c))
    && (n.subMenu.Some? <==> n.leaf == 0 && Expands(expandAll, depth))
    && (n.subLevel.Some? ==> forall k :: Has(n.subLevel.value, k) <==> SubLevelKey(s, conf, c, budget, k))
    && (n.subLevel.Some? ==> forall se :: se in n.subLevel.value.entries ==>
          SubLevelEntry(s, conf, showUid, expandAll, row.pid, pageUid, c, depth + 1, n.path, budget, se))
  }

  /** An entry of the sub-level of category `c`, by its key: a manufacturer key
      holds that manufacturer's pseudo-category; a product key of the product
      merge holds the product's leaf (it overwrites a category of the same uid);
      a child category key holds the child's node, built with one level less;
      any other key is a product the recursive call listed in place of missing
      child categories. */
  ghost predicate SubLevelEntry(s: Store, conf: Config, showUid: int, expandAll: int, pid: int, pageUid: int, c: int, depth: int, path: seq<Key>, budget: int, se: Entry)
    decreases se, 2
  {
    if se.key.Manu? then ManufacturerEntry(s, conf, showUid, expandAll, pid, pageUid, c, depth, path, se)
    else if HasSubChild(s, c) == 1 && conf.showProducts && se.key in ProductKeys(s, c, Some(budget)) then
      ProductEntry(s, showUid, pageUid, c, depth, path, se)
    else if se.key in CategoryKeys(s, c) then CategoryEntry(s, conf, showUid, expandAll, pageUid, depth, budget - 1, se)
    else ProductEntry(s, showUid, pageUid, c, depth, path, se)
  }

  /** What `makeArrayPostRender($uidPage, $uidRoot, $maxLevel, ...)` returns at
      nesting `depth` below `path`: nothing once the level budget is used up;
      otherwise one `CategoryEntry` per live child category of `uidRoot`, in
      relation order; when there is none, the live products of `uidRoot` if
      products are shown (filtered by the remaining budget as a manufacturer
      uid), else nothing.  Every level is well formed (`Layered`). */
  ghost predicate BuiltLevel(s: Store, conf: Config, showUid: int, expandAll: int, uidPage: int, uidRoot: int,
                             depth: int, path: seq<Key>, maxLevel: int, r: Tree) {
    (maxLevel < 1 ==> r == Empty)
    && (maxLevel >= 1 && |CategoryKeys(s, uidRoot)| > 0 ==>
          Keys(r) == Distinct(CategoryKeys(s, uidRoot))
          && forall e :: e in r.entries ==> CategoryEntry(s, conf, showUid, expandAll, uidPage, depth, maxLevel - 1, e))
    && (maxLevel >= 1 && |CategoryKeys(s, uidRoot)| == 0 && conf.showProducts ==>
          Keys(r) == Distinct(ProductKeys(s, uidRoot, Some(maxLevel - 1)))
          && forall e :: e in r.entries ==> ProductEntry(s, showUid, uidPage, uidRoot, depth, path, e))
    && (maxLevel >= 1 && |CategoryKeys(s, uidRoot)| == 0 && !conf.showProducts ==> r == Empty)
    && Layered(r, depth, path, uidRoot)
  }

  /** Whether `makeArrayPostRender($uidRoot, $maxLevel)` writes a manufacturer
      pseudo-category anywhere in the array it builds, which makes the requested
      manufacturer the chosen item (`getManufacturerAsCategory`, `:1642-1644`). */
  ghost predicate LevelListsManufacturer(s: Store, conf: Config, uidRoot: int, maxLevel: int)
    decreases maxLevel, 2
  {
    maxLevel >= 1 && AnyListsManufacturer(s, conf, ChildCategories(s, uidRoot), maxLevel - 1)
  }

  /** Whether one of the live categories `uids` writes a pseudo-category. */
  ghost predicate AnyListsManufacturer(s: Store, conf: Config, uids: seq<int>, budget: int)
    decreases budget + 1, 1, |uids|
  {
    |uids| > 0 && budget >= 0
    && (AnyListsManufacturer(s, conf, uids[..|uids| - 1], budget)
        || (Live(s.categories, uids[|uids| - 1]) && NodeListsManufacturer(s, conf, uids[|uids| - 1], budget)))
  }

  /** Whether the node of live category `c` writes a pseudo-category: its own
      manufacturer level is not empty, or, for an inner node, the recursive call
      for its children writes one. */
  ghost predicate NodeListsManufacturer(s: Store, conf: Config, c: int, budget: int)
    decreases budget + 1, 0
  {
    (ShowsManufacturers(conf, c) && |ManufacturerKeys(s, c)| > 0)
    || (IsLeaf(s, c) == 0 && budget >= 1 && LevelListsManufacturer(s, conf, c, budget))
  }

  /** One more category in the loop writes a pseudo-category exactly when its
      node does. */
  lemma AnyListsStep(s: Store, conf: Config, uids: seq<int>, i: int, budget: int)
    requires 0 <= i < |uids| && budget >= 0
    ensures AnyListsManufacturer(s, conf, uids[..i + 1], budget)
      == (AnyListsManufacturer(s, conf, uids[..i], budget) || (Live(s.categories, uids[i]) && NodeListsManufacturer(s, conf, uids[i], budget)))
  {
    assert uids[..i + 1][..i] == uids[..i];
  }

  /** A build writes a pseudo-category only below a category that shows its
      manufacturers and has at least one. */
  lemma LevelListsWitness(s: Store, conf: Config, uidRoot: int, maxLevel: int) returns (c: int)
    requires LevelListsManufacturer(s, conf, uidRoot, maxLevel)
    ensures ShowsManufacturers(conf, c) && |ManufacturerKeys(s, c)| > 0
    decreases maxLevel, 2
  {
    c := AnyListsWitness(s, conf, ChildCategories(s, uidRoot), maxLevel - 1);
  }

  lemma AnyListsWitness(s: Store, conf: Config, uids: seq<int>, budget: int) returns (c: int)
    requires AnyListsManufacturer(s, conf, uids, budget)
    ensures ShowsManufacturers(conf, c) && |ManufacturerKeys(s, c)| > 0
    decreases budget + 1, 1, |uids|
  {
    if AnyListsManufacturer(s, conf, uids[..|uids| - 1], budget) {
      c := AnyListsWitness(s, conf, uids[..|uids| - 1], budget);
    } else {
      c := NodeListsWitness(s, conf, uids[|uids| - 1], budget);
    }
  }

  lemma NodeListsWitness(s: Store, conf: Config, c0: int, budget: int) returns (c: int)
    requires NodeListsManufacturer(s, conf, c0, budget)
    ensures ShowsManufacturers(conf, c) && |ManufacturerKeys(s, c)| > 0
    decreases budget + 1, 0
  {
    if ShowsManufacturers(conf, c0) && |ManufacturerKeys(s, c0)| > 0 {
      c := c0;
    } else {
      c := LevelListsWitness(s, conf, c0, budget);
    }
  }

  /** A live child category of `uidRoot` that shows a manufacturer makes the
      build write a pseudo-category. */
  lemma ChildListsManufacturer(s: Store, conf: Config, uidRoot: int, maxLevel: int, c: int)
    requires maxLevel >= 1 && c in ChildCategories(s, uidRoot) && Live(s.categories, c)
    requires ShowsManufacturers(conf, c) && |ManufacturerKeys(s, c)| > 0
    ensures LevelListsManufacturer(s, conf, uidRoot, maxLevel)
  {
    AnyListsMember(s, conf, ChildCategories(s, uidRoot), maxLevel - 1, c);
  }

  lemma {:induction false} AnyListsMember(s: Store, conf: Config, uids: seq<int>, budget: int, c: int)
    requires budget >= 0 && c in uids && Live(s.categories, c) && NodeListsManufacturer(s, conf, c, budget)
    ensures AnyListsManufacturer(s, conf, uids, budget)
    decreases |uids|
  {
    if uids[|uids| - 1] != c {
      assert c in uids[..|uids| - 1] by {
        var j :| 0 <= j < |uids| && uids[j] == c;
        assert uids[..|uids| - 1][j] == c;
      }
      AnyListsMember(s, conf, uids[..|uids| - 1], budget, c);
    }
  }

  lemma ManufacturerStep(s: Store, conf: Config, showUid: int, expandAll: int, pid: int, pageUid: int, cat: int, depth: int, path: seq<Key>,
                         t: Tree, xs: seq<Key>, k: Key, n: Node)
    requires Keys(t) == Distinct(xs)
    requires Layered(t, depth, path, cat) && EntryLayered(Entry(k, n), depth, path, cat)
    requires forall e :: e in t.entries ==> ManufacturerEntry(s, conf, showUid, expandAll, pid, pageUid, cat, depth, path, e)
    requires ManufacturerEntry(s, conf, showUid, expandAll, pid, pageUid, cat, depth, path, Entry(k, n))
    ensures Keys(Put(t, k, n)) == Distinct(xs + [k])
    ensures Layered(Put(t, k, n), depth, path, cat)
    ensures forall e :: e in Put(t, k, n).entries ==> ManufacturerEntry(s, conf, showUid, expandAll, pid, pageUid, cat, depth, path, e)
  {
    PutEntries(t, k, n);
    PutDistinct(t, xs, k, n);
  }

  lemma CategoryStep(s: Store, conf: Config, showUid: int, expandAll: int, pageUid: int, parent: int, depth: int, path: seq<Key>, budget: int,
                     t: Tree, xs: seq<Key>, k: Key, n: Node)
    requires Keys(t) == Distinct(xs)
    requires Layered(t, depth, path, parent) && EntryLayered(Entry(k, n), depth, path, parent)
    requires forall e :: e in t.entries ==> CategoryEntry(s, conf, showUid, expandAll, pageUid, depth, budget, e)
    requires CategoryEntry(s, conf, showUid, expandAll, pageUid, depth, budget, Entry(k, n))
    ensures Keys(Put(t, k, n)) == Distinct(xs + [k])
    ensures Layered(Put(t, k, n), depth, path, parent)
    ensures forall e :: e in Put(t, k, n).entries ==> CategoryEntry(s, conf, showUid, expandAll, pageUid, depth, budget, e)
  {
    PutEntries(t, k, n);
    PutDistinct(t, xs, k, n);
  }

  /** The manufacturer level merged into an empty array keeps its keys. */
  lemma ManufacturerLevel(s: Store, c: int, manufacturers: Tree, depth: int, path: seq<Key>)
    requires Keys(manufacturers) == Distinct(ManufacturerKeys(s, c))
    requires Layered(manufacturers, depth, path, c)
    ensures Layered(Merge(Empty, manufacturers), depth, path, c)
    ensures forall k :: Has(Merge(Empty, manufacturers), k) <==> k in ManufacturerKeys(s, c)
  {
    KeysAreDistinct(manufacturers, ManufacturerKeys(s, c));
    MergeStep(Empty, manufacturers, depth, path, c);
  }

  lemma NoProductsNoManufacturers(s: Store, c: int)
    requires |CategoryProducts(s, c)| == 0
    ensures ManufacturerKeys(s, c) == []
  {
  }

  lemma KeysAreDistinct(t: Tree, xs: seq<Key>)
    requires Keys(t) == Distinct(xs)
    ensures forall k :: Has(t, k) <==> k in xs
  {
    forall k ensures Has(t, k) <==> k in xs {
      HasIsKey(t, k);
    }
  }

  /** Merging two arrays of one level: the keys of either, still well formed. */
  lemma MergeStep(a: Tree, b: Tree, depth: int, path: seq<Key>, parent: int)
    requires Layered(a, depth, path, parent) && Layered(b, depth, path, parent)
    ensures Layered(Merge(a, b), depth, path, parent)
    ensures forall k :: Has(Merge(a, b), k) <==> Has(a, k) || Has(b, k)
  {
    MergeLayered(a, b, depth, path, parent);
    forall k ensures Has(Merge(a, b), k) <==> Has(a, k) || Has(b, k) {
      MergeLookup(a, b, k);
    }
  }

  /** The keys of the recursive `makeArrayPostRender` call for the children of `c`. */
  lemma InnerLevelKeys(s: Store, conf: Config, c: int, budget: int, inner: Tree)
    requires budget < 1 ==> inner == Empty
    requires budget >= 1 && |CategoryKeys(s, c)| > 0 ==> Keys(inner) == Distinct(CategoryKeys(s, c))
    requires budget >= 1 && |CategoryKeys(s, c)| == 0 && conf.showProducts ==> Keys(inner) == Distinct(ProductKeys(s, c, Some(budget - 1)))
    requires budget >= 1 && |CategoryKeys(s, c)| == 0 && !conf.showProducts ==> inner == Empty
    ensures forall k :: Has(inner, k) <==> budget >= 1 && ChildLevelKey(s, conf, c, budget, k)
  {
    if budget >= 1 && |CategoryKeys(s, c)| > 0 {
      KeysAreDistinct(inner, CategoryKeys(s, c));
    } else if budget >= 1 && conf.showProducts {
      KeysAreDistinct(inner, ProductKeys(s, c, Some(budget - 1)));
    }
  }

  /** A listed product implies a product relation, hence `hasSubChild == 1`. */
  lemma ProductKeyHasRelation(s: Store, c: int, manufacturer: Option<int>, k: Key)
    requires k in ProductKeys(s, c, manufacturer)
    ensures |CategoryProducts(s, c)| > 0
  {
  }

  lemma InnerSubLevel(s: Store, conf: Config, c: int, budget: int, manufacturerLevel: Tree, withCategories: Tree, level: Tree)
    requires c != 0
    requires forall k :: Has(manufacturerLevel, k) <==> ShowsManufacturers(conf, c) && k in ManufacturerKeys(s, c)
    requires forall k :: Has(withCategories, k) <==> Has(manufacturerLevel, k) || (budget >= 1 && ChildLevelKey(s, conf, c, budget, k))
    requires forall k :: Has(level, k) <==> Has(withCategories, k) || (HasSubChild(s, c) == 1 && conf.showProducts && k in ProductKeys(s, c, Some(budget)))
    ensures forall k :: Has(level, k) <==> SubLevelKey(s, conf, c, budget, k)
  {
    forall k ensures Has(level, k) <==> SubLevelKey(s, conf, c, budget, k) {
      if k in ProductKeys(s, c, Some(budget)) {
        ProductKeyHasRelation(s, c, Some(budget), k);
      }
    }
  }

  /** A leaf category has neither sub-categories nor products. */
  lemma LeafSubLevel(s: Store, conf: Config, c: int, budget: int, manufacturerLevel: Tree)
    requires IsLeaf(s, c) == 1
    requires forall k :: Has(manufacturerLevel, k) <==> ShowsManufacturers(conf, c) && k in ManufacturerKeys(s, c)
    ensures forall k :: Has(manufacturerLevel, k) <==> SubLevelKey(s, conf, c, budget, k)
  {
    forall k ensures Has(manufacturerLevel, k) <==> SubLevelKey(s, conf, c, budget, k) {
      if k in ProductKeys(s, c, Some(budget)) {
        ProductKeyHasRelation(s, c, Some(budget), k);
      }
      if k in ProductKeys(s, c, Some(budget - 1)) {
        ProductKeyHasRelation(s, c, Some(budget - 1), k);
      }
    }
  }

  /** An entry of `$level` after the product merge is the product's entry when
      the product array has its key, and the earlier entry otherwise. */
  lemma ProductMergeEntries(level: Tree, products: Tree)
    requires UniqueKeys(level) && UniqueKeys(products)
    ensures forall e :: e in Merge(level, products).entries ==>
      e in products.entries || (!Has(products, e.key) && e in level.entries)
  {
    forall e | e in Merge(level, products).entries
      ensures e in products.entries || (!Has(products, e.key) && e in level.entries)
    {
      MergeEntryFrom(level, products, e);
    }
  }

  /** The same, when the product list (with the same keys) is merged twice. */
  lemma ProductMergeTwice(level: Tree, first: Tree, second: Tree)
    requires UniqueKeys(level) && UniqueKeys(first) && UniqueKeys(second)
    requires forall k :: Has(first, k) <==> Has(second, k)
    ensures forall e :: e in Merge(Merge(level, first), second).entries ==>
      e in second.entries || (!Has(second, e.key) && e in level.entries)
  {
    MergeUnique(level, first);
    forall e | e in Merge(Merge(level, first), second).entries
      ensures e in second.entries || (!Has(second, e.key) && e in level.entries)
    {
      MergeEntryFrom(Merge(level, first), second, e);
      if !Has(second, e.key) {
        MergeEntryFrom(level, first, e);
      }
    }
  }

  /** Every entry of an inner category's sub-level is the entry its key calls
      for: the manufacturer level, the recursive call's level and the product
      list are merged in that order, each later one overwriting equal keys. */
  lemma InnerSubLevelEntries(s: Store, conf: Config, showUid: int, expandAll: int, pid: int, pageUid: int, c: int,
                             depth: int, path: seq<Key>, budget: int,
                             manufacturerLevel: Tree, categories: Tree, products: Tree, level: Tree)
    requires UniqueKeys(manufacturerLevel) && UniqueKeys(categories)
    requires forall e :: e in level.entries ==>
      e in products.entries || (!Has(products, e.key) && e in Merge(manufacturerLevel, categories).entries)
    requires forall k :: Has(products, k) ==> HasSubChild(s, c) == 1 && conf.showProducts && k in ProductKeys(s, c, Some(budget))
    requires HasSubChild(s, c) == 1 && conf.showProducts ==> forall k :: k in ProductKeys(s, c, Some(budget)) ==> Has(products, k)
    requires forall e :: e in products.entries ==> ProductEntry(s, showUid, pageUid, c, depth, path, e)
    requires forall e :: e in manufacturerLevel.entries ==> ManufacturerEntry(s, conf, showUid, expandAll, pid, pageUid, c, depth, path, e)
    requires forall e :: e in categories.entries ==>
      (e.key in CategoryKeys(s, c) ==> CategoryEntry(s, conf, showUid, expandAll, pageUid, depth, budget - 1, e))
      && (e.key !in CategoryKeys(s, c) ==> ProductEntry(s, showUid, pageUid, c, depth, path, e))
    ensures forall e :: e in level.entries ==> SubLevelEntry(s, conf, showUid, expandAll, pid, pageUid, c, depth, path, budget, e)
  {
    forall e | e in level.entries
      ensures SubLevelEntry(s, conf, showUid, expandAll, pid, pageUid, c, depth, path, budget, e)
    {
      if e in products.entries {
        EntryHasKey(products, e);
      } else {
        MergeEntryFrom(manufacturerLevel, categories, e);
        if Has(categories, e.key) {
          assert e in categories.entries;
          assert !e.key.Manu?;
        }
      }
    }
  }

  /** A leaf category's sub-level holds only manufacturer pseudo-categories. */
  lemma ManufacturerOnlyEntries(s: Store, conf: Config, showUid: int, expandAll: int, pid: int, pageUid: int, c: int,
                                depth: int, path: seq<Key>, budget: int, manufacturerLevel: Tree)
    requires forall e :: e in manufacturerLevel.entries ==> ManufacturerEntry(s, conf, showUid, expandAll, pid, pageUid, c, depth, path, e)
    ensures forall e :: e in manufacturerLevel.entries ==> SubLevelEntry(s, conf, showUid, expandAll, pid, pageUid, c, depth, path, budget, e)
  {
  }

  /** The last part of `init` for the menu array `tree`, the path `path` to the
      current item (nearest first) and the depth `depth`: the first `entryLevel`
      levels are cut off the array (following the path), off the root end of
      the path and off the depth; when a path is left, its states are marked
      (`processArrayPostRender`).  A null array or a path the array does not
      hold stops PHP with a TypeError (Aborted). */
  function Marked(sel: Selection, tree: Option<Tree>, path: seq<Key>, depth: int, entryLevel: int): Outcome {
    var cut := if entryLevel > 0 then EntryLevelTree(tree, Reverse(path), entryLevel, 0) else tree;
    var rest := if entryLevel > 0 then path[..if entryLevel < |path| then |path| - entryLevel else 0] else path;
    var restDepth := if entryLevel > 0 then depth - entryLevel else depth;
    Walked(sel, cut, rest, restDepth)
  }

  /** `Marked` is the walk over what the entry-level cut leaves. */
  lemma MarkedCut(sel: Selection, tree: Option<Tree>, path: seq<Key>, depth: int, entryLevel: int,
                  cut: Option<Tree>, rest: seq<Key>, restDepth: int)
    requires entryLevel > 0 ==>
      cut == EntryLevelTree(tree, Reverse(path), entryLevel, 0)
      && rest == path[..if entryLevel < |path| then |path| - entryLevel else 0] && restDepth == depth - entryLevel
    requires entryLevel <= 0 ==> cut == tree && rest == path && restDepth == depth
    ensures Marked(sel, tree, path, depth, entryLevel) == Walked(sel, cut, rest, restDepth)
  {
  }

  /** The states marked along `path` in the (possibly null) array `tree`. */
  function Walked(sel: Selection, tree: Option<Tree>, path: seq<Key>, depth: int): Outcome {
    if |path| == 0 then Returned(tree)
    else if tree.None? then Aborted
    else match Process(sel, tree.value, path, depth)
         case None => Aborted
         case Some(t) => Returned(Some(t))
  }

  /** The selection end to end: when no path is requested, no group option cuts
      the path, no entry level is cut and no manufacturer or product is
      selected, the outcome `init` hands back for a well-formed array marks the
      chosen category's node CUR (IFSUB when it has a sub-level), provided its
      rootline holds neither the root category nor a uid <= 0. */
  lemma InitMarksChosen(s: Store, sel: Selection, t: Tree, cat: int, parent: int, entryLevel: int)
    requires Layered(t, 1, [], parent)
    requires sel.manufacturer == 0 && sel.showUid <= 0 && entryLevel <= 0
    requires var r := GetRootLine(t, sel.choosenCat);
      |r| > 0 && !ShowUidIs(sel.showUid, r[|r| - 1]) && forall k :: k in r ==> KeepInPath(k, cat)
    ensures var r := GetRootLine(t, sel.choosenCat);
      var path := Reverse(RootFirstParents(s, t, sel.choosenCat, cat, [], None));
      var outcome := Marked(sel, Some(t), path, |path|, entryLevel);
      outcome.Returned? && outcome.menu.Some? && Lookup(outcome.menu.value, r).Some? && Lookup(t, r).Some?
      && Lookup(outcome.menu.value, r).value.state == Some(if HasChildren(Lookup(t, r).value) then IFSUB else CUR)
  {
    var r := GetRootLine(t, sel.choosenCat);
    assert forall i :: 0 <= i < |r| ==> r[i] in r;
    KeptAll(r, cat);
    assert [] + r == r;
    assert RootFirstParents(s, t, sel.choosenCat, cat, [], None) == r;
    RootLineSelects(sel, t, parent);
    MarkedWhole(sel, t, Reverse(r), entryLevel);
  }

  /** With no entry level the whole path is walked from the top of the array. */
  lemma MarkedWhole(sel: Selection, t: Tree, path: seq<Key>, entryLevel: int)
    requires entryLevel <= 0 && |path| > 0
    ensures Marked(sel, Some(t), path, |path|, entryLevel)
      == match Process(sel, t, path, |path|) case None => Aborted case Some(t2) => Returned(Some(t2))
  {
  }

  class Navigation {
    const store: Store
    var conf: Config
    var gp: Request
    /** the visitor's user groups; empty when nobody is logged in */
    var userGroups: seq<int>
    var pid: int
    /** the root category of the menu (`$this->cat`) */
    var cat: int
    var choosenCat: Key
    var showUid: int
    var mDepth: int
    var expandAll: int
    var entryLevel: int
    var maxLevel: int
    var noAct: bool
    /** the menu array; null (None) until it is built */
    var mTree: Option<Tree>
    var pathParents: seq<Key>

    constructor(store: Store, conf: Config, gp: Request, userGroups: seq<int>)
      ensures this.store == store && this.conf == conf && this.gp == gp && this.userGroups == userGroups
      ensures mTree == None && pathParents == [] && mDepth == 2 && maxLevel == PhpIntMax && !noAct
    {
      this.store := store;
      this.conf := conf;
      this.gp := gp;
      this.userGroups := userGroups;
      pid := 0;
      cat := 0;
      choosenCat := Uid(conf.category);
      showUid := 0;
      mDepth := 2;
      expandAll := 0;
      entryLevel := 0;
      maxLevel := PhpIntMax;
      noAct := false;
      mTree := None;
      pathParents := [];
    }

    /** `getManufacturerAsCategory`: false (None) when the category has no
        product relations; otherwise one pseudo-category per manufacturer of its
        products.  When the request names a manufacturer, the first pseudo-category
        written makes that manufacturer the chosen item. */
    method GetManufacturerAsCategory(pid: int, uidPage: int, categoryUid: int, depth: int, path: seq<Key>)
      returns (r: Option<Tree>)
      modifies this`choosenCat
      ensures OptionKeys(r) == ManufacturerLevelKeys(store, categoryUid)
      ensures r.Some? ==> Layered(r.value, depth, path, categoryUid)
      ensures r.Some? ==> forall e :: e in r.value.entries ==> ManufacturerEntry(store, conf, showUid, expandAll, pid, uidPage, categoryUid, depth, path, e)
      ensures choosenCat == if gp.manufacturer != 0 && r.Some? && |r.value.entries| > 0 then Manu(gp.manufacturer) else old(choosenCat)
    {
      var productUids := CategoryProducts(store, categoryUid);
      if |productUids| == 0 {
        return None;
      }
      var output := ManufacturerRows(pid, uidPage, categoryUid, depth, path, RowsOf(store, productUids));
      // Every pseudo-category written sets the chosen item to the requested
      // manufacturer; nothing reads it while the level is built, so one write
      // afterwards has the same effect.
      if gp.manufacturer != 0 && |output.entries| > 0 {
        choosenCat := Manu(gp.manufacturer);
      }
      return Some(output);
    }

    /** The pseudo-categories for the manufacturers of `rows`, one per distinct
        manufacturer uid other than 0, in order of first appearance. */
    method ManufacturerRows(pid: int, uidPage: int, categoryUid: int, depth: int, path: seq<Key>, rows: seq<Row>)
      returns (output: Tree)
      ensures Keys(output) == Distinct(ManufacturerKeysOf(rows))
      ensures Layered(output, depth, path, categoryUid)
      ensures forall e :: e in output.entries ==> ManufacturerEntry(store, conf, showUid, expandAll, pid, uidPage, categoryUid, depth, path, e)
    {
      output := Empty;
      var i := 0;
      while i < |rows|
        invariant 0 <= i <= |rows|
        invariant Keys(output) == Distinct(ManufacturerKeysOf(rows[..i]))
        invariant Layered(output, depth, path, categoryUid)
        invariant forall e :: e in output.entries ==> ManufacturerEntry(store, conf, showUid, expandAll, pid, uidPage, categoryUid, depth, path, e)
      {
        output := AddManufacturer(pid, uidPage, categoryUid, depth, path, rows, i, output);
        i := i + 1;
      }
      assert rows[..i] == rows;
    }

    /** One step of `ManufacturerRows`: the pseudo-category of row `i`'s
        manufacturer joins the level, unless that uid is 0. */
    method AddManufacturer(pid: int, uidPage: int, categoryUid: int, depth: int, path: seq<Key>, rows: seq<Row>, i: int, output: Tree)
      returns (next: Tree)
      requires 0 <= i < |rows|
      requires Keys(output) == Distinct(ManufacturerKeysOf(rows[..i]))
      requires Layered(output, depth, path, categoryUid)
      requires forall e :: e in output.entries ==> ManufacturerEntry(store, conf, showUid, expandAll, pid, uidPage, categoryUid, depth, path, e)
      ensures Keys(next) == Distinct(ManufacturerKeysOf(rows[..i + 1]))
      ensures Layered(next, depth, path, categoryUid)
      ensures forall e :: e in next.entries ==> ManufacturerEntry(store, conf, showUid, expandAll, pid, uidPage, categoryUid, depth, path, e)
    {
      var m := rows[i].manufacturerUid;
      assert rows[..i + 1][..i] == rows[..i];
      assert ManufacturerKeysOf(rows[..i + 1]) == ManufacturerKeysOf(rows[..i]) + (if m != 0 then [Manu(m)] else []);
      next := output;
      if m != 0 {
        var node := MakeManufacturerNode(pid, uidPage, categoryUid, depth, path, m);
        ManufacturerStep(store, conf, showUid, expandAll, pid, uidPage, categoryUid, depth, path, output, ManufacturerKeysOf(rows[..i]), Manu(m), node);
        next := Put(output, Manu(m), node);
      } else {
        assert ManufacturerKeysOf(rows[..i + 1]) == ManufacturerKeysOf(rows[..i]);
      }
    }

    /** The pseudo-category node `getManufacturerAsCategory` writes for
        manufacturer `m`, with the manufacturer's products as its sub-level when
        products are shown. */
    method MakeManufacturerNode(pid: int, uidPage: int, categoryUid: int, depth: int, path: seq<Key>, m: int)
      returns (node: Node)
      requires m != 0
      ensures ManufacturerEntry(store, conf, showUid, expandAll, pid, uidPage, categoryUid, depth, path, Entry(Manu(m), node))
      ensures EntryLayered(Entry(Manu(m), node), depth, path, categoryUid)
    {
      var mPath := [Manu(m)] + path;
      var hasSub := HasSubChild(store, categoryUid);
      var sub: Option<Tree> := None;
      if hasSub == 1 && conf.showProducts {
        var products := MakeSubChildArrayPostRender(store, showUid, uidPage, categoryUid, depth + 1, mPath, Some(m));
        sub := Some(products);
      }
      node := Node(
        commerceMenu := false, pid := pid, pageUid := uidPage, title := ManufacturerTitle(store, m),
        navTitle := ManufacturerTitle(store, m), parentId := Some(categoryUid), hidden := 0, depth := depth,
        leaf := IsLeaf(store, categoryUid), kind := ManufacturerItem(m, hasSub), path := mPath,
        state := Some(NO), statesList := [], subLevel := sub,
        subMenu := if Expands(expandAll, depth) then sub else None);
    }

    /** `makeArrayPostRender`: with the level budget `maxLevel` used up, nothing;
        otherwise one node per live child category of `uidRoot`, and when there is
        none and products are shown, the products of `uidRoot` instead. */
    method MakeArrayPostRender(uidPage: int, uidRoot: int, depth: int, path: seq<Key>, maxLevel: int)
      returns (r: Tree)
      modifies this`choosenCat
      decreases maxLevel, 5
      ensures BuiltLevel(store, conf, showUid, expandAll, uidPage, uidRoot, depth, path, maxLevel, r)
      ensures choosenCat == if gp.manufacturer != 0 && LevelListsManufacturer(store, conf, uidRoot, maxLevel) then Manu(gp.manufacturer) else old(choosenCat)
    {
      var budget := maxLevel - 1;
      if budget < 0 {
        return Empty;
      }
      var treeList := CategoryLevel(uidPage, uidRoot, depth, path, budget);
      if |treeList.entries| == 0 && conf.showProducts {
        // the level budget lands in the manufacturer filter argument
        treeList := MakeSubChildArrayPostRender(store, showUid, uidPage, uidRoot, depth, path, Some(budget));
      }
      return treeList;
    }

    /** The loop of `makeArrayPostRender`: one node per live child category of
        `uidRoot`, in relation order, each with `budget` levels left below it. */
    method CategoryLevel(uidPage: int, uidRoot: int, depth: int, path: seq<Key>, budget: int)
      returns (treeList: Tree)
      requires budget >= 0
      modifies this`choosenCat
      decreases budget + 1, 4
      ensures Keys(treeList) == Distinct(CategoryKeys(store, uidRoot))
      ensures Layered(treeList, depth, path, uidRoot)
      ensures forall e :: e in treeList.entries ==> CategoryEntry(store, conf, showUid, expandAll, uidPage, depth, budget, e)
      ensures choosenCat == if gp.manufacturer != 0 && AnyListsManufacturer(store, conf, ChildCategories(store, uidRoot), budget) then Manu(gp.manufacturer) else old(choosenCat)
    {
      var uids := ChildCategories(store, uidRoot);
      treeList := Empty;
      var i := 0;
      while i < |uids|
        invariant 0 <= i <= |uids|
        invariant Keys(treeList) == Distinct(LiveKeys(store.categories, uids[..i]))
        invariant Layered(treeList, depth, path, uidRoot)
        invariant forall e :: e in treeList.entries ==> CategoryEntry(store, conf, showUid, expandAll, uidPage, depth, budget, e)
        invariant choosenCat == if gp.manufacturer != 0 && AnyListsManufacturer(store, conf, uids[..i], budget) then Manu(gp.manufacturer) else old(choosenCat)
      {
        var c := uids[i];
        LiveKeysStep(store.categories, uids, i);
        AnyListsStep(store, conf, uids, i, budget);
        if Live(store.categories, c) {
          treeList := AddCategory(uidPage, uidRoot, depth, path, budget, treeList, LiveKeys(store.categories, uids[..i]), c);
        } else {
          assert LiveKeys(store.categories, uids[..i + 1]) == LiveKeys(store.categories, uids[..i]);
        }
        i := i + 1;
      }
      assert uids[..i] == uids;
    }

    /** One pass of the loop of `makeArrayPostRender` for a live category `c`:
        `$treeList[$row['uid_local']] = $nodeArray`. */
    method AddCategory(uidPage: int, uidRoot: int, depth: int, path: seq<Key>, budget: int, t: Tree, ghost xs: seq<Key>, c: int)
      returns (r: Tree)
      requires Live(store.categories, c) && budget >= 0
      requires Keys(t) == Distinct(xs) && Layered(t, depth, path, uidRoot)
      requires forall e :: e in t.entries ==> CategoryEntry(store, conf, showUid, expandAll, uidPage, depth, budget, e)
      modifies this`choosenCat
      decreases budget + 1, 3
      ensures Keys(r) == Distinct(xs + [Uid(c)]) && Layered(r, depth, path, uidRoot)
      ensures forall e :: e in r.entries ==> CategoryEntry(store, conf, showUid, expandAll, uidPage, depth, budget, e)
      ensures choosenCat == if gp.manufacturer != 0 && NodeListsManufacturer(store, conf, c, budget) then Manu(gp.manufacturer) else old(choosenCat)
    {
      var node := MakeCategoryNode(uidPage, uidRoot, c, depth, path, budget);
      CategoryStep(store, conf, showUid, expandAll, uidPage, uidRoot, depth, path, budget, t, xs, Uid(c), node);
      r := Put(t, Uid(c), node);
    }

    /** The node the loop of `makeArrayPostRender` writes for live category `c`
        below `uidRoot`, with `budget` levels left for its sub-categories. */
    method MakeCategoryNode(uidPage: int, uidRoot: int, c: int, depth: int, path: seq<Key>, budget: int)
      returns (n: Node)
      requires Live(store.categories, c) && budget >= 0
      modifies this`choosenCat
      decreases budget + 1, 2
      ensures CategoryEntry(store, conf, showUid, expandAll, uidPage, depth, budget, Entry(Uid(c), n))
      ensures EntryLayered(Entry(Uid(c), n), depth, path, uidRoot)
      ensures choosenCat == if gp.manufacturer != 0 && NodeListsManufacturer(store, conf, c, budget) then Manu(gp.manufacturer) else old(choosenCat)
    {
      var row := store.categories[c];
      var nodePath := [Uid(c)] + path;
      var leaf := IsLeaf(store, c);
      var hasSub := HasSubChild(store, c);
      var sub: Option<Tree> := None;
      if ShowsManufacturers(conf, c) {
        var level := ManufacturerSubLevel(row.pid, uidPage, c, depth + 1, nodePath);
        sub := Some(level);
      }
      ghost var manufacturerLevel := sub.GetOr(Empty);
      assert forall k :: Has(manufacturerLevel, k) <==> ShowsManufacturers(conf, c) && k in ManufacturerKeys(store, c);
      assert forall me :: me in manufacturerLevel.entries ==>
        ManufacturerEntry(store, conf, showUid, expandAll, row.pid, uidPage, c, depth + 1, nodePath, me);
      var subMenu: Option<Tree> := None;
      var state := NO;
      var statesList := [];
      if leaf == 0 {
        var level := InnerLevel(row.pid, uidPage, c, depth + 1, nodePath, budget, sub.GetOr(Empty));
        sub := Some(level);
        if Expands(expandAll, depth) {
          subMenu := sub;
        }
        state := IFSUB;
        statesList := [IFSUB, NO];
      } else {
        LeafSubLevel(store, conf, c, budget, manufacturerLevel);
        ManufacturerOnlyEntries(store, conf, showUid, expandAll, row.pid, uidPage, c, depth + 1, nodePath, budget, manufacturerLevel);
      }
      n := Node(
        commerceMenu := true, pid := row.pid, pageUid := uidPage, title := row.title, navTitle := row.navTitle,
        parentId := Some(uidRoot), hidden := row.hidden, depth := depth, leaf := leaf, kind := CategoryItem(hasSub),
        path := nodePath, state := Some(state), statesList := statesList, subLevel := sub, subMenu := subMenu);
    }

    /** The sub-level of an inner category `c` (at nesting `depth` below
        `path`): its manufacturer level, merged with the recursive call's level,
        then with its products when it has product relations and products are
        shown (twice for a logged-in visitor with group options on). */
    method InnerLevel(pid: int, uidPage: int, c: int, depth: int, path: seq<Key>, budget: int, manufacturerLevel: Tree)
      returns (level: Tree)
      requires c != 0 && budget >= 0
      requires Layered(manufacturerLevel, depth, path, c)
      requires forall k :: Has(manufacturerLevel, k) <==> ShowsManufacturers(conf, c) && k in ManufacturerKeys(store, c)
      requires forall e :: e in manufacturerLevel.entries ==> ManufacturerEntry(store, conf, showUid, expandAll, pid, uidPage, c, depth, path, e)
      modifies this`choosenCat
      decreases budget + 1, 1
      ensures Layered(level, depth, path, c)
      ensures forall k :: Has(level, k) <==> SubLevelKey(store, conf, c, budget, k)
      ensures forall e :: e in level.entries ==> SubLevelEntry(store, conf, showUid, expandAll, pid, uidPage, c, depth, path, budget, e)
      ensures choosenCat == if gp.manufacturer != 0 && LevelListsManufacturer(store, conf, c, budget) then Manu(gp.manufacturer) else old(choosenCat)
    {
      var categories := ChildLevel(uidPage, c, depth, path, budget);
      MergeStep(manufacturerLevel, categories, depth, path, c);
      var withCategories := ArrayMerge(manufacturerLevel, categories);
      ghost var merged;
      level, merged := ProductMerges(uidPage, c, depth, path, budget, withCategories);
      InnerSubLevel(store, conf, c, budget, manufacturerLevel, withCategories, level);
      InnerSubLevelEntries(store, conf, showUid, expandAll, pid, uidPage, c, depth, path, budget,
                           manufacturerLevel, categories, merged, level);
    }

    /** The product merges of an inner category's sub-level: `level` is
        `withCategories` with the product list written over it, when the
        category has product relations and products are shown; `merged` is the
        product list written last, or nothing. */
    method ProductMerges(uidPage: int, c: int, depth: int, path: seq<Key>, budget: int, withCategories: Tree)
      returns (level: Tree, ghost merged: Tree)
      requires Layered(withCategories, depth, path, c)
      ensures Layered(level, depth, path, c)
      ensures forall k :: Has(level, k) <==> Has(withCategories, k) || (HasSubChild(store, c) == 1 && conf.showProducts && k in ProductKeys(store, c, Some(budget)))
      ensures forall e :: e in level.entries ==> e in merged.entries || (!Has(merged, e.key) && e in withCategories.entries)
      ensures forall k :: Has(merged, k) <==> HasSubChild(store, c) == 1 && conf.showProducts && k in ProductKeys(store, c, Some(budget))
      ensures forall e :: e in merged.entries ==> ProductEntry(store, showUid, uidPage, c, depth, path, e)
    {
      level, merged := withCategories, Empty;
      if HasSubChild(store, c) == 1 && conf.showProducts {
        var products := ProductSubLevel(uidPage, c, depth, path, budget);
        MergeStep(level, products, depth, path, c);
        ProductMergeEntries(level, products);
        level := ArrayMerge(level, products);
        merged := products;
        if conf.groupOptionsOn && |userGroups| > 0 {
          products := ProductSubLevel(uidPage, c, depth, path, budget);
          MergeStep(level, products, depth, path, c);
          ProductMergeTwice(withCategories, merged, products);
          level := ArrayMerge(level, products);
          merged := products;
        }
      }
    }

    /** `$nodeArray['--subLevel--'] = array()` followed by merging in
        `getManufacturerAsCategory`; a `false` result merges nothing (the corrected
        reading, see ManufacturerMergeAsWritten). */
    method ManufacturerSubLevel(pid: int, uidPage: int, c: int, depth: int, path: seq<Key>) returns (level: Tree)
      modifies this`choosenCat
      ensures Layered(level, depth, path, c)
      ensures forall k :: Has(level, k) <==> k in ManufacturerKeys(store, c)
      ensures forall e :: e in level.entries ==> ManufacturerEntry(store, conf, showUid, expandAll, pid, uidPage, c, depth, path, e)
      ensures choosenCat == if gp.manufacturer != 0 && |ManufacturerKeys(store, c)| > 0 then Manu(gp.manufacturer) else old(choosenCat)
    {
      var manufacturers := GetManufacturerAsCategory(pid, uidPage, c, depth, path);
      level := Empty;
      if manufacturers.Some? {
        ManufacturerLevel(store, c, manufacturers.value, depth, path);
        MergeEntries(level, manufacturers.value);
        level := ArrayMerge(level, manufacturers.value);
      } else {
        NoProductsNoManufacturers(store, c);
      }
    }

    /** The recursive `makeArrayPostRender` call for the children of `c`: its
        keys, and for each entry the child category's node or, when `c` has no
        child categories, the product's leaf. */
    method ChildLevel(uidPage: int, c: int, depth: int, path: seq<Key>, budget: int) returns (level: Tree)
      requires budget >= 0
      modifies this`choosenCat
      decreases budget + 1, 0
      ensures Layered(level, depth, path, c)
      ensures forall k :: Has(level, k) <==> budget >= 1 && ChildLevelKey(store, conf, c, budget, k)
      ensures forall e :: e in level.entries ==>
        (e.key in CategoryKeys(store, c) ==> CategoryEntry(store, conf, showUid, expandAll, uidPage, depth, budget - 1, e))
        && (e.key !in CategoryKeys(store, c) ==> ProductEntry(store, showUid, uidPage, c, depth, path, e))
      ensures choosenCat == if gp.manufacturer != 0 && LevelListsManufacturer(store, conf, c, budget) then Manu(gp.manufacturer) else old(choosenCat)
    {
      level := MakeArrayPostRender(uidPage, c, depth, path, budget);
      InnerLevelKeys(store, conf, c, budget, level);
      if budget >= 1 && |CategoryKeys(store, c)| > 0 {
        forall e | e in level.entries ensures e.key in CategoryKeys(store, c) {
          KeysAreDistinct(level, CategoryKeys(store, c));
          HasIsKey(level, e.key);
          EntryHasKey(level, e);
        }
      }
    }

    /** The product list merged into a category's sub-level; the level budget
        lands in the manufacturer filter argument. */
    method ProductSubLevel(uidPage: int, c: int, depth: int, path: seq<Key>, budget: int) returns (level: Tree)
      ensures Layered(level, depth, path, c)
      ensures forall k :: Has(level, k) <==> k in ProductKeys(store, c, Some(budget))
      ensures forall e :: e in level.entries ==> ProductEntry(store, showUid, uidPage, c, depth, path, e)
    {
      level := MakeSubChildArrayPostRender(store, showUid, uidPage, c, depth, path, Some(budget));
      KeysAreDistinct(level, ProductKeys(store, c, Some(budget)));
    }

    /** `getRootCategory`: the configured category, unless group options are on
        and the visitor is logged in, when it is the category of the first
        option naming one of the visitor's groups (if any does). */
    method GetRootCategory() returns (r: int)
      ensures r == RootCategory(conf, userGroups)
    {
      if !conf.groupOptionsOn {
        return conf.category;
      }
      var options := conf.groupOptions;
      var chosen: seq<int> := [];
      var i := 0;
      while i < |options|
        invariant 0 <= i <= |options|
        invariant |chosen| == 0 <==> forall j :: 0 <= j < i ==> !Applies(options[j], userGroups)
        invariant |chosen| > 0 ==> exists j :: (0 <= j < i && Applies(options[j], userGroups)
          && (forall j' :: 0 <= j' < j ==> !Applies(options[j'], userGroups)) && chosen[0] == options[j].catUid)
      {
        if |userGroups| == 0 {
          return conf.category;
        }
        var groups := options[i].groups;
        ghost var before := chosen;
        var k := 0;
        while k < |groups|
          invariant 0 <= k <= |groups|
          invariant |before| > 0 ==> |chosen| > 0 && chosen[0] == before[0]
          invariant |before| == 0 ==> (|chosen| == 0 <==> forall j :: 0 <= j < k ==> groups[j] !in userGroups)
          invariant |before| == 0 && |chosen| > 0 ==> chosen[0] == options[i].catUid
        {
          if groups[k] in userGroups && options[i].catUid !in chosen {
            chosen := chosen + [options[i].catUid];
          }
          k := k + 1;
        }
        assert |before| == 0 ==> (|chosen| == 0 <==> !Applies(options[i], userGroups));
        i := i + 1;
      }
      if |chosen| > 0 {
        return chosen[0];
      }
      return conf.category;
    }

    /** `makeErrorMenu`: `max` error entries keyed 0 .. max-1, in order. */
    method MakeErrorMenu(max: int, mDepth: int) returns (r: Tree)
      ensures |r.entries| == if max > 0 then max else 0
      ensures forall i :: 0 <= i < |r.entries| ==> r.entries[i] == Entry(Uid(i), ErrorNode(pid, i, mDepth))
      ensures UniqueKeys(r)
    {
      r := Empty;
      var i := 0;
      while i < max
        invariant 0 <= i && (max >= 0 ==> i <= max) && (max < 0 ==> i == 0)
        invariant |r.entries| == i
        invariant forall j :: 0 <= j < i ==> r.entries[j] == Entry(Uid(j), ErrorNode(pid, j, mDepth))
      {
        assert IndexIn(r.entries, Uid(i)) < 0;
        PutNew(r, Uid(i), ErrorNode(pid, i, mDepth));
        r := Put(r, Uid(i), ErrorNode(pid, i, mDepth));
        i := i + 1;
      }
    }

    /** The menu array `makeArrayPostRender` builds for the whole menu: from the
        root category `cat` on the page `pid`, at nesting 1 below the empty path,
        with the level budget `maxLevel`. */
    ghost predicate BuiltMenu(built: Tree)
      reads this`conf, this`showUid, this`expandAll, this`pid, this`cat, this`maxLevel
    {
      BuiltLevel(store, conf, showUid, expandAll, pid, cat, 1, [], maxLevel, built)
    }

    /** Builds the menu array from the root category, sorted when the sort type
        is 'alphabetiDesc'; a non-empty stored array for `hash` is used instead
        unless caching is off, and a freshly built array is stored. */
    method BuildTree(hash: string, noCache: bool, cache: MenuCache) returns (t: Tree, ghost built: Tree)
      modifies this`choosenCat, cache
      ensures !noCache && |old(cache.Cached(hash)).entries| > 0 ==>
        t == old(cache.Cached(hash)) && cache.entries == old(cache.entries) && choosenCat == old(choosenCat)
      ensures noCache || |old(cache.Cached(hash)).entries| == 0 ==>
        BuiltMenu(built)
        && t == (if conf.sortAllItems == AlphabetiDesc then SortAllSynced(built, AlphabetiDesc) else built)
        && choosenCat == (if gp.manufacturer != 0 && LevelListsManufacturer(store, conf, cat, maxLevel) then Manu(gp.manufacturer) else old(choosenCat))
      ensures noCache ==> cache.entries == old(cache.entries)
      ensures !noCache && |old(cache.Cached(hash)).entries| == 0 ==> cache.entries == old(cache.entries)[hash := t]
    {
      built := Empty;
      if !noCache {
        var cached := cache.Cached(hash);
        if |cached.entries| > 0 {
          return cached, built;
        }
      }
      t := MakeArrayPostRender(pid, cat, 1, [], maxLevel);
      built := t;
      if conf.sortAllItems == AlphabetiDesc {
        ghost var h := HeightOf(t);
        t := SortAllMenuArray(t, AlphabetiDesc, h);
      }
      if !noCache {
        cache.Save(hash, t);
      }
    }

    /** The choice of the current item: none when 'noAct' is set (which also
        clears the path and the depth), else the requested category, else the
        master category of the requested product. */
    method ChooseItem()
      modifies this`choosenCat, this`pathParents, this`mDepth
      ensures noAct ==> pathParents == [] && mDepth == 0 && choosenCat == old(choosenCat)
      ensures !noAct ==> pathParents == old(pathParents) && mDepth == old(mDepth)
      ensures !noAct ==> choosenCat == if gp.catUid != 0 then Uid(gp.catUid)
                                       else if gp.showUid != 0 then Uid(MasterParent(store, gp.showUid))
                                       else old(choosenCat)
    {
      if noAct {
        pathParents := [];
        mDepth := 0;
      } else if gp.catUid != 0 {
        choosenCat := Uid(gp.catUid);
      } else if gp.showUid != 0 {
        choosenCat := Uid(MasterParent(store, gp.showUid));
      }
    }

    /** The current item and the path to it: `ChooseItem`, then `ResolvePath`. */
    method Locate(tree: Tree)
      modifies this`choosenCat, this`pathParents, this`mDepth
      ensures !noAct && gp.catUid != 0 ==> choosenCat == Uid(gp.catUid)
      ensures !noAct && gp.catUid == 0 && gp.showUid != 0 ==> choosenCat == Uid(MasterParent(store, gp.showUid))
      ensures noAct || (gp.catUid == 0 && gp.showUid == 0) ==> choosenCat == old(choosenCat)
      ensures |gp.path| > 0 ==> pathParents == gp.path && mDepth == (if noAct then 0 else old(mDepth))
      ensures |gp.path| == 0 && NumericPositive(choosenCat) ==>
        pathParents == Reverse(RootFirstParents(store, tree, choosenCat, cat, if noAct then [] else old(pathParents), GroupFix(tree)))
        && mDepth == (if gp.mDepth != 0 then (if noAct then 0 else old(mDepth)) else |pathParents| + (if gp.manufacturer != 0 then 1 else 0))
      ensures |gp.path| == 0 && !NumericPositive(choosenCat) ==> pathParents == [] && mDepth == 0
    {
      ChooseItem();
      ResolvePath(tree);
    }

    /** The path to the current item, nearest first: the requested path as
        given; else, for a numeric chosen item, the rootline of `tree` (or the
        category's parent list) without the root, reversed, with the depth
        derived from it when none was requested; else nothing. */
    method ResolvePath(tree: Tree)
      modifies this`pathParents, this`mDepth
      ensures |gp.path| > 0 ==> pathParents == gp.path && mDepth == old(mDepth)
      ensures |gp.path| == 0 && NumericPositive(choosenCat) ==>
        pathParents == Reverse(RootFirstParents(store, tree, choosenCat, cat, old(pathParents), GroupFix(tree)))
        && mDepth == if gp.mDepth != 0 then old(mDepth) else |pathParents| + (if gp.manufacturer != 0 then 1 else 0)
      ensures |gp.path| == 0 && !NumericPositive(choosenCat) ==> pathParents == [] && mDepth == 0
    {
      if |gp.path| > 0 {
        pathParents := gp.path;
      } else if NumericPositive(choosenCat) {
        var rootFirst := RootFirstPath(tree);
        pathParents := Reverse(rootFirst);
        if gp.mDepth == 0 {
          mDepth := |pathParents|;
          if gp.manufacturer != 0 {
            mDepth := mDepth + 1;
          }
        }
      } else {
        pathParents := [];
        mDepth := 0;
      }
    }

    /** With group options on and a logged-in visitor, the path is cut to start
        at the first key of the menu array (`$keys[0]`, null for an empty one). */
    function GroupFix(tree: Tree): (r: Option<Key>)
      reads this`conf, this`userGroups
      ensures r.Some? <==> conf.groupOptionsOn && |userGroups| > 0
      ensures r.Some? && |tree.entries| > 0 ==> r.value == tree.entries[0].key
    {
      if conf.groupOptionsOn && |userGroups| > 0 then Some(if |tree.entries| > 0 then tree.entries[0].key else NullKey) else None
    }

    /** The root-first path to the chosen item, appended to the current path. */
    method RootFirstPath(tree: Tree) returns (r: seq<Key>)
      ensures r == RootFirstParents(store, tree, choosenCat, cat, pathParents, GroupFix(tree))
    {
      var aPath := GetRootLine(tree, choosenCat);
      var tmpArray := aPath;
      if |aPath| == 0 {
        tmpArray := FixPathParents(ParentKeys(store, choosenCat), Uid(cat));
      }
      r := StripRoot(pathParents, tmpArray, cat);
      if conf.groupOptionsOn && |userGroups| > 0 {
        r := FixPathParents(r, if |tree.entries| > 0 then tree.entries[0].key else NullKey);
      }
    }

    /** The entry-level cut: for each of the first `entryLevel` levels, the
        array descends into the sub-level of the path's item at that level, the
        path loses its last (root-most) item and the depth drops by one. */
    method CutEntryLevel(tree: Option<Tree>) returns (r: Option<Tree>)
      modifies this`pathParents, this`mDepth
      ensures entryLevel > 0 ==>
        r == EntryLevelTree(tree, Reverse(old(pathParents)), entryLevel, 0)
        && pathParents == old(pathParents)[..if entryLevel < |old(pathParents)| then |old(pathParents)| - entryLevel else 0]
        && mDepth == old(mDepth) - entryLevel
      ensures entryLevel <= 0 ==> r == tree && pathParents == old(pathParents) && mDepth == old(mDepth)
    {
      r := tree;
      if entryLevel > 0 {
        var newParents := Reverse(pathParents);
        ghost var n := |pathParents|;
        var i := 0;
        while i < entryLevel
          invariant 0 <= i <= entryLevel
          invariant EntryLevelTree(r, newParents, entryLevel, i) == EntryLevelTree(tree, newParents, entryLevel, 0)
          invariant pathParents == old(pathParents)[..if i < n then n - i else 0]
          invariant mDepth == old(mDepth) - i
        {
          r := SubLevelAt(r, if i < |newParents| then newParents[i] else NullKey);
          if |pathParents| > 0 {
            pathParents := pathParents[..|pathParents| - 1];
          }
          mDepth := mDepth - 1;
          i := i + 1;
        }
      }
    }

    /** The last part of `init`: the entry-level cut, then the states along the
        path when there is one.  A null array or a path the array does not hold
        stops PHP with a TypeError (Aborted). */
    method MarkPath() returns (outcome: Outcome)
      modifies this`mTree, this`pathParents, this`mDepth
      ensures outcome == Marked(Selection(choosenCat, showUid, gp.manufacturer), old(mTree), old(pathParents), old(mDepth), entryLevel)
      ensures outcome.Returned? ==> mTree == outcome.menu
    {
      ghost var tree, path, depth := mTree, pathParents, mDepth;
      mTree := CutEntryLevel(mTree);
      MarkedCut(Selection(choosenCat, showUid, gp.manufacturer), tree, path, depth, entryLevel, mTree, pathParents, mDepth);
      outcome := WalkPath();
    }

    /** `if ($this->pathParents) processArrayPostRender(...)`: the states along
        the path, written into `mTree`. */
    method WalkPath() returns (outcome: Outcome)
      modifies this`mTree
      ensures outcome == Walked(Selection(choosenCat, showUid, gp.manufacturer), old(mTree), pathParents, mDepth)
      ensures outcome.Returned? ==> mTree == outcome.menu
    {
      if |pathParents| > 0 {
        if mTree.None? {
          // `processArrayPostRender` does not accept null for its array
          return Aborted;
        }
        var processed := ProcessArrayPostRender(Selection(choosenCat, showUid, gp.manufacturer), mTree.value, pathParents, mDepth);
        if processed.None? {
          return Aborted;
        }
        mTree := processed;
      }
      return Returned(mTree);
    }

    /** The first part of `init`: the page, the options and the request
        variables, and the root category. */
    method Setup(frontendId: int)
      modifies this`choosenCat, this`pid, this`entryLevel, this`noAct, this`maxLevel, this`cat,
        this`showUid, this`mDepth, this`expandAll
      ensures choosenCat == Uid(conf.category)
      ensures pid == if conf.overridePid != 0 then conf.overridePid else frontendId
      ensures entryLevel == conf.entryLevel
      ensures noAct == (old(noAct) || conf.noAct > 0)
      ensures maxLevel == if conf.maxLevel > 0 then conf.maxLevel else old(maxLevel)
      ensures cat == RootCategory(conf, userGroups)
      ensures showUid == gp.showUid && mDepth == gp.mDepth && expandAll == conf.expandAll
    {
      choosenCat := Uid(conf.category);
      pid := if conf.overridePid != 0 then conf.overridePid else frontendId;
      entryLevel := conf.entryLevel;
      if conf.noAct > 0 {
        noAct := true;
      }
      if conf.maxLevel > 0 {
        maxLevel := conf.maxLevel;
      }
      cat := GetRootCategory();
      choosenCat := Uid(conf.category);
      showUid := gp.showUid;
      mDepth := gp.mDepth;
      expandAll := conf.expandAll;
    }

    /** `init`: sets the object up from the configuration and the request,
        answers the error menu when there is no root category or page, and
        otherwise renders the menu (`Render`).  `frontendId` is the current
        page, `hash` the cache key, `noCache` the page's cache switch. */
    method Init(frontendId: int, hash: string, noCache: bool, cache: MenuCache)
      returns (outcome: Outcome, ghost tree: Tree, ghost built: Tree, ghost start: Key, ghost path: seq<Key>, ghost depth: int)
      modifies this, cache
      ensures cat == RootCategory(conf, userGroups)
      ensures pid == if conf.overridePid != 0 then conf.overridePid else frontendId
      ensures noAct == (old(noAct) || conf.noAct > 0)
      ensures maxLevel == if conf.maxLevel > 0 then conf.maxLevel else old(maxLevel)
      ensures showUid == gp.showUid && expandAll == conf.expandAll && entryLevel == conf.entryLevel
      ensures !(cat > 0 && pid > 0) ==> (outcome.Returned? && outcome.menu.Some?
        && |outcome.menu.value.entries| == 5
        && forall i :: 0 <= i < 5 ==> outcome.menu.value.entries[i] == Entry(Uid(i), ErrorNode(pid, i, 1)))
      ensures noCache ==> cache.entries == old(cache.entries)
      ensures cat > 0 && pid > 0 && !noCache && |old(cache.Cached(hash)).entries| > 0 ==> tree == old(cache.Cached(hash))
      ensures cat > 0 && pid > 0 && (noCache || |old(cache.Cached(hash)).entries| == 0) ==>
        BuiltMenu(built) && tree == (if conf.sortAllItems == AlphabetiDesc then SortAllSynced(built, AlphabetiDesc) else built)
      ensures cat > 0 && pid > 0 ==>
        start == if (noCache || |old(cache.Cached(hash)).entries| == 0) && gp.manufacturer != 0
                    && LevelListsManufacturer(store, conf, cat, maxLevel)
                 then Manu(gp.manufacturer) else Uid(conf.category)
      ensures cat > 0 && pid > 0 ==> Finished(start, old(pathParents), gp.mDepth, outcome, tree, path, depth)
    {
      Setup(frontendId);
      tree, built, start, path, depth := Empty, Empty, choosenCat, [], 0;
      if !(cat > 0) || !(pid > 0) {
        var errorMenu := MakeErrorMenu(5, 1);
        return Returned(Some(errorMenu)), tree, built, start, path, depth;
      }
      outcome, tree, built, start, path, depth := Render(hash, noCache, cache);
    }

    /** The rest of `init`: the menu array is built (or fetched), the current
        item and the path to it are found, and the path's states are marked. */
    method Render(hash: string, noCache: bool, cache: MenuCache)
      returns (outcome: Outcome, ghost tree: Tree, ghost built: Tree, ghost start: Key, ghost path: seq<Key>, ghost depth: int)
      modifies this`choosenCat, this`mTree, this`pathParents, this`mDepth, cache
      ensures noCache ==> cache.entries == old(cache.entries)
      ensures !noCache && |old(cache.Cached(hash)).entries| > 0 ==> tree == old(cache.Cached(hash))
      ensures noCache || |old(cache.Cached(hash)).entries| == 0 ==>
            BuiltMenu(built)
            && tree == (if conf.sortAllItems == AlphabetiDesc then SortAllSynced(built, AlphabetiDesc) else built)
      ensures start == if (noCache || |old(cache.Cached(hash)).entries| == 0) && gp.manufacturer != 0
                          && LevelListsManufacturer(store, conf, cat, maxLevel)
                       then Manu(gp.manufacturer) else old(choosenCat)
      ensures Finished(start, old(pathParents), old(mDepth), outcome, tree, path, depth)
    {
      var menu;
      menu, built := BuildTree(hash, noCache, cache);
      tree, start := menu, choosenCat;
      outcome, path, depth := Finish(menu);
    }

    /** The current item, the path to it (nearest first) and the depth after
        `init` has chosen them, given the chosen item, path and depth it started
        from: the requested category, else the master category of the requested
        product, else the item it started from; the requested path, else the
        path derived from the item, else none; and the outcome the array `tree`
        gives with that path (`Marked`). */
    ghost predicate Finished(chosen: Key, parents: seq<Key>, depth0: int, outcome: Outcome, tree: Tree, path: seq<Key>, depth: int)
      reads this
    {
      (!noAct && gp.catUid != 0 ==> choosenCat == Uid(gp.catUid))
      && (!noAct && gp.catUid == 0 && gp.showUid != 0 ==> choosenCat == Uid(MasterParent(store, gp.showUid)))
      && (noAct || (gp.catUid == 0 && gp.showUid == 0) ==> choosenCat == chosen)
      && (|gp.path| > 0 ==> path == gp.path && depth == (if noAct then 0 else depth0))
      && (|gp.path| == 0 && NumericPositive(choosenCat) ==>
            path == Reverse(RootFirstParents(store, tree, choosenCat, cat, if noAct then [] else parents, GroupFix(tree)))
            && depth == (if gp.mDepth != 0 then (if noAct then 0 else depth0) else |path| + (if gp.manufacturer != 0 then 1 else 0)))
      && (|gp.path| == 0 && !NumericPositive(choosenCat) ==> path == [] && depth == 0)
      && outcome == Marked(Selection(choosenCat, showUid, gp.manufacturer), Some(tree), path, depth, entryLevel)
      && (outcome.Returned? ==> outcome.menu == mTree)
    }

    /** The menu array `tree` becomes `mTree`; then `Locate` and `MarkPath`. */
    method Finish(tree: Tree) returns (outcome: Outcome, ghost path: seq<Key>, ghost depth: int)
      modifies this`choosenCat, this`mTree, this`pathParents, this`mDepth
      ensures Finished(old(choosenCat), old(pathParents), old(mDepth), outcome, tree, path, depth)
    {
      mTree := Some(tree);
      Locate(tree);
      path, depth := pathParents, mDepth;
      outcome := MarkPath();
    }
  }
}
