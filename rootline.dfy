/** `renderRootline`: the breadcrumb menu of the chosen category, built from the
    catalog's parent relation (`getCategoryRootlineforTypoScript`), with the shown
    product appended and `entryLevel` items cut off the front. */
module Rootline {
  import opened Wrappers
  import opened MenuTree
  import opened Catalog
  import opened Settings

  /** One item of the rootline menu; `category` is None for the product item,
      an empty `statesList` stands for an unset ITEM_STATES_LIST. */
  datatype RootlineItem = RootlineItem(pageUid: int, category: Option<int>, state: State, statesList: seq<State>, title: string, navTitle: string)

  function CategoryRow(s: Store, uid: int): Row {
    if uid in s.categories then s.categories[uid] else Row(0, "", "", 0, 0, 0)
  }

  /** The item of category `uid`; every category item is CUR, unless a product
      is shown. */
  function CategoryItem(s: Store, pid: int, uid: int, productShown: bool): RootlineItem {
    RootlineItem(pid, Some(uid), if productShown then NO else CUR, [], CategoryRow(s, uid).title, CategoryRow(s, uid).navTitle)
  }

  /** `above` is the item of the parent (below the root) of the category of `item`. */
  predicate ParentOf(s: Store, root: int, above: RootlineItem, item: RootlineItem) {
    item.category.Some? && item.category.value in s.parentCategory
    && s.parentCategory[item.category.value] != root && above.category == Some(s.parentCategory[item.category.value])
  }

  /** `getCategoryRootlineforTypoScript(categoryUid)`: the ancestors of the
      category below the root `root`, furthest first, then the category itself;
      empty for uid 0.  The walk up the parent relation is bounded by `fuel`
      (None when it runs out: the PHP recursion has no bound). */
  function CategoryRootline(s: Store, root: int, pid: int, productShown: bool, categoryUid: int, fuel: nat): (r: Option<seq<RootlineItem>>)
    ensures categoryUid == 0 ==> r == Some([])
    ensures r.Some? && categoryUid != 0 ==>
      |r.value| > 0 && r.value[|r.value| - 1] == CategoryItem(s, pid, categoryUid, productShown)
    ensures r.Some? ==> forall i :: 0 <= i < |r.value| ==>
      r.value[i].category.Some? && r.value[i].category.value != 0
      && r.value[i] == CategoryItem(s, pid, r.value[i].category.value, productShown)
    ensures r.Some? ==> forall i :: 0 < i < |r.value| ==> ParentOf(s, root, r.value[i - 1], r.value[i])
    ensures r.Some? && |r.value| > 0 ==>
      var first := r.value[0].category.value;
      first !in s.parentCategory || s.parentCategory[first] == root || s.parentCategory[first] == 0
    decreases fuel
  {
    if categoryUid == 0 then Some([])
    else if fuel == 0 then None
    else
      var item := CategoryItem(s, pid, categoryUid, productShown);
      if categoryUid in s.parentCategory && s.parentCategory[categoryUid] != root then
        var parent := s.parentCategory[categoryUid];
        var above := CategoryRootline(s, root, pid, productShown, parent, fuel - 1);
        if above.None? then None
        else
          var items := above.value;
          var rl := items + [item];
          assert forall i :: 0 <= i < |items| ==> rl[i] == items[i];
          assert |items| > 0 ==> ParentOf(s, root, rl[|items| - 1], rl[|items|]);
          Some(rl)
      else Some([item])
  }

  /** The result of `renderRootline` before the `entryLevel` cut. */
  function FullRootline(s: Store, conf: Config, pid: int, catUid: int, showUid: int, fuel: nat): Option<seq<RootlineItem>> {
    var productShown := conf.showProducts && showUid > 0;
    match CategoryRootline(s, conf.category, pid, productShown, catUid, fuel)
    case None => None
    case Some(items) =>
      if productShown then
        var title := if showUid in s.products then s.products[showUid].title else "";
        Some(items + [RootlineItem(pid, None, CUR, [CUR, NO], title, "")])
      else Some(items)
  }

  /** `renderRootline`: the rootline of the requested category (and product),
      with its first `entryLevel` items shifted off. */
  method RenderRootline(s: Store, conf: Config, pid: int, catUid: int, showUid: int, fuel: nat) returns (r: Option<seq<RootlineItem>>)
    ensures FullRootline(s, conf, pid, catUid, showUid, fuel).None? ==> r.None?
    ensures FullRootline(s, conf, pid, catUid, showUid, fuel).Some? ==>
      var full := FullRootline(s, conf, pid, catUid, showUid, fuel).value;
      r.Some? && r.value == if conf.entryLevel <= 0 then full
                            else if conf.entryLevel >= |full| then []
                            else full[conf.entryLevel..]
  {
    r := FullRootline(s, conf, pid, catUid, showUid, fuel);
    if r.None? {
      return;
    }
    var full := r.value;
    var items := full;
    assert items[0..] == items;
    if conf.entryLevel != 0 {
      var i := 0;
      while i < conf.entryLevel
        invariant 0 <= i && (conf.entryLevel > 0 ==> i <= conf.entryLevel) && (conf.entryLevel < 0 ==> i == 0)
        invariant items == if i >= |full| then [] else full[i..]
      {
        if |items| > 0 {
          items := items[1..];
        }
        i := i + 1;
      }
    }
    r := Some(items);
  }
}
