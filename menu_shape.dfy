/** Structural invariants of a built menu array. */
module MenuShape {
  import opened Wrappers
  import opened MenuTree

  /** The uid the children of entry `e` name as their 'parent_id': a category's
      own uid, or, below a manufacturer pseudo-category, the category above it. */
  function ChildParent(e: Entry, parent: int): int {
    if e.key.Uid? then e.key.uid else parent
  }

  /** Every level of `t` has unique keys; every node at nesting `depth` records
      that depth, the parent uid, and the path of its own key followed by
      `prefix`; a '_SUB_MENU' is a copy of the sub-level. */
  ghost predicate Layered(t: Tree, depth: int, prefix: seq<Key>, parent: int)
    decreases t
  {
    UniqueKeys(t) &&
    forall e :: e in t.entries ==> EntryLayered(e, depth, prefix, parent)
  }

  ghost predicate EntryLayered(e: Entry, depth: int, prefix: seq<Key>, parent: int)
    decreases e
  {
    var n := e.node;
    n.depth == depth && n.path == [e.key] + prefix && n.parentId == Some(parent)
    && (n.subMenu.Some? ==> n.subMenu == n.subLevel)
    && (n.subLevel.Some? ==> Layered(n.subLevel.value, depth + 1, n.path, ChildParent(e, parent)))
  }

  lemma EmptyLayered(depth: int, prefix: seq<Key>, parent: int)
    ensures Layered(Empty, depth, prefix, parent)
  {
  }

  /** Merging two arrays built for the same level keeps the level well formed. */
  lemma MergeLayered(a: Tree, b: Tree, depth: int, prefix: seq<Key>, parent: int)
    requires Layered(a, depth, prefix, parent) && Layered(b, depth, prefix, parent)
    ensures Layered(Merge(a, b), depth, prefix, parent)
  {
    MergeUnique(a, b);
    MergeEntries(a, b);
  }
}
