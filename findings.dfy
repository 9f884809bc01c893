/** The manufacturer merge of the category builder as the code is written:
    `arrayMerge` declares both parameters `array`, so the `false` that
    `getManufacturerAsCategory` returns for a category without product relations
    makes PHP abort with a TypeError instead of merging nothing, which the
    `is_array($arr2)` test inside `arrayMerge` was written to do. */
module Findings {
  import opened Wrappers
  import opened MenuTree
  import opened Catalog
  import opened Settings
  import opened MenuBuild

  /** `arrayMerge($nodeArray['--subLevel--'], getManufacturerAsCategory(...))`
      as written: None when PHP aborts on the `false` argument; otherwise the
      corrected merge, so the entries come from the two arrays. */
  function ManufacturerMergeAsWritten(level: Tree, manufacturers: Option<Tree>): (r: Option<Tree>)
    ensures r.None? <==> manufacturers.None?
    ensures manufacturers.Some? ==> r == Some(Merge(level, manufacturers.value))
    ensures r.Some? ==> forall e :: e in r.value.entries ==> e in level.entries || e in manufacturers.value.entries
  {
    match manufacturers
    case None => None
    case Some(m) =>
      MergeEntries(level, m);
      Some(Merge(level, m))
  }

  /** For every store and category, the merge as written aborts exactly when
      the category has no product relations, whatever the level already holds;
      otherwise every manufacturer of the category's products is in the
      merged level with the node `getManufacturerAsCategory` built for it. */
  lemma ManufacturerMergeAborts(s: Store, c: int, level: Tree, manufacturers: Option<Tree>)
    requires OptionKeys(manufacturers) == ManufacturerLevelKeys(s, c)
    ensures ManufacturerMergeAsWritten(level, manufacturers).None? <==> |CategoryProducts(s, c)| == 0
    ensures ManufacturerMergeAsWritten(level, manufacturers).Some? ==>
      forall k :: k in ManufacturerKeys(s, c) ==>
        Has(ManufacturerMergeAsWritten(level, manufacturers).value, k)
        && Get(ManufacturerMergeAsWritten(level, manufacturers).value, k) == Get(manufacturers.value, k)
  {
    if manufacturers.Some? {
      var m := manufacturers.value;
      assert Keys(m) == Distinct(ManufacturerKeys(s, c));
      assert UniqueKeys(m) by {
        forall i, j | 0 <= i < j < |m.entries| ensures m.entries[i].key != m.entries[j].key {
          assert Keys(m)[i] != Keys(m)[j];
        }
      }
      forall k | k in ManufacturerKeys(s, c)
        ensures Has(Merge(level, m), k) && Get(Merge(level, m), k) == Get(m, k)
      {
        HasIsKey(m, k);
        MergeLookup(level, m, k);
      }
    }
  }

  /** A category listed under `displayManuForCat` (here through 'all') that has no
      product relations: `getManufacturerAsCategory` answers false, and the
      merge as written aborts the whole menu, where the corrected builder leaves
      the category an empty manufacturer level. */
  lemma ManufacturerMergeAbortsOn(level: Tree)
    ensures var s := Store(map[5 := []], map[], map[5 := Row(1, "Shoes", "", 0, 0, 0)], map[], map[], map[], map[], map[]);
      var conf := Config(1, 1, 0, 0, 2, 0, false, true, [], false, [], OtherSort);
      ShowsManufacturers(conf, 5) && ManufacturerLevelKeys(s, 5).None? && ManufacturerKeys(s, 5) == []
      && ManufacturerMergeAsWritten(level, None).None?
  {
  }
}
