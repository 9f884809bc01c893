/** The TypoScript configuration of the navigation, the request variables of the
    extension and the logged-in visitor, as the menu builder reads them. */
module Settings {
  import opened MenuTree

  /** One `groupOptions.<i>.` block: the category shown to the listed user groups. */
  datatype GroupOption = GroupOption(catUid: int, groups: seq<int>)

  datatype SortType = AlphabetiDesc | OtherSort

  datatype Config = Config(
    /** `category`: the configured root category */
    category: int,
    /** `overridePid`, or 0 when unset (the current page id is used then) */
    overridePid: int,
    entryLevel: int,
    noAct: int,
    maxLevel: int,
    expandAll: int,
    /** `showProducts == 1` */
    showProducts: bool,
    /** the first entry of `displayManuForCat` is 'all' */
    manufacturersForAll: bool,
    /** the entries of `displayManuForCat` */
    manufacturerCategories: seq<int>,
    /** `groupOptions.onOptions == 1` */
    groupOptionsOn: bool,
    groupOptions: seq<GroupOption>,
    sortAllItems: SortType)

  /** The request variables `tx_commerce[...]`; 0 and the empty path stand for an
      unset variable. The caller maps a `path` of "0", which PHP also treats as
      unset, to the empty path. */
  datatype Request = Request(catUid: int, showUid: int, mDepth: int, path: seq<Key>, manufacturer: int)

  /** `in_array($uid, $aCatToManu) || $aCatToManu[0] == 'all'`: the category lists
      its manufacturers as pseudo-categories. */
  predicate ShowsManufacturers(conf: Config, c: int) {
    conf.manufacturersForAll || c in conf.manufacturerCategories
  }

  /** `expandAll > 0 || (expandAll < 0 && -expandAll >= depth)`: the node's
      sub-level is copied to '_SUB_MENU' so the renderer opens it. */
  predicate Expands(expandAll: int, depth: int) {
    expandAll > 0 || (expandAll < 0 && -expandAll >= depth)
  }
}
