/** The pieces of `init` that do not depend on the navigation object: the root
    category chosen by user-group options, the error menu, the menu cache and
    the category path derived for the chosen item. */
module MenuInit {
  import opened Wrappers
  import opened MenuTree
  import opened Catalog
  import opened Settings
  import opened StateResolution
  import opened PathResolution

  /** PHP_INT_MAX, the default level budget. */
  const PhpIntMax: int := 0x7FFF_FFFF_FFFF_FFFF

  const ErrorTitle: string := "Error in the typoScript configuration."

  /** What `init` hands back to the menu renderer: the menu array (null when
      the entry-level cut ran off the array), or nothing when PHP stops with a
      TypeError. */
  datatype Outcome = Returned(menu: Option<Tree>) | Aborted

  /** Entry `i` of the error menu: a leaf titled with the error text, whose uid
      and parent are both `i`. */
  function ErrorNode(pid: int, i: int, depth: int): Node {
    Bare.(pid := pid, pageUid := i, parentId := Some(i), depth := depth, leaf := 1, hidden := 0,
          title := ErrorTitle, navTitle := ErrorTitle, kind := ErrorItem)
  }

  /** A group option applies to a visitor who is in one of its groups. */
  predicate Applies(o: GroupOption, userGroups: seq<int>) {
    exists j :: 0 <= j < |o.groups| && o.groups[j] in userGroups
  }

  /** The position of the first option that applies, or -1. */
  function FirstApplying(options: seq<GroupOption>, userGroups: seq<int>): (i: int)
    ensures -1 <= i < |options|
    ensures i >= 0 ==> Applies(options[i], userGroups) && forall j :: 0 <= j < i ==> !Applies(options[j], userGroups)
    ensures i < 0 ==> forall j :: 0 <= j < |options| ==> !Applies(options[j], userGroups)
  {
    if |options| == 0 then -1
    else if Applies(options[0], userGroups) then 0
    else
      var j := FirstApplying(options[1..], userGroups);
      if j < 0 then -1 else j + 1
  }

  /** The root category of the menu: with group options on and a logged-in
      visitor, the category of the first option naming one of the visitor's
      groups; the configured category otherwise. */
  function RootCategory(conf: Config, userGroups: seq<int>): int {
    if conf.groupOptionsOn && |userGroups| > 0 && FirstApplying(conf.groupOptions, userGroups) >= 0 then
      conf.groupOptions[FirstApplying(conf.groupOptions, userGroups)].catUid
    else conf.category
  }

  /** `is_numeric($this->choosenCat) && $this->choosenCat > 0`: a positive uid,
      or a manufacturer key (a long digit string). */
  predicate NumericPositive(k: Key) {
    (k.Uid? && k.uid > 0) || k.Manu?
  }

  /** The parent uid list the category record of the chosen item gives; a
      manufacturer key names no category record. */
  function ParentKeys(s: Store, chosen: Key): (r: seq<Key>)
    ensures chosen.Uid? ==> |r| == |ParentUids(s, chosen.uid)|
    ensures chosen.Uid? ==> forall i :: 0 <= i < |r| ==> r[i] == Uid(ParentUids(s, chosen.uid)[i])
    ensures !chosen.Uid? ==> r == []
  {
    if chosen.Uid? then
      var ps := ParentUids(s, chosen.uid);
      seq(|ps|, i requires 0 <= i < |ps| => Uid(ps[i]))
    else []
  }

  /** The path `init` derives for the chosen item, root first: the rootline
      found in the menu array or, when there is none, the parent list from the
      root category on; without the root and without 0; cut to start at `fix`
      when given; appended to `before`. */
  function RootFirstParents(s: Store, t: Tree, chosen: Key, cat: int, before: seq<Key>, fix: Option<Key>): seq<Key> {
    var aPath := GetRootLine(t, chosen);
    var tmp := if |aPath| > 0 then aPath else SuffixFrom(ParentKeys(s, chosen), Uid(cat));
    var kept := before + Kept(tmp, cat);
    if fix.Some? then SuffixFrom(kept, fix.value) else kept
  }

  /** The stored menu arrays, by hash (`getHash` / `storeHash`). */
  class MenuCache {
    var entries: map<string, Tree>

    constructor(entries: map<string, Tree>)
      ensures this.entries == entries
    {
      this.entries := entries;
    }

    /** `getHash`: the stored array, or an empty one. */
    function Cached(hash: string): (r: Tree)
      reads this
      ensures hash in entries ==> r == entries[hash]
      ensures hash !in entries ==> |r.entries| == 0
    {
      if hash in entries then entries[hash] else Empty
    }

    /** `storeHash`. */
    method Save(hash: string, t: Tree)
      modifies this
      ensures entries == old(entries)[hash := t]
    {
      entries := entries[hash := t];
    }
  }
}
