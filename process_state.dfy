/** `processArrayPostRender`: marks the selected path of the menu array with
    ITEM_STATE / ITEM_STATES_LIST proposals (settled later by `clear`) and copies
    non-empty sub-levels into '_SUB_MENU'. */
module StateResolution {
  import opened Wrappers
  import opened MenuTree

  /** The selection the walk compares against: `choosenCat`, `showUid` and the
      'manufacturer' request variable (0 when unset). */
  datatype Selection = Selection(choosenCat: Key, showUid: int, manufacturer: int)

  /** PHP's loose `==` between two keys: equal uids, equal manufacturer keys, and
      the null key against null or against 0. */
  predicate KeyEquals(a: Key, b: Key) {
    match (a, b)
    case (Uid(x), Uid(y)) => x == y
    case (Manu(x), Manu(y)) => x == y
    case (NullKey, NullKey) => true
    case (NullKey, Uid(y)) => y == 0
    case (Uid(x), NullKey) => x == 0
    case _ => false
  }

  /** `$this->showUid == $key` for an integer showUid. */
  predicate ShowUidIs(showUid: int, k: Key) {
    match k
    case Uid(x) => showUid == x
    case Manu(_) => false
    case NullKey => showUid == 0
  }

  /** The key a 'parent_id' value compares as. */
  function ParentKey(parentId: Option<int>): Key {
    match parentId
    case None => NullKey
    case Some(p) => Uid(p)
  }

  /** A manufacturer pseudo-category under the chosen category for the requested
      manufacturer. */
  predicate SelectsManufacturer(sel: Selection, n: Node) {
    n.kind.ManufacturerItem? && KeyEquals(ParentKey(n.parentId), sel.choosenCat)
    && n.kind.manu == sel.manufacturer
  }

  /** The path after the scan of one level for the requested manufacturer: the
      path of the last selecting entry, or `path` when none selects. */
  function ManufacturerPath(sel: Selection, es: seq<Entry>, path: seq<Key>): seq<Key> {
    if |es| == 0 then path
    else if SelectsManufacturer(sel, es[|es| - 1].node) then es[|es| - 1].node.path
    else ManufacturerPath(sel, es[..|es| - 1], path)
  }

  /** The path the walk uses at this level. */
  function LevelPath(sel: Selection, t: Tree, path: seq<Key>): seq<Key> {
    if sel.manufacturer != 0 then ManufacturerPath(sel, t.entries, path) else path
  }

  /** The state proposals for a node on the way down (`mDepth` > 1); `hasSub`
      is whether its sub-level was non-empty before the walk went into it. */
  function WayStates(sel: Selection, nodeId: Key, n: Node): (State, seq<State>) {
    var hasSub := HasChildren(n);
    if sel.showUid == (match n.parentId case Some(p) => p case None => 0) then
      if hasSub then (IFSUB, [CURIFSUB, CUR, ACTIFSUB, ACT, NO]) else (CUR, [CUR, ACT, NO])
    else if KeyEquals(nodeId, sel.choosenCat) && HasSubChildTable(n) then (ACT, [ACTIFSUB, ACT, IFSUB, NO])
    else if KeyEquals(nodeId, sel.choosenCat) && hasSub then (CUR, [CURIFSUB, CUR, ACTIFSUB, ACT, NO])
    else if hasSub then (IFSUB, [ACTIFSUB, ACT, IFSUB, NO])
    else (ACT, [ACT, NO])
  }

  /** The shown product entry the last level gets when its node is the chosen one. */
  function ShownProduct(n: Node): Node {
    n.(state := Some(CUR), statesList := [CUR, ACT, NO])
  }

  /** The sub-level of the last-level node after the shown product is marked. */
  function WithShownProduct(sel: Selection, k0: Key, n: Node): Node {
    if KeyEquals(k0, sel.choosenCat) && sel.showUid > 0 then
      var sub := n.subLevel.GetOr(Empty);
      n.(subLevel := Some(Put(sub, Uid(sel.showUid), ShownProduct(Get(sub, Uid(sel.showUid))))))
    else n
  }

  /** The state proposals for the node of the last level (`mDepth` == 1);
      `hasSub` is read before, `hasSubNow` after the shown product is added. */
  function LastStates(sel: Selection, k0: Key, hasSub: bool, hasSubNow: bool): (State, seq<State>) {
    var chosen := KeyEquals(k0, sel.choosenCat);
    if ShowUidIs(sel.showUid, k0) then
      if hasSubNow then (IFSUB, [IFSUB, NO]) else (CUR, [CUR, ACT, IFSUB, NO])
    else if chosen && sel.showUid > 0 then (ACT, [ACTIFSUB, ACT, IFSUB, NO])
    else if chosen && hasSub then (IFSUB, [CURIFSUB, CUR, ACTIFSUB, ACT, IFSUB, NO])
    else if chosen then (CUR, [CUR, ACT, NO])
    else (ACT, [ACT, NO])
  }

  /** The last-level node after the walk. */
  function LastNode(sel: Selection, k0: Key, n: Node): Node {
    var m := WithShownProduct(sel, k0, n);
    var st := LastStates(sel, k0, HasChildren(n), HasChildren(m));
    m.(state := Some(st.0), statesList := st.1, subMenu := if HasChildren(m) then m.subLevel else m.subMenu)
  }

  /** `processArrayPostRender($t, $path, $mDepth)`: the resulting array, or None
      when the walk reaches a node without a sub-level and PHP aborts on the
      null it passes for `array &$treeArray`. */
  function Process(sel: Selection, t: Tree, path: seq<Key>, mDepth: int): Option<Tree>
    decreases t
  {
    var p := LevelPath(sel, t, path);
    if mDepth == 0 then Some(t)
    else if mDepth == 1 then
      var k0 := if |p| > 0 then p[0] else NullKey;
      Some(Put(t, k0, LastNode(sel, k0, Get(t, k0))))
    else
      var nodeId := if |p| > 0 then p[|p| - 1] else NullKey;
      var rest := if |p| > 0 then p[..|p| - 1] else [];
      var i := IndexIn(t.entries, nodeId);
      if i < 0 || t.entries[i].node.subLevel.None? then None
      else
        var n := t.entries[i].node;
        match Process(sel, n.subLevel.value, rest, mDepth - 1)
        case None => None
        case Some(sub) => Some(Put(t, nodeId, Descended(sel, nodeId, n, sub)))
  }

  /** A node on the way down after the walk: its states proposed, the walked
      sub-level written back, and opened as '_SUB_MENU' when not empty. */
  function Descended(sel: Selection, nodeId: Key, n: Node, sub: Tree): Node {
    var st := WayStates(sel, nodeId, n);
    n.(state := Some(st.0), statesList := st.1, subLevel := Some(sub),
       subMenu := if |sub.entries| > 0 then Some(sub) else n.subMenu)
  }

  /** One level of a walk with depth 1. */
  lemma ProcessLast(sel: Selection, t: Tree, path: seq<Key>)
    ensures var p := LevelPath(sel, t, path);
      var k0 := if |p| > 0 then p[0] else NullKey;
      Process(sel, t, path, 1) == Some(Put(t, k0, LastNode(sel, k0, Get(t, k0))))
  {
  }

  /** One level of a walk deeper than 1: it succeeds exactly when the node of
      the last key is there, has a sub-level, and the walk below succeeds. */
  lemma ProcessDown(sel: Selection, t: Tree, path: seq<Key>, mDepth: int, nodeId: Key, rest: seq<Key>)
    requires mDepth != 0 && mDepth != 1
    requires var p := LevelPath(sel, t, path);
      nodeId == (if |p| > 0 then p[|p| - 1] else NullKey) && rest == (if |p| > 0 then p[..|p| - 1] else [])
    ensures Process(sel, t, path, mDepth).Some? <==>
      Has(t, nodeId) && Get(t, nodeId).subLevel.Some? && Process(sel, Get(t, nodeId).subLevel.value, rest, mDepth - 1).Some?
    ensures Process(sel, t, path, mDepth).Some? ==>
      Process(sel, t, path, mDepth).value
        == Put(t, nodeId, Descended(sel, nodeId, Get(t, nodeId), Process(sel, Get(t, nodeId).subLevel.value, rest, mDepth - 1).value))
  {
  }

  /** The key the walk writes at the top level. */
  function WrittenKey(sel: Selection, t: Tree, path: seq<Key>, mDepth: int): Key {
    var p := LevelPath(sel, t, path);
    if |p| == 0 then NullKey else if mDepth == 1 then p[0] else p[|p| - 1]
  }

  /** `processArrayPostRender`, writing into the array as the PHP code does. */
  method ProcessArrayPostRender(sel: Selection, treeArray: Tree, path: seq<Key>, mDepth: int) returns (r: Option<Tree>)
    ensures r == Process(sel, treeArray, path, mDepth)
    ensures mDepth == 0 ==> r == Some(treeArray)
    decreases treeArray, 1
  {
    var p := ScanManufacturers(sel, treeArray, path);
    if mDepth == 0 {
      return Some(treeArray);
    }
    if mDepth == 1 {
      var k0 := if |p| > 0 then p[0] else NullKey;
      var n := MarkLast(sel, k0, Get(treeArray, k0));
      ProcessLast(sel, treeArray, path);
      return Some(Put(treeArray, k0, n));
    }
    r := WalkDown(sel, treeArray, path, p, mDepth);
  }

  /** The way-down part of `processArrayPostRender`: the node of the path's
      last key gets its proposals, the walk continues in its sub-level, and the
      walked sub-level is written back. */
  method WalkDown(sel: Selection, treeArray: Tree, path: seq<Key>, p: seq<Key>, mDepth: int) returns (r: Option<Tree>)
    requires mDepth != 0 && mDepth != 1 && p == LevelPath(sel, treeArray, path)
    ensures r == Process(sel, treeArray, path, mDepth)
    decreases treeArray, 0
  {
    var nodeId := if |p| > 0 then p[|p| - 1] else NullKey;
    var rest := if |p| > 0 then p[..|p| - 1] else [];
    var i := IndexIn(treeArray.entries, nodeId);
    if i < 0 || treeArray.entries[i].node.subLevel.None? {
      return None;
    }
    var orig := treeArray.entries[i].node;
    var n := MarkWay(sel, nodeId, orig);
    var sub := ProcessArrayPostRender(sel, orig.subLevel.value, rest, mDepth - 1);
    if sub.None? {
      return None;
    }
    n := n.(subLevel := sub, subMenu := if |sub.value.entries| > 0 then sub else orig.subMenu);
    assert n == Descended(sel, nodeId, orig, sub.value);
    r := Some(Put(treeArray, nodeId, n));
  }

  /** The scan of one level for the requested manufacturer's pseudo-category. */
  method ScanManufacturers(sel: Selection, treeArray: Tree, path: seq<Key>) returns (p: seq<Key>)
    ensures p == LevelPath(sel, treeArray, path)
  {
    p := path;
    if sel.manufacturer != 0 {
      var i := 0;
      while i < |treeArray.entries|
        invariant 0 <= i <= |treeArray.entries|
        invariant p == ManufacturerPath(sel, treeArray.entries[..i], path)
      {
        assert treeArray.entries[..i + 1][..i] == treeArray.entries[..i];
        if SelectsManufacturer(sel, treeArray.entries[i].node) {
          p := treeArray.entries[i].node.path;
        }
        i := i + 1;
      }
      assert treeArray.entries[..i] == treeArray.entries;
    }
  }

  /** The writes to the node of the last level (`mDepth` == 1). */
  method MarkLast(sel: Selection, k0: Key, node: Node) returns (n: Node)
    ensures n == LastNode(sel, k0, node)
  {
    n := node.(state := Some(ACT), statesList := [ACT, NO]);
    if KeyEquals(k0, sel.choosenCat) {
      n := n.(state := Some(CUR), statesList := [CUR, ACT, NO]);
      if HasChildren(n) {
        n := n.(state := Some(IFSUB), statesList := [CURIFSUB, CUR, ACTIFSUB, ACT, IFSUB, NO]);
      }
      if sel.showUid > 0 {
        var sub := n.subLevel.GetOr(Empty);
        sub := Put(sub, Uid(sel.showUid), ShownProduct(Get(sub, Uid(sel.showUid))));
        n := n.(subLevel := Some(sub));
        n := n.(state := Some(ACT), statesList := [ACTIFSUB, ACT, IFSUB, NO]);
      }
    }
    if ShowUidIs(sel.showUid, k0) {
      if HasChildren(n) {
        n := n.(state := Some(IFSUB), statesList := [IFSUB, NO]);
      } else {
        n := n.(state := Some(CUR), statesList := [CUR, ACT, IFSUB, NO]);
      }
    }
    if HasChildren(n) {
      n := n.(subMenu := n.subLevel);
    }
  }

  /** The writes to a node on the way down, before the walk enters its sub-level. */
  method MarkWay(sel: Selection, nodeId: Key, orig: Node) returns (n: Node)
    ensures n == orig.(state := Some(WayStates(sel, nodeId, orig).0), statesList := WayStates(sel, nodeId, orig).1)
  {
    n := orig.(state := Some(ACT), statesList := [ACT, NO]);
    if HasChildren(orig) {
      n := n.(state := Some(IFSUB), statesList := [ACTIFSUB, ACT, IFSUB, NO]);
    }
    if KeyEquals(nodeId, sel.choosenCat) {
      if HasChildren(orig) {
        n := n.(state := Some(CUR), statesList := [CURIFSUB, CUR, ACTIFSUB, ACT, NO]);
      }
      if HasSubChildTable(orig) {
        n := n.(state := Some(ACT), statesList := [ACTIFSUB, ACT, IFSUB, NO]);
      }
    }
    if sel.showUid == (match orig.parentId case Some(q) => q case None => 0) {
      n := n.(state := Some(CUR), statesList := [CUR, ACT, NO]);
      if HasChildren(orig) {
        n := n.(state := Some(IFSUB), statesList := [CURIFSUB, CUR, ACTIFSUB, ACT, NO]);
      }
    }
  }

  /** Everything of a node but ITEM_STATE, ITEM_STATES_LIST, '--subLevel--' and
      '_SUB_MENU' agrees. */
  predicate SameItem(a: Node, b: Node) {
    a.(state := b.state, statesList := b.statesList, subLevel := b.subLevel, subMenu := b.subMenu) == b
  }

  /** `t2` is `t` with states proposed: every entry keeps its key, position and
      data, every sub-level is kept (annotated the same way), and each level gains
      at most one entry, at its end. */
  ghost predicate Annotates(t: Tree, t2: Tree)
    decreases t
  {
    |t.entries| <= |t2.entries| <= |t.entries| + 1
    && forall i :: 0 <= i < |t.entries| ==>
         t2.entries[i].key == t.entries[i].key && NodeAnnotates(t.entries[i].node, t2.entries[i].node)
  }

  ghost predicate NodeAnnotates(n: Node, n2: Node)
    decreases n
  {
    SameItem(n, n2) && (n.subLevel.Some? ==> n2.subLevel.Some? && Annotates(n.subLevel.value, n2.subLevel.value))
  }

  lemma {:induction false} AnnotatesSelf(t: Tree)
    ensures Annotates(t, t)
    decreases t
  {
    forall i | 0 <= i < |t.entries| ensures NodeAnnotates(t.entries[i].node, t.entries[i].node) {
      NodeAnnotatesSelf(t.entries[i].node);
    }
  }

  lemma {:induction false} NodeAnnotatesSelf(n: Node)
    ensures NodeAnnotates(n, n)
    decreases n
  {
    if n.subLevel.Some? {
      AnnotatesSelf(n.subLevel.value);
    }
  }

  /** Writing an annotated node over an existing key, or any node to a new key,
      annotates the level. */
  lemma PutAnnotates(t: Tree, k: Key, n: Node)
    requires Has(t, k) ==> NodeAnnotates(Get(t, k), n)
    ensures Annotates(t, Put(t, k, n))
  {
    var r := Put(t, k, n);
    var i := IndexIn(t.entries, k);
    forall j | 0 <= j < |t.entries| ensures r.entries[j].key == t.entries[j].key && NodeAnnotates(t.entries[j].node, r.entries[j].node) {
      if j != i {
        NodeAnnotatesSelf(t.entries[j].node);
      }
    }
  }

  /** The last-level writes only propose states, add the shown product and open
      the sub-menu. */
  lemma LastNodeAnnotates(sel: Selection, k0: Key, n: Node)
    ensures NodeAnnotates(n, LastNode(sel, k0, n))
  {
    var m := WithShownProduct(sel, k0, n);
    if n.subLevel.Some? {
      AnnotatesSelf(n.subLevel.value);
    }
    if m != n && n.subLevel.Some? {
      var sub := n.subLevel.value;
      var u := Uid(sel.showUid);
      var shown := ShownProduct(Get(sub, u));
      NodeAnnotatesSelf(Get(sub, u));
      PutAnnotates(sub, u, shown);
    }
  }

  /** `processArrayPostRender` only proposes states and opens sub-menus: it never
      drops, moves or rewrites an entry, and each level gains at most one entry. */
  lemma {:induction false} ProcessAnnotates(sel: Selection, t: Tree, path: seq<Key>, mDepth: int)
    requires Process(sel, t, path, mDepth).Some?
    ensures Annotates(t, Process(sel, t, path, mDepth).value)
    decreases t
  {
    var p := LevelPath(sel, t, path);
    if mDepth == 0 {
      AnnotatesSelf(t);
    } else if mDepth == 1 {
      var k0 := if |p| > 0 then p[0] else NullKey;
      ProcessLast(sel, t, path);
      LastNodeAnnotates(sel, k0, Get(t, k0));
      PutAnnotates(t, k0, LastNode(sel, k0, Get(t, k0)));
    } else {
      var nodeId := if |p| > 0 then p[|p| - 1] else NullKey;
      var rest := if |p| > 0 then p[..|p| - 1] else [];
      var n := Get(t, nodeId);
      ProcessDown(sel, t, path, mDepth, nodeId, rest);
      ProcessAnnotates(sel, n.subLevel.value, rest, mDepth - 1);
      WayAnnotates(sel, t, nodeId, n, Process(sel, n.subLevel.value, rest, mDepth - 1).value);
    }
  }

  lemma WayAnnotates(sel: Selection, t: Tree, nodeId: Key, n: Node, sub: Tree)
    requires Has(t, nodeId) && Get(t, nodeId) == n && n.subLevel.Some?
    requires Annotates(n.subLevel.value, sub)
    ensures Annotates(t, Put(t, nodeId, Descended(sel, nodeId, n, sub)))
  {
    var n2 := Descended(sel, nodeId, n, sub);
    assert NodeAnnotates(n, n2);
    PutAnnotates(t, nodeId, n2);
  }

  /** At the top level the walk writes one key only: every other key keeps its
      node, and the key list grows only by the written key. */
  lemma ProcessFrame(sel: Selection, t: Tree, path: seq<Key>, mDepth: int, k: Key)
    requires mDepth != 0 && Process(sel, t, path, mDepth).Some?
    requires k != WrittenKey(sel, t, path, mDepth)
    ensures var w := WrittenKey(sel, t, path, mDepth);
      var t2 := Process(sel, t, path, mDepth).value;
      Keys(t2) == (if Has(t, w) then Keys(t) else Keys(t) + [w])
      && Has(t2, k) == Has(t, k) && Get(t2, k) == Get(t, k)
  {
    var w := WrittenKey(sel, t, path, mDepth);
    var t2 := Process(sel, t, path, mDepth).value;
    assert t2 == Put(t, w, Get(t2, w));
    PutOther(t, w, Get(t2, w), k);
  }

  /** The last level (`mDepth` == 1) as the source promises it, for a selection
      without manufacturer: the chosen node is CUR, or IFSUB over a sub-level;
      with a shown product that product becomes CUR and the chosen node ACT; any
      other node of the path is ACT.  A non-empty sub-level is opened. */
  lemma LastLevel(sel: Selection, t: Tree, k0: Key)
    requires sel.manufacturer == 0
    ensures var t2 := Process(sel, t, [k0], 1).value;
      var n := Get(t, k0);
      var n2 := Get(t2, k0);
      && (KeyEquals(k0, sel.choosenCat) && sel.showUid <= 0 && !ShowUidIs(sel.showUid, k0) ==>
            if HasChildren(n) then n2.state == Some(IFSUB) && n2.statesList == [CURIFSUB, CUR, ACTIFSUB, ACT, IFSUB, NO]
            else n2.state == Some(CUR) && n2.statesList == [CUR, ACT, NO])
      && (KeyEquals(k0, sel.choosenCat) && sel.showUid > 0 ==>
            n2.subLevel.Some? && Has(n2.subLevel.value, Uid(sel.showUid))
            && Get(n2.subLevel.value, Uid(sel.showUid)).state == Some(CUR)
            && Get(n2.subLevel.value, Uid(sel.showUid)).statesList == [CUR, ACT, NO]
            && (!ShowUidIs(sel.showUid, k0) ==> n2.state == Some(ACT) && n2.statesList == [ACTIFSUB, ACT, IFSUB, NO]))
      && (!KeyEquals(k0, sel.choosenCat) && !ShowUidIs(sel.showUid, k0) ==>
            n2.state == Some(ACT) && n2.statesList == [ACT, NO])
      && (HasChildren(n2) ==> n2.subMenu == n2.subLevel)
  {
  }
}
