/** How the navigation finds the selected path: `getRootLine` searches the built
    menu array, `fixPathParents` trims a parent list read from the catalog, the
    start category and values <= 0 are stripped, and `entryLevel` cuts the top
    levels off the array. */
module PathResolution {
  import opened Wrappers
  import opened MenuTree
  import opened MenuShape
  import opened StateResolution

  function Reverse<T>(xs: seq<T>): (r: seq<T>)
    ensures |r| == |xs|
    ensures forall i :: 0 <= i < |xs| ==> r[i] == xs[|xs| - 1 - i]
  {
    if |xs| == 0 then [] else [xs[|xs| - 1]] + Reverse(xs[..|xs| - 1])
  }

  /** `getRootLine` from entry `i` on: the first entry, in depth-first key order,
      whose key equals `c` gives its path reversed (root first); the search of a
      level stops at an entry without 'subChildTable' (a product leaf). */
  function RootLineFrom(t: Tree, i: nat, c: Key): seq<Key>
    decreases t, |t.entries| - i
  {
    if i >= |t.entries| then []
    else
      var e := t.entries[i];
      if KeyEquals(e.key, c) then Reverse(e.node.path)
      else if !HasSubChildTable(e.node) then []
      else
        var found := if HasChildren(e.node) then RootLineFrom(e.node.subLevel.value, 0, c) else [];
        if |found| > 0 then found else RootLineFrom(t, i + 1, c)
  }

  /** `getRootLine($tree, $choosencat, $expand)`; `$expand` is not used. */
  function GetRootLine(t: Tree, c: Key): seq<Key> {
    RootLineFrom(t, 0, c)
  }

  /** The node reached by following `ks` (root first) through the sub-levels. */
  function Lookup(t: Tree, ks: seq<Key>): Option<Node>
    decreases |ks|
  {
    if |ks| == 0 || !Has(t, ks[0]) then None
    else if |ks| == 1 then Some(Get(t, ks[0]))
    else if Get(t, ks[0]).subLevel.None? then None
    else Lookup(Get(t, ks[0]).subLevel.value, ks[1..])
  }

  /** `r` starts with the ancestors `prefix` (root first), then leads through
      `t` to a node whose key equals `c`, and is that node's path reversed. */
  ghost predicate LeadsTo(t: Tree, c: Key, prefix: seq<Key>, r: seq<Key>) {
    |r| > |prefix| && r[..|prefix|] == Reverse(prefix) && KeyEquals(r[|r| - 1], c)
    && Lookup(t, r[|prefix|..]).Some? && Lookup(t, r[|prefix|..]).value.path == Reverse(r)
  }

  /** In a well-formed array below the ancestors `prefix`, a non-empty rootline
      leads through the array to a node whose key equals `c`. */
  lemma {:induction false} RootLineFromLeads(t: Tree, i: nat, c: Key, depth: int, prefix: seq<Key>, parent: int)
    requires Layered(t, depth, prefix, parent)
    ensures |RootLineFrom(t, i, c)| > 0 ==> LeadsTo(t, c, prefix, RootLineFrom(t, i, c))
    decreases t, |t.entries| - i
  {
    if i < |t.entries| && |RootLineFrom(t, i, c)| > 0 {
      var e := t.entries[i];
      assert e in t.entries;
      if KeyEquals(e.key, c) {
        LeadsHere(t, i, c, depth, prefix, parent);
      } else if !HasSubChildTable(e.node) {
        // the search stops here with nothing found
      } else if HasChildren(e.node) && |RootLineFrom(e.node.subLevel.value, 0, c)| > 0 {
        assert EntryLayered(e, depth, prefix, parent);
        RootLineFromLeads(e.node.subLevel.value, 0, c, depth + 1, e.node.path, ChildParent(e, parent));
        LeadsBelow(t, i, c, depth, prefix, parent);
      } else {
        RootLineFromLeads(t, i + 1, c, depth, prefix, parent);
      }
    }
  }

  /** The rootline found at an entry whose key equals `c`. */
  lemma LeadsHere(t: Tree, i: nat, c: Key, depth: int, prefix: seq<Key>, parent: int)
    requires Layered(t, depth, prefix, parent) && i < |t.entries| && KeyEquals(t.entries[i].key, c)
    ensures LeadsTo(t, c, prefix, RootLineFrom(t, i, c))
  {
    var e := t.entries[i];
    assert e in t.entries;
    assert EntryLayered(e, depth, prefix, parent);
    GetAt(t, i);
    var r := RootLineFrom(t, i, c);
    assert r == Reverse(prefix) + [e.key];
    assert r[|prefix|..] == [e.key];
    assert Reverse(r) == e.node.path;
  }

  /** The rootline found below an entry leads through that entry. */
  lemma LeadsBelow(t: Tree, i: nat, c: Key, depth: int, prefix: seq<Key>, parent: int)
    requires Layered(t, depth, prefix, parent) && i < |t.entries|
    requires var n := t.entries[i].node;
      !KeyEquals(t.entries[i].key, c) && HasSubChildTable(n) && HasChildren(n)
      && |RootLineFrom(n.subLevel.value, 0, c)| > 0
      && LeadsTo(n.subLevel.value, c, n.path, RootLineFrom(n.subLevel.value, 0, c))
    ensures LeadsTo(t, c, prefix, RootLineFrom(t, i, c))
  {
    var e := t.entries[i];
    assert e in t.entries;
    assert EntryLayered(e, depth, prefix, parent);
    GetAt(t, i);
    var r := RootLineFrom(t, i, c);
    var path := e.node.path;
    assert r == RootLineFrom(e.node.subLevel.value, 0, c);
    assert r[..|path|] == Reverse(path) == Reverse(prefix) + [e.key];
    assert r[..|prefix|] == r[..|path|][..|prefix|];
    assert r[|prefix|..] == [e.key] + r[|path|..];
    assert r[|prefix|..][1..] == r[|path|..];
  }

  /** Walking the array along `ks` (root first, handed over nearest first as
      `pathParents` are) reaches the node of the last key and gives it the
      last-level states; nothing aborts on the way. */
  ghost predicate WalkedAlong(sel: Selection, t: Tree, ks: seq<Key>) {
    |ks| >= 1 && Lookup(t, ks).Some? && Process(sel, t, Reverse(ks), |ks|).Some?
    && Lookup(Process(sel, t, Reverse(ks), |ks|).value, ks) == Some(LastNode(sel, ks[|ks| - 1], Lookup(t, ks).value))
  }

  lemma {:induction false} ProcessAlong(sel: Selection, t: Tree, ks: seq<Key>)
    requires sel.manufacturer == 0 && |ks| >= 1 && Lookup(t, ks).Some?
    ensures WalkedAlong(sel, t, ks)
    decreases |ks|
  {
    if |ks| == 1 {
      AlongLast(sel, t, ks);
    } else {
      var sub := LookupDown(t, ks);
      ProcessAlong(sel, sub, ks[1..]);
      AlongStep(sel, t, ks, sub);
    }
  }

  /** A path of two or more keys continues in the sub-level of its first key. */
  lemma LookupDown(t: Tree, ks: seq<Key>) returns (sub: Tree)
    requires |ks| >= 2 && Lookup(t, ks).Some?
    ensures Has(t, ks[0]) && Get(t, ks[0]).subLevel == Some(sub) && Lookup(sub, ks[1..]) == Lookup(t, ks)
  {
    sub := Get(t, ks[0]).subLevel.value;
  }

  lemma AlongLast(sel: Selection, t: Tree, ks: seq<Key>)
    requires sel.manufacturer == 0 && |ks| == 1 && Lookup(t, ks).Some?
    ensures WalkedAlong(sel, t, ks)
  {
    assert Reverse(ks) == ks == [ks[0]];
    ProcessLast(sel, t, ks);
  }

  lemma AlongStep(sel: Selection, t: Tree, ks: seq<Key>, sub: Tree)
    requires sel.manufacturer == 0 && |ks| >= 2
    requires Has(t, ks[0]) && Get(t, ks[0]).subLevel == Some(sub) && Lookup(sub, ks[1..]) == Lookup(t, ks)
    requires WalkedAlong(sel, sub, ks[1..])
    ensures WalkedAlong(sel, t, ks)
  {
    var sub2 := Process(sel, sub, Reverse(ks[1..]), |ks| - 1).value;
    var n2 := Descended(sel, ks[0], Get(t, ks[0]), sub2);
    AlongWrites(sel, t, ks);
    LookupBelow(t, n2, ks);
    assert Lookup(sub2, ks[1..]) == Some(LastNode(sel, ks[|ks| - 1], Lookup(t, ks).value));
  }

  /** The walk one level up writes the walked sub-level back under the first key. */
  lemma AlongWrites(sel: Selection, t: Tree, ks: seq<Key>)
    requires sel.manufacturer == 0 && |ks| >= 2 && Has(t, ks[0]) && Get(t, ks[0]).subLevel.Some?
    requires Process(sel, Get(t, ks[0]).subLevel.value, Reverse(ks[1..]), |ks| - 1).Some?
    ensures var n := Get(t, ks[0]);
      Process(sel, t, Reverse(ks), |ks|)
        == Some(Put(t, ks[0], Descended(sel, ks[0], n, Process(sel, n.subLevel.value, Reverse(ks[1..]), |ks| - 1).value)))
  {
    var path := Reverse(ks);
    ReverseFront(ks);
    assert LevelPath(sel, t, path) == path;
    assert path[|path| - 1] == ks[0] && path[..|path| - 1] == Reverse(ks[1..]);
    ProcessDown(sel, t, path, |ks|, ks[0], Reverse(ks[1..]));
  }

  /** The reversed path ends with its first key, after the rest reversed. */
  lemma ReverseFront(ks: seq<Key>)
    requires |ks| >= 1
    ensures Reverse(ks)[|ks| - 1] == ks[0] && Reverse(ks)[..|ks| - 1] == Reverse(ks[1..])
  {
    assert Reverse(ks)[..|ks| - 1] == Reverse(ks[1..]);
  }

  /** Looking up below a key just written with a sub-level looks in that sub-level. */
  lemma LookupBelow(t: Tree, n: Node, ks: seq<Key>)
    requires n.subLevel.Some? && |ks| >= 2
    ensures Lookup(Put(t, ks[0], n), ks) == Lookup(n.subLevel.value, ks[1..])
  {
  }

  /** The round trip of the selection: with no manufacturer and no product
      shown as the category itself, handing the rootline `getRootLine` found
      for the chosen category to `processArrayPostRender` (nearest first, as
      many levels deep as it is long) marks that very node CUR, or IFSUB when it
      has a sub-level, with CUR among its proposals. */
  lemma RootLineSelects(sel: Selection, t: Tree, parent: int)
    requires Layered(t, 1, [], parent)
    requires sel.manufacturer == 0 && sel.showUid <= 0
    requires var r := GetRootLine(t, sel.choosenCat); |r| > 0 && !ShowUidIs(sel.showUid, r[|r| - 1])
    ensures var r := GetRootLine(t, sel.choosenCat);
      var t2 := Process(sel, t, Reverse(r), |r|);
      t2.Some? && Lookup(t2.value, r).Some? && Lookup(t, r).Some?
      && Lookup(t2.value, r).value.state == Some(if HasChildren(Lookup(t, r).value) then IFSUB else CUR)
      && CUR in Lookup(t2.value, r).value.statesList
  {
    var r := GetRootLine(t, sel.choosenCat);
    RootLineFromLeads(t, 0, sel.choosenCat, 1, [], parent);
    assert LeadsTo(t, sel.choosenCat, [], r);
    assert r[0..] == r;
    SelectsAlong(sel, t, r);
  }

  /** The walk along a path the array holds, ending at the chosen node. */
  lemma SelectsAlong(sel: Selection, t: Tree, r: seq<Key>)
    requires sel.manufacturer == 0 && sel.showUid <= 0
    requires |r| > 0 && KeyEquals(r[|r| - 1], sel.choosenCat) && !ShowUidIs(sel.showUid, r[|r| - 1])
    requires Lookup(t, r).Some?
    ensures var t2 := Process(sel, t, Reverse(r), |r|);
      t2.Some? && Lookup(t2.value, r).Some?
      && Lookup(t2.value, r).value.state == Some(if HasChildren(Lookup(t, r).value) then IFSUB else CUR)
      && CUR in Lookup(t2.value, r).value.statesList
  {
    ProcessAlong(sel, t, r);
    assert WalkedAlong(sel, t, r);
    LastNodeChosen(sel, r[|r| - 1], Lookup(t, r).value);
  }

  lemma LastNodeChosen(sel: Selection, k0: Key, n: Node)
    requires KeyEquals(k0, sel.choosenCat) && sel.showUid <= 0 && !ShowUidIs(sel.showUid, k0)
    ensures LastNode(sel, k0, n).state == Some(if HasChildren(n) then IFSUB else CUR)
    ensures CUR in LastNode(sel, k0, n).statesList
  {
  }

  /** The index of the first element equal to `c`, or -1. */
  function FirstEqual(xs: seq<Key>, c: Key): (i: int)
    ensures -1 <= i < |xs|
    ensures i >= 0 ==> KeyEquals(xs[i], c) && forall j :: 0 <= j < i ==> !KeyEquals(xs[j], c)
    ensures i < 0 ==> forall j :: 0 <= j < |xs| ==> !KeyEquals(xs[j], c)
  {
    if |xs| == 0 then -1
    else if KeyEquals(xs[0], c) then 0
    else
      var j := FirstEqual(xs[1..], c);
      if j < 0 then -1 else j + 1
  }

  /** The list `fixPathParents` leaves: the suffix from the first element equal
      to `c`, or nothing when no element is. */
  function SuffixFrom(xs: seq<Key>, c: Key): (r: seq<Key>)
    ensures var i := FirstEqual(xs, c); r == if i < 0 then [] else xs[i..]
  {
    if |xs| == 0 then []
    else if KeyEquals(xs[0], c) then xs
    else
      var r := SuffixFrom(xs[1..], c);
      assert FirstEqual(xs[1..], c) >= 0 ==> xs[1..][FirstEqual(xs[1..], c)..] == xs[FirstEqual(xs, c)..];
      r
  }

  /** `fixPathParents`: shifts elements off the front until the first one equals
      `chosenCatUid`; the recursion ends on the empty list when none does. */
  method FixPathParents(pathArray: seq<Key>, chosenCatUid: Key) returns (r: seq<Key>)
    ensures r == SuffixFrom(pathArray, chosenCatUid)
    decreases |pathArray|
  {
    if |pathArray| == 0 {
      return pathArray;
    }
    r := pathArray;
    if !KeyEquals(pathArray[0], chosenCatUid) {
      r := FixPathParents(pathArray[1..], chosenCatUid);
    }
  }

  /** `$value != $this->cat && $value > 0` for a path element. */
  predicate KeepInPath(k: Key, cat: int) {
    match k
    case Uid(x) => x != cat && x > 0
    case Manu(_) => true
    case NullKey => false
  }

  /** The path elements kept, in order. */
  function Kept(xs: seq<Key>, cat: int): (r: seq<Key>)
    ensures forall k :: k in r <==> k in xs && KeepInPath(k, cat)
    ensures |r| <= |xs|
  {
    if |xs| == 0 then []
    else Kept(xs[..|xs| - 1], cat) + (if KeepInPath(xs[|xs| - 1], cat) then [xs[|xs| - 1]] else [])
  }

  /** A path none of whose elements is stripped comes through whole. */
  lemma {:induction false} KeptAll(xs: seq<Key>, cat: int)
    requires forall i :: 0 <= i < |xs| ==> KeepInPath(xs[i], cat)
    ensures Kept(xs, cat) == xs
  {
    if |xs| > 0 {
      var front, last := xs[..|xs| - 1], xs[|xs| - 1];
      assert KeepInPath(last, cat);
      assert forall i :: 0 <= i < |front| ==> front[i] == xs[i];
      KeptAll(front, cat);
      assert xs == front + [last];
    }
  }

  /** The strip loop of `init`: appends the kept elements of `tmpArray` to the
      parents gathered so far. */
  method StripRoot(parents: seq<Key>, tmpArray: seq<Key>, cat: int) returns (r: seq<Key>)
    ensures r == parents + Kept(tmpArray, cat)
  {
    r := parents;
    var i := 0;
    while i < |tmpArray|
      invariant 0 <= i <= |tmpArray|
      invariant r == parents + Kept(tmpArray[..i], cat)
    {
      assert tmpArray[..i + 1][..i] == tmpArray[..i];
      if KeepInPath(tmpArray[i], cat) {
        r := r + [tmpArray[i]];
      }
      i := i + 1;
    }
    assert tmpArray[..i] == tmpArray;
  }

  /** `$tree[$k]['--subLevel--']` on a tree that may already be null. */
  function SubLevelAt(t: Option<Tree>, k: Key): Option<Tree> {
    if t.None? then None else Get(t.value, k).subLevel
  }

  /** The array left after `entryLevel` levels are cut off along the root-first
      parents (a missing parent reads as the null key). */
  function EntryLevelTree(t: Option<Tree>, rootFirst: seq<Key>, entryLevel: int, i: nat): Option<Tree>
    decreases entryLevel - i
  {
    if i >= entryLevel then t
    else EntryLevelTree(SubLevelAt(t, if i < |rootFirst| then rootFirst[i] else NullKey), rootFirst, entryLevel, i + 1)
  }

  /** Cutting `entryLevel` levels along a path the array holds gives the
      sub-level of the node at that depth. */
  lemma {:induction false} EntryLevelFollows(t: Tree, rootFirst: seq<Key>, entryLevel: nat)
    requires 0 < entryLevel <= |rootFirst| && Lookup(t, rootFirst[..entryLevel]).Some?
    ensures EntryLevelTree(Some(t), rootFirst, entryLevel, 0) == Lookup(t, rootFirst[..entryLevel]).value.subLevel
    decreases entryLevel
  {
    if entryLevel > 1 {
      var sub := Get(t, rootFirst[0]).subLevel.value;
      assert rootFirst[..entryLevel][1..] == rootFirst[1..][..entryLevel - 1];
      EntryLevelFollows(sub, rootFirst[1..], entryLevel - 1);
      EntryLevelShift(Some(sub), rootFirst, entryLevel, 1);
    }
  }

  /** Starting the cut one level down is cutting along the rest of the path. */
  lemma {:induction false} EntryLevelShift(t: Option<Tree>, rootFirst: seq<Key>, entryLevel: int, i: nat)
    requires 1 <= i <= |rootFirst|
    ensures EntryLevelTree(t, rootFirst, entryLevel, i) == EntryLevelTree(t, rootFirst[1..], entryLevel - 1, i - 1)
    decreases entryLevel - i
  {
    if i < entryLevel {
      var k := if i < |rootFirst| then rootFirst[i] else NullKey;
      if i < |rootFirst| {
        assert rootFirst[1..][i - 1] == rootFirst[i];
      }
      if i + 1 <= |rootFirst| {
        EntryLevelShift(SubLevelAt(t, k), rootFirst, entryLevel, i + 1);
      } else {
        EntryLevelPastEnd(SubLevelAt(t, k), rootFirst, entryLevel, i + 1);
      }
    }
  }

  lemma {:induction false} EntryLevelPastEnd(t: Option<Tree>, rootFirst: seq<Key>, entryLevel: int, i: nat)
    requires i > |rootFirst| >= 1
    ensures EntryLevelTree(t, rootFirst, entryLevel, i) == EntryLevelTree(t, rootFirst[1..], entryLevel - 1, i - 1)
    decreases entryLevel - i
  {
    if i < entryLevel {
      EntryLevelPastEnd(SubLevelAt(t, NullKey), rootFirst, entryLevel, i + 1);
    }
  }
}
