/** `sortArrayList` and `sortAllMenuArray`: the 'alphabetiDesc' sort of the menu
    array, which orders every sub-level by upper-cased title with `strcmp`
    (ascending, whatever the name says) and keeps the keys with their nodes. */
module MenuSort {
  import opened Wrappers
  import opened MenuTree
  import opened Settings

  /** `strtoupper`: ASCII letters only. */
  function Upper(s: string): (u: string)
    ensures |u| == |s|
    ensures forall i :: 0 <= i < |s| ==> u[i] == if 'a' <= s[i] <= 'z' then (s[i] as int - 32) as char else s[i]
  {
    if |s| == 0 then []
    else [if 'a' <= s[0] <= 'z' then (s[0] as int - 32) as char else s[0]] + Upper(s[1..])
  }

  /** `strcmp(a, b) <= 0`: `a` is a prefix of `b` or is smaller at the first
      difference. */
  predicate StrLeq(a: string, b: string) {
    |a| == 0 || (|b| > 0 && (a[0] < b[0] || (a[0] == b[0] && StrLeq(a[1..], b[1..]))))
  }

  lemma {:induction false} StrLeqTotal(a: string, b: string)
    ensures StrLeq(a, b) || StrLeq(b, a)
  {
    if |a| > 0 && |b| > 0 && a[0] == b[0] {
      StrLeqTotal(a[1..], b[1..]);
    }
  }

  lemma {:induction false} StrLeqTrans(a: string, b: string, c: string)
    requires StrLeq(a, b) && StrLeq(b, c)
    ensures StrLeq(a, c)
  {
    if |a| > 0 && a[0] == b[0] && b[0] == c[0] {
      StrLeqTrans(a[1..], b[1..], c[1..]);
    }
  }

  /** The comparator of `sortArrayList` says `x` may stay before `y`. */
  predicate TitleLeq(x: Entry, y: Entry) {
    StrLeq(Upper(x.node.title), Upper(y.node.title))
  }

  predicate Ordered(es: seq<Entry>) {
    forall i, j :: 0 <= i < j < |es| ==> TitleLeq(es[i], es[j])
  }

  /** Puts `e` after every entry that does not sort strictly after it. */
  function Insert(e: Entry, es: seq<Entry>): seq<Entry> {
    if |es| == 0 then [e]
    else if !TitleLeq(es[0], e) then [e] + es
    else [es[0]] + Insert(e, es[1..])
  }

  /** The stable sort by title: the order `uasort` gives with a stable sort. */
  function SortEntries(es: seq<Entry>): seq<Entry> {
    if |es| == 0 then [] else Insert(es[|es| - 1], SortEntries(es[..|es| - 1]))
  }

  lemma {:induction false} InsertPerm(e: Entry, es: seq<Entry>)
    ensures multiset(Insert(e, es)) == multiset(es) + multiset{e}
  {
    if |es| > 0 && TitleLeq(es[0], e) {
      InsertPerm(e, es[1..]);
      assert es == [es[0]] + es[1..];
    }
  }

  lemma {:induction false} InsertOrdered(e: Entry, es: seq<Entry>)
    requires Ordered(es)
    ensures Ordered(Insert(e, es))
  {
    if |es| > 0 {
      if !TitleLeq(es[0], e) {
        StrLeqTotal(Upper(es[0].node.title), Upper(e.node.title));
        forall j | 1 < j < |es| + 1 ensures TitleLeq(e, ([e] + es)[j]) {
          StrLeqTrans(Upper(e.node.title), Upper(es[0].node.title), Upper(es[j - 1].node.title));
        }
      } else {
        InsertOrdered(e, es[1..]);
        InsertPerm(e, es[1..]);
        var r := Insert(e, es[1..]);
        forall j | 0 <= j < |r| ensures TitleLeq(es[0], r[j]) {
          assert r[j] in multiset(r);
          assert r[j] == e || r[j] in es[1..];
        }
      }
    }
  }

  lemma {:induction false} SortPerm(es: seq<Entry>)
    ensures multiset(SortEntries(es)) == multiset(es)
  {
    if |es| > 0 {
      SortPerm(es[..|es| - 1]);
      InsertPerm(es[|es| - 1], SortEntries(es[..|es| - 1]));
      assert es == es[..|es| - 1] + [es[|es| - 1]];
    }
  }

  lemma {:induction false} SortOrdered(es: seq<Entry>)
    ensures Ordered(SortEntries(es))
  {
    if |es| > 0 {
      SortOrdered(es[..|es| - 1]);
      InsertOrdered(es[|es| - 1], SortEntries(es[..|es| - 1]));
    }
  }

  /** An entry no smaller than all others goes last. */
  lemma {:induction false} InsertLast(e: Entry, es: seq<Entry>)
    requires forall i :: 0 <= i < |es| ==> TitleLeq(es[i], e)
    ensures Insert(e, es) == es + [e]
  {
    if |es| > 0 {
      InsertLast(e, es[1..]);
    }
  }

  /** Sorting what is already in order changes nothing: the sort is stable. */
  lemma {:induction false} SortOrderedSame(es: seq<Entry>)
    requires Ordered(es)
    ensures SortEntries(es) == es
  {
    if |es| > 0 {
      var front := es[..|es| - 1];
      SortOrderedSame(front);
      InsertLast(es[|es| - 1], front);
      assert front + [es[|es| - 1]] == es;
    }
  }

  /** `sortArrayList`: sorts for 'alphabetiDesc' and reports success; any other
      sort type leaves the list and reports failure. */
  method SortArrayList(listNodes: Tree, sortType: SortType) returns (sorted: Tree, ok: bool)
    ensures ok <==> sortType == AlphabetiDesc
    ensures ok ==> sorted == Tree(SortEntries(listNodes.entries))
    ensures ok ==> Ordered(sorted.entries) && multiset(sorted.entries) == multiset(listNodes.entries)
    ensures !ok ==> sorted == listNodes
  {
    if sortType != AlphabetiDesc {
      return listNodes, false;
    }
    var es := listNodes.entries;
    var r: seq<Entry> := [];
    var i := 0;
    while i < |es|
      invariant 0 <= i <= |es|
      invariant r == SortEntries(es[..i])
    {
      assert es[..i + 1][..i] == es[..i];
      r := Insert(es[i], r);
      i := i + 1;
    }
    assert es[..i] == es;
    SortOrdered(es);
    SortPerm(es);
    return Tree(r), true;
  }

  /** One level sorted by the sort type. */
  function SortLevel(es: seq<Entry>, sortType: SortType): seq<Entry> {
    if sortType == AlphabetiDesc then SortEntries(es) else es
  }

  /** `sortAllMenuArray` as written: every '--subLevel--' is sorted and then
      descended into; the top level and every '_SUB_MENU' keep their order.
      Here the entries' sub-levels are sorted first, which gives the same array,
      because sorting a level moves whole entries and leaves their contents. */
  function SortAll(t: Tree, sortType: SortType): Tree
    decreases t
  {
    Tree(seq(|t.entries|, i requires 0 <= i < |t.entries| => SortAllEntry(t.entries[i], sortType)))
  }

  function SortAllEntry(e: Entry, sortType: SortType): Entry
    decreases e
  {
    if e.node.subLevel.None? then e
    else Entry(e.key, e.node.(subLevel := Some(Tree(SortLevel(SortAll(e.node.subLevel.value, sortType).entries, sortType)))))
  }

  /** `sortAllMenuArray` as the navigation evidently intends it: an opened
      '_SUB_MENU', a copy of its sub-level, is replaced by the sorted sub-level. */
  function SortAllSynced(t: Tree, sortType: SortType): Tree
    decreases t
  {
    Tree(seq(|t.entries|, i requires 0 <= i < |t.entries| => SortSyncedEntry(t.entries[i], sortType)))
  }

  function SortSyncedEntry(e: Entry, sortType: SortType): Entry
    decreases e
  {
    if e.node.subLevel.None? then e
    else
      var sub := Tree(SortLevel(SortAllSynced(e.node.subLevel.value, sortType).entries, sortType));
      Entry(e.key, e.node.(subLevel := Some(sub), subMenu := if e.node.subMenu.Some? then Some(sub) else None))
  }

  /** Every sub-level, at every depth, is in title order. */
  ghost predicate SubLevelsOrdered(t: Tree)
    decreases t
  {
    forall e :: e in t.entries ==> e.node.subLevel.Some? ==>
      Ordered(e.node.subLevel.value.entries) && SubLevelsOrdered(e.node.subLevel.value)
  }

  /** Every opened '_SUB_MENU', at every depth, shows exactly its sub-level. */
  ghost predicate SubMenusMirror(t: Tree)
    decreases t
  {
    forall e :: e in t.entries ==>
      (e.node.subMenu.Some? ==> e.node.subMenu == e.node.subLevel)
      && (e.node.subLevel.Some? ==> SubMenusMirror(e.node.subLevel.value))
  }

  /** The corrected sort orders every sub-level and keeps every opened sub-menu
      equal to its sub-level (as the builder leaves them); the top level keeps
      its keys in order. */
  lemma {:induction false} SortAllSyncedSorted(t: Tree)
    requires SubMenusMirror(t)
    ensures Keys(SortAllSynced(t, AlphabetiDesc)) == Keys(t)
    ensures SubLevelsOrdered(SortAllSynced(t, AlphabetiDesc))
    ensures SubMenusMirror(SortAllSynced(t, AlphabetiDesc))
    decreases t
  {
    var r := SortAllSynced(t, AlphabetiDesc);
    forall e | e in r.entries
      ensures e.node.subLevel.Some? ==> Ordered(e.node.subLevel.value.entries) && SubLevelsOrdered(e.node.subLevel.value)
      ensures e.node.subMenu.Some? ==> e.node.subMenu == e.node.subLevel
      ensures e.node.subLevel.Some? ==> SubMenusMirror(e.node.subLevel.value)
    {
      var i :| 0 <= i < |r.entries| && r.entries[i] == e;
      var o := t.entries[i];
      if o.node.subLevel.Some? {
        var inner := SortAllSynced(o.node.subLevel.value, AlphabetiDesc);
        SortAllSyncedSorted(o.node.subLevel.value);
        SortOrdered(inner.entries);
        SortPerm(inner.entries);
        MembersKeep(inner.entries, SortEntries(inner.entries));
      }
    }
  }

  /** A permutation of a level keeps the deep invariants of its entries. */
  lemma MembersKeep(a: seq<Entry>, b: seq<Entry>)
    requires multiset(a) == multiset(b)
    requires SubLevelsOrdered(Tree(a)) && SubMenusMirror(Tree(a))
    ensures SubLevelsOrdered(Tree(b)) && SubMenusMirror(Tree(b))
  {
    forall e | e in b
      ensures e.node.subLevel.Some? ==> Ordered(e.node.subLevel.value.entries) && SubLevelsOrdered(e.node.subLevel.value)
      ensures (e.node.subMenu.Some? ==> e.node.subMenu == e.node.subLevel)
              && (e.node.subLevel.Some? ==> SubMenusMirror(e.node.subLevel.value))
    {
      assert e in multiset(b);
      assert e in Tree(a).entries;
    }
  }

  /** The discrepancy of the sort as written: an opened sub-menu whose entries
      were out of title order keeps the old order while its sub-level is sorted. */
  lemma SortAllLeavesSubMenu()
    ensures var b := Entry(Uid(2), Bare.(title := "B"));
      var a := Entry(Uid(3), Bare.(title := "A"));
      var level := Tree([b, a]);
      var t := Tree([Entry(Uid(1), Bare.(subLevel := Some(level), subMenu := Some(level)))]);
      var r := SortAll(t, AlphabetiDesc).entries[0].node;
      r.subMenu == Some(level) && r.subLevel == Some(Tree([a, b])) && r.subMenu != r.subLevel
  {
    var b := Entry(Uid(2), Bare.(title := "B"));
    var a := Entry(Uid(3), Bare.(title := "A"));
    var level := Tree([b, a]);
    assert Upper("A")[0] == 'A' && Upper("B")[0] == 'B';
    assert TitleLeq(a, b) && !TitleLeq(b, a);
    assert SortAll(level, AlphabetiDesc).entries == [b, a];
    assert SortEntries([b, a]) == Insert(a, SortEntries([b]));
    assert SortEntries([b]) == [b];
    assert Insert(a, [b]) == [a, b];
    var t := Tree([Entry(Uid(1), Bare.(subLevel := Some(level), subMenu := Some(level)))]);
    assert SortAll(t, AlphabetiDesc).entries[0] == SortAllEntry(t.entries[0], AlphabetiDesc);
    assert Tree([b, a]).entries[0] != Tree([a, b]).entries[0];
  }

  /** No chain of sub-levels below `t` is longer than `h`. */
  ghost predicate HeightBelow(t: Tree, h: nat)
    decreases t
  {
    forall e :: e in t.entries ==> e.node.subLevel.Some? ==> h > 0 && HeightBelow(e.node.subLevel.value, h - 1)
  }

  lemma {:induction false} HeightBelowMore(t: Tree, h: nat, h2: nat)
    requires HeightBelow(t, h) && h <= h2
    ensures HeightBelow(t, h2)
    decreases t
  {
    forall e | e in t.entries && e.node.subLevel.Some? ensures HeightBelow(e.node.subLevel.value, h2 - 1) {
      HeightBelowMore(e.node.subLevel.value, h - 1, h2 - 1);
    }
  }

  /** Every menu array is finitely deep. */
  lemma {:induction false} HeightOf(t: Tree) returns (h: nat)
    ensures HeightBelow(t, h)
    decreases t
  {
    h := 0;
    var i := 0;
    while i < |t.entries|
      invariant 0 <= i <= |t.entries|
      invariant HeightBelow(Tree(t.entries[..i]), h)
    {
      var e := t.entries[i];
      if e.node.subLevel.Some? {
        var hs := HeightOf(e.node.subLevel.value);
        var h2 := if hs + 1 > h then hs + 1 else h;
        HeightBelowMore(Tree(t.entries[..i]), h, h2);
        HeightBelowMore(e.node.subLevel.value, hs, h2 - 1);
        h := h2;
      }
      assert forall x :: x in t.entries[..i + 1] ==> x in t.entries[..i] || x == e;
      i := i + 1;
    }
    assert t.entries[..i] == t.entries;
  }

  /** The corrected sort applied entry by entry. */
  function MapSynced(es: seq<Entry>, sortType: SortType): (r: seq<Entry>)
    ensures |r| == |es|
    ensures forall i :: 0 <= i < |es| ==> r[i] == SortSyncedEntry(es[i], sortType)
  {
    seq(|es|, i requires 0 <= i < |es| => SortSyncedEntry(es[i], sortType))
  }

  lemma {:induction false} MapSyncedInsert(e: Entry, es: seq<Entry>, sortType: SortType)
    ensures Insert(SortSyncedEntry(e, sortType), MapSynced(es, sortType)) == MapSynced(Insert(e, es), sortType)
  {
    if |es| > 0 {
      var f := SortSyncedEntry(e, sortType);
      var m := MapSynced(es, sortType);
      assert f.node.title == e.node.title;
      assert m[0].node.title == es[0].node.title;
      assert TitleLeq(m[0], f) == TitleLeq(es[0], e);
      if TitleLeq(es[0], e) {
        MapSyncedInsert(e, es[1..], sortType);
        assert m[1..] == MapSynced(es[1..], sortType);
        assert Insert(f, m) == [m[0]] + Insert(f, m[1..]);
        assert Insert(e, es) == [es[0]] + Insert(e, es[1..]);
        MapSyncedCons(es[0], Insert(e, es[1..]), sortType);
      } else {
        assert Insert(f, m) == [f] + m;
        MapSyncedCons(e, es, sortType);
      }
    }
  }

  lemma MapSyncedCons(e: Entry, es: seq<Entry>, sortType: SortType)
    ensures MapSynced([e] + es, sortType) == [SortSyncedEntry(e, sortType)] + MapSynced(es, sortType)
  {
  }

  /** Sorting a level commutes with sorting inside its entries: only titles
      decide the order, and the inner sort keeps them. */
  lemma {:induction false} MapSyncedSort(es: seq<Entry>, sortType: SortType)
    ensures SortEntries(MapSynced(es, sortType)) == MapSynced(SortEntries(es), sortType)
  {
    if |es| > 0 {
      var front := es[..|es| - 1];
      MapSyncedSort(front, sortType);
      assert MapSynced(es, sortType)[..|es| - 1] == MapSynced(front, sortType);
      MapSyncedInsert(es[|es| - 1], SortEntries(front), sortType);
    }
  }

  /** `sortAllMenuArray`, with the evidently intended refresh of an opened
      '_SUB_MENU' after its sub-level is sorted. */
  method SortAllMenuArray(treeArray: Tree, sortType: SortType, ghost h: nat) returns (r: Tree)
    requires HeightBelow(treeArray, h)
    ensures r == SortAllSynced(treeArray, sortType)
    decreases h, 0
  {
    r := treeArray;
    if |treeArray.entries| > 0 {
      var i := 0;
      while i < |treeArray.entries|
        invariant 0 <= i <= |treeArray.entries| == |r.entries|
        invariant forall j :: 0 <= j < i ==> r.entries[j] == SortSyncedEntry(treeArray.entries[j], sortType)
        invariant forall j :: i <= j < |r.entries| ==> r.entries[j] == treeArray.entries[j]
      {
        var e := treeArray.entries[i];
        if e.node.subLevel.Some? {
          var inner := SortSubLevel(e.node.subLevel.value, sortType, h - 1);
          var node := e.node.(subLevel := Some(inner));
          if node.subMenu.Some? {
            node := node.(subMenu := node.subLevel);
          }
          r := Tree(r.entries[i := Entry(e.key, node)]);
        }
        i := i + 1;
      }
    }
    assert r.entries == SortAllSynced(treeArray, sortType).entries;
  }

  /** The body of the loop of `sortAllMenuArray` for one sub-level: sort it,
      then sort below it. */
  method SortSubLevel(sub: Tree, sortType: SortType, ghost h: nat) returns (r: Tree)
    requires HeightBelow(sub, h)
    ensures r == Tree(SortLevel(SortAllSynced(sub, sortType).entries, sortType))
    decreases h, 1
  {
    var sorted, _ := SortArrayList(sub, sortType);
    assert sorted == Tree(SortLevel(sub.entries, sortType));
    assert HeightBelow(sorted, h) by {
      SortPerm(sub.entries);
      forall e | e in sorted.entries ensures e in sub.entries {
        assert e in multiset(sorted.entries);
      }
    }
    r := SortAllMenuArray(sorted, sortType, h);
    assert SortAllSynced(sorted, sortType).entries == MapSynced(sorted.entries, sortType);
    assert SortAllSynced(sub, sortType).entries == MapSynced(sub.entries, sortType);
    if sortType == AlphabetiDesc {
      MapSyncedSort(sub.entries, sortType);
    }
  }
}
