/** The menu array handed to the CMS menu renderer: a PHP ordered array from key to
    node array, whose nodes may carry a nested array under '--subLevel--'.  Modelled
    as a sequence of (key, node) entries; writing to a key replaces the entry in
    place, writing to a missing key appends it, reading a missing key yields an
    empty node. */
module MenuTree {
  import opened Wrappers

  /** A key of the menu array: a category or product uid, the synthetic key of a
      manufacturer pseudo-category (the decimal PHP_INT_MAX followed by the
      manufacturer uid, which never collides with an integer key), or the empty
      key PHP uses when an array is indexed with null. */
  datatype Key = Uid(uid: int) | Manu(manufacturer: int) | NullKey

  /** The ITEM_STATE values of the menu renderer. */
  datatype State = USERDEF2 | USERDEF1 | SPC | USR | CURIFSUB | CUR | ACTIFSUB | ACT | IFSUB | NO

  /** Which code built a node; it decides which optional keys the node array holds:
      category and manufacturer nodes have 'subChildTable' and 'tableSubMain'
      (and 'hasSubChild'), manufacturer nodes also 'manu', product leaves 'table'. */
  datatype NodeKind =
    | CategoryItem(hasSubChild: int)
    | ManufacturerItem(manu: int, hasSubChild: int)
    | ProductItem
    | ErrorItem
    | BareItem

  /** One node array.  `parentId` is None when 'parent_id' is unset; `state` is
      None when 'ITEM_STATE' is unset; an empty `statesList` stands for an unset
      'ITEM_STATES_LIST'; `subLevel` and `subMenu` are '--subLevel--' and
      '_SUB_MENU'.  `path` is the comma list of the node's own key followed by its
      ancestors' keys (nearest first). */
  datatype Node = Node(
    commerceMenu: bool,
    pid: int,
    pageUid: int,
    title: string,
    navTitle: string,
    parentId: Option<int>,
    hidden: int,
    depth: int,
    leaf: int,
    kind: NodeKind,
    path: seq<Key>,
    state: Option<State>,
    statesList: seq<State>,
    subLevel: Option<Tree>,
    subMenu: Option<Tree>)

  datatype Entry = Entry(key: Key, node: Node)

  datatype Tree = Tree(entries: seq<Entry>)

  /** What reading a missing key gives, and what a write to a missing key starts from. */
  const Bare: Node := Node(false, 0, 0, "", "", None, 0, 0, 0, BareItem, [], None, [], None, None)

  const Empty: Tree := Tree([])

  /** 'subChildTable' (and 'tableSubMain') are set: the node came from the category
      or the manufacturer builder. */
  predicate HasSubChildTable(n: Node) {
    n.kind.CategoryItem? || n.kind.ManufacturerItem?
  }

  /** `!empty($node['--subLevel--'])`. */
  predicate HasChildren(n: Node) {
    n.subLevel.Some? && |n.subLevel.value.entries| > 0
  }

  function Keys(t: Tree): (ks: seq<Key>)
    ensures |ks| == |t.entries|
    ensures forall i :: 0 <= i < |ks| ==> ks[i] == t.entries[i].key
  {
    seq(|t.entries|, i requires 0 <= i < |t.entries| => t.entries[i].key)
  }

  /** The position of the first entry with key `k`, or -1. */
  function IndexIn(es: seq<Entry>, k: Key): (i: int)
    ensures -1 <= i < |es|
    ensures i >= 0 ==> es[i].key == k && forall j :: 0 <= j < i ==> es[j].key != k
    ensures i < 0 ==> forall j :: 0 <= j < |es| ==> es[j].key != k
  {
    if |es| == 0 then -1
    else if es[0].key == k then 0
    else
      var j := IndexIn(es[1..], k);
      if j < 0 then -1 else j + 1
  }

  predicate Has(t: Tree, k: Key) {
    IndexIn(t.entries, k) >= 0
  }

  /** `$t[$k]`, with the empty node for a missing key. */
  function Get(t: Tree, k: Key): Node {
    var i := IndexIn(t.entries, k);
    if i >= 0 then t.entries[i].node else Bare
  }

  /** `$t[$k] = $n`: an existing key keeps its position, a new key goes last. */
  function Put(t: Tree, k: Key, n: Node): (r: Tree)
    ensures Has(r, k) && Get(r, k) == n
    ensures Keys(r) == if Has(t, k) then Keys(t) else Keys(t) + [k]
  {
    var i := IndexIn(t.entries, k);
    var r := if i >= 0 then Tree(t.entries[i := Entry(k, n)]) else Tree(t.entries + [Entry(k, n)]);
    IndexIs(r.entries, k, if i >= 0 then i else |t.entries|);
    r
  }

  /** The first position holding `k` is `i`. */
  lemma IndexIs(es: seq<Entry>, k: Key, i: int)
    requires 0 <= i < |es| && es[i].key == k
    requires forall j :: 0 <= j < i ==> es[j].key != k
    ensures IndexIn(es, k) == i
  {
  }

  /** Dropping a last entry with another key does not move `k`. */
  lemma IndexDropLast(es: seq<Entry>, k: Key)
    requires |es| > 0 && es[|es| - 1].key != k
    ensures IndexIn(es[..|es| - 1], k) == IndexIn(es, k)
  {
    var i := IndexIn(es, k);
    if i >= 0 {
      IndexIs(es[..|es| - 1], k, i);
    }
  }

  /** PHP array keys are unique. */
  predicate UniqueKeys(t: Tree) {
    forall i, j :: 0 <= i < j < |t.entries| ==> t.entries[i].key != t.entries[j].key
  }

  lemma HasIsKey(t: Tree, k: Key)
    ensures Has(t, k) <==> k in Keys(t)
  {
    if k in Keys(t) {
      var j :| 0 <= j < |Keys(t)| && Keys(t)[j] == k;
      assert t.entries[j].key == k;
    }
  }

  lemma EntryHasKey(t: Tree, e: Entry)
    requires e in t.entries
    ensures Has(t, e.key)
  {
  }

  lemma GetAt(t: Tree, i: int)
    requires UniqueKeys(t) && 0 <= i < |t.entries|
    ensures Has(t, t.entries[i].key) && Get(t, t.entries[i].key) == t.entries[i].node
  {
    var j := IndexIn(t.entries, t.entries[i].key);
    assert j == i;
  }

  /** Writing one key leaves every other key as it was. */
  lemma PutOther(t: Tree, k: Key, n: Node, k': Key)
    requires k' != k
    ensures Has(Put(t, k, n), k') == Has(t, k')
    ensures Get(Put(t, k, n), k') == Get(t, k')
  {
    var i := IndexIn(t.entries, k);
    var r := Put(t, k, n);
    var j := IndexIn(t.entries, k');
    if j >= 0 {
      assert r.entries[j] == t.entries[j];
      assert IndexIn(r.entries, k') == j;
    } else {
      assert IndexIn(r.entries, k') < 0;
    }
  }

  lemma PutUnique(t: Tree, k: Key, n: Node)
    requires UniqueKeys(t)
    ensures UniqueKeys(Put(t, k, n))
  {
    HasIsKey(t, k);
  }

  /** Writing back the value a key already holds changes nothing. */
  lemma PutSame(t: Tree, k: Key)
    requires Has(t, k)
    ensures Put(t, k, Get(t, k)) == t
  {
    var i := IndexIn(t.entries, k);
    assert t.entries[i := Entry(k, Get(t, k))] == t.entries;
  }

  /** `xs` with repeated elements dropped, first occurrences kept in order: the
      keys of an array filled by writing `xs` one after another. */
  function Distinct(xs: seq<Key>): (r: seq<Key>)
    ensures forall x :: x in r <==> x in xs
    ensures forall i, j :: 0 <= i < j < |r| ==> r[i] != r[j]
  {
    if |xs| == 0 then []
    else
      var d := Distinct(xs[..|xs| - 1]);
      if xs[|xs| - 1] in d then d else d + [xs[|xs| - 1]]
  }

  /** Writing the keys of `xs` and then `k` leaves the keys of `xs + [k]`. */
  lemma PutDistinct(t: Tree, xs: seq<Key>, k: Key, n: Node)
    requires Keys(t) == Distinct(xs)
    ensures Keys(Put(t, k, n)) == Distinct(xs + [k])
    ensures UniqueKeys(Put(t, k, n))
  {
    HasIsKey(t, k);
    assert (xs + [k])[..|xs|] == xs;
    var r := Put(t, k, n);
    assert Keys(r) == Distinct(xs + [k]);
    forall i, j | 0 <= i < j < |r.entries| ensures r.entries[i].key != r.entries[j].key {
      assert Keys(r)[i] != Keys(r)[j];
    }
  }

  lemma DistinctKeysUnique(t: Tree, xs: seq<Key>)
    requires Keys(t) == Distinct(xs)
    ensures UniqueKeys(t)
  {
    forall i, j | 0 <= i < j < |t.entries| ensures t.entries[i].key != t.entries[j].key {
      assert Keys(t)[i] != Keys(t)[j];
    }
  }

  /** Every entry after a write is the written one or an old one. */
  lemma PutEntries(t: Tree, k: Key, n: Node)
    ensures forall e :: e in Put(t, k, n).entries ==> e == Entry(k, n) || e in t.entries
  {
  }

  /** A write to a key the array does not hold appends its entry. */
  lemma PutNew(t: Tree, k: Key, n: Node)
    requires !Has(t, k)
    ensures Put(t, k, n).entries == t.entries + [Entry(k, n)]
  {
  }

  /** Every entry of a merge comes from one of the two arrays. */
  lemma {:induction false} MergeEntries(arr1: Tree, arr2: Tree)
    ensures forall e :: e in Merge(arr1, arr2).entries ==> e in arr1.entries || e in arr2.entries
    decreases |arr2.entries|
  {
    if |arr2.entries| > 0 {
      var n := |arr2.entries|;
      var front := Tree(arr2.entries[..n - 1]);
      MergeEntries(arr1, front);
      MergeEntriesStep(arr1, arr2);
    }
  }

  lemma MergeEntriesStep(arr1: Tree, arr2: Tree)
    requires |arr2.entries| > 0
    requires var front := Tree(arr2.entries[..|arr2.entries| - 1]);
      forall e :: e in Merge(arr1, front).entries ==> e in arr1.entries || e in front.entries
    ensures forall e :: e in Merge(arr1, arr2).entries ==> e in arr1.entries || e in arr2.entries
  {
    var n := |arr2.entries|;
    var front := Tree(arr2.entries[..n - 1]);
    var last := arr2.entries[n - 1];
    var m := Merge(arr1, front);
    assert Merge(arr1, arr2) == Put(m, last.key, last.node);
    PutEntries(m, last.key, last.node);
    assert last == Entry(last.key, last.node);
    forall e | e in front.entries ensures e in arr2.entries {
      var j :| 0 <= j < n - 1 && front.entries[j] == e;
      assert arr2.entries[j] == e;
    }
  }

  /** `arrayMerge`'s result: every entry of `arr2`, in order, written into `arr1`. */
  function Merge(arr1: Tree, arr2: Tree): Tree
    decreases |arr2.entries|
  {
    if |arr2.entries| == 0 then arr1
    else
      var n := |arr2.entries|;
      Put(Merge(arr1, Tree(arr2.entries[..n - 1])), arr2.entries[n - 1].key, arr2.entries[n - 1].node)
  }

  /** The three promises of `arrayMerge`: keys of `arr2` hold `arr2`'s value, the
      other keys of `arr1` keep theirs, no other key appears; and the keys of
      `arr1` keep their positions in front. */
  lemma {:induction false} MergeLookup(arr1: Tree, arr2: Tree, k: Key)
    requires UniqueKeys(arr2)
    ensures Has(Merge(arr1, arr2), k) <==> Has(arr1, k) || Has(arr2, k)
    ensures Has(arr2, k) ==> Get(Merge(arr1, arr2), k) == Get(arr2, k)
    ensures !Has(arr2, k) ==> Get(Merge(arr1, arr2), k) == Get(arr1, k)
    decreases |arr2.entries|
  {
    if |arr2.entries| > 0 {
      var n := |arr2.entries|;
      var front := Tree(arr2.entries[..n - 1]);
      if k == arr2.entries[n - 1].key {
        MergeLookupLast(arr1, arr2, k);
      } else {
        assert UniqueKeys(front);
        MergeLookup(arr1, front, k);
        MergeLookupOther(arr1, arr2, k);
      }
    }
  }

  /** An entry of a merge of arrays with unique keys is `arr2`'s entry for its
      key when `arr2` has that key, and `arr1`'s entry otherwise. */
  lemma MergeEntryFrom(arr1: Tree, arr2: Tree, e: Entry)
    requires UniqueKeys(arr1) && UniqueKeys(arr2) && e in Merge(arr1, arr2).entries
    ensures Has(arr2, e.key) ==> e in arr2.entries
    ensures !Has(arr2, e.key) ==> e in arr1.entries
  {
    var m := Merge(arr1, arr2);
    MergeEntries(arr1, arr2);
    if Has(arr2, e.key) {
      MergeUnique(arr1, arr2);
      var i :| 0 <= i < |m.entries| && m.entries[i] == e;
      GetAt(m, i);
      MergeLookup(arr1, arr2, e.key);
      var j := IndexIn(arr2.entries, e.key);
      assert arr2.entries[j] == e;
    }
  }

  /** The last entry of `arr2` is written last. */
  lemma MergeLookupLast(arr1: Tree, arr2: Tree, k: Key)
    requires UniqueKeys(arr2) && |arr2.entries| > 0 && k == arr2.entries[|arr2.entries| - 1].key
    ensures Has(Merge(arr1, arr2), k) && Has(arr2, k) && Get(Merge(arr1, arr2), k) == Get(arr2, k)
  {
    var n := |arr2.entries|;
    var last := arr2.entries[n - 1];
    assert Merge(arr1, arr2) == Put(Merge(arr1, Tree(arr2.entries[..n - 1])), last.key, last.node);
    GetAt(arr2, n - 1);
  }

  /** Another key reads as it did before the last write. */
  lemma MergeLookupOther(arr1: Tree, arr2: Tree, k: Key)
    requires |arr2.entries| > 0 && k != arr2.entries[|arr2.entries| - 1].key
    requires var front := Tree(arr2.entries[..|arr2.entries| - 1]);
      (Has(Merge(arr1, front), k) <==> Has(arr1, k) || Has(front, k))
      && (Has(front, k) ==> Get(Merge(arr1, front), k) == Get(front, k))
      && (!Has(front, k) ==> Get(Merge(arr1, front), k) == Get(arr1, k))
    ensures Has(Merge(arr1, arr2), k) <==> Has(arr1, k) || Has(arr2, k)
    ensures Has(arr2, k) ==> Get(Merge(arr1, arr2), k) == Get(arr2, k)
    ensures !Has(arr2, k) ==> Get(Merge(arr1, arr2), k) == Get(arr1, k)
  {
    var n := |arr2.entries|;
    var front := Tree(arr2.entries[..n - 1]);
    var last := arr2.entries[n - 1];
    assert Merge(arr1, arr2) == Put(Merge(arr1, front), last.key, last.node);
    PutOther(Merge(arr1, front), last.key, last.node, k);
    IndexDropLast(arr2.entries, k);
    assert Has(front, k) == Has(arr2, k) && Get(front, k) == Get(arr2, k);
  }

  lemma {:induction false} MergeKeysPrefix(arr1: Tree, arr2: Tree)
    ensures |Keys(Merge(arr1, arr2))| >= |Keys(arr1)|
    ensures Keys(Merge(arr1, arr2))[..|arr1.entries|] == Keys(arr1)
    decreases |arr2.entries|
  {
    if |arr2.entries| > 0 {
      var n := |arr2.entries|;
      MergeKeysPrefix(arr1, Tree(arr2.entries[..n - 1]));
    }
  }

  lemma {:induction false} MergeUnique(arr1: Tree, arr2: Tree)
    requires UniqueKeys(arr1)
    ensures UniqueKeys(Merge(arr1, arr2))
    decreases |arr2.entries|
  {
    if |arr2.entries| > 0 {
      var n := |arr2.entries|;
      var m := Merge(arr1, Tree(arr2.entries[..n - 1]));
      MergeUnique(arr1, Tree(arr2.entries[..n - 1]));
      PutUnique(m, arr2.entries[n - 1].key, arr2.entries[n - 1].node);
    }
  }

  /** Merging the same array a second time changes nothing; this is why the
      repeated product merge of `makeArrayPostRender` for visitors with user
      groups is harmless. */
  lemma {:induction false} MergeIdempotent(arr1: Tree, arr2: Tree)
    requires UniqueKeys(arr2)
    ensures Merge(Merge(arr1, arr2), arr2) == Merge(arr1, arr2)
  {
    var m := Merge(arr1, arr2);
    forall i | 0 <= i < |arr2.entries|
      ensures Has(m, arr2.entries[i].key) && Get(m, arr2.entries[i].key) == arr2.entries[i].node
    {
      MergeLookup(arr1, arr2, arr2.entries[i].key);
      GetAt(arr2, i);
    }
    MergeAlreadyThere(m, arr2, |arr2.entries|);
    assert arr2.entries[..|arr2.entries|] == arr2.entries;
  }

  lemma {:induction false} MergeAlreadyThere(m: Tree, arr2: Tree, j: nat)
    requires UniqueKeys(arr2) && j <= |arr2.entries|
    requires forall i :: 0 <= i < |arr2.entries| ==> Has(m, arr2.entries[i].key) && Get(m, arr2.entries[i].key) == arr2.entries[i].node
    ensures Merge(m, Tree(arr2.entries[..j])) == m
    decreases j
  {
    if j > 0 {
      var front := Tree(arr2.entries[..j][..j - 1]);
      assert arr2.entries[..j][..j - 1] == arr2.entries[..j - 1];
      MergeAlreadyThere(m, arr2, j - 1);
      PutSame(m, arr2.entries[j - 1].key);
    }
  }

  /** `arrayMerge(&$arr1, &$arr2)`: writes each entry of `$arr2` into `$arr1`. */
  method ArrayMerge(arr1: Tree, arr2: Tree) returns (r: Tree)
    ensures r == Merge(arr1, arr2)
  {
    r := arr1;
    var i := 0;
    while i < |arr2.entries|
      invariant 0 <= i <= |arr2.entries|
      invariant r == Merge(arr1, Tree(arr2.entries[..i]))
    {
      assert arr2.entries[..i + 1][..i] == arr2.entries[..i];
      r := Put(r, arr2.entries[i].key, arr2.entries[i].node);
      i := i + 1;
    }
    assert arr2.entries[..i] == arr2.entries;
  }
}
