/** What the builders put into the menu array: the key lists the catalog queries
    yield, the node each builder writes, and the product-level builder
    `makeSubChildArrayPostRender`. */
module MenuBuild {
  import opened Wrappers
  import opened MenuTree
  import opened Catalog
  import opened Settings
  import opened MenuShape

  /** The keys of the listed uids whose record passes `deleted == '0'`, in order. */
  function LiveKeys(rows: map<int, Row>, uids: seq<int>): (r: seq<Key>)
    ensures forall k :: k in r <==> k.Uid? && k.uid in uids && Live(rows, k.uid)
  {
    if |uids| == 0 then []
    else
      var last := uids[|uids| - 1];
      LiveKeys(rows, uids[..|uids| - 1]) + (if Live(rows, last) then [Uid(last)] else [])
  }

  /** One more relation row adds its key when its record is live. */
  lemma LiveKeysStep(rows: map<int, Row>, uids: seq<int>, i: int)
    requires 0 <= i < |uids|
    ensures LiveKeys(rows, uids[..i + 1]) == LiveKeys(rows, uids[..i]) + (if Live(rows, uids[i]) then [Uid(uids[i])] else [])
  {
    assert uids[..i + 1][..i] == uids[..i];
  }

  /** The live child categories of `c`, one key per relation row. */
  function CategoryKeys(s: Store, c: int): seq<Key> {
    LiveKeys(s.categories, ChildCategories(s, c))
  }

  /** The live products of `c`, restricted to a manufacturer when one is given. */
  function ProductKeys(s: Store, c: int, manufacturer: Option<int>): seq<Key> {
    LiveKeys(s.products, ProductQuery(s, CategoryProducts(s, c), manufacturer))
  }

  /** One pseudo-category key per product row with a manufacturer. */
  function ManufacturerKeysOf(rows: seq<Row>): (r: seq<Key>)
    ensures forall k :: k in r <==> k.Manu? && k.manufacturer != 0 && exists row :: row in rows && row.manufacturerUid == k.manufacturer
  {
    if |rows| == 0 then []
    else
      var last := rows[|rows| - 1];
      var front := ManufacturerKeysOf(rows[..|rows| - 1]);
      assert forall row :: row in rows[..|rows| - 1] ==> row in rows;
      assert forall row :: row in rows ==> row in rows[..|rows| - 1] || row == last;
      front + (if last.manufacturerUid != 0 then [Manu(last.manufacturerUid)] else [])
  }

  function ManufacturerKeys(s: Store, c: int): seq<Key> {
    ManufacturerKeysOf(RowsOf(s, CategoryProducts(s, c)))
  }

  /** The keys of the array `getManufacturerAsCategory` answers for category
      `c`: None, standing for its `false`, when the category has no product
      relations; otherwise one pseudo-category per distinct manufacturer of its
      products, in order of first appearance. */
  function ManufacturerLevelKeys(s: Store, c: int): Option<seq<Key>> {
    if |CategoryProducts(s, c)| == 0 then None else Some(Distinct(ManufacturerKeys(s, c)))
  }

  /** The keys of an optional array; None stays None. */
  function OptionKeys(t: Option<Tree>): Option<seq<Key>> {
    if t.Some? then Some(Keys(t.value)) else None
  }

  /** The node `makeSubChildArrayPostRender` writes for product `p`: a leaf below
      category `cat` showing the product record, current when it is the product
      on display. */
  function ProductNode(s: Store, showUid: int, pageUid: int, cat: int, depth: int, path: seq<Key>, p: int): Node
    requires p in s.products
  {
    var row := s.products[p];
    Node(
      commerceMenu := true, pid := row.pid, pageUid := pageUid, title := row.title, navTitle := row.navTitle,
      parentId := Some(cat), hidden := row.hidden, depth := depth, leaf := 1, kind := ProductItem,
      path := [Uid(p)] + path, state := Some(if p == showUid then CUR else NO), statesList := [],
      subLevel := None, subMenu := None)
  }

  ghost predicate ProductEntry(s: Store, showUid: int, pageUid: int, cat: int, depth: int, path: seq<Key>, e: Entry) {
    e.key.Uid? && Live(s.products, e.key.uid) && e.node == ProductNode(s, showUid, pageUid, cat, depth, path, e.key.uid)
  }

  /** `makeSubChildArrayPostRender`: one leaf per live product of category `cat`
      (of one manufacturer when `manufacturer` is given), in query order. */
  method MakeSubChildArrayPostRender(s: Store, showUid: int, pageUid: int, cat: int, depth: int, path: seq<Key>, manufacturer: Option<int>)
    returns (r: Tree)
    ensures Keys(r) == Distinct(ProductKeys(s, cat, manufacturer))
    ensures forall e :: e in r.entries ==> ProductEntry(s, showUid, pageUid, cat, depth, path, e)
    ensures Layered(r, depth, path, cat)
  {
    var uids := ProductQuery(s, CategoryProducts(s, cat), manufacturer);
    r := Empty;
    var i := 0;
    while i < |uids|
      invariant 0 <= i <= |uids|
      invariant Keys(r) == Distinct(LiveKeys(s.products, uids[..i]))
      invariant forall e :: e in r.entries ==> ProductEntry(s, showUid, pageUid, cat, depth, path, e)
    {
      r := AddProduct(s, showUid, pageUid, cat, depth, path, uids, i, r);
      i := i + 1;
    }
    assert uids[..i] == uids;
    DistinctKeysUnique(r, ProductKeys(s, cat, manufacturer));
    ProductLevelLayered(s, showUid, pageUid, cat, depth, path, r);
  }

  /** One pass of the product loop: the row of `uids[i]` is written when live. */
  method AddProduct(s: Store, showUid: int, pageUid: int, cat: int, depth: int, path: seq<Key>, uids: seq<int>, i: nat, t: Tree)
    returns (r: Tree)
    requires i < |uids|
    requires Keys(t) == Distinct(LiveKeys(s.products, uids[..i]))
    requires forall e :: e in t.entries ==> ProductEntry(s, showUid, pageUid, cat, depth, path, e)
    ensures Keys(r) == Distinct(LiveKeys(s.products, uids[..i + 1]))
    ensures forall e :: e in r.entries ==> ProductEntry(s, showUid, pageUid, cat, depth, path, e)
  {
    var p := uids[i];
    assert uids[..i + 1][..i] == uids[..i];
    assert LiveKeys(s.products, uids[..i + 1]) == LiveKeys(s.products, uids[..i]) + (if Live(s.products, p) then [Uid(p)] else []);
    r := t;
    if Live(s.products, p) {
      var node := ProductNode(s, showUid, pageUid, cat, depth, path, p);
      PutEntries(t, Uid(p), node);
      PutDistinct(t, LiveKeys(s.products, uids[..i]), Uid(p), node);
      r := Put(t, Uid(p), node);
    } else {
      assert LiveKeys(s.products, uids[..i + 1]) == LiveKeys(s.products, uids[..i]);
    }
  }

  lemma ProductLevelLayered(s: Store, showUid: int, pageUid: int, cat: int, depth: int, path: seq<Key>, r: Tree)
    requires UniqueKeys(r)
    requires forall e :: e in r.entries ==> ProductEntry(s, showUid, pageUid, cat, depth, path, e)
    ensures Layered(r, depth, path, cat)
  {
  }
}
