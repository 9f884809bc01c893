/** The catalog data the menu builder reads: the category tree relation, the
    product-to-category relation, and the category, product and manufacturer
    records, each as the repositories hand them out. */
module Catalog {
  import opened Wrappers

  /** A record as `getDataRow` returns it (after any language overlay; a category
      hidden by the empty-category option is simply absent). */
  datatype Row = Row(pid: int, title: string, navTitle: string, hidden: int, deleted: int, manufacturerUid: int)

  datatype Store = Store(
    /** parent category uid -> child category uids, in 'sorting' order */
    categoryChildren: map<int, seq<int>>,
    /** category uid -> product uids, in 'sorting' order */
    categoryProducts: map<int, seq<int>>,
    categories: map<int, Row>,
    products: map<int, Row>,
    manufacturerTitles: map<int, string>,
    /** product uid -> its master parent category */
    masterParent: map<int, int>,
    /** category uid -> `getParentCategoriesUidlist()` */
    parentUidList: map<int, seq<int>>,
    /** category uid -> uid of the category `getParentCategory()` returns */
    parentCategory: map<int, int>)

  function ChildCategories(s: Store, uid: int): seq<int> {
    if uid in s.categoryChildren then s.categoryChildren[uid] else []
  }

  function CategoryProducts(s: Store, uid: int): seq<int> {
    if uid in s.categoryProducts then s.categoryProducts[uid] else []
  }

  /** `getMasterparentCategory()` of a product; 0 for an unknown product. */
  function MasterParent(s: Store, product: int): int {
    if product in s.masterParent then s.masterParent[product] else 0
  }

  /** `getParentCategoriesUidlist()` of a category; empty for an unknown one. */
  function ParentUids(s: Store, uid: int): seq<int> {
    if uid in s.parentUidList then s.parentUidList[uid] else []
  }

  function ManufacturerTitle(s: Store, m: int): string {
    if m in s.manufacturerTitles then s.manufacturerTitles[m] else ""
  }

  /** `getDataRow($uid, ...)['deleted'] == '0'`: uid 0 and unknown uids give an
      empty row, which fails the test. */
  predicate Live(rows: map<int, Row>, uid: int) {
    uid != 0 && uid in rows && rows[uid].deleted == 0
  }

  /** `hasSubChild`: 2 for uid 0, 1 when the category has product relations, else 0. */
  function HasSubChild(s: Store, uid: int): (r: int)
    ensures r == 2 <==> uid == 0
    ensures r == 1 <==> uid != 0 && |CategoryProducts(s, uid)| > 0
    ensures r == 0 <==> uid != 0 && |CategoryProducts(s, uid)| == 0
  {
    if uid == 0 then 2
    else if |CategoryProducts(s, uid)| > 0 then 1
    else 0
  }

  /** `isLeaf`: 2 for uid 0; 0 (an inner node) when the category has child
      categories or products; else 1. */
  function IsLeaf(s: Store, uid: int): (r: int)
    ensures r == 2 <==> uid == 0
    ensures r == 0 <==> uid != 0 && (|ChildCategories(s, uid)| > 0 || |CategoryProducts(s, uid)| > 0)
    ensures r == 1 <==> uid != 0 && |ChildCategories(s, uid)| == 0 && |CategoryProducts(s, uid)| == 0
  {
    if uid == 0 then 2
    else if |ChildCategories(s, uid)| > 0 || HasSubChild(s, uid) == 1 then 0
    else 1
  }

  /** The product query of `makeSubChildArrayPostRender`: the category's products,
      restricted to one manufacturer when one is given. */
  function ProductQuery(s: Store, uids: seq<int>, manufacturer: Option<int>): (r: seq<int>)
    ensures forall p :: p in r <==> p in uids && Matches(s, p, manufacturer)
    ensures |r| <= |uids|
  {
    if |uids| == 0 then []
    else
      var last := uids[|uids| - 1];
      ProductQuery(s, uids[..|uids| - 1], manufacturer) + (if Matches(s, last, manufacturer) then [last] else [])
  }

  /** The SQL restriction `products.manufacturer_uid = m`. */
  predicate Matches(s: Store, p: int, manufacturer: Option<int>) {
    manufacturer.None? || (p in s.products && s.products[p].manufacturerUid == manufacturer.value)
  }

  /** `findByUids`: the rows of the given products that exist, one per listed
      uid, in the order of the list. */
  function RowsOf(s: Store, uids: seq<int>): (r: seq<Row>)
    ensures |r| <= |uids|
    ensures forall row :: row in r ==> exists p :: p in uids && p in s.products && s.products[p] == row
    ensures forall p :: p in uids && p in s.products ==> s.products[p] in r
  {
    if |uids| == 0 then []
    else
      var last := uids[|uids| - 1];
      RowsOf(s, uids[..|uids| - 1]) + (if last in s.products then [s.products[last]] else [])
  }
}
