/** `ui/lib/asset-catalog.ts`: one catalog of assets and tables, and the memoized search over it. */
module AssetCatalog {
  import opened Text
  import opened Lists
  import opened Sorting
  import opened JsMaps
  import opened Namespace

  datatype Item = Item(id: string, assetType: string, name: string, summary: string,
                       provenanceStatus: Option<string>, excluded: bool, namespace: Option<string>, hasSuspect: bool)

  datatype AssetRow = AssetRow(id: string, assetType: string, summary: string, provenanceStatus: Option<string>,
                               excluded: bool, schema: Option<string>)

  /** `shape` is the computed table summary. */
  datatype TableRow = TableRow(id: string, physicalName: string, namespace: string, shape: string,
                               provenanceStatus: Option<string>, excluded: bool, hasSuspect: bool)

  const SEARCH_CACHE_MAX: nat := 64
  const MIN_QUERY_LENGTH := 2

  // ---- the searcher ---------------------------------------------------------------------

  type Ranking = string -> seq<Item>

  /** The uncached search; the ranking itself is a parameter. */
  function Search(items: seq<Item>, rank: Ranking, query: string): seq<Item> {
    var q := JsSpace.Trim(query);
    if CodeUnits(q) < MIN_QUERY_LENGTH then items else rank(q)
  }

  /** At most the capacity, the latest queries, each with its own result. */
  ghost predicate Remembers(cache: JsMap<seq<Item>>, stored: seq<string>, rank: Ranking) {
    && cache.Ok() && |cache.order| <= SEARCH_CACHE_MAX && HoldsLatest(cache, stored, SEARCH_CACHE_MAX)
    && forall q :: q in cache.at ==> cache.at[q] == rank(q)
  }

  lemma StoreStaysRemembered(cache: JsMap<seq<Item>>, stored: seq<string>, rank: Ranking, q: string)
    requires Remembers(cache, stored, rank) && q !in cache.at
    ensures Remembers(cache.Store(SEARCH_CACHE_MAX, q, rank(q)), stored + [q], rank)
  {
    hide HoldsLatest;
    cache.StoreIsBounded(SEARCH_CACHE_MAX, q, rank(q));
    StoreHoldsLatest(cache, stored, SEARCH_CACHE_MAX, q, rank(q));
  }

  class AssetSearcher {
    const items: seq<Item>
    const rank: Ranking
    var cache: JsMap<seq<Item>>
    ghost var stored: seq<string>

    ghost predicate Valid()
      reads this
    {
      Remembers(cache, stored, rank)
    }

    constructor (items: seq<Item>, rank: Ranking)
      ensures Valid() && stored == [] && this.items == items && this.rank == rank
    {
      this.items, this.rank := items, rank;
      cache, stored := JsMap([], map[]), [];
    }

    /** Every search, in any sequence of searches, is the uncached one. */
    method DoSearch(query: string) returns (r: seq<Item>)
      requires Valid()
      modifies this
      ensures Valid() && |cache.order| <= 64
      ensures r == Search(items, rank, query)
      ensures r == if CodeUnits(JsSpace.Trim(query)) >= 2 then rank(JsSpace.Trim(query)) else items
      ensures var q := JsSpace.Trim(query);
              stored == old(stored) + (if CodeUnits(q) < MIN_QUERY_LENGTH || q in old(cache).at then [] else [q])
    {
      hide Remembers;
      var q := JsSpace.Trim(query);
      if CodeUnits(q) < MIN_QUERY_LENGTH {
        Bounded(cache, stored, rank);
        return items;
      }
      if q in cache.at {
        assert cache.at[q] == rank(q) by { Recalls(cache, stored, rank, q); }
        Bounded(cache, stored, rank);
        return cache.at[q];
      }
      r := rank(q);
      StoreStaysRemembered(cache, stored, rank, q);
      if |cache.order| >= SEARCH_CACHE_MAX {
        cache := cache.DropOldest();
      }
      cache := cache.Set(q, r);
      stored := stored + [q];
      Bounded(cache, stored, rank);
    }
  }

  lemma Bounded(cache: JsMap<seq<Item>>, stored: seq<string>, rank: Ranking)
    requires Remembers(cache, stored, rank)
    ensures |cache.order| <= 64
  {
  }

  lemma Recalls(cache: JsMap<seq<Item>>, stored: seq<string>, rank: Ranking, q: string)
    requires Remembers(cache, stored, rank) && q in cache.at
    ensures cache.at[q] == rank(q)
  {
  }

  // ---- one row per id ------------------------------------------------------------------------

  function FromAsset(a: AssetRow, schemas: seq<string>): Item {
    Item(a.id, a.assetType, "", a.summary, a.provenanceStatus, a.excluded,
         if a.schema.Some? then a.schema else Derived(a.id, schemas), false)
  }

  function FromTable(t: TableRow): Item {
    Item(t.id, "table", t.physicalName, t.shape, t.provenanceStatus, t.excluded, Some(t.namespace), t.hasSuspect)
  }

  function Namespaces(tables: seq<TableRow>): (names: seq<string>)
    ensures |names| == |tables| && forall i :: 0 <= i < |tables| ==> names[i] == tables[i].namespace
  {
    seq(|tables|, i requires 0 <= i < |tables| => tables[i].namespace)
  }

  function AssetItems(assets: seq<AssetRow>, tables: seq<TableRow>, localeLe: (string, string) -> bool)
    : (items: seq<Item>)
    ensures |items| == |assets|
    ensures forall i :: 0 <= i < |assets| ==>
              items[i] == FromAsset(assets[i], SchemasByLengthDesc(Namespaces(tables), localeLe))
  {
    var schemas := SchemasByLengthDesc(Namespaces(tables), localeLe);
    seq(|assets|, i requires 0 <= i < |assets| => FromAsset(assets[i], schemas))
  }

  function TableItems(tables: seq<TableRow>): (items: seq<Item>)
    ensures |items| == |tables| && forall i :: 0 <= i < |tables| ==> items[i] == FromTable(tables[i])
  {
    seq(|tables|, i requires 0 <= i < |tables| => FromTable(tables[i]))
  }

  predicate TypeThenId(localeLe: (string, string) -> bool, a: Item, b: Item) {
    localeLe(a.assetType, b.assetType) && (localeLe(b.assetType, a.assetType) ==> localeLe(a.id, b.id))
  }

  function CatalogOrder(localeLe: (string, string) -> bool): (Item, Item) -> bool {
    (a, b) => TypeThenId(localeLe, a, b)
  }

  lemma CatalogOrderOrders(localeLe: (string, string) -> bool)
    requires Orders(localeLe)
    ensures Orders(CatalogOrder(localeLe))
  {
    var le := CatalogOrder(localeLe);
    forall a, b ensures le(a, b) || le(b, a) {
      assert localeLe(a.assetType, b.assetType) || localeLe(b.assetType, a.assetType);
      assert localeLe(a.id, b.id) || localeLe(b.id, a.id);
    }
    forall a, b, c | le(a, b) && le(b, c) ensures le(a, c) {
      if localeLe(c.assetType, a.assetType) {
        assert localeLe(b.assetType, a.assetType) && localeLe(c.assetType, b.assetType);
      }
    }
  }

  /** The last item of an id in a list. */
  ghost predicate LastOf(items: seq<Item>, x: Item) {
    exists i :: 0 <= i < |items| && items[i] == x && forall j :: i < j < |items| ==> items[j].id != x.id
  }

  function SetAll(m: JsMap<Item>, items: seq<Item>): JsMap<Item> {
    if items == [] then m else SetAll(m, items[..|items| - 1]).Set(items[|items| - 1].id, items[|items| - 1])
  }

  ghost predicate HasId(items: seq<Item>, id: string) {
    exists x :: x in items && x.id == id
  }

  lemma {:induction false} SetAllIsOk(m: JsMap<Item>, items: seq<Item>)
    requires m.Ok()
    ensures SetAll(m, items).Ok()
  {
    hide JsMap.Ok, JsMap.Set;
    if items != [] {
      SetAllIsOk(m, items[..|items| - 1]);
      SetAll(m, items[..|items| - 1]).SetIsOk(items[|items| - 1].id, items[|items| - 1]);
    }
  }

  lemma LastOfSnoc(items: seq<Item>, x: Item, y: Item)
    requires y.id != x.id
    ensures LastOf(items + [x], y) <==> LastOf(items, y)
    ensures LastOf(items + [x], x)
  {
    var all := items + [x];
    assert all[|items|] == x;
    if LastOf(items, y) {
      var i :| 0 <= i < |items| && items[i] == y && forall j :: i < j < |items| ==> items[j].id != y.id;
      assert all[i] == y;
    }
    if LastOf(all, y) {
      var i :| 0 <= i < |all| && all[i] == y && forall j :: i < j < |all| ==> all[j].id != y.id;
      assert i < |items| && items[i] == y;
      assert forall j :: i < j < |items| ==> items[j] == all[j];
    }
  }

  /** What one id maps to after all items are set. */
  lemma {:induction false} SetAllAt(m: JsMap<Item>, items: seq<Item>, id: string)
    ensures var r := SetAll(m, items);
            if HasId(items, id) then id in r.at && r.at[id].id == id && LastOf(items, r.at[id])
            else (id in r.at <==> id in m.at) && (id in m.at ==> r.at[id] == m.at[id])
  {
    hide LastOf;
    if items != [] {
      var n := |items| - 1;
      var x := items[n];
      SetAllAt(m, items[..n], id);
      assert items == items[..n] + [x];
      if x.id == id {
        LastOfSnoc(items[..n], x, x.(id := id + "_"));
        assert x in items;
      } else {
        assert HasId(items, id) <==> HasId(items[..n], id);
        if HasId(items, id) {
          LastOfSnoc(items[..n], x, SetAll(m, items[..n]).at[id]);
        }
      }
    }
  }

  function Values(m: JsMap<Item>): (vs: seq<Item>)
    requires forall k :: k in m.order ==> k in m.at
    ensures |vs| == |m.order| && forall i :: 0 <= i < |vs| ==> vs[i] == m.at[m.order[i]]
  {
    seq(|m.order|, i requires 0 <= i < |m.order| => m.at[m.order[i]])
  }

  /** A table's row where there is one, else the asset's; one row per id; by type, then id. */
  ghost predicate IsCatalog(items: seq<Item>, fromAssets: seq<Item>, fromTables: seq<Item>, le: (Item, Item) -> bool) {
    && Sorted(items, le)
    && (forall i, j :: 0 <= i < j < |items| ==> items[i].id != items[j].id)
    && (forall x :: x in items <==>
          LastOf(fromTables, x) || (LastOf(fromAssets, x) && forall t :: t in fromTables ==> t.id != x.id))
  }

  method MergeAssetCatalog(assets: seq<AssetRow>, tables: seq<TableRow>, localeLe: (string, string) -> bool)
    returns (items: seq<Item>)
    requires Orders(localeLe)
    ensures IsCatalog(items, AssetItems(assets, tables, localeLe), TableItems(tables), CatalogOrder(localeLe))
  {
    var fromAssets, fromTables := AssetItems(assets, tables, localeLe), TableItems(tables);
    var none: JsMap<Item> := JsMap([], map[]);
    var some := PutAll(none, fromAssets);
    var byId := PutAll(some, fromTables);
    SetAllIsOk(none, fromAssets);
    SetAllIsOk(some, fromTables);
    items := Sort(Values(byId), CatalogOrder(localeLe));
    CatalogOrderOrders(localeLe);
    MergedIsCatalog(fromAssets, fromTables, byId, CatalogOrder(localeLe));
  }

  /** Whose schema a row of the catalog shows: a table's own, the one its asset states, or else the one
      longest schema of the table catalog that the asset's id names; none only if it names none. */
  lemma RowsShowTheirSchema(assets: seq<AssetRow>, tables: seq<TableRow>, localeLe: (string, string) -> bool,
                            items: seq<Item>, x: Item)
    requires Orders(localeLe) && x in items
    requires IsCatalog(items, AssetItems(assets, tables, localeLe), TableItems(tables), CatalogOrder(localeLe))
    ensures || (exists t :: t in tables && x == FromTable(t))
            || (exists a :: a in assets && a.id == x.id && (forall t :: t in tables ==> t.id != x.id)
                            && if a.schema.Some? then x.namespace == a.schema
                               else IsNamespace(a.id, Namespaces(tables), x.namespace))
  {
    var fromAssets, fromTables := AssetItems(assets, tables, localeLe), TableItems(tables);
    if LastOf(fromTables, x) {
      var i :| 0 <= i < |fromTables| && fromTables[i] == x;
      assert tables[i] in tables && x == FromTable(tables[i]);
    } else {
      hide Derived, SchemasByLengthDesc, IsNamespace;
      var i :| 0 <= i < |fromAssets| && fromAssets[i] == x;
      var a := assets[i];
      DerivedIsLongest(a.id, Namespaces(tables), localeLe);
      forall t | t in tables ensures t.id != x.id {
        var k :| 0 <= k < |tables| && tables[k] == t;
        assert fromTables[k] in fromTables;
      }
      assert a in assets;
    }
  }

  method PutAll(m: JsMap<Item>, items: seq<Item>) returns (r: JsMap<Item>)
    ensures r == SetAll(m, items)
  {
    r := m;
    for i := 0 to |items|
      invariant r == SetAll(m, items[..i])
    {
      assert items[..i + 1][..i] == items[..i];
      r := r.Set(items[i].id, items[i]);
    }
    assert items[..|items|] == items;
  }

  lemma LastIsOne(items: seq<Item>, x: Item, y: Item)
    requires LastOf(items, x) && LastOf(items, y) && x.id == y.id
    ensures x == y
  {
    var i :| 0 <= i < |items| && items[i] == x && forall j :: i < j < |items| ==> items[j].id != x.id;
    var k :| 0 <= k < |items| && items[k] == y && forall j :: k < j < |items| ==> items[j].id != y.id;
  }

  lemma MergedIsCatalog(fromAssets: seq<Item>, fromTables: seq<Item>, byId: JsMap<Item>, le: (Item, Item) -> bool)
    requires Orders(le)
    requires byId == SetAll(SetAll(JsMap([], map[]), fromAssets), fromTables)
    requires byId.Ok()
    ensures IsCatalog(Sort(Values(byId), le), fromAssets, fromTables, le)
  {
    hide SetAll, LastOf, Sort, Values;
    var vs := Values(byId);
    SortSorts(vs, le);
    ValuesDiffer(fromAssets, fromTables, byId);
    SortKeepsDistinct(vs, Sort(vs, le));
    forall x ensures x in Sort(vs, le) <==>
          LastOf(fromTables, x) || (LastOf(fromAssets, x) && forall t :: t in fromTables ==> t.id != x.id)
    {
      ValueIsLast(fromAssets, fromTables, byId, x);
      SameMembers(Sort(vs, le), vs, x);
    }
  }

  lemma ByIdAt(fromAssets: seq<Item>, fromTables: seq<Item>, byId: JsMap<Item>, id: string)
    requires byId == SetAll(SetAll(JsMap([], map[]), fromAssets), fromTables)
    ensures id in byId.at <==> HasId(fromTables, id) || HasId(fromAssets, id)
    ensures HasId(fromTables, id) ==> byId.at[id].id == id && LastOf(fromTables, byId.at[id])
    ensures HasId(fromAssets, id) && !HasId(fromTables, id) ==> byId.at[id].id == id && LastOf(fromAssets, byId.at[id])
  {
    hide SetAll, LastOf, HasId;
    var none: JsMap<Item> := JsMap([], map[]);
    SetAllAt(none, fromAssets, id);
    SetAllAt(SetAll(none, fromAssets), fromTables, id);
  }

  lemma ValuesDiffer(fromAssets: seq<Item>, fromTables: seq<Item>, byId: JsMap<Item>)
    requires byId.Ok() && byId == SetAll(SetAll(JsMap([], map[]), fromAssets), fromTables)
    ensures forall i, j :: 0 <= i < j < |Values(byId)| ==> Values(byId)[i].id != Values(byId)[j].id
  {
    hide SetAll, LastOf, HasId;
    forall i | 0 <= i < |byId.order| ensures Values(byId)[i].id == byId.order[i] {
      assert byId.order[i] in byId.at;
      ByIdAt(fromAssets, fromTables, byId, byId.order[i]);
    }
  }

  lemma LastIsThere(items: seq<Item>, x: Item)
    requires LastOf(items, x)
    ensures HasId(items, x.id)
  {
  }

  lemma ValueIsLast(fromAssets: seq<Item>, fromTables: seq<Item>, byId: JsMap<Item>, x: Item)
    requires byId.Ok() && byId == SetAll(SetAll(JsMap([], map[]), fromAssets), fromTables)
    ensures x in Values(byId) <==>
            LastOf(fromTables, x) || (LastOf(fromAssets, x) && forall t :: t in fromTables ==> t.id != x.id)
  {
    hide SetAll, LastOf;
    ByIdAt(fromAssets, fromTables, byId, x.id);
    if x in Values(byId) {
      var i :| 0 <= i < |byId.order| && Values(byId)[i] == x;
      assert byId.order[i] in byId.at;
      ByIdAt(fromAssets, fromTables, byId, byId.order[i]);
    }
    if LastOf(fromTables, x) || (LastOf(fromAssets, x) && forall t :: t in fromTables ==> t.id != x.id) {
      if LastOf(fromTables, x) {
        LastIsThere(fromTables, x);
        LastIsOne(fromTables, x, byId.at[x.id]);
      } else {
        LastIsThere(fromAssets, x);
        LastIsOne(fromAssets, x, byId.at[x.id]);
      }
      var i :| 0 <= i < |byId.order| && byId.order[i] == x.id;
      assert Values(byId)[i] == x;
    }
  }

  lemma SortKeepsDistinct(vs: seq<Item>, items: seq<Item>)
    requires multiset(items) == multiset(vs)
    requires forall i, j :: 0 <= i < j < |vs| ==> vs[i].id != vs[j].id
    ensures forall i, j :: 0 <= i < j < |items| ==> items[i].id != items[j].id
  {
    forall i, j | 0 <= i < j < |items| ensures items[i].id != items[j].id {
      if items[i].id == items[j].id {
        assert items[i] in multiset(items) && items[j] in multiset(items);
        SameIdSameItem(vs, items[i], items[j]);
        assert items == items[..j] + [items[j]] + items[j + 1..];
        assert items[i] in items[..j];
        assert multiset(items)[items[i]] >= 2;
        OnlyOnce(vs, items[i]);
      }
    }
  }

  lemma SameIdSameItem(vs: seq<Item>, x: Item, y: Item)
    requires forall i, j :: 0 <= i < j < |vs| ==> vs[i].id != vs[j].id
    requires x in vs && y in vs && x.id == y.id
    ensures x == y
  {
  }

  /** The order of the catalog: no row stands behind one of a later type, nor behind one of no other type with
      a later id; and no two rows share an id. */
  lemma CatalogIsOrdered(items: seq<Item>, fromAssets: seq<Item>, fromTables: seq<Item>,
                         localeLe: (string, string) -> bool, i: nat, j: nat)
    requires IsCatalog(items, fromAssets, fromTables, CatalogOrder(localeLe)) && i < j < |items|
    ensures localeLe(items[i].assetType, items[j].assetType)
    ensures localeLe(items[j].assetType, items[i].assetType) ==> localeLe(items[i].id, items[j].id)
    ensures items[i].id != items[j].id
  {
    assert CatalogOrder(localeLe)(items[i], items[j]);
  }

  /** What the rows of a table and of an asset show. */
  lemma RowsShow(t: TableRow, a: AssetRow, schemas: seq<string>)
    ensures var x := FromTable(t);
            && x.id == t.id && x.assetType == "table" && x.name == t.physicalName && x.summary == t.shape
            && x.namespace == Some(t.namespace) && x.hasSuspect == t.hasSuspect && x.excluded == t.excluded
            && x.provenanceStatus == t.provenanceStatus
    ensures var x := FromAsset(a, schemas);
            && x.id == a.id && x.assetType == a.assetType && x.name == "" && x.summary == a.summary
            && (a.schema.Some? ==> x.namespace == a.schema) && !x.hasSuspect && x.excluded == a.excluded
            && x.provenanceStatus == a.provenanceStatus
  {
  }
}
