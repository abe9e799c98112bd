/**
 * How the product page keeps an order's rows in `order_items` in step with the
 * buyer's quantities (`syncOrderItems`), how it reads them back (`fetchOrderItems`),
 * and the submit workflow that ends on the payment page.
 */
module OrderItemSync {
  import opened Wrappers
  import Seqs
  import AssocList
  import Store
  import CampaignPage

  type Line = (string, int)

  // ---------------------------------------------------------------------------
  // The rows written for one order
  // ---------------------------------------------------------------------------

  function LineOf(q: CampaignPage.Quantities, p: CampaignPage.Product): Line {
    (p.name, CampaignPage.QuantityOf(q, p.id))
  }

  /** The `selected` rows: one `(product name, quantity)` per catalog product with a positive quantity. */
  function SelectedLines(catalog: seq<CampaignPage.Product>, q: CampaignPage.Quantities): (r: seq<Line>)
    ensures |r| == |CampaignPage.Selected(catalog, q)|
    ensures forall i :: 0 <= i < |r| ==> r[i] == LineOf(q, CampaignPage.Selected(catalog, q)[i])
    ensures forall i :: 0 <= i < |r| ==> r[i].1 > 0
  {
    LinesOf(CampaignPage.Selected(catalog, q), q)
  }

  function LinesOf(ps: seq<CampaignPage.Product>, q: CampaignPage.Quantities): (r: seq<Line>)
    ensures |r| == |ps| && forall i :: 0 <= i < |r| ==> r[i] == LineOf(q, ps[i])
  {
    seq(|ps|, i requires 0 <= i < |ps| => LineOf(q, ps[i]))
  }

  lemma LinesOfConcat(a: seq<CampaignPage.Product>, b: seq<CampaignPage.Product>, q: CampaignPage.Quantities)
    ensures LinesOf(a + b, q) == LinesOf(a, q) + LinesOf(b, q)
  {
    var r := LinesOf(a + b, q);
    forall k | 0 <= k < |r| ensures r[k] == (LinesOf(a, q) + LinesOf(b, q))[k] {
      if k >= |a| {
        assert (a + b)[k] == b[k - |a|];
      }
    }
  }

  lemma SelectedLinesCons(catalog: seq<CampaignPage.Product>, q: CampaignPage.Quantities)
    requires catalog != []
    ensures SelectedLines(catalog, q) ==
      (if CampaignPage.QuantityOf(q, catalog[0].id) > 0 then [LineOf(q, catalog[0])] else [])
        + SelectedLines(catalog[1..], q)
  {
    var head := if CampaignPage.QuantityOf(q, catalog[0].id) > 0 then [catalog[0]] else [];
    SelectedCons(catalog, q);
    LinesOfConcat(head, CampaignPage.Selected(catalog[1..], q), q);
  }

  lemma SelectedCons(catalog: seq<CampaignPage.Product>, q: CampaignPage.Quantities)
    requires catalog != []
    ensures CampaignPage.Selected(catalog, q) ==
      (if CampaignPage.QuantityOf(q, catalog[0].id) > 0 then [catalog[0]] else []) + CampaignPage.Selected(catalog[1..], q)
  {
    Seqs.FilterCons(catalog, CampaignPage.IsSelected(q));
  }

  /** The rows of one order, in table order. */
  function ItemsOf(items: seq<Store.OrderItem>, orderId: Store.Id): seq<Store.OrderItem> {
    Seqs.Filter(items, Store.OfOrder(orderId))
  }

  /** `select('product,quantity')`. */
  function RowsOf(items: seq<Store.OrderItem>): (r: seq<Line>)
    ensures |r| == |items|
  {
    seq(|items|, i requires 0 <= i < |items| => (items[i].product, items[i].quantity))
  }

  /** The table after a successful delete-then-insert for `orderId`. */
  function ReplaceOrderItems(items: seq<Store.OrderItem>, orderId: Store.Id, lines: seq<Line>, first: Store.Id)
    : seq<Store.OrderItem>
  {
    Seqs.Filter(items, Store.NotOfOrder(orderId)) + Store.FreshItems(orderId, lines, first)
  }

  /** After the replacement the order's rows are exactly the lines written, in order. */
  lemma ReplaceWritesLines(items: seq<Store.OrderItem>, orderId: Store.Id, lines: seq<Line>, first: Store.Id)
    ensures RowsOf(ItemsOf(ReplaceOrderItems(items, orderId, lines, first), orderId)) == lines
  {
    var kept := Seqs.Filter(items, Store.NotOfOrder(orderId));
    var added := Store.FreshItems(orderId, lines, first);
    Seqs.FilterConcat(kept, added, Store.OfOrder(orderId));
    Seqs.FilterNone(kept, Store.OfOrder(orderId));
    Seqs.FilterAll(added, Store.OfOrder(orderId));
    assert ItemsOf(ReplaceOrderItems(items, orderId, lines, first), orderId) == added;
  }

  /** The replacement leaves the rows of every other order exactly as they were. */
  lemma ReplaceKeepsOtherOrders(items: seq<Store.OrderItem>, orderId: Store.Id, lines: seq<Line>, first: Store.Id,
                                other: Store.Id)
    requires other != orderId
    ensures ItemsOf(ReplaceOrderItems(items, orderId, lines, first), other) == ItemsOf(items, other)
  {
    var kept := Seqs.Filter(items, Store.NotOfOrder(orderId));
    var added := Store.FreshItems(orderId, lines, first);
    Seqs.FilterConcat(kept, added, Store.OfOrder(other));
    Seqs.FilterNone(added, Store.OfOrder(other));
    Seqs.FilterFilter(items, Store.NotOfOrder(orderId), Store.OfOrder(other));
    assert Seqs.Filter(kept, Store.OfOrder(other)) + [] == Seqs.Filter(kept, Store.OfOrder(other));
  }

  /** After a delete whose insert then fails, the order has no rows and every other order keeps its own. */
  lemma DeleteEmptiesOrder(items: seq<Store.OrderItem>, orderId: Store.Id)
    ensures ItemsOf(Seqs.Filter(items, Store.NotOfOrder(orderId)), orderId) == []
    ensures forall other :: other != orderId ==>
      ItemsOf(Seqs.Filter(items, Store.NotOfOrder(orderId)), other) == ItemsOf(items, other)
  {
    var kept := Seqs.Filter(items, Store.NotOfOrder(orderId));
    Seqs.FilterNone(kept, Store.OfOrder(orderId));
    forall other | other != orderId ensures ItemsOf(kept, other) == ItemsOf(items, other) {
      Seqs.FilterFilter(items, Store.NotOfOrder(orderId), Store.OfOrder(other));
    }
  }

  /** Syncing the same quantities a second time leaves the order with the same rows. */
  lemma ReplaceIdempotent(items: seq<Store.OrderItem>, orderId: Store.Id, lines: seq<Line>,
                          first: Store.Id, second: Store.Id)
    ensures var once := ReplaceOrderItems(items, orderId, lines, first);
      var twice := ReplaceOrderItems(once, orderId, lines, second);
      && RowsOf(ItemsOf(twice, orderId)) == RowsOf(ItemsOf(once, orderId)) == lines
      && forall other :: other != orderId ==> ItemsOf(twice, other) == ItemsOf(once, other)
  {
    var once := ReplaceOrderItems(items, orderId, lines, first);
    ReplaceWritesLines(items, orderId, lines, first);
    ReplaceWritesLines(once, orderId, lines, second);
    forall other | other != orderId
      ensures ItemsOf(ReplaceOrderItems(once, orderId, lines, second), other) == ItemsOf(once, other)
    {
      ReplaceKeepsOtherOrders(once, orderId, lines, second, other);
    }
  }

  datatype SyncError = DeleteError | InsertError

  /**
   * `syncOrderItems(quantities, orderId)`: no order, nothing happens; otherwise the
   * order's rows are deleted and, when something is selected, the new rows inserted.
   * A failed delete returns before the insert; a failed insert leaves the order
   * without rows.
   */
  method SyncOrderItems(db: Store.Db, orderId: Option<Store.Id>, catalog: seq<CampaignPage.Product>,
                        q: CampaignPage.Quantities, deleteFails: bool, insertFails: bool)
    returns (err: Option<SyncError>)
    requires db.Valid()
    modifies db
    ensures db.Valid()
    ensures db.campaigns == old(db.campaigns) && db.packages == old(db.packages) && db.orders == old(db.orders)
    ensures orderId.None? ==> err.None? && unchanged(db)
    ensures orderId.Some? && deleteFails ==> err == Some(DeleteError) && unchanged(db)
    ensures orderId.Some? && !deleteFails ==> (
      var lines := SelectedLines(catalog, q);
      && (lines == [] || !insertFails ==> err.None?)
      && (lines != [] && insertFails ==> err == Some(InsertError))
      && (lines == [] || insertFails ==>
            db.items == Seqs.Filter(old(db.items), Store.NotOfOrder(orderId.value)) && db.nextId == old(db.nextId))
      && (lines != [] && !insertFails ==>
            db.items == ReplaceOrderItems(old(db.items), orderId.value, lines, old(db.nextId))
            && db.nextId == old(db.nextId) + |lines|))
  {
    if orderId.None? {
      return None;
    }
    var lines := SelectedLines(catalog, q);
    var deleted := db.DeleteOrderItems(orderId.value, deleteFails);
    if !deleted {
      return Some(DeleteError);
    }
    if lines == [] {
      return None;
    }
    var inserted := db.InsertOrderItems(orderId.value, lines, insertFails);
    err := if inserted then None else Some(InsertError);
  }

  // ---------------------------------------------------------------------------
  // Reading the rows back
  // ---------------------------------------------------------------------------

  /** No product before position `i` is called `name`. */
  predicate NoneNamedBefore(catalog: seq<CampaignPage.Product>, name: string, i: int) {
    forall j :: 0 <= j < i && j < |catalog| ==> catalog[j].name != name
  }

  /** `campaignProducts.find(p => p.name === name)`: the first product with that name. */
  function FindByName(catalog: seq<CampaignPage.Product>, name: string): (r: Option<CampaignPage.Product>)
    ensures r.Some? ==> r.value in catalog && r.value.name == name
    ensures r.None? ==> forall i :: 0 <= i < |catalog| ==> catalog[i].name != name
    ensures r.Some? ==> exists i :: 0 <= i < |catalog| && catalog[i] == r.value && NoneNamedBefore(catalog, name, i)
    ensures r.Some? && catalog != [] && catalog[0].name == name ==> r.value == catalog[0]
  {
    if catalog == [] then None
    else if catalog[0].name == name then
      assert NoneNamedBefore(catalog, name, 0);
      Some(catalog[0])
    else
      var r := FindByName(catalog[1..], name);
      if r.Some? then
        var i :| 0 <= i < |catalog[1..]| && catalog[1..][i] == r.value && NoneNamedBefore(catalog[1..], name, i);
        assert catalog[i + 1] == r.value && NoneNamedBefore(catalog, name, i + 1);
        r
      else r
  }

  /** One step of the reload loop: a row of an unknown product is skipped. */
  function LoadRow(acc: CampaignPage.Quantities, catalog: seq<CampaignPage.Product>, row: Line)
    : CampaignPage.Quantities
  {
    var p := FindByName(catalog, row.0);
    if p.None? then acc else AssocList.Put(acc, p.value.id, row.1)
  }

  /** The reload loop run over `rows` from the quantities `acc`. */
  function LoadFrom(acc: CampaignPage.Quantities, catalog: seq<CampaignPage.Product>, rows: seq<Line>)
    : CampaignPage.Quantities
    decreases |rows|
  {
    if rows == [] then acc else LoadFrom(LoadRow(acc, catalog, rows[0]), catalog, rows[1..])
  }

  /** `nextQuantities` built by the reload loop. */
  function Load(catalog: seq<CampaignPage.Product>, rows: seq<Line>): CampaignPage.Quantities {
    LoadFrom([], catalog, rows)
  }

  /** The reload loop of `fetchOrderItems`. */
  method ReloadQuantities(catalog: seq<CampaignPage.Product>, rows: seq<Line>)
    returns (next: CampaignPage.Quantities)
    ensures next == Load(catalog, rows)
  {
    next := [];
    var i := 0;
    while i < |rows|
      invariant 0 <= i <= |rows|
      invariant LoadFrom(next, catalog, rows[i..]) == Load(catalog, rows)
    {
      assert rows[i..][1..] == rows[i + 1..];
      var product := FindByName(catalog, rows[i].0);
      if product.Some? {
        next := AssocList.Put(next, product.value.id, rows[i].1);
      }
      i := i + 1;
    }
    assert rows[i..] == [];
  }

  /** Loading keeps one entry per product id, as the object it models does. */
  lemma {:induction false} LoadFromDistinct(acc: CampaignPage.Quantities, catalog: seq<CampaignPage.Product>,
                                            rows: seq<Line>)
    requires AssocList.DistinctKeys(acc)
    ensures AssocList.DistinctKeys(LoadFrom(acc, catalog, rows))
    decreases |rows|
  {
    if rows != [] {
      var p := FindByName(catalog, rows[0].0);
      if p.Some? { AssocList.PutDistinct(acc, p.value.id, rows[0].1); }
      LoadFromDistinct(LoadRow(acc, catalog, rows[0]), catalog, rows[1..]);
    }
  }

  predicate DistinctNames(catalog: seq<CampaignPage.Product>) {
    forall i, j :: 0 <= i < j < |catalog| ==> catalog[i].name != catalog[j].name
  }

  predicate InCatalog(catalog: seq<CampaignPage.Product>, id: CampaignPage.ProductId) {
    exists i :: 0 <= i < |catalog| && catalog[i].id == id
  }

  /** A product is in a non-empty list when it is the first one or in the rest. */
  lemma InCatalogCons(catalog: seq<CampaignPage.Product>, id: CampaignPage.ProductId)
    requires catalog != []
    ensures InCatalog(catalog, id) <==> catalog[0].id == id || InCatalog(catalog[1..], id)
  {
    if InCatalog(catalog[1..], id) {
      var i :| 0 <= i < |catalog[1..]| && catalog[1..][i].id == id;
      assert catalog[i + 1].id == id;
    }
    if InCatalog(catalog, id) && catalog[0].id != id {
      var i :| 0 <= i < |catalog| && catalog[i].id == id;
      assert catalog[1..][i - 1].id == id;
    }
  }

  lemma FindsItself(catalog: seq<CampaignPage.Product>, k: nat)
    requires DistinctNames(catalog) && k < |catalog|
    ensures FindByName(catalog, catalog[k].name) == Some(catalog[k])
  {
    var r := FindByName(catalog, catalog[k].name);
    var j :| 0 <= j < |catalog| && catalog[j] == r.value;
  }

  lemma {:induction false} LoadSelectedFrom(catalog: seq<CampaignPage.Product>, sub: seq<CampaignPage.Product>,
                                            q: CampaignPage.Quantities, acc: CampaignPage.Quantities,
                                            id: CampaignPage.ProductId)
    requires DistinctNames(catalog)
    requires forall i :: 0 <= i < |sub| ==> sub[i] in catalog
    ensures AssocList.Lookup(LoadFrom(acc, catalog, SelectedLines(sub, q)), id) ==
      if InCatalog(sub, id) && CampaignPage.QuantityOf(q, id) > 0 then Some(CampaignPage.QuantityOf(q, id))
      else AssocList.Lookup(acc, id)
  {
    if sub != [] {
      var c := sub[0];
      var k :| 0 <= k < |catalog| && catalog[k] == c;
      FindsItself(catalog, k);
      SelectedLinesCons(sub, q);
      var tail := sub[1..];
      assert forall i :: 0 <= i < |tail| ==> tail[i] == sub[i + 1];
      var qc := CampaignPage.QuantityOf(q, c.id);
      if qc > 0 {
        var acc' := AssocList.Put(acc, c.id, qc);
        assert [LineOf(q, c)] + SelectedLines(tail, q) == SelectedLines(sub, q);
        assert LoadFrom(acc, catalog, SelectedLines(sub, q)) == LoadFrom(acc', catalog, SelectedLines(tail, q));
        LoadSelectedFrom(catalog, tail, q, acc', id);
        AssocList.LookupPut(acc, c.id, qc, id);
      } else {
        assert SelectedLines(sub, q) == SelectedLines(tail, q);
        LoadSelectedFrom(catalog, tail, q, acc, id);
      }
      InCatalogCons(sub, id);
    }
  }

  /**
   * Round trip: with distinct product names, reading back the rows a sync wrote gives
   * each catalog product with a positive quantity that quantity, and nothing else.
   */
  lemma LoadAfterSync(catalog: seq<CampaignPage.Product>, q: CampaignPage.Quantities)
    requires DistinctNames(catalog)
    ensures forall id :: (AssocList.Lookup(Load(catalog, SelectedLines(catalog, q)), id) ==
      if InCatalog(catalog, id) && CampaignPage.QuantityOf(q, id) > 0 then Some(CampaignPage.QuantityOf(q, id))
      else None)
  {
    forall id
      ensures AssocList.Lookup(Load(catalog, SelectedLines(catalog, q)), id) ==
        if InCatalog(catalog, id) && CampaignPage.QuantityOf(q, id) > 0 then Some(CampaignPage.QuantityOf(q, id))
        else None
    {
      LoadSelectedFrom(catalog, catalog, q, [], id);
    }
  }

  /** The full round trip through the table: sync, then read the order's rows back. */
  lemma ReloadAfterReplace(items: seq<Store.OrderItem>, orderId: Store.Id, catalog: seq<CampaignPage.Product>,
                           q: CampaignPage.Quantities, first: Store.Id)
    requires DistinctNames(catalog)
    ensures var rows := RowsOf(ItemsOf(ReplaceOrderItems(items, orderId, SelectedLines(catalog, q), first), orderId));
      forall id :: (AssocList.Lookup(Load(catalog, rows), id) ==
        if InCatalog(catalog, id) && CampaignPage.QuantityOf(q, id) > 0 then Some(CampaignPage.QuantityOf(q, id))
        else None)
  {
    ReplaceWritesLines(items, orderId, SelectedLines(catalog, q), first);
    LoadAfterSync(catalog, q);
  }

  // ---------------------------------------------------------------------------
  // `handleSubmit`
  // ---------------------------------------------------------------------------

  datatype SubmitOutcome =
    | Rejected(reason: CampaignPage.SubmitRejection)
    | OrderNotCreated
    | ItemsNotSaved(orderId: Store.Id, error: SyncError)
    | ToPayment(orderId: Store.Id, summary: CampaignPage.CarriedSummary)

  /**
   * `handleSubmit`: the guards; a draft order when the page has none yet; the sync
   * of the order's rows; then the payment page with the carried summary.
   */
  method Submit(db: Store.Db, orderId: Option<Store.Id>, campaignId: Option<Store.Id>,
                userName: string, userPhone: string, catalog: seq<CampaignPage.Product>,
                tiers: seq<CampaignPage.Tier>, q: CampaignPage.Quantities,
                createFails: bool, deleteFails: bool, insertFails: bool)
    returns (outcome: SubmitOutcome)
    requires db.Valid()
    modifies db
    ensures db.Valid()
    ensures db.campaigns == old(db.campaigns) && db.packages == old(db.packages)
    ensures CampaignPage.SubmitCheck(userName, userPhone, campaignId, catalog, q).Some? ==>
      outcome == Rejected(CampaignPage.SubmitCheck(userName, userPhone, campaignId, catalog, q).value)
      && unchanged(db)
    ensures CampaignPage.SubmitCheck(userName, userPhone, campaignId, catalog, q).None? && orderId.None? ==> (
      && (createFails ==> outcome == OrderNotCreated && unchanged(db))
      && (!createFails ==>
            db.orders == old(db.orders) +
              [Store.Order(old(db.nextId), campaignId.value, userName, userPhone, Some("draft"), None)]))
    ensures CampaignPage.SubmitCheck(userName, userPhone, campaignId, catalog, q).None? && orderId.Some? ==>
      db.orders == old(db.orders)
    ensures CampaignPage.SubmitCheck(userName, userPhone, campaignId, catalog, q).None? && (orderId.Some? || !createFails) ==>
      var id := orderId.GetOr(old(db.nextId));
      && (deleteFails ==> outcome == ItemsNotSaved(id, DeleteError))
      && (!deleteFails && insertFails ==> outcome == ItemsNotSaved(id, InsertError))
      && (!deleteFails && !insertFails ==> outcome.ToPayment?)
    ensures outcome.ItemsNotSaved? ==> (
      && outcome.orderId == orderId.GetOr(old(db.nextId))
      && (outcome.error == DeleteError ==> db.items == old(db.items))
      && (outcome.error == InsertError ==> db.items == Seqs.Filter(old(db.items), Store.NotOfOrder(outcome.orderId))))
    ensures outcome.ToPayment? ==> (
      && outcome.orderId == orderId.GetOr(old(db.nextId))
      && outcome.summary == CampaignPage.Carried(catalog, q, tiers)
      && RowsOf(ItemsOf(db.items, outcome.orderId)) == SelectedLines(catalog, q)
      && forall other :: other != outcome.orderId ==> ItemsOf(db.items, other) == ItemsOf(old(db.items), other))
  {
    var rejection := CampaignPage.SubmitCheck(userName, userPhone, campaignId, catalog, q);
    if rejection.Some? {
      return Rejected(rejection.value);
    }
    var finalId: Store.Id;
    if orderId.None? {
      var created := db.InsertOrder(campaignId.value, userName, userPhone, Some("draft"), createFails);
      if created.None? {
        return OrderNotCreated;
      }
      finalId := created.value;
    } else {
      finalId := orderId.value;
    }
    ghost var before := db.items;
    ghost var first := db.nextId;
    var lines := SelectedLines(catalog, q);
    var err := SyncOrderItems(db, Some(finalId), catalog, q, deleteFails, insertFails);
    if err.Some? {
      return ItemsNotSaved(finalId, err.value);
    }
    ReplaceWritesLines(before, finalId, lines, first);
    forall other | other != finalId ensures ItemsOf(db.items, other) == ItemsOf(before, other) {
      ReplaceKeepsOtherOrders(before, finalId, lines, first, other);
    }
    outcome := ToPayment(finalId, CampaignPage.Carried(catalog, q, tiers));
  }
}
