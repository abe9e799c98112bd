/**
 * One campaign in the admin list (`src/Components/Campane/Campane.jsx`): ending it,
 * deleting it after confirmation, and exporting its orders as one spreadsheet row per
 * ordered item.
 */
module Campane {
  import opened Wrappers
  import Seqs
  import Store
  import OrderItemSync

  // ---------------------------------------------------------------------------
  // Reading the orders of a campaign
  // ---------------------------------------------------------------------------

  /** An order as the admin pages read it: `user_name`, `phone` and its rows' `(product, quantity)`; a null text is `""`. */
  datatype OrderWithItems = OrderWithItems(userName: string, phone: string, items: seq<OrderItemSync.Line>)

  /** The order as read, with `(product, quantity)` of its own rows. */
  function View(items: seq<Store.OrderItem>, o: Store.Order): OrderWithItems {
    OrderWithItems(o.userName, o.phone, OrderItemSync.RowsOf(OrderItemSync.ItemsOf(items, o.id)))
  }

  /**
   * `from('orders').select('…, order_items(product, quantity)').eq('campaign_id', id)`:
   * the campaign's orders in store order, each with its own rows.
   */
  function CampaignOrders(orders: seq<Store.Order>, items: seq<Store.OrderItem>, campaignId: Store.Id)
    : (r: seq<OrderWithItems>)
    ensures |r| <= |orders|
  {
    if orders == [] then []
    else
      var rest := CampaignOrders(orders[1..], items, campaignId);
      assert forall o :: o in orders[1..] ==> o in orders;
      (if orders[0].campaignId == campaignId then [View(items, orders[0])] else []) + rest
  }

  /** Every order read belongs to the campaign and carries exactly its own rows. */
  lemma {:induction false} CampaignOrdersSound(orders: seq<Store.Order>, items: seq<Store.OrderItem>, campaignId: Store.Id)
    ensures forall x :: x in CampaignOrders(orders, items, campaignId) ==>
      exists o :: o in orders && o.campaignId == campaignId && x == View(items, o)
  {
    if orders != [] {
      CampaignOrdersSound(orders[1..], items, campaignId);
      var rest := CampaignOrders(orders[1..], items, campaignId);
      forall x | x in CampaignOrders(orders, items, campaignId)
        ensures exists o :: o in orders && o.campaignId == campaignId && x == View(items, o)
      {
        if x in rest {
          var o :| o in orders[1..] && o.campaignId == campaignId && x == View(items, o);
          assert o in orders;
        } else {
          assert orders[0] in orders;
        }
      }
    }
  }

  /** Every order of the campaign is read, with its own rows. */
  lemma {:induction false} CampaignOrdersComplete(orders: seq<Store.Order>, items: seq<Store.OrderItem>, campaignId: Store.Id)
    ensures forall o :: o in orders && o.campaignId == campaignId ==> View(items, o) in CampaignOrders(orders, items, campaignId)
  {
    if orders != [] {
      CampaignOrdersComplete(orders[1..], items, campaignId);
      forall o | o in orders && o.campaignId == campaignId
        ensures View(items, o) in CampaignOrders(orders, items, campaignId)
      {
        if o != orders[0] {
          assert o in orders[1..];
        }
      }
    }
  }

  /** The orders are read in store order: reading two stretches of the table is reading one after the other. */
  lemma {:induction false} CampaignOrdersConcat(a: seq<Store.Order>, b: seq<Store.Order>, items: seq<Store.OrderItem>,
                                                campaignId: Store.Id)
    ensures CampaignOrders(a + b, items, campaignId) == CampaignOrders(a, items, campaignId) + CampaignOrders(b, items, campaignId)
  {
    if a == [] {
      assert a + b == b;
    } else {
      var ab := a + b;
      assert ab[0] == a[0];
      assert ab[1..] == a[1..] + b;
      CampaignOrdersCons(ab, items, campaignId);
      CampaignOrdersCons(a, items, campaignId);
      CampaignOrdersConcat(a[1..], b, items, campaignId);
    }
  }

  /** One step of the read: the first order, when it belongs to the campaign, then the rest. */
  lemma CampaignOrdersCons(orders: seq<Store.Order>, items: seq<Store.OrderItem>, campaignId: Store.Id)
    requires orders != []
    ensures CampaignOrders(orders, items, campaignId) ==
      (if orders[0].campaignId == campaignId then [View(items, orders[0])] else []) + CampaignOrders(orders[1..], items, campaignId)
  {
  }

  /** One order is read, with its rows, exactly when it belongs to the campaign. */
  lemma CampaignOrdersSingle(o: Store.Order, items: seq<Store.OrderItem>, campaignId: Store.Id)
    ensures CampaignOrders([o], items, campaignId) ==
      if o.campaignId == campaignId then [View(items, o)] else []
  {
    assert [o][1..] == [];
  }

  // ---------------------------------------------------------------------------
  // The export rows of `handleDownload`
  // ---------------------------------------------------------------------------

  datatype ExportRow = ExportRow(campaignName: string, userName: string, phone: string, product: string,
                                 quantity: int)

  /** `Number(item.quantity || 0) <= 0` skips the row. */
  predicate Positive(it: OrderItemSync.Line) {
    it.1 > 0
  }

  function RowOf(campaignName: string, o: OrderWithItems, it: OrderItemSync.Line): ExportRow {
    ExportRow(campaignName, o.userName, o.phone, it.0, it.1)
  }

  /** The rows one order contributes: its positive items, in order. */
  function OrderRows(campaignName: string, o: OrderWithItems): (r: seq<ExportRow>)
    ensures var kept := Seqs.Filter(o.items, Positive);
      |r| == |kept| && forall j :: 0 <= j < |r| ==> r[j] == RowOf(campaignName, o, kept[j])
  {
    var kept := Seqs.Filter(o.items, Positive);
    seq(|kept|, j requires 0 <= j < |kept| => RowOf(campaignName, o, kept[j]))
  }

  /** All rows, order by order and item by item. */
  function ExportRows(campaignName: string, orders: seq<OrderWithItems>): (r: seq<ExportRow>)
    ensures forall i :: 0 <= i < |r| ==> r[i].campaignName == campaignName && r[i].quantity > 0
    decreases |orders|
  {
    if orders == [] then []
    else ExportRows(campaignName, orders[..|orders| - 1]) + OrderRows(campaignName, orders[|orders| - 1])
  }

  /**
   * Every row has a positive quantity and the campaign's name, and comes from an item
   * of one of the orders with that order's name and phone; every positive item of every
   * order has its row.
   */
  lemma ExportRowsCharacterised(campaignName: string, orders: seq<OrderWithItems>)
    ensures var rows := ExportRows(campaignName, orders);
      forall r :: r in rows ==> (
        && r.quantity > 0 && r.campaignName == campaignName
        && exists i :: 0 <= i < |orders| && r.userName == orders[i].userName && r.phone == orders[i].phone
                       && (r.product, r.quantity) in orders[i].items)
    ensures forall i, it :: 0 <= i < |orders| && it in orders[i].items && Positive(it) ==>
      RowOf(campaignName, orders[i], it) in ExportRows(campaignName, orders)
  {
    ExportRowsSound(campaignName, orders);
    ExportRowsComplete(campaignName, orders);
  }

  /** The rows of one order carry its name and phone and come from its positive items. */
  lemma OrderRowsSound(campaignName: string, o: OrderWithItems)
    ensures forall r :: r in OrderRows(campaignName, o) ==>
      && r.quantity > 0 && r.campaignName == campaignName && r.userName == o.userName && r.phone == o.phone
      && (r.product, r.quantity) in o.items
  {
    var own := OrderRows(campaignName, o);
    var kept := Seqs.Filter(o.items, Positive);
    forall r | r in own ensures r.quantity > 0 && (r.product, r.quantity) in o.items {
      var j :| 0 <= j < |own| && own[j] == r;
      assert kept[j] in o.items;
    }
  }

  /** Every positive item of an order has its row. */
  lemma OrderRowsComplete(campaignName: string, o: OrderWithItems)
    ensures forall it :: it in o.items && Positive(it) ==> RowOf(campaignName, o, it) in OrderRows(campaignName, o)
  {
    var own := OrderRows(campaignName, o);
    var kept := Seqs.Filter(o.items, Positive);
    forall it | it in o.items && Positive(it) ensures RowOf(campaignName, o, it) in own {
      var k :| 0 <= k < |o.items| && o.items[k] == it;
      assert it in kept;
      var j :| 0 <= j < |kept| && kept[j] == it;
      assert own[j] == RowOf(campaignName, o, it);
    }
  }

  lemma {:induction false} ExportRowsSound(campaignName: string, orders: seq<OrderWithItems>)
    ensures var rows := ExportRows(campaignName, orders);
      forall r :: r in rows ==> (
        && r.quantity > 0 && r.campaignName == campaignName
        && exists i :: 0 <= i < |orders| && r.userName == orders[i].userName && r.phone == orders[i].phone
                       && (r.product, r.quantity) in orders[i].items)
    decreases |orders|
  {
    if orders != [] {
      var init := orders[..|orders| - 1];
      var last := orders[|orders| - 1];
      ExportRowsSound(campaignName, init);
      OrderRowsSound(campaignName, last);
      var rows := ExportRows(campaignName, orders);
      var own := OrderRows(campaignName, last);
      assert rows == ExportRows(campaignName, init) + own;
      forall r | r in rows ensures (
        && r.quantity > 0 && r.campaignName == campaignName
        && exists i :: 0 <= i < |orders| && r.userName == orders[i].userName && r.phone == orders[i].phone
                       && (r.product, r.quantity) in orders[i].items)
      {
        if r in own {
          assert r.userName == orders[|orders| - 1].userName;
        } else {
          assert r in ExportRows(campaignName, init);
          var i :| 0 <= i < |init| && r.userName == init[i].userName && r.phone == init[i].phone
                   && (r.product, r.quantity) in init[i].items;
          assert orders[i] == init[i];
        }
      }
    }
  }

  lemma {:induction false} ExportRowsComplete(campaignName: string, orders: seq<OrderWithItems>)
    ensures forall i, it :: 0 <= i < |orders| && it in orders[i].items && Positive(it) ==>
      RowOf(campaignName, orders[i], it) in ExportRows(campaignName, orders)
    decreases |orders|
  {
    if orders != [] {
      var init := orders[..|orders| - 1];
      var last := orders[|orders| - 1];
      ExportRowsComplete(campaignName, init);
      OrderRowsComplete(campaignName, last);
      var rows := ExportRows(campaignName, orders);
      assert rows == ExportRows(campaignName, init) + OrderRows(campaignName, last);
      forall i, it | 0 <= i < |orders| && it in orders[i].items && Positive(it)
        ensures RowOf(campaignName, orders[i], it) in rows
      {
        if i < |orders| - 1 {
          assert orders[i] == init[i];
        }
      }
    }
  }

  /** An order with only its first `j` items. */
  function Prefix(o: OrderWithItems, j: nat): OrderWithItems
    requires j <= |o.items|
  {
    o.(items := o.items[..j])
  }

  /** One more item adds its row exactly when its quantity is positive. */
  lemma OrderRowsSnoc(campaignName: string, o: OrderWithItems, j: nat)
    requires j < |o.items|
    ensures OrderRows(campaignName, Prefix(o, j + 1)) ==
      OrderRows(campaignName, Prefix(o, j)) + (if Positive(o.items[j]) then [RowOf(campaignName, o, o.items[j])] else [])
  {
    var item := o.items[j];
    var extra := if Positive(item) then [item] else [];
    var ka := Seqs.Filter(o.items[..j], Positive);
    var kb := Seqs.Filter(o.items[..j + 1], Positive);
    assert kb == ka + extra by {
      assert o.items[..j + 1] == o.items[..j] + [item];
      Seqs.FilterConcat(o.items[..j], [item], Positive);
      assert Seqs.Filter([item], Positive) == extra;
    }
    var a := OrderRows(campaignName, Prefix(o, j));
    var b := OrderRows(campaignName, Prefix(o, j + 1));
    var rowsExtra := if Positive(item) then [RowOf(campaignName, o, item)] else [];
    assert |b| == |a| + |rowsExtra|;
    forall k | 0 <= k < |b| ensures b[k] == (a + rowsExtra)[k] {
      if k < |a| {
        assert kb[k] == ka[k];
      }
    }
  }

  /** The nested `forEach` of `handleDownload`, pushing one row per positive item. */
  method BuildExportRows(campaignName: string, orders: seq<OrderWithItems>) returns (rows: seq<ExportRow>)
    ensures rows == ExportRows(campaignName, orders)
  {
    rows := [];
    var i := 0;
    while i < |orders|
      invariant 0 <= i <= |orders|
      invariant rows == ExportRows(campaignName, orders[..i])
    {
      var own := CollectOrderRows(campaignName, orders[i]);
      rows := rows + own;
      assert orders[..i + 1][..i] == orders[..i];
      i := i + 1;
    }
    assert orders[..i] == orders;
  }

  /** The inner `forEach` over one order's items: the rows it pushes, one for each positive item. */
  method CollectOrderRows(campaignName: string, order: OrderWithItems) returns (own: seq<ExportRow>)
    ensures own == OrderRows(campaignName, order)
  {
    own := [];
    var j := 0;
    while j < |order.items|
      invariant 0 <= j <= |order.items|
      invariant own == OrderRows(campaignName, Prefix(order, j))
    {
      var item := order.items[j];
      OrderRowsSnoc(campaignName, order, j);
      if Positive(item) {
        own := own + [RowOf(campaignName, order, item)];
      }
      j := j + 1;
    }
    assert Prefix(order, j) == order;
  }

  datatype DownloadOutcome =
    | Busy
    | ReadFailed
    | NoOrders
    | NothingToExport
    | Written(fileName: string, rows: seq<ExportRow>)

  /** `${campaign.name}_Orders.xlsx`. */
  function ExportFileName(campaignName: string): (r: string)
    ensures |r| == |campaignName| + |"_Orders.xlsx"|
    ensures r[..|campaignName|] == campaignName && r[|campaignName|..] == "_Orders.xlsx"
  {
    campaignName + "_Orders.xlsx"
  }

  /**
   * `handleDownload`: nothing while a download runs; otherwise the campaign's orders are
   * read (`readFails` is the store's answer), with an alert after a failed read, for a
   * campaign without orders, and when no order has a positive item; otherwise the file.
   */
  method HandleDownload(db: Store.Db, campaign: Store.Campaign, downloadLoading: bool, readFails: bool)
    returns (outcome: DownloadOutcome)
    ensures downloadLoading ==> outcome == Busy
    ensures !downloadLoading && readFails ==> outcome == ReadFailed
    ensures !downloadLoading && !readFails && CampaignOrders(db.orders, db.items, campaign.id) == [] ==>
      outcome == NoOrders
    ensures !downloadLoading && !readFails && CampaignOrders(db.orders, db.items, campaign.id) != [] ==>
      var rows := ExportRows(campaign.name, CampaignOrders(db.orders, db.items, campaign.id));
      outcome == if rows == [] then NothingToExport else Written(ExportFileName(campaign.name), rows)
    ensures outcome.Written? ==> outcome.rows != []
  {
    if downloadLoading {
      return Busy;
    }
    if readFails {
      return ReadFailed;
    }
    var data := CampaignOrders(db.orders, db.items, campaign.id);
    if |data| == 0 {
      return NoOrders;
    }
    var rows := BuildExportRows(campaign.name, data);
    if |rows| == 0 {
      return NothingToExport;
    }
    outcome := Written(ExportFileName(campaign.name), rows);
  }

  /** There are rows to write exactly when some order has an item with a positive quantity. */
  lemma ExportRowsEmpty(campaignName: string, orders: seq<OrderWithItems>)
    ensures ExportRows(campaignName, orders) == [] <==>
      forall i, it :: 0 <= i < |orders| && it in orders[i].items ==> !Positive(it)
  {
    ExportRowsCharacterised(campaignName, orders);
    var rows := ExportRows(campaignName, orders);
    if rows != [] {
      assert rows[0] in rows;
    }
  }

  // ---------------------------------------------------------------------------
  // Ending and deleting
  // ---------------------------------------------------------------------------

  datatype ActionOutcome = Ignored | Failed | Refreshed

  /** The end button: disabled while a request runs and for a campaign that is not active. */
  predicate EndDisabled(loading: bool, status: string) {
    loading || status != "active"
  }

  /** A JavaScript value as far as `===` between a boolean and a string needs it. */
  datatype JsValue = JsBool(b: bool) | JsString(s: string)

  predicate StrictEquals(a: JsValue, b: JsValue) {
    a == b
  }

  /** `downloadLoading || !campaign.status === 'active'`: `!` binds first and gives a boolean. */
  predicate DownloadDisabled(downloadLoading: bool, status: string) {
    downloadLoading || StrictEquals(JsBool(status == ""), JsString("active"))
  }

  /** The status half of the download condition compares a boolean with a string, so only a running download disables the button. */
  lemma DownloadDisabledOnlyWhileLoading(downloadLoading: bool, status: string)
    ensures DownloadDisabled(downloadLoading, status) <==> downloadLoading
    ensures DownloadDisabled(downloadLoading, status) != EndDisabled(downloadLoading, status) <==>
      !downloadLoading && status != "active"
  {
  }

  /** `handleEnd`: status `ended` for the campaign; a store error changes nothing. */
  method HandleEnd(db: Store.Db, loading: bool, campaign: Store.Campaign, storeFails: bool)
    returns (outcome: ActionOutcome)
    requires db.Valid()
    modifies db
    ensures db.Valid()
    ensures loading ==> outcome == Ignored && unchanged(db)
    ensures !loading && storeFails ==> outcome == Failed && unchanged(db)
    ensures !loading && !storeFails ==> (
      && outcome == Refreshed
      && db.campaigns == Store.UpdateCampaigns(old(db.campaigns), campaign.id, "ended")
      && db.packages == old(db.packages) && db.orders == old(db.orders) && db.items == old(db.items))
  {
    if loading {
      return Ignored;
    }
    var ok := db.UpdateCampaignStatus(campaign.id, "ended", storeFails);
    outcome := if ok then Refreshed else Failed;
  }

  /** `handleDelete`: nothing while a request runs or when the admin does not confirm. */
  method HandleDelete(db: Store.Db, loading: bool, confirmed: bool, campaign: Store.Campaign, storeFails: bool)
    returns (outcome: ActionOutcome)
    requires db.Valid()
    modifies db
    ensures db.Valid()
    ensures loading || !confirmed ==> outcome == Ignored && unchanged(db)
    ensures !loading && confirmed && storeFails ==> outcome == Failed && unchanged(db)
    ensures !loading && confirmed && !storeFails ==> (
      && outcome == Refreshed
      && db.campaigns == Seqs.Filter(old(db.campaigns), Store.NotCampaign(campaign.id))
      && db.packages == old(db.packages) && db.orders == old(db.orders) && db.items == old(db.items))
  {
    if loading {
      return Ignored;
    }
    if !confirmed {
      return Ignored;
    }
    var ok := db.DeleteCampaign(campaign.id, storeFails);
    outcome := if ok then Refreshed else Failed;
  }
}
