/**
 * The public board of a campaign (`src/pages/CampaignPage/Board/Board.jsx`): it shows
 * how many items all orders of the campaign hold, recomputes that total when a row of
 * `order_items` of the campaign changes, and animates the shown number towards it.
 */
module Board {
  import opened Wrappers
  import opened JsNumber
  import Seqs
  import Store
  import OrderItemSync
  import Text
  import Welcome

  // ---------------------------------------------------------------------------
  // The campaign and its total
  // ---------------------------------------------------------------------------

  /** The campaign for the address slug, compared as typed (no lower-casing here). */
  function BoardCampaign(campaigns: seq<Store.Campaign>, slug: string): (r: Option<Store.Campaign>)
    ensures r.Some? ==> r.value in campaigns && r.value.slug == slug
  {
    Store.CampaignBySlug(campaigns, slug)
  }

  /**
   * The board and the welcome page disagree on an address typed with capitals: the
   * welcome page lower-cases the slug before the lookup, the board does not.
   */
  lemma SlugCaseDivergence()
    ensures var cs := [Store.Campaign(1, "Spring", "spring", "active")];
      Welcome.CampaignFor(cs, "Spring") == Some(cs[0]) && BoardCampaign(cs, "Spring") == None
  {
    var cs := [Store.Campaign(1, "Spring", "spring", "active")];
    assert Text.ToLower("Spring") == "spring";
    assert Seqs.Filter(cs, Store.HasSlug("spring")) == cs;
    assert Seqs.Filter(cs, Store.HasSlug("Spring")) == [];
  }

  /** `campaignStatus`: `data.status || 'missing'`, or `'missing'` without a row. */
  function BoardStatus(found: Option<Store.Campaign>): (status: string)
    ensures status == "active" <==> found.Some? && found.value.status == "active"
  {
    if found.None? || found.value.status == "" then "missing" else found.value.status
  }

  /** The inner join `orders!inner(campaign_id)` filtered by `orders.campaign_id = id`. */
  function InCampaign(orders: seq<Store.Order>, campaignId: Store.Id): Store.OrderItem -> bool {
    (it: Store.OrderItem) =>
      var o := Store.OrderById(orders, it.orderId);
      o.Some? && o.value.campaignId == campaignId
  }

  /** `reduce((acc, item) => acc + (Number(item.quantity) || 0), 0)`. */
  function SumQuantities(items: seq<Store.OrderItem>): int {
    if items == [] then 0 else items[0].quantity + SumQuantities(items[1..])
  }

  lemma {:induction false} SumQuantitiesConcat(a: seq<Store.OrderItem>, b: seq<Store.OrderItem>)
    ensures SumQuantities(a + b) == SumQuantities(a) + SumQuantities(b)
  {
    if a == [] {
      assert a + b == b;
    } else {
      assert (a + b)[1..] == a[1..] + b;
      SumQuantitiesConcat(a[1..], b);
    }
  }

  /** The board's total: the quantities of every row whose order belongs to the campaign, negative ones included. */
  function CampaignTotal(orders: seq<Store.Order>, items: seq<Store.OrderItem>, campaignId: Store.Id): int {
    SumQuantities(Seqs.Filter(items, InCampaign(orders, campaignId)))
  }

  function LinesTotal(lines: seq<OrderItemSync.Line>): int {
    if lines == [] then 0 else lines[0].1 + LinesTotal(lines[1..])
  }

  lemma {:induction false} FreshItemsTotal(orderId: Store.Id, lines: seq<OrderItemSync.Line>, first: Store.Id)
    ensures SumQuantities(Store.FreshItems(orderId, lines, first)) == LinesTotal(lines)
  {
    if lines != [] {
      var f := Store.FreshItems(orderId, lines, first);
      FreshItemsTotal(orderId, lines[1..], first + 1);
      assert f[1..] == Store.FreshItems(orderId, lines[1..], first + 1);
    }
  }

  /** The campaign total splits into one order's rows and the rest, for an order of the campaign. */
  lemma {:induction false} TotalSplitsAtOrder(orders: seq<Store.Order>, items: seq<Store.OrderItem>,
                                              campaignId: Store.Id, orderId: Store.Id)
    requires var o := Store.OrderById(orders, orderId); o.Some? && o.value.campaignId == campaignId
    ensures CampaignTotal(orders, items, campaignId) ==
      CampaignTotal(orders, Seqs.Filter(items, Store.NotOfOrder(orderId)), campaignId)
        + SumQuantities(OrderItemSync.ItemsOf(items, orderId))
  {
    if items != [] {
      var keep := InCampaign(orders, campaignId);
      var notMine := Store.NotOfOrder(orderId);
      var tail := items[1..];
      TotalSplitsAtOrder(orders, tail, campaignId, orderId);
      Seqs.FilterCons(items, keep);
      Seqs.FilterCons(items, notMine);
      Seqs.FilterCons(items, Store.OfOrder(orderId));
      if !notMine(items[0]) {
        assert keep(items[0]);
      } else {
        var rest := Seqs.Filter(items, notMine);
        assert rest == [items[0]] + Seqs.Filter(tail, notMine);
        Seqs.FilterCons(rest, keep);
        assert rest[1..] == Seqs.Filter(tail, notMine);
      }
    }
  }

  /** An order's rows count towards no campaign but its own. */
  lemma OtherOrderNotCounted(orders: seq<Store.Order>, items: seq<Store.OrderItem>, campaignId: Store.Id,
                             orderId: Store.Id)
    requires var o := Store.OrderById(orders, orderId); o.None? || o.value.campaignId != campaignId
    ensures CampaignTotal(orders, Seqs.Filter(items, Store.NotOfOrder(orderId)), campaignId) ==
      CampaignTotal(orders, items, campaignId)
  {
    Seqs.FilterFilter(items, Store.NotOfOrder(orderId), InCampaign(orders, campaignId));
  }

  /**
   * How a sync moves the board: for an order of the campaign the total changes by the
   * new rows minus the old ones; for an order of another campaign it does not change.
   */
  lemma TotalAfterSync(orders: seq<Store.Order>, items: seq<Store.OrderItem>, campaignId: Store.Id,
                       orderId: Store.Id, lines: seq<OrderItemSync.Line>, first: Store.Id)
    ensures var after := OrderItemSync.ReplaceOrderItems(items, orderId, lines, first);
      var o := Store.OrderById(orders, orderId);
      && (o.Some? && o.value.campaignId == campaignId ==>
            CampaignTotal(orders, after, campaignId) ==
              CampaignTotal(orders, items, campaignId) - SumQuantities(OrderItemSync.ItemsOf(items, orderId))
                + LinesTotal(lines))
      && (o.None? || o.value.campaignId != campaignId ==>
            CampaignTotal(orders, after, campaignId) == CampaignTotal(orders, items, campaignId))
  {
    var o := Store.OrderById(orders, orderId);
    if o.Some? && o.value.campaignId == campaignId {
      SyncOwnOrder(orders, items, campaignId, orderId, lines, first);
    } else {
      SyncOtherOrder(orders, items, campaignId, orderId, lines, first);
    }
  }

  /** The total after a sync: the kept rows of the campaign plus the new rows of the campaign. */
  lemma SyncedTotal(orders: seq<Store.Order>, items: seq<Store.OrderItem>, campaignId: Store.Id,
                    orderId: Store.Id, lines: seq<OrderItemSync.Line>, first: Store.Id)
    ensures var keep := InCampaign(orders, campaignId);
      CampaignTotal(orders, OrderItemSync.ReplaceOrderItems(items, orderId, lines, first), campaignId) ==
        SumQuantities(Seqs.Filter(Seqs.Filter(items, Store.NotOfOrder(orderId)), keep))
          + SumQuantities(Seqs.Filter(Store.FreshItems(orderId, lines, first), keep))
  {
    var keep := InCampaign(orders, campaignId);
    var kept := Seqs.Filter(items, Store.NotOfOrder(orderId));
    var added := Store.FreshItems(orderId, lines, first);
    Seqs.FilterConcat(kept, added, keep);
    SumQuantitiesConcat(Seqs.Filter(kept, keep), Seqs.Filter(added, keep));
  }

  /** A sync of an order of the campaign swaps that order's old rows for the new ones in the total. */
  lemma SyncOwnOrder(orders: seq<Store.Order>, items: seq<Store.OrderItem>, campaignId: Store.Id,
                     orderId: Store.Id, lines: seq<OrderItemSync.Line>, first: Store.Id)
    requires var o := Store.OrderById(orders, orderId); o.Some? && o.value.campaignId == campaignId
    ensures CampaignTotal(orders, OrderItemSync.ReplaceOrderItems(items, orderId, lines, first), campaignId) ==
      CampaignTotal(orders, items, campaignId) - SumQuantities(OrderItemSync.ItemsOf(items, orderId))
        + LinesTotal(lines)
  {
    var added := Store.FreshItems(orderId, lines, first);
    SyncedTotal(orders, items, campaignId, orderId, lines, first);
    Seqs.FilterAll(added, InCampaign(orders, campaignId));
    FreshItemsTotal(orderId, lines, first);
    TotalSplitsAtOrder(orders, items, campaignId, orderId);
  }

  /** A sync of an order of another campaign leaves the total alone. */
  lemma SyncOtherOrder(orders: seq<Store.Order>, items: seq<Store.OrderItem>, campaignId: Store.Id,
                       orderId: Store.Id, lines: seq<OrderItemSync.Line>, first: Store.Id)
    requires var o := Store.OrderById(orders, orderId); o.None? || o.value.campaignId != campaignId
    ensures CampaignTotal(orders, OrderItemSync.ReplaceOrderItems(items, orderId, lines, first), campaignId) ==
      CampaignTotal(orders, items, campaignId)
  {
    SyncedTotal(orders, items, campaignId, orderId, lines, first);
    Seqs.FilterNone(Store.FreshItems(orderId, lines, first), InCampaign(orders, campaignId));
    OtherOrderNotCounted(orders, items, campaignId, orderId);
  }

  // ---------------------------------------------------------------------------
  // Change events
  // ---------------------------------------------------------------------------

  /** A realtime change on `order_items`; a deletion carries the old row's `order_id` only if the store sends it. */
  datatype ChangeEvent =
    | Inserted(newRow: Store.OrderItem)
    | Updated(newRow: Store.OrderItem)
    | Deleted(oldOrderId: Option<Store.Id>)

  function EventOrderId(e: ChangeEvent): Option<Store.Id> {
    match e
    case Inserted(row) => Some(row.orderId)
    case Updated(row) => Some(row.orderId)
    case Deleted(id) => id
  }

  /** `refreshIfSameCampaign`: recompute only when the event's order belongs to the board's campaign. */
  predicate ShouldRefresh(orders: seq<Store.Order>, e: ChangeEvent, campaignId: Store.Id) {
    var id := EventOrderId(e);
    id.Some? && (var o := Store.OrderById(orders, id.value); o.Some? && o.value.campaignId == campaignId)
  }

  /** A new row is skipped exactly when it does not change the total, so skipping loses nothing. */
  lemma InsertRefreshesIffCounted(orders: seq<Store.Order>, items: seq<Store.OrderItem>, row: Store.OrderItem,
                                  campaignId: Store.Id)
    ensures ShouldRefresh(orders, Inserted(row), campaignId) <==> InCampaign(orders, campaignId)(row)
    ensures !ShouldRefresh(orders, Inserted(row), campaignId) ==>
      CampaignTotal(orders, items + [row], campaignId) == CampaignTotal(orders, items, campaignId)
  {
    var keep := InCampaign(orders, campaignId);
    Seqs.FilterConcat(items, [row], keep);
    if !keep(row) {
      assert Seqs.Filter([row], keep) == [];
      assert Seqs.Filter(items, keep) + [] == Seqs.Filter(items, keep);
    }
  }

  /** A deletion whose old row comes without its `order_id` never triggers a recompute. */
  lemma DeleteWithoutOrderIdIgnored(orders: seq<Store.Order>, campaignId: Store.Id)
    ensures !ShouldRefresh(orders, Deleted(None), campaignId)
  {
  }

  // ---------------------------------------------------------------------------
  // The animated counter
  // ---------------------------------------------------------------------------

  /** The step for a difference: `max(1, ceil(d / 700))` upwards, `min(-1, floor(d / 700))` downwards. */
  function Step(difference: int): (s: int)
    requires difference != 0
    ensures difference > 0 ==> 1 <= s <= difference
    ensures difference < 0 ==> difference <= s <= -1
  {
    if difference > 0 then Max(1, -((-difference) / 700))
    else Min(-1, difference / 700)
  }

  /**
   * The step is the difference divided by 700 and rounded away from zero: upwards the
   * least `s` with `700 * s >= d`, downwards the greatest `s` with `700 * s <= d`.
   */
  lemma StepRoundsAwayFromZero(d: int)
    requires d != 0
    ensures d > 0 ==> 700 * (Step(d) - 1) < d <= 700 * Step(d)
    ensures d < 0 ==> 700 * Step(d) <= d < 700 * (Step(d) + 1)
  {
    if d > 0 {
      var q := (-d) / 700;
      assert -d == 700 * q + (-d) % 700;
      assert q <= -1;
      assert Step(d) == -q;
    } else {
      var q := d / 700;
      assert d == 700 * q + d % 700;
      assert q <= -1;
      assert Step(d) == q;
    }
  }

  /** One interval tick from `prev` towards `total`: a step, or `total` itself once the step would reach or pass it. */
  function NextShown(prev: int, total: int): (next: int)
    requires prev != total
    ensures prev < total ==> prev < next <= total
    ensures prev > total ==> total <= next < prev
  {
    var step := Step(total - prev);
    var next := prev + step;
    if (step > 0 && next >= total) || (step < 0 && next <= total) then total else next
  }

  class Counter {
    var campaignId: Store.Id
    /** `total`: the last total read. */
    var total: int
    /** `animatedTotal`: the number on screen. */
    var animatedTotal: int

    constructor (campaignId: Store.Id)
      ensures this.campaignId == campaignId && total == 0 && animatedTotal == 0
    {
      this.campaignId := campaignId;
      total := 0;
      animatedTotal := 0;
    }

    /** `fetchCartProductsTotal`: a failed read keeps the old total. */
    method Refresh(orders: seq<Store.Order>, items: seq<Store.OrderItem>, readFails: bool)
      modifies this
      ensures campaignId == old(campaignId) && animatedTotal == old(animatedTotal)
      ensures total == if readFails then old(total) else CampaignTotal(orders, items, campaignId)
    {
      if !readFails {
        total := CampaignTotal(orders, items, campaignId);
      }
    }

    /** A realtime event: the total is read again only for an order of this campaign. */
    method OnChange(orders: seq<Store.Order>, items: seq<Store.OrderItem>, e: ChangeEvent, readFails: bool)
      modifies this
      ensures campaignId == old(campaignId) && animatedTotal == old(animatedTotal)
      ensures total == if ShouldRefresh(orders, e, campaignId) && !readFails
                       then CampaignTotal(orders, items, campaignId) else old(total)
    {
      if ShouldRefresh(orders, e, campaignId) {
        Refresh(orders, items, readFails);
      }
    }

    /**
     * One tick of the animation effect. Nothing runs when the number shown is the
     * total; otherwise it moves towards the total without passing it.
     */
    method Tick()
      modifies this
      ensures campaignId == old(campaignId) && total == old(total)
      ensures old(animatedTotal) == old(total) ==> animatedTotal == old(animatedTotal)
      ensures old(animatedTotal) != old(total) ==> animatedTotal == NextShown(old(animatedTotal), old(total))
    {
      if animatedTotal == total {
        return;
      }
      animatedTotal := NextShown(animatedTotal, total);
    }

    /** Ticks until the number shown is the total; that takes at most `|total - animatedTotal|` ticks. */
    method Settle() returns (ticks: nat)
      modifies this
      ensures campaignId == old(campaignId) && total == old(total)
      ensures animatedTotal == total
      ensures ticks <= if old(total) >= old(animatedTotal) then old(total) - old(animatedTotal)
                       else old(animatedTotal) - old(total)
    {
      ghost var start := animatedTotal;
      ticks := 0;
      while animatedTotal != total
        invariant campaignId == old(campaignId) && total == old(total)
        invariant start <= total ==> start <= animatedTotal <= total && ticks <= animatedTotal - start
        invariant start > total ==> total <= animatedTotal <= start && ticks <= start - animatedTotal
        decreases if animatedTotal <= total then total - animatedTotal else animatedTotal - total
      {
        Tick();
        ticks := ticks + 1;
      }
    }
  }
}
