/**
 * The in-memory model of the database the pages talk to: the tables `campaigns`,
 * `campaign_packages`, `orders` and `order_items`. Every request a page makes is a
 * method of `Db`; its `storeFails` argument is the store's answer (any error the
 * service could return), and a failed request changes nothing. Row ids are handed
 * out from a counter, so they are fresh and increase along each table.
 */
module Store {
  import opened Wrappers
  import Seqs

  type Id = nat

  datatype Campaign = Campaign(id: Id, name: string, slug: string, status: string)

  /** A `campaign_packages` row as the admin page inserts it. */
  datatype PackageRecord = PackageRecord(campaignId: Id, title: string, minQty: real, discount: real)

  datatype PaymentType = Cash | Check

  /** `status` is `None` while the column holds its default (the welcome page does not write it). */
  datatype Order = Order(id: Id, campaignId: Id, userName: string, phone: string,
                         status: Option<string>, paymentType: Option<PaymentType>)

  datatype OrderItem = OrderItem(id: Id, orderId: Id, product: string, quantity: int)

  /** The columns an order update writes; `paymentType == None` leaves that column alone. */
  datatype OrderPatch = OrderPatch(status: string, paymentType: Option<PaymentType>)

  function CampaignIdOf(c: Campaign): Id { c.id }
  function OrderIdOf(o: Order): Id { o.id }
  function ItemIdOf(it: OrderItem): Id { it.id }

  /** Ids strictly increase along `s` and are all below `bound`; in particular they are distinct. */
  predicate Ordered<T>(s: seq<T>, id: T -> Id, bound: Id) {
    && (forall i, j :: 0 <= i < j < |s| ==> id(s[i]) < id(s[j]))
    && (forall i :: 0 <= i < |s| ==> id(s[i]) < bound)
  }

  predicate DistinctSlugs(cs: seq<Campaign>) {
    forall i, j :: 0 <= i < j < |cs| ==> cs[i].slug != cs[j].slug
  }

  predicate SlugTaken(cs: seq<Campaign>, slug: string) {
    exists i :: 0 <= i < |cs| && cs[i].slug == slug
  }

  /** Deleting rows (keeping those `keep` accepts) leaves the ids increasing and below the bound. */
  lemma FilterOrdered<T>(s: seq<T>, keep: T -> bool, id: T -> Id, bound: Id)
    requires Ordered(s, id, bound)
    ensures Ordered(Seqs.Filter(s, keep), id, bound)
  {
    var r := Seqs.Filter(s, keep);
    Seqs.FilterPairwise(s, keep, (x: T, y: T) => id(x) < id(y));
    forall i | 0 <= i < |r| ensures id(r[i]) < bound {
      var k :| 0 <= k < |s| && s[k] == r[i];
    }
  }

  /** Deleting campaigns never makes two of them share a slug. */
  lemma FilterDistinctSlugs(cs: seq<Campaign>, keep: Campaign -> bool)
    requires DistinctSlugs(cs)
    ensures DistinctSlugs(Seqs.Filter(cs, keep))
  {
    Seqs.FilterPairwise(cs, keep, (x: Campaign, y: Campaign) => x.slug != y.slug);
  }

  function NotOfOrder(orderId: Id): OrderItem -> bool {
    (it: OrderItem) => it.orderId != orderId
  }

  function OfOrder(orderId: Id): OrderItem -> bool {
    (it: OrderItem) => it.orderId == orderId
  }

  function NotCampaign(id: Id): Campaign -> bool {
    (c: Campaign) => c.id != id
  }

  /** The rows that `insert(lines)` adds for one order, numbered from `first`. */
  function FreshItems(orderId: Id, lines: seq<(string, int)>, first: Id): (r: seq<OrderItem>)
    ensures |r| == |lines|
    ensures forall i :: 0 <= i < |r| ==> r[i] == OrderItem(first + i, orderId, lines[i].0, lines[i].1)
  {
    seq(|lines|, i requires 0 <= i < |lines| => OrderItem(first + i, orderId, lines[i].0, lines[i].1))
  }

  function PatchOrder(o: Order, patch: OrderPatch): Order {
    o.(status := Some(patch.status),
       paymentType := if patch.paymentType.Some? then patch.paymentType else o.paymentType)
  }

  /** `update(patch).eq('id', id)` on `orders`. */
  function UpdateOrders(orders: seq<Order>, id: Id, patch: OrderPatch): (r: seq<Order>)
    ensures |r| == |orders|
    ensures forall i :: 0 <= i < |r| ==> r[i] == if orders[i].id == id then PatchOrder(orders[i], patch) else orders[i]
  {
    seq(|orders|, i requires 0 <= i < |orders| => if orders[i].id == id then PatchOrder(orders[i], patch) else orders[i])
  }

  /** Every order the update matches carries the patch's status afterwards. */
  lemma UpdateOrdersStatus(orders: seq<Order>, id: Id, patch: OrderPatch)
    ensures var r := UpdateOrders(orders, id, patch);
      forall i :: 0 <= i < |r| ==> r[i].id == id ==> r[i].status == Some(patch.status)
  {
  }

  /** `update({ status }).eq('id', id)` on `campaigns`. */
  function UpdateCampaigns(cs: seq<Campaign>, id: Id, status: string): (r: seq<Campaign>)
    ensures |r| == |cs|
    ensures forall i :: 0 <= i < |r| ==> r[i] == if cs[i].id == id then cs[i].(status := status) else cs[i]
  {
    seq(|cs|, i requires 0 <= i < |cs| => if cs[i].id == id then cs[i].(status := status) else cs[i])
  }

  /** The order with that id, if any (the store's `.eq('id', id).single()`). */
  function OrderById(orders: seq<Order>, id: Id): (r: Option<Order>)
    ensures r.Some? ==> r.value in orders && r.value.id == id
    ensures r.None? ==> forall i :: 0 <= i < |orders| ==> orders[i].id != id
  {
    if orders == [] then None
    else if orders[0].id == id then Some(orders[0])
    else OrderById(orders[1..], id)
  }

  function HasSlug(slug: string): Campaign -> bool {
    (c: Campaign) => c.slug == slug
  }

  /**
   * The campaign read by `.eq('slug', slug)` with `.single()` or `.maybeSingle()`:
   * a row only when exactly one campaign has that slug.
   */
  function CampaignBySlug(cs: seq<Campaign>, slug: string): (r: Option<Campaign>)
    ensures r.Some? ==> r.value in cs && r.value.slug == slug
    ensures DistinctSlugs(cs) ==> (r.Some? <==> SlugTaken(cs, slug))
  {
    var matches := Seqs.Filter(cs, HasSlug(slug));
    assert DistinctSlugs(cs) && SlugTaken(cs, slug) ==> |matches| == 1 by {
      if DistinctSlugs(cs) && SlugTaken(cs, slug) {
        OneSlugMatch(cs, slug);
      }
    }
    if |matches| == 1 then Some(matches[0]) else None
  }

  /** With distinct slugs, a slug in use is matched by exactly one row. */
  lemma {:induction false} OneSlugMatch(cs: seq<Campaign>, slug: string)
    requires DistinctSlugs(cs) && SlugTaken(cs, slug)
    ensures |Seqs.Filter(cs, HasSlug(slug))| == 1
  {
    var tail := cs[1..];
    assert forall i :: 0 <= i < |tail| ==> tail[i] == cs[i + 1];
    if cs[0].slug == slug {
      Seqs.FilterNone(tail, HasSlug(slug));
    } else {
      var i :| 0 <= i < |cs| && cs[i].slug == slug;
      assert tail[i - 1].slug == slug;
      OneSlugMatch(tail, slug);
    }
  }

  class Db {
    var campaigns: seq<Campaign>
    var packages: seq<PackageRecord>
    var orders: seq<Order>
    var items: seq<OrderItem>
    var nextId: Id

    /** Fresh, increasing ids in every table and unique slugs (the `slug` column is unique). */
    ghost predicate Valid()
      reads this
    {
      && Ordered(campaigns, CampaignIdOf, nextId)
      && Ordered(orders, OrderIdOf, nextId)
      && Ordered(items, ItemIdOf, nextId)
      && DistinctSlugs(campaigns)
    }

    constructor ()
      ensures Valid()
      ensures campaigns == [] && packages == [] && orders == [] && items == [] && nextId == 0
    {
      campaigns, packages, orders, items, nextId := [], [], [], [], 0;
    }

    /** `insert([{ name, slug, status }])` on `campaigns`; a taken slug is refused. */
    method InsertCampaign(name: string, slug: string, status: string, storeFails: bool) returns (id: Option<Id>)
      requires Valid()
      modifies this
      ensures Valid()
      ensures id.None? <==> storeFails || SlugTaken(old(campaigns), slug)
      ensures id.None? ==> unchanged(this)
      ensures id.Some? ==>
        && id.value == old(nextId) && nextId == old(nextId) + 1
        && campaigns == old(campaigns) + [Campaign(id.value, name, slug, status)]
        && packages == old(packages) && orders == old(orders) && items == old(items)
    {
      if storeFails || SlugTaken(campaigns, slug) {
        return None;
      }
      id := Some(nextId);
      campaigns := campaigns + [Campaign(nextId, name, slug, status)];
      nextId := nextId + 1;
    }

    /** `insert(records)` on `campaign_packages`, all rows or none. */
    method InsertPackages(records: seq<PackageRecord>, storeFails: bool) returns (ok: bool)
      requires Valid()
      modifies this
      ensures Valid()
      ensures ok == !storeFails
      ensures !ok ==> unchanged(this)
      ensures ok ==> (packages == old(packages) + records
        && campaigns == old(campaigns) && orders == old(orders) && items == old(items) && nextId == old(nextId))
    {
      ok := !storeFails;
      if ok {
        packages := packages + records;
      }
    }

    /** `update({ status }).eq('id', id)` on `campaigns`. */
    method UpdateCampaignStatus(id: Id, status: string, storeFails: bool) returns (ok: bool)
      requires Valid()
      modifies this
      ensures Valid()
      ensures ok == !storeFails
      ensures !ok ==> unchanged(this)
      ensures ok ==> (campaigns == UpdateCampaigns(old(campaigns), id, status)
        && packages == old(packages) && orders == old(orders) && items == old(items) && nextId == old(nextId))
    {
      ok := !storeFails;
      if ok {
        campaigns := UpdateCampaigns(campaigns, id, status);
      }
    }

    /** `delete().eq('id', id)` on `campaigns`. */
    method DeleteCampaign(id: Id, storeFails: bool) returns (ok: bool)
      requires Valid()
      modifies this
      ensures Valid()
      ensures ok == !storeFails
      ensures !ok ==> unchanged(this)
      ensures ok ==> (campaigns == Seqs.Filter(old(campaigns), NotCampaign(id))
        && packages == old(packages) && orders == old(orders) && items == old(items) && nextId == old(nextId))
    {
      ok := !storeFails;
      if ok {
        FilterOrdered(campaigns, NotCampaign(id), CampaignIdOf, nextId);
        FilterDistinctSlugs(campaigns, NotCampaign(id));
        campaigns := Seqs.Filter(campaigns, NotCampaign(id));
      }
    }

    /** `insert({ campaign_id, user_name, phone, status? })` on `orders`, returning the new row's id. */
    method InsertOrder(campaignId: Id, userName: string, phone: string, status: Option<string>, storeFails: bool)
      returns (id: Option<Id>)
      requires Valid()
      modifies this
      ensures Valid()
      ensures id.None? <==> storeFails
      ensures id.None? ==> unchanged(this)
      ensures id.Some? ==>
        && id.value == old(nextId) && nextId == old(nextId) + 1
        && orders == old(orders) + [Order(id.value, campaignId, userName, phone, status, None)]
        && campaigns == old(campaigns) && packages == old(packages) && items == old(items)
    {
      if storeFails {
        return None;
      }
      id := Some(nextId);
      orders := orders + [Order(nextId, campaignId, userName, phone, status, None)];
      nextId := nextId + 1;
    }

    /** `update(patch).eq('id', id)` on `orders`. */
    method UpdateOrder(id: Id, patch: OrderPatch, storeFails: bool) returns (ok: bool)
      requires Valid()
      modifies this
      ensures Valid()
      ensures ok == !storeFails
      ensures !ok ==> unchanged(this)
      ensures ok ==> (orders == UpdateOrders(old(orders), id, patch)
        && campaigns == old(campaigns) && packages == old(packages) && items == old(items) && nextId == old(nextId))
    {
      ok := !storeFails;
      if ok {
        orders := UpdateOrders(orders, id, patch);
      }
    }

    /** `delete().eq('order_id', orderId)` on `order_items`. */
    method DeleteOrderItems(orderId: Id, storeFails: bool) returns (ok: bool)
      requires Valid()
      modifies this
      ensures Valid()
      ensures ok == !storeFails
      ensures !ok ==> unchanged(this)
      ensures ok ==> (items == Seqs.Filter(old(items), NotOfOrder(orderId))
        && campaigns == old(campaigns) && packages == old(packages) && orders == old(orders) && nextId == old(nextId))
    {
      ok := !storeFails;
      if ok {
        FilterOrdered(items, NotOfOrder(orderId), ItemIdOf, nextId);
        items := Seqs.Filter(items, NotOfOrder(orderId));
      }
    }

    /** `insert(rows)` on `order_items` for one order, all rows or none; each row gets a fresh id. */
    method InsertOrderItems(orderId: Id, lines: seq<(string, int)>, storeFails: bool) returns (ok: bool)
      requires Valid()
      modifies this
      ensures Valid()
      ensures ok == !storeFails
      ensures !ok ==> unchanged(this)
      ensures ok ==>
        && items == old(items) + FreshItems(orderId, lines, old(nextId))
        && nextId == old(nextId) + |lines|
        && campaigns == old(campaigns) && packages == old(packages) && orders == old(orders)
    {
      ok := !storeFails;
      if ok {
        var added := FreshItems(orderId, lines, nextId);
        var all := items + added;
        assert Ordered(all, ItemIdOf, nextId + |lines|) by {
          forall i, j | 0 <= i < j < |all| ensures ItemIdOf(all[i]) < ItemIdOf(all[j]) {
            if j >= |items| && i < |items| { assert all[i] == items[i]; }
          }
        }
        items := all;
        nextId := nextId + |lines|;
      }
    }
  }
}
