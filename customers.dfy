/**
 * The buyers of one campaign (`src/pages/Admin/CampaignCustomers.jsx`): the orders are
 * grouped by phone and name, each group sums its buyer's quantities per product, and a
 * group can be exported as a spreadsheet whose file name is made safe first.
 */
module Customers {
  import opened Wrappers
  import Text
  import Seqs
  import AssocList
  import Collation
  import Store
  import OrderItemSync
  import Campane

  type Line = OrderItemSync.Line
  type Order = Campane.OrderWithItems

  // ---------------------------------------------------------------------------
  // Surviving items and the customer key
  // ---------------------------------------------------------------------------

  /** `item.product && item.quantity > 0`. */
  predicate Survives(it: Line) {
    it.0 != "" && it.1 > 0
  }

  function Survivors(items: seq<Line>): seq<Line> {
    Seqs.Filter(items, Survives)
  }

  /** `${order.phone || ''}::${order.user_name || ''}`. */
  function KeyOf(o: Order): string {
    o.phone + "::" + o.userName
  }

  /** `x || '-'`. */
  function OrDash(s: string): (r: string)
    ensures r != "" && (s != "" ==> r == s)
  {
    if s == "" then "-" else s
  }

  lemma KeyLayout(o: Order)
    ensures |KeyOf(o)| == |o.phone| + 2 + |o.userName|
    ensures forall i :: 0 <= i < |o.phone| ==> KeyOf(o)[i] == o.phone[i]
    ensures KeyOf(o)[|o.phone|] == ':'
    ensures KeyOf(o)[..|o.phone|] == o.phone && KeyOf(o)[|o.phone| + 2..] == o.userName
  {
  }

  /**
   * The key tells the buyer apart when phones hold no `:` (the welcome page keeps only
   * digits): two orders with the same key have the same phone and the same name.
   */
  lemma KeyDeterminesCustomer(a: Order, b: Order)
    requires forall i :: 0 <= i < |a.phone| ==> a.phone[i] != ':'
    requires forall i :: 0 <= i < |b.phone| ==> b.phone[i] != ':'
    requires KeyOf(a) == KeyOf(b)
    ensures a.phone == b.phone && a.userName == b.userName
  {
    KeyLayout(a);
    KeyLayout(b);
    assert |a.phone| == |b.phone|;
  }

  // ---------------------------------------------------------------------------
  // Groups: the entries of the `grouped` Map
  // ---------------------------------------------------------------------------

  /** `{ key, user_name, phone, total_qty, items_map }`; `items_map` is kept in insertion order. */
  datatype Group = Group(key: string, userName: string, phone: string, totalQty: int, items: seq<Line>)

  function NewGroup(o: Order): Group {
    Group(KeyOf(o), OrDash(o.userName), OrDash(o.phone), 0, [])
  }

  /** `row.total_qty += q` and `items_map.set(p, (items_map.get(p) || 0) + q)`. */
  function AddItem(g: Group, it: Line): Group {
    g.(totalQty := g.totalQty + it.1,
       items := AssocList.AddTo(g.items, it.0, it.1))
  }

  function AddItems(g: Group, its: seq<Line>): Group
    decreases |its|
  {
    if its == [] then g else AddItem(AddItems(g, its[..|its| - 1]), its[|its| - 1])
  }

  /** The position of the group with `key`, or -1 (`grouped.has(key)` / `grouped.get(key)`). */
  function GroupIndex(groups: seq<Group>, key: string): (r: int)
    ensures -1 <= r < |groups|
    ensures r >= 0 ==> groups[r].key == key
    ensures r == -1 <==> forall j :: 0 <= j < |groups| ==> groups[j].key != key
    decreases |groups|
  {
    if groups == [] then -1
    else if groups[0].key == key then 0
    else
      var r := GroupIndex(groups[1..], key);
      assert forall j :: 1 <= j < |groups| ==> groups[j] == groups[1..][j - 1];
      if r < 0 then -1 else r + 1
  }

  /** One order of the `forEach`: nothing without surviving items, else a new or an extended group. */
  function AddOrder(groups: seq<Group>, o: Order): seq<Group> {
    var its := Survivors(o.items);
    if its == [] then groups
    else
      var i := GroupIndex(groups, KeyOf(o));
      if i < 0 then groups + [AddItems(NewGroup(o), its)] else groups[i := AddItems(groups[i], its)]
  }

  function Grouped(orders: seq<Order>): seq<Group>
    decreases |orders|
  {
    if orders == [] then [] else AddOrder(Grouped(orders[..|orders| - 1]), orders[|orders| - 1])
  }

  // ---------------------------------------------------------------------------
  // The reference sums a group must agree with
  // ---------------------------------------------------------------------------

  function LinesTotal(its: seq<Line>): int
    decreases |its|
  {
    if its == [] then 0 else LinesTotal(its[..|its| - 1]) + its[|its| - 1].1
  }

  function ProductTotal(its: seq<Line>, product: string): int
    decreases |its|
  {
    if its == [] then 0
    else ProductTotal(its[..|its| - 1], product) + (if its[|its| - 1].0 == product then its[|its| - 1].1 else 0)
  }

  /** All surviving quantities of the orders with `key`. */
  function KeyTotal(orders: seq<Order>, key: string): int
    decreases |orders|
  {
    if orders == [] then 0
    else
      var o := orders[|orders| - 1];
      KeyTotal(orders[..|orders| - 1], key) + (if KeyOf(o) == key then LinesTotal(Survivors(o.items)) else 0)
  }

  /** The surviving quantities of `product` in the orders with `key`. */
  function KeyProductTotal(orders: seq<Order>, key: string, product: string): int
    decreases |orders|
  {
    if orders == [] then 0
    else
      var o := orders[|orders| - 1];
      KeyProductTotal(orders[..|orders| - 1], key, product)
        + (if KeyOf(o) == key then ProductTotal(Survivors(o.items), product) else 0)
  }

  /** Some order with `key` has a surviving item. */
  predicate Buys(orders: seq<Order>, key: string) {
    exists j :: 0 <= j < |orders| && KeyOf(orders[j]) == key && Survivors(orders[j].items) != []
  }

  predicate HasGroup(groups: seq<Group>, key: string) {
    exists i :: 0 <= i < |groups| && groups[i].key == key
  }

  /** A group's items: one entry per product, each product named and positive, summing to the group's total. */
  predicate WellFormed(g: Group) {
    && AssocList.DistinctKeys(g.items)
    && (forall i :: 0 <= i < |g.items| ==> Survives(g.items[i]))
    && g.totalQty == AssocList.Sum(g.items)
  }

  /** A group's totals are the reference sums of its key over `orders`. */
  ghost predicate Agrees(orders: seq<Order>, g: Group) {
    && g.totalQty == KeyTotal(orders, g.key)
    && forall p :: AssocList.Lookup(g.items, p).GetOr(0) == KeyProductTotal(orders, g.key, p)
  }

  /** A group shows the name and phone of an order of its key that had surviving items, `-` for an empty one. */
  predicate NamedBy(orders: seq<Order>, key: string, userName: string, phone: string) {
    exists j :: (
      && 0 <= j < |orders| && KeyOf(orders[j]) == key && Survivors(orders[j].items) != []
      && userName == OrDash(orders[j].userName) && phone == OrDash(orders[j].phone))
  }

  predicate KeysDistinct(gs: seq<Group>) {
    forall i, j :: 0 <= i < j < |gs| ==> gs[i].key != gs[j].key
  }

  // ---------------------------------------------------------------------------
  // What adding items does to a group
  // ---------------------------------------------------------------------------

  lemma {:induction false} AddItemsShape(g: Group, its: seq<Line>)
    ensures var h := AddItems(g, its);
      && h.key == g.key && h.userName == g.userName && h.phone == g.phone
      && h.totalQty == g.totalQty + LinesTotal(its)
    decreases |its|
  {
    if its != [] {
      AddItemsShape(g, its[..|its| - 1]);
    }
  }

  lemma AddItemLookup(g: Group, it: Line, p: string)
    ensures AssocList.Lookup(AddItem(g, it).items, p).GetOr(0) ==
      AssocList.Lookup(g.items, p).GetOr(0) + (if it.0 == p then it.1 else 0)
  {
  }

  lemma {:induction false} AddItemsLookup(g: Group, its: seq<Line>, p: string)
    ensures AssocList.Lookup(AddItems(g, its).items, p).GetOr(0) ==
      AssocList.Lookup(g.items, p).GetOr(0) + ProductTotal(its, p)
    decreases |its|
  {
    if its != [] {
      var init := its[..|its| - 1];
      AddItemsLookup(g, init, p);
      AddItemLookup(AddItems(g, init), its[|its| - 1], p);
    }
  }

  /** Storing a surviving entry in a list of surviving entries leaves only surviving entries. */
  lemma PutSurvives(items: seq<Line>, k: string, v: int)
    requires (forall i :: 0 <= i < |items| ==> Survives(items[i])) && Survives((k, v))
    ensures forall i :: 0 <= i < |AssocList.Put(items, k, v)| ==> Survives(AssocList.Put(items, k, v)[i])
  {
    var r := AssocList.Put(items, k, v);
    AssocList.PutEntries(items, k, v);
    forall i | 0 <= i < |r| ensures Survives(r[i]) {
      if r[i] != (k, v) {
        var j :| 0 <= j < |items| && items[j] == r[i];
      }
    }
  }

  /** A key already present in a list of surviving entries holds a positive quantity. */
  lemma PresentIsPositive(items: seq<Line>, p: string)
    requires forall i :: 0 <= i < |items| ==> Survives(items[i])
    ensures AssocList.Lookup(items, p).GetOr(0) >= 0
  {
    var prev := AssocList.Lookup(items, p);
    if prev.Some? {
      var i :| 0 <= i < |items| && items[i] == (p, prev.value);
    }
  }

  /** Adding a surviving quantity to a list of surviving entries leaves only surviving entries. */
  lemma AddToSurvives(items: seq<Line>, it: Line)
    requires (forall i :: 0 <= i < |items| ==> Survives(items[i])) && Survives(it)
    ensures var r := AssocList.AddTo(items, it.0, it.1); forall i :: 0 <= i < |r| ==> Survives(r[i])
  {
    PresentIsPositive(items, it.0);
    PutSurvives(items, it.0, AssocList.Lookup(items, it.0).GetOr(0) + it.1);
  }

  lemma AddItemWellFormed(g: Group, it: Line)
    requires WellFormed(g) && Survives(it)
    ensures WellFormed(AddItem(g, it))
  {
    AssocList.AddToDistinct(g.items, it.0, it.1);
    AssocList.AddToSum(g.items, it.0, it.1);
    AddToSurvives(g.items, it);
  }

  lemma {:induction false} AddItemsWellFormed(g: Group, its: seq<Line>)
    requires WellFormed(g) && forall i :: 0 <= i < |its| ==> Survives(its[i])
    ensures WellFormed(AddItems(g, its))
    decreases |its|
  {
    if its != [] {
      AddItemsWellFormed(g, its[..|its| - 1]);
      AddItemWellFormed(AddItems(g, its[..|its| - 1]), its[|its| - 1]);
    }
  }

  lemma SurvivorsSurvive(items: seq<Line>)
    ensures forall i :: 0 <= i < |Survivors(items)| ==> Survives(Survivors(items)[i])
  {
  }

  // ---------------------------------------------------------------------------
  // One more order
  // ---------------------------------------------------------------------------

  lemma BuysSnoc(orders: seq<Order>, key: string)
    requires orders != []
    ensures var o := orders[|orders| - 1];
      Buys(orders, key) <==> Buys(orders[..|orders| - 1], key) || (KeyOf(o) == key && Survivors(o.items) != [])
  {
    var init := orders[..|orders| - 1];
    if Buys(orders, key) {
      var j :| 0 <= j < |orders| && KeyOf(orders[j]) == key && Survivors(orders[j].items) != [];
      if j < |init| {
        assert init[j] == orders[j];
      }
    }
    if Buys(init, key) {
      var j :| 0 <= j < |init| && KeyOf(init[j]) == key && Survivors(init[j].items) != [];
      assert orders[j] == init[j];
    }
  }

  lemma HasGroupAppend(gs: seq<Group>, g: Group, key: string)
    ensures HasGroup(gs + [g], key) <==> HasGroup(gs, key) || g.key == key
  {
    var all := gs + [g];
    if HasGroup(gs, key) {
      var m :| 0 <= m < |gs| && gs[m].key == key;
      assert all[m] == gs[m];
    }
    assert all[|gs|] == g;
  }

  lemma HasGroupUpdate(gs: seq<Group>, i: nat, g: Group, key: string)
    requires i < |gs| && g.key == gs[i].key
    ensures HasGroup(gs[i := g], key) <==> HasGroup(gs, key)
  {
    var all := gs[i := g];
    if HasGroup(gs, key) {
      var m :| 0 <= m < |gs| && gs[m].key == key;
      assert all[m].key == key;
    }
    if HasGroup(all, key) {
      var m :| 0 <= m < |all| && all[m].key == key;
      assert gs[m].key == key;
    }
  }

  /** The reference sums of a key no order bought are zero. */
  lemma {:induction false} NoPurchaseNoTotal(orders: seq<Order>, key: string, product: string)
    requires !Buys(orders, key)
    ensures KeyTotal(orders, key) == 0 && KeyProductTotal(orders, key, product) == 0
    decreases |orders|
  {
    if orders != [] {
      BuysSnoc(orders, key);
      NoPurchaseNoTotal(orders[..|orders| - 1], key, product);
    }
  }

  /** A group of another key, or an order without surviving items, leaves the sums of a group as they were. */
  lemma AgreesKept(orders: seq<Order>, g: Group)
    requires orders != [] && Agrees(orders[..|orders| - 1], g)
    requires var o := orders[|orders| - 1]; g.key != KeyOf(o) || Survivors(o.items) == []
    ensures Agrees(orders, g)
  {
  }

  /** Adding an order's surviving items to its group keeps the group's sums right. */
  lemma AgreesExtended(orders: seq<Order>, g: Group)
    requires orders != [] && Agrees(orders[..|orders| - 1], g) && g.key == KeyOf(orders[|orders| - 1])
    ensures Agrees(orders, AddItems(g, Survivors(orders[|orders| - 1].items)))
  {
    var its := Survivors(orders[|orders| - 1].items);
    AddItemsShape(g, its);
    forall p ensures AssocList.Lookup(AddItems(g, its).items, p).GetOr(0) ==
                     KeyProductTotal(orders, g.key, p) {
      AddItemsLookup(g, its, p);
    }
  }

  /** A new group's sums are right when no earlier order bought under its key. */
  lemma AgreesNew(orders: seq<Order>)
    requires orders != []
    requires !Buys(orders[..|orders| - 1], KeyOf(orders[|orders| - 1]))
    ensures var o := orders[|orders| - 1]; Agrees(orders, AddItems(NewGroup(o), Survivors(o.items)))
  {
    var o := orders[|orders| - 1];
    var its := Survivors(o.items);
    var g := NewGroup(o);
    AddItemsShape(g, its);
    forall p ensures AssocList.Lookup(AddItems(g, its).items, p).GetOr(0) == KeyProductTotal(orders, g.key, p) {
      AddItemsLookup(g, its, p);
      NoPurchaseNoTotal(orders[..|orders| - 1], g.key, p);
    }
    NoPurchaseNoTotal(orders[..|orders| - 1], g.key, "");
  }

  lemma NamedByKept(orders: seq<Order>, g: Group)
    requires orders != [] && NamedBy(orders[..|orders| - 1], g.key, g.userName, g.phone)
    ensures NamedBy(orders, g.key, g.userName, g.phone)
  {
    var init := orders[..|orders| - 1];
    var j :| (
      && 0 <= j < |init| && KeyOf(init[j]) == g.key && Survivors(init[j].items) != []
      && g.userName == OrDash(init[j].userName) && g.phone == OrDash(init[j].phone));
    assert orders[j] == init[j];
  }

  // ---------------------------------------------------------------------------
  // What the grouping computes
  // ---------------------------------------------------------------------------

  /** One order adds its key to the groups exactly when it has surviving items. */
  lemma AddOrderHasGroup(gs: seq<Group>, o: Order, key: string)
    ensures HasGroup(AddOrder(gs, o), key) <==> HasGroup(gs, key) || (KeyOf(o) == key && Survivors(o.items) != [])
  {
    var its := Survivors(o.items);
    if its != [] {
      var i := GroupIndex(gs, KeyOf(o));
      if i < 0 {
        AddItemsShape(NewGroup(o), its);
        HasGroupAppend(gs, AddItems(NewGroup(o), its), key);
      } else {
        AddItemsShape(gs[i], its);
        HasGroupUpdate(gs, i, AddItems(gs[i], its), key);
      }
    }
  }

  /** One order keeps the group keys distinct. */
  lemma AddOrderKeysDistinct(gs: seq<Group>, o: Order)
    requires KeysDistinct(gs)
    ensures KeysDistinct(AddOrder(gs, o))
  {
    var its := Survivors(o.items);
    if its != [] {
      var i := GroupIndex(gs, KeyOf(o));
      if i < 0 {
        AddItemsShape(NewGroup(o), its);
      } else {
        AddItemsShape(gs[i], its);
      }
    }
  }

  /** The groups hold exactly the keys that were bought, each once. */
  lemma {:induction false} GroupedKeys(orders: seq<Order>)
    ensures KeysDistinct(Grouped(orders))
    ensures forall key :: HasGroup(Grouped(orders), key) <==> Buys(orders, key)
    decreases |orders|
  {
    if orders != [] {
      var init := orders[..|orders| - 1];
      var o := orders[|orders| - 1];
      GroupedKeys(init);
      assert Grouped(orders) == AddOrder(Grouped(init), o);
      AddOrderKeysDistinct(Grouped(init), o);
      forall key ensures HasGroup(Grouped(orders), key) <==> Buys(orders, key) {
        BuysSnoc(orders, key);
        AddOrderHasGroup(Grouped(init), o, key);
      }
    }
  }

  /** The group a new buyer opens is well formed, sums the buyer's order and shows the buyer. */
  lemma NewGroupFacts(orders: seq<Order>)
    requires orders != [] && Survivors(orders[|orders| - 1].items) != []
    requires !Buys(orders[..|orders| - 1], KeyOf(orders[|orders| - 1]))
    ensures var o := orders[|orders| - 1]; var g := AddItems(NewGroup(o), Survivors(o.items));
      WellFormed(g) && Agrees(orders, g) && NamedBy(orders, g.key, g.userName, g.phone)
  {
    var o := orders[|orders| - 1];
    var its := Survivors(o.items);
    var g := AddItems(NewGroup(o), its);
    SurvivorsSurvive(o.items);
    AddItemsShape(NewGroup(o), its);
    AddItemsWellFormed(NewGroup(o), its);
    AgreesNew(orders);
    assert NamedBy(orders, g.key, g.userName, g.phone) by {
      assert KeyOf(orders[|orders| - 1]) == g.key;
    }
  }

  /** The group an order of a known buyer extends stays well formed, sums the buyer's orders and shows a buyer. */
  lemma ExtendedGroupFacts(orders: seq<Order>, g0: Group)
    requires orders != [] && g0.key == KeyOf(orders[|orders| - 1])
    requires var init := orders[..|orders| - 1];
      WellFormed(g0) && Agrees(init, g0) && NamedBy(init, g0.key, g0.userName, g0.phone)
    ensures var g := AddItems(g0, Survivors(orders[|orders| - 1].items));
      WellFormed(g) && Agrees(orders, g) && NamedBy(orders, g.key, g.userName, g.phone)
  {
    var its := Survivors(orders[|orders| - 1].items);
    SurvivorsSurvive(orders[|orders| - 1].items);
    AddItemsShape(g0, its);
    AddItemsWellFormed(g0, its);
    AgreesExtended(orders, g0);
    NamedByKept(orders, g0);
  }

  /** Where an order with surviving items lands: a new group at the end, or its key's group replaced. */
  lemma AddOrderShape(gs: seq<Group>, o: Order)
    requires Survivors(o.items) != []
    ensures var k := GroupIndex(gs, KeyOf(o)); var its := Survivors(o.items); var r := AddOrder(gs, o);
      && (k < 0 ==> |r| == |gs| + 1 && r[|gs|] == AddItems(NewGroup(o), its)
                    && forall i :: 0 <= i < |gs| ==> r[i] == gs[i])
      && (k >= 0 ==> |r| == |gs| && r[k] == AddItems(gs[k], its)
                     && forall i :: 0 <= i < |gs| && i != k ==> r[i] == gs[i])
  {
  }

  /** A group of another buyer keeps its facts when an order is appended. */
  lemma KeptGroupFacts(orders: seq<Order>, g: Group)
    requires orders != [] && g.key != KeyOf(orders[|orders| - 1])
    requires var init := orders[..|orders| - 1];
      WellFormed(g) && Agrees(init, g) && NamedBy(init, g.key, g.userName, g.phone)
    ensures WellFormed(g) && Agrees(orders, g) && NamedBy(orders, g.key, g.userName, g.phone)
  {
    AgreesKept(orders, g);
    NamedByKept(orders, g);
  }

  /** An order with surviving items keeps every group well formed, summing its key and showing a buyer of it. */
  lemma GroupedBuy(orders: seq<Order>)
    requires orders != [] && Survivors(orders[|orders| - 1].items) != []
    requires var init := orders[..|orders| - 1];
      && (forall i :: 0 <= i < |Grouped(init)| ==> WellFormed(Grouped(init)[i]))
      && (forall i :: 0 <= i < |Grouped(init)| ==> Agrees(init, Grouped(init)[i]))
      && (forall i :: 0 <= i < |Grouped(init)| ==>
            NamedBy(init, Grouped(init)[i].key, Grouped(init)[i].userName, Grouped(init)[i].phone))
    ensures forall i :: 0 <= i < |Grouped(orders)| ==> WellFormed(Grouped(orders)[i])
    ensures forall i :: 0 <= i < |Grouped(orders)| ==> Agrees(orders, Grouped(orders)[i])
    ensures forall i :: 0 <= i < |Grouped(orders)| ==> NamedBy(orders, Grouped(orders)[i].key, Grouped(orders)[i].userName, Grouped(orders)[i].phone)
  {
    var init := orders[..|orders| - 1];
    GroupedKeys(init);
    assert Grouped(orders) == AddOrder(Grouped(init), orders[|orders| - 1]);
    AddOrderFacts(orders, Grouped(init));
  }

  /** The step of `GroupedBuy` on any groups keyed exactly by the earlier orders' buyers. */
  lemma AddOrderFacts(orders: seq<Order>, gs0: seq<Group>)
    requires orders != [] && Survivors(orders[|orders| - 1].items) != []
    requires var init := orders[..|orders| - 1];
      && KeysDistinct(gs0) && (forall key :: HasGroup(gs0, key) <==> Buys(init, key))
      && (forall i :: 0 <= i < |gs0| ==> WellFormed(gs0[i]))
      && (forall i :: 0 <= i < |gs0| ==> Agrees(init, gs0[i]))
      && (forall i :: 0 <= i < |gs0| ==> NamedBy(init, gs0[i].key, gs0[i].userName, gs0[i].phone))
    ensures var gs := AddOrder(gs0, orders[|orders| - 1]);
      forall i :: 0 <= i < |gs| ==>
        WellFormed(gs[i]) && Agrees(orders, gs[i]) && NamedBy(orders, gs[i].key, gs[i].userName, gs[i].phone)
  {
    var o := orders[|orders| - 1];
    var gs := AddOrder(gs0, o);
    var k := GroupIndex(gs0, KeyOf(o));
    var touched := if k < 0 then |gs0| else k;
    TouchedGroup(orders, gs0);
    forall i | 0 <= i < |gs|
      ensures WellFormed(gs[i]) && Agrees(orders, gs[i]) && NamedBy(orders, gs[i].key, gs[i].userName, gs[i].phone)
    {
      if i != touched {
        OtherGroupKept(orders, gs0, i);
      }
    }
  }

  /** The group the order lands in, new or extended, has the facts of its buyer. */
  lemma TouchedGroup(orders: seq<Order>, gs0: seq<Group>)
    requires orders != [] && Survivors(orders[|orders| - 1].items) != []
    requires var init := orders[..|orders| - 1];
      && (forall key :: HasGroup(gs0, key) <==> Buys(init, key))
      && (forall i :: 0 <= i < |gs0| ==> WellFormed(gs0[i]))
      && (forall i :: 0 <= i < |gs0| ==> Agrees(init, gs0[i]))
      && (forall i :: 0 <= i < |gs0| ==> NamedBy(init, gs0[i].key, gs0[i].userName, gs0[i].phone))
    ensures var o := orders[|orders| - 1]; var k := GroupIndex(gs0, KeyOf(o));
      var touched := if k < 0 then |gs0| else k; var gs := AddOrder(gs0, o);
      && touched < |gs|
      && WellFormed(gs[touched]) && Agrees(orders, gs[touched])
      && NamedBy(orders, gs[touched].key, gs[touched].userName, gs[touched].phone)
  {
    var o := orders[|orders| - 1];
    AddOrderShape(gs0, o);
    var k := GroupIndex(gs0, KeyOf(o));
    if k < 0 {
      assert !HasGroup(gs0, KeyOf(o));
      NewGroupFacts(orders);
    } else {
      ExtendedGroupFacts(orders, gs0[k]);
    }
  }

  /** A group the order does not touch keeps its facts. */
  lemma OtherGroupKept(orders: seq<Order>, gs0: seq<Group>, i: int)
    requires orders != [] && Survivors(orders[|orders| - 1].items) != []
    requires var init := orders[..|orders| - 1];
      && KeysDistinct(gs0) && 0 <= i < |gs0|
      && WellFormed(gs0[i]) && Agrees(init, gs0[i]) && NamedBy(init, gs0[i].key, gs0[i].userName, gs0[i].phone)
    requires var k := GroupIndex(gs0, KeyOf(orders[|orders| - 1])); k < 0 || i != k
    ensures var g := AddOrder(gs0, orders[|orders| - 1])[i];
      WellFormed(g) && Agrees(orders, g) && NamedBy(orders, g.key, g.userName, g.phone)
  {
    var o := orders[|orders| - 1];
    AddOrderShape(gs0, o);
    var k := GroupIndex(gs0, KeyOf(o));
    assert gs0[i].key != KeyOf(o) by {
      if k >= 0 {
        assert gs0[k].key == KeyOf(o);
      }
    }
    KeptGroupFacts(orders, gs0[i]);
  }

  /** Every group is well formed, its sums are those of its key, and it shows a buyer of its key. */
  lemma {:induction false} GroupedFacts(orders: seq<Order>)
    ensures forall i :: 0 <= i < |Grouped(orders)| ==> WellFormed(Grouped(orders)[i])
    ensures forall i :: 0 <= i < |Grouped(orders)| ==> Agrees(orders, Grouped(orders)[i])
    ensures forall i :: 0 <= i < |Grouped(orders)| ==> NamedBy(orders, Grouped(orders)[i].key, Grouped(orders)[i].userName, Grouped(orders)[i].phone)
    decreases |orders|
  {
    if orders != [] {
      var init := orders[..|orders| - 1];
      var o := orders[|orders| - 1];
      GroupedFacts(init);
      if Survivors(o.items) == [] {
        var gs := Grouped(orders);
        assert gs == AddOrder(Grouped(init), o) == Grouped(init);
        forall i | 0 <= i < |gs| ensures Agrees(orders, gs[i]) && NamedBy(orders, gs[i].key, gs[i].userName, gs[i].phone) {
          AgreesKept(orders, gs[i]);
          NamedByKept(orders, gs[i]);
        }
      } else {
        GroupedBuy(orders);
      }
    }
  }

  // ---------------------------------------------------------------------------
  // The rows of the page
  // ---------------------------------------------------------------------------

  datatype CustomerRow = CustomerRow(key: string, userName: string, phone: string, totalQty: int, items: seq<Line>)

  function ProductOf(l: Line): string {
    l.0
  }

  function NameOf(r: CustomerRow): string {
    r.userName
  }

  function KeyOfRow(r: CustomerRow): string {
    r.key
  }

  /** A group as a row: its items sorted by product. */
  function ToRow(g: Group): CustomerRow {
    CustomerRow(g.key, g.userName, g.phone, g.totalQty, Collation.SortBy(g.items, ProductOf))
  }

  function RowsOfGroups(gs: seq<Group>): (r: seq<CustomerRow>)
    ensures |r| == |gs| && forall i :: 0 <= i < |r| ==> r[i] == ToRow(gs[i])
  {
    seq(|gs|, i requires 0 <= i < |gs| => ToRow(gs[i]))
  }

  /** `buildCustomerRows`: the groups as rows, sorted by name. */
  function CustomerRows(orders: seq<Order>): (r: seq<CustomerRow>)
    ensures Collation.SortedBy(r, NameOf)
  {
    Collation.SortBy(RowsOfGroups(Grouped(orders)), NameOf)
  }

  /**
   * What a row promises: its items sorted by product, each product once, named and
   * positive; its total the sum of its items and of every surviving quantity under its
   * key; each product's quantity summed over all the buyer's orders; and the name and
   * phone of one of the buyer's orders.
   */
  ghost predicate RowFaithful(orders: seq<Order>, r: CustomerRow) {
    && Collation.SortedBy(r.items, ProductOf)
    && AssocList.DistinctKeys(r.items)
    && (forall j :: 0 <= j < |r.items| ==> Survives(r.items[j]))
    && r.totalQty == AssocList.Sum(r.items)
    && r.totalQty == KeyTotal(orders, r.key)
    && (forall p :: AssocList.Lookup(r.items, p).GetOr(0) == KeyProductTotal(orders, r.key, p))
    && NamedBy(orders, r.key, r.userName, r.phone)
  }

  lemma RowOfGroup(orders: seq<Order>, g: Group)
    requires WellFormed(g) && Agrees(orders, g) && NamedBy(orders, g.key, g.userName, g.phone)
    ensures RowFaithful(orders, ToRow(g))
  {
    var sorted := Collation.SortBy(g.items, ProductOf);
    AssocList.DistinctKeysPermutation(g.items, sorted);
    AssocList.SumPermutation(g.items, sorted);
    forall j | 0 <= j < |sorted| ensures Survives(sorted[j]) {
      assert sorted[j] in multiset(g.items);
    }
    forall p ensures AssocList.Lookup(sorted, p) == AssocList.Lookup(g.items, p) {
      AssocList.LookupPermutation(g.items, sorted, p);
    }
  }

  /** The rows are sorted by name and each keeps the promises of `RowFaithful`. */
  lemma CustomerRowsFaithful(orders: seq<Order>)
    ensures Collation.SortedBy(CustomerRows(orders), NameOf)
    ensures forall i :: 0 <= i < |CustomerRows(orders)| ==> RowFaithful(orders, CustomerRows(orders)[i])
  {
    var gs := Grouped(orders);
    var rows := CustomerRows(orders);
    GroupedFacts(orders);
    forall i | 0 <= i < |rows| ensures RowFaithful(orders, rows[i]) {
      var m := SortedRowSource(gs, i);
      RowOfGroup(orders, gs[m]);
    }
  }

  /** Each sorted row is the row of some group. */
  lemma SortedRowSource(gs: seq<Group>, i: int) returns (m: int)
    requires 0 <= i < |Collation.SortBy(RowsOfGroups(gs), NameOf)|
    ensures 0 <= m < |gs| && Collation.SortBy(RowsOfGroups(gs), NameOf)[i] == ToRow(gs[m])
  {
    var unsorted := RowsOfGroups(gs);
    var rows := Collation.SortBy(unsorted, NameOf);
    assert rows[i] in multiset(unsorted);
    m :| 0 <= m < |unsorted| && unsorted[m] == rows[i];
  }

  predicate HasRow(rows: seq<CustomerRow>, key: string) {
    exists i :: 0 <= i < |rows| && rows[i].key == key
  }

  /** Sorting keeps the set of keys. */
  lemma RowsOfGroupsKeys(gs: seq<Group>, rows: seq<CustomerRow>, key: string)
    requires multiset(rows) == multiset(RowsOfGroups(gs))
    ensures HasRow(rows, key) <==> HasGroup(gs, key)
  {
    var unsorted := RowsOfGroups(gs);
    if HasRow(rows, key) {
      var i :| 0 <= i < |rows| && rows[i].key == key;
      assert rows[i] in multiset(unsorted);
      var m :| 0 <= m < |unsorted| && unsorted[m] == rows[i];
      assert gs[m].key == key;
    }
    if HasGroup(gs, key) {
      var m :| 0 <= m < |gs| && gs[m].key == key;
      assert unsorted[m] in multiset(rows);
      var i :| 0 <= i < |rows| && rows[i] == unsorted[m];
      assert rows[i].key == key;
    }
  }

  /** One row per key that was bought: no key twice, and every buyer's key has its row. */
  lemma CustomerRowsKeys(orders: seq<Order>)
    ensures Seqs.DistinctBy(CustomerRows(orders), KeyOfRow)
    ensures forall key :: HasRow(CustomerRows(orders), key) <==> Buys(orders, key)
  {
    var gs := Grouped(orders);
    var unsorted := RowsOfGroups(gs);
    var rows := CustomerRows(orders);
    GroupedKeys(orders);
    assert Seqs.DistinctBy(unsorted, KeyOfRow) by {
      assert KeysDistinct(gs);
    }
    Seqs.DistinctByPermutation(unsorted, rows, KeyOfRow);
    forall key ensures HasRow(rows, key) <==> Buys(orders, key) {
      RowsOfGroupsKeys(gs, rows, key);
    }
  }

  lemma AddItemsSnoc(g: Group, its: seq<Line>, j: int)
    requires 0 <= j < |its|
    ensures AddItems(g, its[..j + 1]) == AddItem(AddItems(g, its[..j]), its[j])
  {
    assert its[..j + 1][..j] == its[..j];
  }

  lemma GroupedSnoc(orders: seq<Order>, i: int)
    requires 0 <= i < |orders|
    ensures Grouped(orders[..i + 1]) == AddOrder(Grouped(orders[..i]), orders[i])
  {
    assert orders[..i + 1][..i] == orders[..i];
  }

  /** An order of a new key appends a group and adds its items to it. */
  lemma AddOrderAppends(before: seq<Group>, o: Order)
    requires Survivors(o.items) != [] && GroupIndex(before, KeyOf(o)) < 0
    ensures AddOrder(before, o) == before + [AddItems(NewGroup(o), Survivors(o.items))]
  {
  }

  /** An order of a known key adds its items to that key's group. */
  lemma AddOrderExtends(before: seq<Group>, o: Order)
    requires Survivors(o.items) != [] && GroupIndex(before, KeyOf(o)) >= 0
    ensures var idx := GroupIndex(before, KeyOf(o));
      AddOrder(before, o) == before[idx := AddItems(before[idx], Survivors(o.items))]
  {
  }

  /** The inner `forEach` of `buildCustomerRows`: one order's surviving items added to the buyer's entry. */
  method MergeItems(g: Group, its: seq<Line>) returns (row: Group)
    ensures row == AddItems(g, its)
  {
    row := g;
    var j := 0;
    while j < |its|
      invariant 0 <= j <= |its|
      invariant row == AddItems(g, its[..j])
    {
      AddItemsSnoc(g, its, j);
      row := AddItem(row, its[j]);
      j := j + 1;
    }
    assert its[..j] == its;
  }

  /** The body of the outer `forEach`: one order's surviving items merged into `grouped` in place. */
  method MergeOrder(grouped: seq<Group>, order: Order) returns (next: seq<Group>)
    ensures next == AddOrder(grouped, order)
  {
    next := grouped;
    var normalized := Survivors(order.items);
    if |normalized| > 0 {
      var key := KeyOf(order);
      var idx := GroupIndex(next, key);
      if idx < 0 {
        AddOrderAppends(grouped, order);
        next := next + [NewGroup(order)];
        idx := |next| - 1;
      } else {
        AddOrderExtends(grouped, order);
      }
      // `row` stands for the entry of `grouped` that the inner loop updates.
      var row := MergeItems(next[idx], normalized);
      next := next[idx := row];
    }
  }

  /** The imperative `buildCustomerRows`: the `forEach` over orders fills the `grouped` Map in place. */
  method BuildCustomerRows(orders: seq<Order>) returns (rows: seq<CustomerRow>)
    ensures rows == CustomerRows(orders)
  {
    var grouped: seq<Group> := [];
    var i := 0;
    while i < |orders|
      invariant 0 <= i <= |orders|
      invariant grouped == Grouped(orders[..i])
    {
      GroupedSnoc(orders, i);
      grouped := MergeOrder(grouped, orders[i]);
      i := i + 1;
    }
    assert orders[..i] == orders;
    rows := Collation.SortBy(RowsOfGroups(grouped), NameOf);
  }

  // ---------------------------------------------------------------------------
  // Loading the page
  // ---------------------------------------------------------------------------

  datatype PageState =
    | CampaignNotFound
    | OrdersNotRead
    | Loaded(campaignName: string, rows: seq<CustomerRow>)

  /**
   * `fetchData`: the campaign by id (`maybeSingle`), then its orders with their rows.
   * `campaign` is `None` when the read fails or finds nothing; `orders` is `None` when
   * the orders cannot be read.
   */
  function LoadPage(campaign: Option<Store.Campaign>, orders: Option<seq<Order>>): (r: PageState)
    ensures campaign.None? ==> r == CampaignNotFound
    ensures campaign.Some? && orders.None? ==> r == OrdersNotRead
    ensures campaign.Some? && orders.Some? ==> r == Loaded(OrDash(campaign.value.name), CustomerRows(orders.value))
    ensures r.Loaded? ==> r.campaignName != "" && r.rows == CustomerRows(orders.value)
  {
    if campaign.None? then CampaignNotFound
    else if orders.None? then OrdersNotRead
    else Loaded(OrDash(campaign.value.name), CustomerRows(orders.value))
  }

  // ---------------------------------------------------------------------------
  // One buyer's spreadsheet
  // ---------------------------------------------------------------------------

  /** The characters `sanitizeFileName` replaces by `_`: `\ / : * ? " < > |`. */
  predicate IsReserved(c: char) {
    c == '\\' || c == '/' || c == ':' || c == '*' || c == '?' || c == '"' || c == '<' || c == '>' || c == '|'
  }

  function ReplaceReserved(s: string): (r: string)
    ensures |r| == |s|
    ensures forall i :: 0 <= i < |s| ==> r[i] == if IsReserved(s[i]) then '_' else s[i]
  {
    seq(|s|, i requires 0 <= i < |s| => if IsReserved(s[i]) then '_' else s[i])
  }

  /** `sanitizeFileName`: trim, reserved characters to `_`, every run of white space to one `_`. */
  function SanitizeFileName(value: string): (r: string)
    ensures |r| <= |value|
    ensures Text.HasNoSpace(r)
  {
    Text.ReplaceSpaceRuns(ReplaceReserved(Text.Trim(value)), '_')
  }

  /**
   * A sanitised name has no white space and no reserved character, and it is empty
   * exactly when the name was blank.
   */
  lemma SanitizedIsSafe(value: string)
    ensures Text.HasNoSpace(SanitizeFileName(value))
    ensures forall i :: 0 <= i < |SanitizeFileName(value)| ==> !IsReserved(SanitizeFileName(value)[i])
    ensures SanitizeFileName(value) == "" <==> Text.IsBlank(value)
  {
    SanitizedUnreserved(value);
    SanitizedEmpty(value);
  }

  /** A sanitised name has no reserved character. */
  lemma SanitizedUnreserved(value: string)
    ensures forall i :: 0 <= i < |SanitizeFileName(value)| ==> !IsReserved(SanitizeFileName(value)[i])
  {
    var u := ReplaceReserved(Text.Trim(value));
    assert forall i :: 0 <= i < |u| ==> !IsReserved(u[i]);
    SpaceRunsKeepUnreserved(u);
  }

  /** A sanitised name is empty exactly when the name is blank. */
  lemma SanitizedEmpty(value: string)
    ensures SanitizeFileName(value) == "" <==> Text.IsBlank(value)
  {
    var t := Text.Trim(value);
    var u := ReplaceReserved(t);
    assert Text.ReplaceSpaceRuns(u, '_') == [] <==> t == [];
  }

  /** Replacing runs of white space by `_` brings in no reserved character. */
  lemma SpaceRunsKeepUnreserved(u: string)
    requires forall i :: 0 <= i < |u| ==> !IsReserved(u[i])
    ensures forall i :: 0 <= i < |Text.ReplaceSpaceRuns(u, '_')| ==> !IsReserved(Text.ReplaceSpaceRuns(u, '_')[i])
  {
    var r := Text.ReplaceSpaceRuns(u, '_');
    Text.ReplaceSpaceRunsChars(u, '_');
    forall i | 0 <= i < |r| ensures !IsReserved(r[i]) {
      if r[i] != '_' {
        var j :| 0 <= j < |u| && u[j] == r[i];
      }
    }
  }

  /** A name that is already safe is kept, so sanitising twice changes nothing. */
  lemma SanitizeIdempotent(value: string)
    ensures SanitizeFileName(SanitizeFileName(value)) == SanitizeFileName(value)
  {
    var r := SanitizeFileName(value);
    SanitizedIsSafe(value);
    assert Text.Trim(r) == r;
    assert ReplaceReserved(r) == r;
  }

  /** `${safeCampaign}_${safeCustomer}_Orders.xlsx`, the buyer named by name, else phone, else `customer`. */
  function CustomerFileName(campaignName: string, row: CustomerRow): (r: string)
    ensures |r| >= |"_Orders.xlsx"| && r[|r| - |"_Orders.xlsx"|..] == "_Orders.xlsx"
  {
    var who := if row.userName != "" then row.userName else if row.phone != "" then row.phone else "customer";
    SanitizeFileName(campaignName) + "_" + SanitizeFileName(who) + "_Orders.xlsx"
  }

  /** No reserved character and no white space. */
  predicate SafeName(s: string) {
    Text.HasNoSpace(s) && forall i :: 0 <= i < |s| ==> !IsReserved(s[i])
  }

  lemma SafeConcat(a: string, b: string)
    requires SafeName(a) && SafeName(b)
    ensures SafeName(a + b)
  {
    forall i | 0 <= i < |a + b| ensures !Text.IsSpace((a + b)[i]) && !IsReserved((a + b)[i]) {
      if i >= |a| {
        assert (a + b)[i] == b[i - |a|];
      }
    }
  }

  lemma SuffixSafe()
    ensures SafeName("_") && SafeName("_Orders.xlsx")
  {
    var t := "_Orders.xlsx";
    forall i | 0 <= i < |t| ensures !Text.IsSpace(t[i]) && !IsReserved(t[i]) {
      assert t[i] in {'_', 'O', 'r', 'd', 'e', 's', '.', 'x', 'l'};
    }
  }

  /** A buyer's file name is safe to write: no reserved character and no white space anywhere in it. */
  lemma CustomerFileNameIsSafe(campaignName: string, row: CustomerRow)
    ensures Text.HasNoSpace(CustomerFileName(campaignName, row))
    ensures forall i :: 0 <= i < |CustomerFileName(campaignName, row)| ==> !IsReserved(CustomerFileName(campaignName, row)[i])
  {
    var who := if row.userName != "" then row.userName else if row.phone != "" then row.phone else "customer";
    var a := SanitizeFileName(campaignName);
    var b := SanitizeFileName(who);
    SanitizedIsSafe(campaignName);
    SanitizedIsSafe(who);
    SuffixSafe();
    SafeConcat(a, "_");
    SafeConcat(a + "_", b);
    SafeConcat(a + "_" + b, "_Orders.xlsx");
    assert CustomerFileName(campaignName, row) == a + "_" + b + "_Orders.xlsx";
  }

  /** `handleDownloadCustomer`: nothing for a row without items, else one sheet row per item. */
  function CustomerSheet(campaignName: string, row: CustomerRow): (r: Option<seq<Campane.ExportRow>>)
    ensures r.None? <==> row.items == []
    ensures r.Some? ==> |r.value| == |row.items| && forall i :: 0 <= i < |r.value| ==>
      r.value[i] == Campane.ExportRow(campaignName, row.userName, row.phone, row.items[i].0, row.items[i].1)
  {
    if row.items == [] then None
    else Some(seq(|row.items|, i requires 0 <= i < |row.items| =>
      Campane.ExportRow(campaignName, row.userName, row.phone, row.items[i].0, row.items[i].1)))
  }

  /** Every row of the page has items, so every buyer can be downloaded. */
  lemma EveryRowDownloads(orders: seq<Order>, campaignName: string)
    ensures forall r :: r in CustomerRows(orders) ==> CustomerSheet(campaignName, r).Some?
  {
    var rows := CustomerRows(orders);
    CustomerRowsFaithful(orders);
    forall r | r in rows ensures r.items != [] {
      var i :| 0 <= i < |rows| && rows[i] == r;
      FaithfulRowHasItems(orders, r);
    }
  }

  /** A faithful row shows a buyer, so it sums to a positive total and has items. */
  lemma FaithfulRowHasItems(orders: seq<Order>, r: CustomerRow)
    requires RowFaithful(orders, r)
    ensures r.items != []
  {
    var j :| (
      && 0 <= j < |orders| && KeyOf(orders[j]) == r.key && Survivors(orders[j].items) != []
      && r.userName == OrDash(orders[j].userName) && r.phone == OrDash(orders[j].phone));
    KeyTotalPositive(orders, r.key, j);
  }

  lemma {:induction false} LinesTotalPositive(its: seq<Line>)
    requires forall i :: 0 <= i < |its| ==> Survives(its[i])
    ensures its != [] ==> LinesTotal(its) > 0
    ensures LinesTotal(its) >= 0
    decreases |its|
  {
    if its != [] {
      LinesTotalPositive(its[..|its| - 1]);
    }
  }

  /** A key with a surviving item has a positive total. */
  lemma {:induction false} KeyTotalPositive(orders: seq<Order>, key: string, j: int)
    requires 0 <= j < |orders| && KeyOf(orders[j]) == key && Survivors(orders[j].items) != []
    ensures KeyTotal(orders, key) > 0
    decreases |orders|
  {
    var init := orders[..|orders| - 1];
    var o := orders[|orders| - 1];
    SurvivorsSurvive(o.items);
    LinesTotalPositive(Survivors(o.items));
    if j < |init| {
      assert init[j] == orders[j];
      KeyTotalPositive(init, key, j);
    } else {
      KeyTotalNonNegative(init, key);
    }
  }

  lemma {:induction false} KeyTotalNonNegative(orders: seq<Order>, key: string)
    ensures KeyTotal(orders, key) >= 0
    decreases |orders|
  {
    if orders != [] {
      KeyTotalNonNegative(orders[..|orders| - 1], key);
      SurvivorsSurvive(orders[|orders| - 1].items);
      LinesTotalPositive(Survivors(orders[|orders| - 1].items));
    }
  }
}
