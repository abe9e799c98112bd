/**
 * The payment page (`src/pages/PaymentChoice/PaymentChoice.jsx`): the buyer picks
 * cash or check settlement, the page reprices the order by that method's rate of the
 * achieved package, and confirming marks the order `submitted`.
 */
module PaymentChoice {
  import opened Wrappers
  import opened JsNumber
  import AssocList
  import Store
  import CampaignPage
  import OrderItemSync

  /** `paymentType`: `''`, `'cash'` or `'check'`. */
  datatype Choice = NoChoice | CashChoice | CheckChoice

  // ---------------------------------------------------------------------------
  // Rates and amounts
  // ---------------------------------------------------------------------------

  /** `Number(achievedPackage?.cash_discount_percent || 0)`. */
  function CashRate(achieved: Option<CampaignPage.CarriedPackage>): real {
    if achieved.None? then 0.0 else achieved.value.cash
  }

  /** `Number(achievedPackage?.check_discount_percent || 0)`. */
  function CheckRate(achieved: Option<CampaignPage.CarriedPackage>): real {
    if achieved.None? then 0.0 else achieved.value.check
  }

  function CashAmount(s: CampaignPage.CarriedSummary): (r: real)
    ensures s.achieved.None? ==> r == 0.0
    ensures s.subTotal >= 0.0 && CashRate(s.achieved) >= 0.0 ==> r >= 0.0
    ensures s.subTotal >= 0.0 && CashRate(s.achieved) <= 100.0 ==> r <= s.subTotal
  {
    s.subTotal * (CashRate(s.achieved) / 100.0)
  }

  function CheckAmount(s: CampaignPage.CarriedSummary): (r: real)
    ensures s.achieved.None? ==> r == 0.0
    ensures s.subTotal >= 0.0 && CheckRate(s.achieved) >= 0.0 ==> r >= 0.0
    ensures s.subTotal >= 0.0 && CheckRate(s.achieved) <= 100.0 ==> r <= s.subTotal
  {
    s.subTotal * (CheckRate(s.achieved) / 100.0)
  }

  /** With no package reached both methods give nothing off. */
  lemma NoPackageNoDiscount(s: CampaignPage.CarriedSummary)
    requires s.achieved.None?
    ensures CashRate(s.achieved) == 0.0 && CheckRate(s.achieved) == 0.0
    ensures CashAmount(s) == 0.0 && CheckAmount(s) == 0.0
  {
  }

  /** `Math.max(0, cashDiscountAmount - checkDiscountAmount)`. */
  function ExtraCashBenefit(s: CampaignPage.CarriedSummary): (r: real)
    ensures r >= 0.0
    ensures r > 0.0 <==> CashAmount(s) > CheckAmount(s)
  {
    MaxReal(0.0, CashAmount(s) - CheckAmount(s))
  }

  datatype SelectedSummary = SelectedSummary(totalItems: int, subTotal: real, discount: real, payable: real,
                                             choice: Choice)

  function SelectedDiscount(s: CampaignPage.CarriedSummary, choice: Choice): real {
    match choice
    case CheckChoice => CheckAmount(s)
    case CashChoice => CashAmount(s)
    case NoChoice => 0.0
  }

  /** `selectedSummary`: the order repriced by the chosen method. */
  function Select(s: CampaignPage.CarriedSummary, choice: Choice): (r: SelectedSummary)
    ensures r.payable >= 0.0
    ensures r.totalItems == s.totalItems && r.subTotal == s.subTotal && r.choice == choice
    ensures choice == NoChoice ==> r.discount == 0.0 && r.payable == MaxReal(0.0, s.subTotal)
    ensures choice == CashChoice ==> r.discount == CashAmount(s)
    ensures choice == CheckChoice ==> r.discount == CheckAmount(s)
    ensures r.payable == MaxReal(0.0, s.subTotal - r.discount)
  {
    var d := SelectedDiscount(s, choice);
    SelectedSummary(s.totalItems, s.subTotal, d, MaxReal(0.0, s.subTotal - d), choice)
  }

  /** The hint under the buttons: shown only for check settlement when cash would give more. */
  predicate ShowsCashHint(s: CampaignPage.CarriedSummary, choice: Choice) {
    choice == CheckChoice && ExtraCashBenefit(s) > 0.0
  }

  /** When the hint is shown, switching to cash never costs more. */
  lemma CashHintMeansCashIsCheaper(s: CampaignPage.CarriedSummary)
    requires ShowsCashHint(s, CheckChoice)
    ensures Select(s, CashChoice).payable <= Select(s, CheckChoice).payable
    ensures Select(s, CashChoice).discount - Select(s, CheckChoice).discount == ExtraCashBenefit(s)
  {
  }

  /**
   * Cash settlement charges what the product page showed: with packages whose carried
   * cash rate is their discount percentage, the cash discount and payable amount equal
   * the product page's.
   */
  lemma CashMatchesProductPage(catalog: seq<CampaignPage.Product>, q: CampaignPage.Quantities,
                               tiers: seq<CampaignPage.Tier>)
    requires AssocList.NonNegative(q) && CampaignPage.PricesNonNegative(catalog)
    requires forall i :: 0 <= i < |tiers| ==>
      CampaignPage.WellFormedTier(tiers[i]) && CampaignPage.CashRateIsDiscount(tiers[i])
    ensures var s := CampaignPage.Carried(catalog, q, tiers);
      Select(s, CashChoice).discount == s.discount && Select(s, CashChoice).payable == s.payable
  {
    if CampaignPage.NothingToPrice(CampaignPage.TotalItems(q), CampaignPage.SubTotal(catalog, q), tiers) {
      CashMatchesUnpriced(catalog, q, tiers);
    } else {
      CashMatchesPriced(catalog, q, tiers);
    }
  }

  lemma CashMatchesUnpriced(catalog: seq<CampaignPage.Product>, q: CampaignPage.Quantities,
                            tiers: seq<CampaignPage.Tier>)
    requires AssocList.NonNegative(q) && CampaignPage.PricesNonNegative(catalog)
    requires forall i :: 0 <= i < |tiers| ==> CampaignPage.WellFormedTier(tiers[i])
    requires CampaignPage.NothingToPrice(CampaignPage.TotalItems(q), CampaignPage.SubTotal(catalog, q), tiers)
    ensures var s := CampaignPage.Carried(catalog, q, tiers);
      Select(s, CashChoice).discount == s.discount && Select(s, CashChoice).payable == s.payable
  {
    var total := CampaignPage.TotalItems(q);
    CampaignPage.TotalsNonNegative(catalog, q);
    CampaignPage.AchievedPackageAgrees(total, tiers);
    if total <= 0 && tiers != [] {
      assert CampaignPage.AchievedIndex(total, tiers) == -1;
    }
  }

  lemma CashMatchesPriced(catalog: seq<CampaignPage.Product>, q: CampaignPage.Quantities,
                          tiers: seq<CampaignPage.Tier>)
    requires AssocList.NonNegative(q) && CampaignPage.PricesNonNegative(catalog)
    requires forall i :: 0 <= i < |tiers| ==>
      CampaignPage.WellFormedTier(tiers[i]) && CampaignPage.CashRateIsDiscount(tiers[i])
    requires !CampaignPage.NothingToPrice(CampaignPage.TotalItems(q), CampaignPage.SubTotal(catalog, q), tiers)
    ensures var s := CampaignPage.Carried(catalog, q, tiers);
      Select(s, CashChoice).discount == s.discount && Select(s, CashChoice).payable == s.payable
  {
    var s := CampaignPage.Carried(catalog, q, tiers);
    var total := CampaignPage.TotalItems(q);
    var sub := CampaignPage.SubTotal(catalog, q);
    var a := CampaignPage.AchievedIndex(total, tiers);
    CampaignPage.CarriedParts(catalog, q, tiers);
    CampaignPage.SummaryDiscount(total, sub, tiers);
    if a >= 0 {
      assert CampaignPage.CashRateIsDiscount(tiers[a]);
    }
  }

  /** Packages normalised from the store satisfy the premise above, whichever mapping produced them. */
  lemma NormalizedPackagesQualify(raw: seq<CampaignPage.RawPackage>)
    ensures var tiers := CampaignPage.NormalizePackages(raw);
      forall i :: 0 <= i < |tiers| ==> CampaignPage.WellFormedTier(tiers[i]) && CampaignPage.CashRateIsDiscount(tiers[i])
    ensures var tiers := CampaignPage.NormalizePackagesAsWritten(raw);
      forall i :: 0 <= i < |tiers| ==> CampaignPage.WellFormedTier(tiers[i]) && CampaignPage.CashRateIsDiscount(tiers[i])
  {
    CampaignPage.NormalizedCashRateIsDiscount(raw);
  }

  // ---------------------------------------------------------------------------
  // Pricing the order's rows for the pro-forma invoice
  // ---------------------------------------------------------------------------

  /** A `campaign_products` row as read here: `name` and `base_price`. */
  type PriceRow = (string, RawNumber)

  /** `Number(base_price || 0)`, then `|| 0` on reading it: zero for null and for a value that is not a number. */
  function PriceValue(x: RawNumber): real {
    FromRaw(x).GetOr(0.0)
  }

  /** `new Map(rows.map(p => [p.name, ...])).get(name)`: the last row with that name wins. */
  function PriceMapGet(rows: seq<PriceRow>, name: string): (r: Option<real>)
    ensures r.None? <==> forall i :: 0 <= i < |rows| ==> rows[i].0 != name
    ensures r.Some? ==> exists i :: (0 <= i < |rows| && rows[i].0 == name && r.value == PriceValue(rows[i].1)
      && forall j :: i < j < |rows| ==> rows[j].0 != name)
  {
    if rows == [] then None
    else if rows[|rows| - 1].0 == name then Some(PriceValue(rows[|rows| - 1].1))
    else
      var r := PriceMapGet(rows[..|rows| - 1], name);
      assert forall i :: 0 <= i < |rows| - 1 ==> rows[..|rows| - 1][i] == rows[i];
      r
  }

  datatype PricedLine = PricedLine(product: string, quantity: int, unitPrice: real, total: real)

  /** The unit price of a product name: zero when no product of the campaign has it. */
  function UnitPrice(rows: seq<PriceRow>, name: string): (r: real)
    ensures (forall i :: 0 <= i < |rows| ==> rows[i].0 != name) ==> r == 0.0
  {
    PriceMapGet(rows, name).GetOr(0.0)
  }

  /** The `normalized` invoice lines; a failed product read prices every line at zero. */
  function PriceLines(items: seq<OrderItemSync.Line>, products: Option<seq<PriceRow>>): (r: seq<PricedLine>)
    ensures |r| == |items|
    ensures forall i :: 0 <= i < |r| ==> r[i].product == items[i].0 && r[i].quantity == items[i].1
    ensures forall i :: 0 <= i < |r| ==> r[i].total == r[i].unitPrice * r[i].quantity as real
    ensures forall i :: 0 <= i < |r| ==> r[i].unitPrice == UnitPrice(products.GetOr([]), items[i].0)
    ensures products.None? ==> forall i :: 0 <= i < |r| ==> r[i].unitPrice == 0.0 && r[i].total == 0.0
  {
    var rows := products.GetOr([]);
    seq(|items|, i requires 0 <= i < |items| =>
      var price := UnitPrice(rows, items[i].0);
      PricedLine(items[i].0, items[i].1, price, price * items[i].1 as real))
  }

  /** The invoice table: the lines, or one placeholder line when there are none. */
  function InvoiceRows(lines: seq<PricedLine>): (r: seq<PricedLine>)
    ensures r != []
    ensures lines != [] ==> r == lines
    ensures lines == [] ==> r == [PricedLine("-", 0, 0.0, 0.0)]
  {
    if lines == [] then [PricedLine("-", 0, 0.0, 0.0)] else lines
  }

  // ---------------------------------------------------------------------------
  // Downloading and confirming
  // ---------------------------------------------------------------------------

  /**
   * `handleDownloadProforma`: nothing without a choice or while a download runs;
   * otherwise the invoice rows it renders (the rendering itself is not modelled).
   */
  function HandleDownload(choice: Choice, downloadLoading: bool, lines: seq<PricedLine>)
    : (r: Option<seq<PricedLine>>)
    ensures r.None? <==> choice == NoChoice || downloadLoading
    ensures r.Some? ==> r.value != [] && (lines != [] ==> r.value == lines)
  {
    if choice == NoChoice || downloadLoading then None else Some(InvoiceRows(lines))
  }

  /** `handleConfirm` returns at once while a request runs or without a choice. */
  predicate ConfirmIgnored(choice: Choice, loading: bool) {
    loading || choice == NoChoice
  }

  function PaymentTypeOf(choice: Choice): Store.PaymentType
    requires choice != NoChoice
  {
    if choice == CashChoice then Store.Cash else Store.Check
  }

  datatype ConfirmOutcome = Ignored | NotSubmitted | ToThanks(summary: SelectedSummary)

  /**
   * `handleConfirm`: `submitted` with the payment type; when that update fails, once
   * more with the status alone; when that fails too, the page stays.
   */
  method Confirm(db: Store.Db, loading: bool, choice: Choice, orderId: Store.Id, s: CampaignPage.CarriedSummary,
                 firstFails: bool, fallbackFails: bool)
    returns (outcome: ConfirmOutcome)
    requires db.Valid()
    modifies db
    ensures db.Valid()
    ensures db.campaigns == old(db.campaigns) && db.packages == old(db.packages) && db.items == old(db.items)
    ensures ConfirmIgnored(choice, loading) ==> outcome == Ignored && unchanged(db)
    ensures !ConfirmIgnored(choice, loading) && !firstFails ==>
      outcome == ToThanks(Select(s, choice)) &&
      db.orders == Store.UpdateOrders(old(db.orders), orderId,
                                      Store.OrderPatch("submitted", Some(PaymentTypeOf(choice))))
    ensures !ConfirmIgnored(choice, loading) && firstFails && !fallbackFails ==>
      outcome == ToThanks(Select(s, choice)) &&
      db.orders == Store.UpdateOrders(old(db.orders), orderId, Store.OrderPatch("submitted", None))
    ensures !ConfirmIgnored(choice, loading) && firstFails && fallbackFails ==>
      outcome == NotSubmitted && unchanged(db)
    ensures outcome.ToThanks? ==>
      forall i :: 0 <= i < |db.orders| ==>
        db.orders[i].id == orderId ==> db.orders[i].status == Some("submitted")
  {
    if ConfirmIgnored(choice, loading) {
      return Ignored;
    }
    var first := Store.OrderPatch("submitted", Some(PaymentTypeOf(choice)));
    var ok := db.UpdateOrder(orderId, first, firstFails);
    if !ok {
      var fallback := Store.OrderPatch("submitted", None);
      var fallbackOk := db.UpdateOrder(orderId, fallback, fallbackFails);
      if !fallbackOk {
        return NotSubmitted;
      }
      Store.UpdateOrdersStatus(old(db.orders), orderId, fallback);
    } else {
      Store.UpdateOrdersStatus(old(db.orders), orderId, first);
    }
    outcome := ToThanks(Select(s, choice));
  }
}
