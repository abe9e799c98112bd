/**
 * The product page of a campaign (`src/pages/CampaignPage/CampaignPage.jsx`): the
 * buyer picks quantities, and the page prices the order against the campaign's
 * packages. A package (tier) grants its discount percentage once the order holds at
 * least its minimum number of items.
 */
module CampaignPage {
  import opened Wrappers
  import opened JsNumber
  import Text
  import Seqs
  import AssocList
  import Store
  import Welcome

  type ProductId = string

  /** The `quantities` object: product id to quantity, in insertion order, one entry per id. */
  type Quantities = seq<(ProductId, int)>

  datatype Product = Product(id: ProductId, name: string, price: real)

  /**
   * A package as the page keeps it after normalisation. `cash` and `check` are
   * `Number(...)` of the stored rates, `None` where that is not a finite number.
   */
  datatype Tier = Tier(title: string, minQty: real, cash: Option<real>, check: Option<real>, discount: real)

  predicate WellFormedTier(t: Tier) {
    t.title != "" && t.minQty > 0.0 && t.discount >= 0.0
  }

  /** Thresholds that do not decrease, the order the store returns packages in. */
  predicate Ascending(tiers: seq<Tier>) {
    forall i, j :: 0 <= i < j < |tiers| ==> tiers[i].minQty <= tiers[j].minQty
  }

  predicate Reaches(total: int, t: Tier) {
    total as real >= t.minQty
  }

  // ---------------------------------------------------------------------------
  // The achieved and the next package
  // ---------------------------------------------------------------------------

  /** `packages.reduce((acc, pkg, index) => total >= pkg.min_qty ? index : acc, -1)` from position `i` on. */
  function AchievedFrom(total: int, tiers: seq<Tier>, i: nat, acc: int): (r: int)
    requires i <= |tiers|
    ensures r == acc || i <= r < |tiers|
    decreases |tiers| - i
  {
    if i == |tiers| then acc
    else AchievedFrom(total, tiers, i + 1, if Reaches(total, tiers[i]) then i else acc)
  }

  lemma {:induction false} AchievedFromIsLastReached(total: int, tiers: seq<Tier>, i: nat, acc: int)
    requires i <= |tiers| && -1 <= acc < i
    requires acc >= 0 ==> Reaches(total, tiers[acc])
    requires forall j :: acc < j < i ==> !Reaches(total, tiers[j])
    ensures var r := AchievedFrom(total, tiers, i, acc);
      && acc <= r < |tiers|
      && (r >= 0 ==> Reaches(total, tiers[r]))
      && (forall j :: r < j < |tiers| ==> !Reaches(total, tiers[j]))
    decreases |tiers| - i
  {
    if i < |tiers| {
      AchievedFromIsLastReached(total, tiers, i + 1, if Reaches(total, tiers[i]) then i else acc);
    }
  }

  /** The index of the achieved package: the last one whose threshold the total reaches, or -1. */
  function AchievedIndex(total: int, tiers: seq<Tier>): (r: int)
    ensures -1 <= r < |tiers|
    ensures r >= 0 ==> Reaches(total, tiers[r])
    ensures forall j :: r < j < |tiers| ==> !Reaches(total, tiers[j])
    ensures r == -1 <==> forall j :: 0 <= j < |tiers| ==> !Reaches(total, tiers[j])
  {
    AchievedFromIsLastReached(total, tiers, 0, -1);
    AchievedFrom(total, tiers, 0, -1)
  }

  /** A larger order never falls back to an earlier package. */
  lemma AchievedMonotone(t1: int, t2: int, tiers: seq<Tier>)
    requires t1 <= t2
    ensures AchievedIndex(t1, tiers) <= AchievedIndex(t2, tiers)
  {
    var a1 := AchievedIndex(t1, tiers);
    if a1 >= 0 {
      assert Reaches(t2, tiers[a1]);
    }
  }

  /** With ascending thresholds the achieved package has the greatest threshold the total reaches. */
  lemma AchievedIsGreatestThreshold(total: int, tiers: seq<Tier>)
    requires Ascending(tiers)
    ensures var a := AchievedIndex(total, tiers);
      && (a == -1 <==> tiers == [] || !Reaches(total, tiers[0]))
      && (a >= 0 ==> forall j :: 0 <= j < |tiers| && Reaches(total, tiers[j]) ==> tiers[j].minQty <= tiers[a].minQty)
      && (a >= 0 ==> forall j :: 0 <= j <= a ==> Reaches(total, tiers[j]))
  {
  }

  /** `packages.findIndex(pkg => total < pkg.min_qty)`: the first package not yet reached, or -1. */
  function NextIndex(total: int, tiers: seq<Tier>): (r: int)
    ensures -1 <= r < |tiers|
    ensures r >= 0 ==> !Reaches(total, tiers[r]) && forall j :: 0 <= j < r ==> Reaches(total, tiers[j])
    ensures r == -1 <==> forall j :: 0 <= j < |tiers| ==> Reaches(total, tiers[j])
  {
    if tiers == [] then -1
    else if !Reaches(total, tiers[0]) then 0
    else
      var k := NextIndex(total, tiers[1..]);
      if k == -1 then -1 else k + 1
  }

  /** With ascending thresholds the next package is the one right after the achieved one. */
  lemma NextFollowsAchieved(total: int, tiers: seq<Tier>)
    requires Ascending(tiers)
    ensures var a := AchievedIndex(total, tiers);
      NextIndex(total, tiers) == if a + 1 == |tiers| then -1 else a + 1
  {
    var a := AchievedIndex(total, tiers);
    if a + 1 < |tiers| {
      assert !Reaches(total, tiers[a + 1]);
    }
  }

  /** `packages.reduce((acc, pkg) => total >= pkg.min_qty ? pkg : acc, null)` from position `i` on. */
  function AchievedPackageFrom(total: int, tiers: seq<Tier>, i: nat, acc: Option<Tier>): Option<Tier>
    requires i <= |tiers|
    decreases |tiers| - i
  {
    if i == |tiers| then acc
    else AchievedPackageFrom(total, tiers, i + 1, if Reaches(total, tiers[i]) then Some(tiers[i]) else acc)
  }

  function AchievedPackage(total: int, tiers: seq<Tier>): Option<Tier> {
    AchievedPackageFrom(total, tiers, 0, None)
  }

  lemma {:induction false} AchievedPackageFromAgrees(total: int, tiers: seq<Tier>, i: nat, acc: int)
    requires i <= |tiers| && -1 <= acc < |tiers|
    ensures var r := AchievedFrom(total, tiers, i, acc);
      AchievedPackageFrom(total, tiers, i, if acc >= 0 then Some(tiers[acc]) else None)
        == if r >= 0 then Some(tiers[r]) else None
    decreases |tiers| - i
  {
    if i < |tiers| {
      var next := if Reaches(total, tiers[i]) then i else acc;
      AchievedPackageFromAgrees(total, tiers, i + 1, next);
    }
  }

  /** The package the page shows as reached is the one at the achieved index. */
  lemma AchievedPackageAgrees(total: int, tiers: seq<Tier>)
    ensures var a := AchievedIndex(total, tiers);
      AchievedPackage(total, tiers) == if a >= 0 then Some(tiers[a]) else None
  {
    AchievedPackageFromAgrees(total, tiers, 0, -1);
  }

  // ---------------------------------------------------------------------------
  // `calculateOrderSummary`
  // ---------------------------------------------------------------------------

  datatype Summary = Summary(discount: real, payable: real, active: Option<Tier>, remaining: real, progress: real)

  /** The guard of `calculateOrderSummary`: no items, nothing to pay, or no packages. */
  predicate NothingToPrice(totalItems: int, subTotal: real, tiers: seq<Tier>) {
    totalItems <= 0 || subTotal <= 0.0 || tiers == []
  }

  function OrderSummary(totalItems: int, subTotal: real, tiers: seq<Tier>): (r: Summary)
    ensures r.payable >= 0.0
    ensures 0.0 <= r.progress <= 100.0
  {
    if NothingToPrice(totalItems, subTotal, tiers) then
      Summary(0.0, MaxReal(0.0, subTotal),
              if tiers == [] then None else Some(tiers[0]),
              if tiers == [] then 0.0 else tiers[0].minQty,
              0.0)
    else
      var a := AchievedIndex(totalItems, tiers);
      var discount := if a >= 0 then subTotal * (tiers[a].discount / 100.0) else 0.0;
      var n := NextIndex(totalItems, tiers);
      var active := tiers[if n == -1 then |tiers| - 1 else n];
      var target := active.minQty;
      var progress :=
        if n == -1 then 100.0
        else MinReal(100.0, (Max(totalItems, 0) as real / MaxReal(1.0, target)) * 100.0);
      var remaining := if n == -1 then 0.0 else MaxReal(0.0, target - totalItems as real);
      Summary(discount, MaxReal(0.0, subTotal - discount), Some(active), remaining, progress)
  }

  /** Without items, amount or packages there is no discount and no progress, and the first package is the goal. */
  lemma SummaryWhenNothingToPrice(totalItems: int, subTotal: real, tiers: seq<Tier>)
    requires NothingToPrice(totalItems, subTotal, tiers)
    ensures var r := OrderSummary(totalItems, subTotal, tiers);
      && r.discount == 0.0 && r.payable == MaxReal(0.0, subTotal) && r.progress == 0.0
      && r.active == (if tiers == [] then None else Some(tiers[0]))
      && r.remaining == (if tiers == [] then 0.0 else tiers[0].minQty)
  {
  }

  /** The discount is the achieved package's share of the subtotal, and the payable amount what is left of it. */
  lemma SummaryDiscount(totalItems: int, subTotal: real, tiers: seq<Tier>)
    requires !NothingToPrice(totalItems, subTotal, tiers)
    ensures var r := OrderSummary(totalItems, subTotal, tiers);
      var a := AchievedIndex(totalItems, tiers);
      && (a >= 0 ==> r.discount == subTotal * (tiers[a].discount / 100.0))
      && (a < 0 ==> r.discount == 0.0)
      && r.payable == MaxReal(0.0, subTotal - r.discount)
  {
  }

  /**
   * Progress towards the next package: complete with nothing remaining once every
   * package is reached, otherwise below 100 with a positive number of items to go.
   */
  lemma SummaryProgress(totalItems: int, subTotal: real, tiers: seq<Tier>)
    requires !NothingToPrice(totalItems, subTotal, tiers)
    ensures var r := OrderSummary(totalItems, subTotal, tiers);
      var n := NextIndex(totalItems, tiers);
      && (n == -1 ==> r.progress == 100.0 && r.remaining == 0.0 && r.active == Some(tiers[|tiers| - 1]))
      && (n >= 0 ==>
            && r.active == Some(tiers[n])
            && r.remaining == tiers[n].minQty - totalItems as real > 0.0
            && r.progress == totalItems as real / tiers[n].minQty * 100.0 < 100.0)
  {
    var n := NextIndex(totalItems, tiers);
    if n >= 0 {
      var m := tiers[n].minQty;
      assert 1.0 <= totalItems as real < m;
      assert MaxReal(1.0, m) == m;
      assert Max(totalItems, 0) as real == totalItems as real;
      ShareBelowWhole(totalItems as real, m);
    }
  }

  /** A part below the whole is less than 100 percent of it. */
  lemma ShareBelowWhole(part: real, whole: real)
    requires 0.0 <= part < whole
    ensures part / whole * 100.0 < 100.0
  {
    assert part / whole < 1.0;
  }

  /** With percentages up to 100 the discount never exceeds the subtotal, so nothing is clamped. */
  lemma DiscountWithinSubtotal(totalItems: int, subTotal: real, tiers: seq<Tier>)
    requires forall i :: 0 <= i < |tiers| ==> 0.0 <= tiers[i].discount <= 100.0
    requires subTotal >= 0.0
    ensures var r := OrderSummary(totalItems, subTotal, tiers);
      0.0 <= r.discount <= subTotal && r.payable == subTotal - r.discount
  {
    if !NothingToPrice(totalItems, subTotal, tiers) {
      var a := AchievedIndex(totalItems, tiers);
      if a >= 0 {
        var d := tiers[a].discount;
        assert subTotal * (d / 100.0) <= subTotal * 1.0;
      }
    }
  }

  /**
   * This page accepts any percentage from 0 up, so a reached package of 100 percent
   * or more makes the order free.
   */
  lemma LargeDiscountMakesOrderFree(totalItems: int, subTotal: real, tiers: seq<Tier>)
    requires !NothingToPrice(totalItems, subTotal, tiers)
    requires AchievedIndex(totalItems, tiers) >= 0 && tiers[AchievedIndex(totalItems, tiers)].discount >= 100.0
    ensures OrderSummary(totalItems, subTotal, tiers).payable == 0.0
  {
    var d := tiers[AchievedIndex(totalItems, tiers)].discount;
    assert subTotal * (d / 100.0) >= subTotal * 1.0;
  }

  /** Three packages priced at 30 items and a subtotal of 3,000,000. */
  lemma SummaryExample()
    ensures var tiers := [Tier("Bronze", 12.0, Some(5.0), Some(3.0), 5.0),
                          Tier("Silver", 24.0, Some(8.0), Some(6.0), 8.0),
                          Tier("Gold", 48.0, Some(12.0), Some(10.0), 12.0)];
      var r := OrderSummary(30, 3000000.0, tiers);
      && r.discount == 240000.0 && r.payable == 2760000.0
      && r.active == Some(tiers[2]) && r.remaining == 18.0 && r.progress == 62.5
  {
    var tiers := [Tier("Bronze", 12.0, Some(5.0), Some(3.0), 5.0),
                  Tier("Silver", 24.0, Some(8.0), Some(6.0), 8.0),
                  Tier("Gold", 48.0, Some(12.0), Some(10.0), 12.0)];
    assert AchievedIndex(30, tiers) == 1;
    assert NextIndex(30, tiers) == 2;
  }

  // ---------------------------------------------------------------------------
  // Normalising the packages read from the store
  // ---------------------------------------------------------------------------

  /** A `campaign_packages` row as read: a missing title is `""`, numbers are raw cells. */
  datatype RawPackage = RawPackage(title: string, minQty: RawNumber, discount: RawNumber, cash: RawNumber, check: RawNumber)

  /** The object built by the `.map(...)` step, before the `.filter(...)` step. */
  datatype Candidate = Candidate(title: string, minQty: Option<real>, cash: Option<real>, check: Option<real>,
                                 discount: Option<real>)

  /**
   * The mapping as written: the cash rate is used whenever `Number(cash)` is finite,
   * and `Number(null)` is `0`, so a row without a cash rate gets discount 0.
   */
  function CandidateAsWritten(p: RawPackage): Candidate {
    var cash := FromRaw(p.cash);
    Candidate(Text.Trim(p.title), FromRaw(p.minQty), cash, FromRaw(p.check),
              if cash.Some? then cash else FromRaw(p.discount))
  }

  /** The mapping with the fallback meant for a missing cash rate: only a stored number overrides `discount_percent`. */
  function CandidateOf(p: RawPackage): Candidate {
    Candidate(Text.Trim(p.title), FromRaw(p.minQty), FromRaw(p.cash), FromRaw(p.check),
              if p.cash.Finite? then Some(p.cash.value) else FromRaw(p.discount))
  }

  predicate Keeps(c: Candidate) {
    c.title != "" && c.minQty.Some? && c.minQty.value > 0.0 && c.discount.Some? && c.discount.value >= 0.0
  }

  function ToTier(c: Candidate): Tier
    requires Keeps(c)
  {
    Tier(c.title, c.minQty.value, c.cash, c.check, c.discount.value)
  }

  /** The `.filter(...)` step: the candidates with a title, a positive threshold and a non-negative discount. */
  function KeepTiers(cs: seq<Candidate>): (r: seq<Tier>)
    ensures |r| <= |cs|
    ensures forall i :: 0 <= i < |r| ==> WellFormedTier(r[i])
  {
    var kept := Seqs.Filter(cs, Keeps);
    seq(|kept|, i requires 0 <= i < |kept| => ToTier(kept[i]))
  }

  /** Whatever holds of the tier of every candidate that passes the filter holds of every tier kept. */
  lemma KeepTiersSound(cs: seq<Candidate>, p: Tier -> bool)
    requires forall j :: 0 <= j < |cs| && Keeps(cs[j]) ==> p(ToTier(cs[j]))
    ensures forall i :: 0 <= i < |KeepTiers(cs)| ==> p(KeepTiers(cs)[i])
  {
    var kept := Seqs.Filter(cs, Keeps);
    var r := KeepTiers(cs);
    forall i | 0 <= i < |r| ensures p(r[i]) {
      assert r[i] == ToTier(kept[i]) && Keeps(kept[i]);
      var j :| 0 <= j < |cs| && cs[j] == kept[i];
      assert Keeps(cs[j]) && r[i] == ToTier(cs[j]);
    }
  }

  /** Every candidate that passes the filter is kept. */
  lemma KeepTiersComplete(cs: seq<Candidate>)
    ensures forall j :: 0 <= j < |cs| && Keeps(cs[j]) ==> ToTier(cs[j]) in KeepTiers(cs)
  {
    var kept := Seqs.Filter(cs, Keeps);
    var r := KeepTiers(cs);
    forall j | 0 <= j < |cs| && Keeps(cs[j]) ensures ToTier(cs[j]) in r {
      var k :| 0 <= k < |kept| && kept[k] == cs[j];
      assert r[k] == ToTier(kept[k]);
    }
  }

  /** A single candidate becomes the single tier when it passes the filter, and nothing otherwise. */
  lemma KeepTiersSingle(c: Candidate)
    ensures Keeps(c) ==> KeepTiers([c]) == [ToTier(c)]
    ensures !Keeps(c) ==> KeepTiers([c]) == []
  {
    Seqs.FilterCons([c], Keeps);
    assert [c][1..] == [];
  }

  /** The tiers kept from two runs of rows are those of the first run followed by those of the second. */
  lemma KeepTiersConcat(a: seq<Candidate>, b: seq<Candidate>)
    ensures KeepTiers(a + b) == KeepTiers(a) + KeepTiers(b)
  {
    Seqs.FilterConcat(a, b, Keeps);
    var ka, kb := Seqs.Filter(a, Keeps), Seqs.Filter(b, Keeps);
    var l, r := KeepTiers(a + b), KeepTiers(a) + KeepTiers(b);
    assert |l| == |ka| + |kb| == |r|;
    forall i | 0 <= i < |l| ensures l[i] == r[i] {
      if i < |ka| {
        assert (ka + kb)[i] == ka[i];
      } else {
        assert (ka + kb)[i] == kb[i - |ka|];
      }
    }
  }

  function CandidatesAsWritten(raw: seq<RawPackage>): seq<Candidate> {
    seq(|raw|, i requires 0 <= i < |raw| => CandidateAsWritten(raw[i]))
  }

  function Candidates(raw: seq<RawPackage>): seq<Candidate> {
    seq(|raw|, i requires 0 <= i < |raw| => CandidateOf(raw[i]))
  }

  /** The packages as the page computes them from the rows read. */
  function NormalizePackagesAsWritten(raw: seq<RawPackage>): (r: seq<Tier>)
    ensures |r| <= |raw|
    ensures forall i :: 0 <= i < |r| ==> WellFormedTier(r[i])
  {
    KeepTiers(CandidatesAsWritten(raw))
  }

  /** The packages with the intended fallback; the rest of the model prices with these. */
  function NormalizePackages(raw: seq<RawPackage>): (r: seq<Tier>)
    ensures |r| <= |raw|
    ensures forall i :: 0 <= i < |r| ==> WellFormedTier(r[i])
  {
    KeepTiers(Candidates(raw))
  }

  lemma CandidatesConcat(a: seq<RawPackage>, b: seq<RawPackage>)
    ensures Candidates(a + b) == Candidates(a) + Candidates(b)
    ensures CandidatesAsWritten(a + b) == CandidatesAsWritten(a) + CandidatesAsWritten(b)
  {
    var c, w := Candidates(a + b), CandidatesAsWritten(a + b);
    assert |c| == |Candidates(a) + Candidates(b)|;
    forall i | 0 <= i < |c| ensures c[i] == (Candidates(a) + Candidates(b))[i] && w[i] == (CandidatesAsWritten(a) + CandidatesAsWritten(b))[i] {
      if i < |a| {
        assert (a + b)[i] == a[i];
      } else {
        assert (a + b)[i] == b[i - |a|];
      }
    }
  }

  /** Both mappings treat the rows read one after another: store order is kept, and each row gives at most one tier. */
  lemma NormalizePackagesConcat(a: seq<RawPackage>, b: seq<RawPackage>)
    ensures NormalizePackages(a + b) == NormalizePackages(a) + NormalizePackages(b)
    ensures NormalizePackagesAsWritten(a + b) == NormalizePackagesAsWritten(a) + NormalizePackagesAsWritten(b)
  {
    CandidatesConcat(a, b);
    KeepTiersConcat(Candidates(a), Candidates(b));
    KeepTiersConcat(CandidatesAsWritten(a), CandidatesAsWritten(b));
  }

  /** One row read gives its own tier when its candidate passes the filter, and nothing otherwise, in both mappings. */
  lemma NormalizePackagesSingle(p: RawPackage)
    ensures Keeps(CandidateOf(p)) ==> NormalizePackages([p]) == [ToTier(CandidateOf(p))]
    ensures !Keeps(CandidateOf(p)) ==> NormalizePackages([p]) == []
    ensures Keeps(CandidateAsWritten(p)) ==> NormalizePackagesAsWritten([p]) == [ToTier(CandidateAsWritten(p))]
    ensures !Keeps(CandidateAsWritten(p)) ==> NormalizePackagesAsWritten([p]) == []
  {
    assert Candidates([p]) == [CandidateOf(p)];
    assert CandidatesAsWritten([p]) == [CandidateAsWritten(p)];
    KeepTiersSingle(CandidateOf(p));
    KeepTiersSingle(CandidateAsWritten(p));
  }

  /** Rows in ascending order of threshold, as `.order('min_qty', { ascending: true })` returns them. */
  predicate RawAscending(raw: seq<RawPackage>) {
    forall i, j :: 0 <= i < j < |raw| && raw[i].minQty.Finite? && raw[j].minQty.Finite? ==>
      raw[i].minQty.value <= raw[j].minQty.value
  }

  predicate MinQtyLe(a: Candidate, b: Candidate) {
    a.minQty.Some? && b.minQty.Some? ==> a.minQty.value <= b.minQty.value
  }

  lemma KeepTiersAscending(cs: seq<Candidate>)
    requires forall i, j :: 0 <= i < j < |cs| && Keeps(cs[i]) && Keeps(cs[j]) ==> MinQtyLe(cs[i], cs[j])
    ensures Ascending(KeepTiers(cs))
  {
    Seqs.FilterPairwise(cs, Keeps, MinQtyLe);
  }

  /** Normalising keeps the store's ascending order, in both mappings. */
  lemma NormalizedAscending(raw: seq<RawPackage>)
    requires RawAscending(raw)
    ensures Ascending(NormalizePackages(raw))
    ensures Ascending(NormalizePackagesAsWritten(raw))
  {
    var cs := Candidates(raw);
    var ws := CandidatesAsWritten(raw);
    forall i, j | 0 <= i < j < |cs| && Keeps(cs[i]) && Keeps(cs[j]) ensures MinQtyLe(cs[i], cs[j]) {
      assert raw[i].minQty.Finite? && raw[j].minQty.Finite?;
    }
    forall i, j | 0 <= i < j < |ws| && Keeps(ws[i]) && Keeps(ws[j]) ensures MinQtyLe(ws[i], ws[j]) {
      assert raw[i].minQty.Finite? && raw[j].minQty.Finite?;
    }
    KeepTiersAscending(cs);
    KeepTiersAscending(ws);
  }

  /** A row with a rate stored for cash purchases is normalised the same way by both mappings. */
  lemma MappingsAgreeWithCashRate(p: RawPackage)
    requires !p.cash.Null?
    ensures CandidateAsWritten(p) == CandidateOf(p)
  {
  }

  // ---------------------------------------------------------------------------
  // Normalising the catalog
  // ---------------------------------------------------------------------------

  /** A `campaign_products` row as read; a missing name is `""`. */
  datatype RawProduct = RawProduct(id: ProductId, name: string, basePrice: RawNumber)

  predicate WellFormedProduct(p: Product) {
    p.name != "" && p.price > 0.0
  }

  /** The object built by the `.map(...)` step over the rows read. */
  datatype ProductCandidate = ProductCandidate(id: ProductId, name: string, price: Option<real>)

  function ToCandidate(p: RawProduct): ProductCandidate {
    ProductCandidate(p.id, Text.Trim(p.name), FromRaw(p.basePrice))
  }

  predicate Usable(c: ProductCandidate) {
    c.name != "" && c.price.Some? && c.price.value > 0.0
  }

  function ToProduct(c: ProductCandidate): Product
    requires Usable(c)
  {
    Product(c.id, c.name, c.price.value)
  }

  /** The `.filter(...)` step: trimmed names that are not empty, finite positive prices. */
  function KeepProducts(cs: seq<ProductCandidate>): (r: seq<Product>)
    ensures |r| <= |cs|
    ensures forall i :: 0 <= i < |r| ==> WellFormedProduct(r[i])
    ensures forall j :: 0 <= j < |cs| && Usable(cs[j]) ==> ToProduct(cs[j]) in r
  {
    var kept := Seqs.Filter(cs, Usable);
    var r := seq(|kept|, i requires 0 <= i < |kept| => ToProduct(kept[i]));
    assert forall j :: 0 <= j < |cs| && Usable(cs[j]) ==> ToProduct(cs[j]) in r by {
      forall j | 0 <= j < |cs| && Usable(cs[j]) ensures ToProduct(cs[j]) in r {
        var k :| 0 <= k < |kept| && kept[k] == cs[j];
        assert r[k] == ToProduct(cs[j]);
      }
    }
    r
  }

  /** `p` is the product of one of the usable candidates `cs`. */
  predicate ProductOfUsable(cs: seq<ProductCandidate>, p: Product) {
    exists j :: 0 <= j < |cs| && Usable(cs[j]) && p == ToProduct(cs[j])
  }

  /** Every product kept is the product of a usable candidate read. */
  lemma KeepProductsSound(cs: seq<ProductCandidate>)
    ensures forall i :: 0 <= i < |KeepProducts(cs)| ==> ProductOfUsable(cs, KeepProducts(cs)[i])
  {
    var kept := Seqs.Filter(cs, Usable);
    var r := KeepProducts(cs);
    assert |r| == |kept| && forall i :: 0 <= i < |r| ==> r[i] == ToProduct(kept[i]);
    forall i | 0 <= i < |r| ensures ProductOfUsable(cs, r[i]) {
      var j :| 0 <= j < |cs| && cs[j] == kept[i];
      assert Usable(cs[j]) && r[i] == ToProduct(cs[j]);
    }
  }

  /** The kept products of two runs of rows are those of the first run followed by those of the second. */
  lemma KeepProductsConcat(a: seq<ProductCandidate>, b: seq<ProductCandidate>)
    ensures KeepProducts(a + b) == KeepProducts(a) + KeepProducts(b)
  {
    Seqs.FilterConcat(a, b, Usable);
    var ka, kb := Seqs.Filter(a, Usable), Seqs.Filter(b, Usable);
    var l, r := KeepProducts(a + b), KeepProducts(a) + KeepProducts(b);
    assert |l| == |ka| + |kb| == |r|;
    forall i | 0 <= i < |l| ensures l[i] == r[i] {
      if i < |ka| {
        assert (ka + kb)[i] == ka[i];
      } else {
        assert (ka + kb)[i] == kb[i - |ka|];
      }
    }
  }

  /** One row is kept as its product when it is usable and dropped otherwise. */
  lemma KeepProductsSingle(c: ProductCandidate)
    ensures Usable(c) ==> KeepProducts([c]) == [ToProduct(c)]
    ensures !Usable(c) ==> KeepProducts([c]) == []
  {
    Seqs.FilterCons([c], Usable);
    assert [c][1..] == [];
  }

  function ProductCandidates(raw: seq<RawProduct>): seq<ProductCandidate> {
    seq(|raw|, i requires 0 <= i < |raw| => ToCandidate(raw[i]))
  }

  /**
   * The catalog the page shows: the fallback list when the read fails or leaves no
   * usable product, otherwise the usable products read.
   */
  function Catalog(fetched: Option<seq<RawProduct>>, fallback: seq<Product>): (r: seq<Product>)
    ensures fetched.None? ==> r == fallback
    ensures r == fallback || (r != [] && forall i :: 0 <= i < |r| ==> WellFormedProduct(r[i]))
    ensures fetched.Some? && KeepProducts(ProductCandidates(fetched.value)) != [] ==>
      r == KeepProducts(ProductCandidates(fetched.value))
    ensures fetched.Some? && KeepProducts(ProductCandidates(fetched.value)) == [] ==> r == fallback
  {
    if fetched.None? then fallback
    else
      var kept := KeepProducts(ProductCandidates(fetched.value));
      if kept == [] then fallback else kept
  }

  // ---------------------------------------------------------------------------
  // Quantities and totals
  // ---------------------------------------------------------------------------

  /** `Number(quantities[id]) || 0`. */
  function QuantityOf(q: Quantities, id: ProductId): int {
    AssocList.Lookup(q, id).GetOr(0)
  }

  /** `Object.values(quantities).reduce((sum, qty) => sum + (Number(qty) || 0), 0)`. */
  function TotalItems(q: Quantities): int {
    AssocList.Sum(q)
  }

  predicate PricesNonNegative(catalog: seq<Product>) {
    forall i :: 0 <= i < |catalog| ==> catalog[i].price >= 0.0
  }

  lemma QuantityNonNegative(q: Quantities, id: ProductId)
    requires AssocList.NonNegative(q)
    ensures QuantityOf(q, id) >= 0
  {
    var r := AssocList.Lookup(q, id);
    if r.Some? {
      var i :| 0 <= i < |q| && q[i] == (id, r.value);
    }
  }

  /** The subtotal: each catalog product's quantity times its price, summed in catalog order. */
  function SubTotal(catalog: seq<Product>, q: Quantities): (r: real)
    ensures AssocList.NonNegative(q) && PricesNonNegative(catalog) ==> r >= 0.0
  {
    if catalog == [] then 0.0
    else
      var last := catalog[|catalog| - 1];
      var init := catalog[..|catalog| - 1];
      assert forall i :: 0 <= i < |init| ==> init[i] == catalog[i];
      assert AssocList.NonNegative(q) ==> QuantityOf(q, last.id) >= 0 by {
        if AssocList.NonNegative(q) { QuantityNonNegative(q, last.id); }
      }
      SubTotal(init, q) + QuantityOf(q, last.id) as real * last.price
  }

  /** `handleQuantityChange(id, value)`: stores `Math.max(0, Number(value) || 0)` under `id`. */
  function HandleQuantityChange(prev: Quantities, id: ProductId, value: Option<int>): (next: Quantities)
    ensures AssocList.Lookup(next, id) == Some(Max(0, value.GetOr(0)))
    ensures forall other :: other != id ==> AssocList.Lookup(next, other) == AssocList.Lookup(prev, other)
    ensures AssocList.NonNegative(prev) ==> AssocList.NonNegative(next)
    ensures AssocList.DistinctKeys(prev) ==> AssocList.DistinctKeys(next)
    ensures AssocList.DistinctKeys(prev) ==>
      TotalItems(next) == TotalItems(prev) - QuantityOf(prev, id) + Max(0, value.GetOr(0))
  {
    var v := Max(0, value.GetOr(0));
    var next := AssocList.Put(prev, id, v);
    assert forall other :: AssocList.Lookup(next, other) == if other == id then Some(v) else AssocList.Lookup(prev, other) by {
      forall other { AssocList.LookupPut(prev, id, v, other); }
    }
    assert AssocList.NonNegative(prev) ==> AssocList.NonNegative(next) by {
      if AssocList.NonNegative(prev) { AssocList.PutNonNegative(prev, id, v); }
    }
    assert AssocList.DistinctKeys(prev) ==>
        (AssocList.DistinctKeys(next) && TotalItems(next) == TotalItems(prev) - QuantityOf(prev, id) + v) by {
      if AssocList.DistinctKeys(prev) {
        AssocList.PutDistinct(prev, id, v);
        AssocList.SumPut(prev, id, v);
      }
    }
    next
  }

  /** Quantities kept by edits alone are never negative, and neither are the totals. */
  lemma TotalsNonNegative(catalog: seq<Product>, q: Quantities)
    requires AssocList.NonNegative(q) && PricesNonNegative(catalog)
    ensures TotalItems(q) >= 0 && SubTotal(catalog, q) >= 0.0
  {
    AssocList.SumNonNegative(q);
  }

  // ---------------------------------------------------------------------------
  // Submitting
  // ---------------------------------------------------------------------------

  /** `campaignPackages[0]?.min_qty ?? 12`. */
  function MinimumRequired(tiers: seq<Tier>): (r: real)
    ensures tiers == [] ==> r == 12.0
    ensures Ascending(tiers) ==> forall i :: 0 <= i < |tiers| ==> r <= tiers[i].minQty
    ensures tiers != [] ==> exists i :: 0 <= i < |tiers| && r == tiers[i].minQty
  {
    if tiers == [] then 12.0 else tiers[0].minQty
  }

  /** The submit button: `disabled={loading || totalItems < minimumRequiredItems}`. */
  predicate SubmitEnabled(loading: bool, totalItems: int, tiers: seq<Tier>): (r: bool)
    ensures r ==> !loading
    ensures tiers == [] ==> (r <==> !loading && totalItems >= 12)
    ensures Ascending(tiers) && tiers != [] ==> (r <==> !loading && Reaches(totalItems, tiers[0]))
  {
    !loading && totalItems as real >= MinimumRequired(tiers)
  }

  /** When the button is enabled, an order against any package has reached at least the first one. */
  lemma EnabledReachesFirstPackage(loading: bool, totalItems: int, tiers: seq<Tier>)
    requires SubmitEnabled(loading, totalItems, tiers) && tiers != []
    ensures AchievedIndex(totalItems, tiers) >= 0
    ensures AchievedPackage(totalItems, tiers).Some?
  {
    assert Reaches(totalItems, tiers[0]);
    AchievedPackageAgrees(totalItems, tiers);
  }

  function IsSelected(q: Quantities): Product -> bool {
    (p: Product) => QuantityOf(q, p.id) > 0
  }

  /** `campaignProducts.filter(p => Number(quantities[p.id]) > 0)`. */
  function Selected(catalog: seq<Product>, q: Quantities): (r: seq<Product>)
    ensures forall i :: 0 <= i < |r| ==> r[i] in catalog && QuantityOf(q, r[i].id) > 0
    ensures forall i :: 0 <= i < |catalog| && QuantityOf(q, catalog[i].id) > 0 ==> catalog[i] in r
  {
    Seqs.Filter(catalog, IsSelected(q))
  }

  datatype SubmitRejection = MissingContact | BadPhone | NoCampaign | NothingSelected

  /** The alerts `handleSubmit` raises before writing anything, in the source's order. */
  function SubmitCheck(userName: string, userPhone: string, campaignId: Option<Store.Id>,
                       catalog: seq<Product>, q: Quantities): (r: Option<SubmitRejection>)
    ensures r.None? <==>
      && !Text.IsBlank(userName) && !Text.IsBlank(userPhone) && Welcome.IsValidPhone(userPhone)
      && campaignId.Some? && Selected(catalog, q) != []
    ensures r == Some(MissingContact) <==> Text.IsBlank(userName) || Text.IsBlank(userPhone)
    ensures r == Some(BadPhone) <==>
      !Text.IsBlank(userName) && !Text.IsBlank(userPhone) && !Welcome.IsValidPhone(userPhone)
    ensures r == Some(NoCampaign) <==>
      !Text.IsBlank(userName) && !Text.IsBlank(userPhone) && Welcome.IsValidPhone(userPhone) && campaignId.None?
    ensures r == Some(NothingSelected) <==>
      && !Text.IsBlank(userName) && !Text.IsBlank(userPhone) && Welcome.IsValidPhone(userPhone)
      && campaignId.Some? && Selected(catalog, q) == []
  {
    if Text.Trim(userName) == "" || Text.Trim(userPhone) == "" then Some(MissingContact)
    else if !Welcome.IsValidPhone(userPhone) then Some(BadPhone)
    else if campaignId.None? then Some(NoCampaign)
    else if Selected(catalog, q) == [] then Some(NothingSelected)
    else None
  }

  // ---------------------------------------------------------------------------
  // What the page hands to the payment page
  // ---------------------------------------------------------------------------

  datatype CarriedPackage = CarriedPackage(title: string, minQty: real, cash: real, check: real)

  datatype CarriedSummary = CarriedSummary(totalItems: int, subTotal: real, discount: real, payable: real,
                                           achieved: Option<CarriedPackage>)

  /** JavaScript truthiness of a number: neither `NaN` nor zero. */
  predicate Truthy(x: Option<real>) {
    x.Some? && x.value != 0.0
  }

  /** `Number(rate || pkg.discount_percent || 0)` for the cash and the check rate. */
  function Carry(t: Tier): (c: CarriedPackage)
    ensures c.title == t.title && c.minQty == t.minQty
    ensures c.cash == if Truthy(t.cash) then t.cash.value else t.discount
    ensures c.check == if Truthy(t.check) then t.check.value else t.discount
  {
    CarriedPackage(t.title, t.minQty,
                   if Truthy(t.cash) then t.cash.value else if t.discount != 0.0 then t.discount else 0.0,
                   if Truthy(t.check) then t.check.value else if t.discount != 0.0 then t.discount else 0.0)
  }

  /** The `orderSummary` state passed on after a successful submit. */
  function Carried(catalog: seq<Product>, q: Quantities, tiers: seq<Tier>): (c: CarriedSummary)
    ensures c.totalItems == TotalItems(q) && c.subTotal == SubTotal(catalog, q)
    ensures c.payable >= 0.0
    ensures c.achieved.Some? <==> AchievedIndex(TotalItems(q), tiers) >= 0
  {
    var total := TotalItems(q);
    var sub := SubTotal(catalog, q);
    var s := OrderSummary(total, sub, tiers);
    var a := AchievedPackage(total, tiers);
    AchievedPackageAgrees(total, tiers);
    CarriedSummary(total, sub, s.discount, s.payable, if a.Some? then Some(Carry(a.value)) else None)
  }

  /** What the page carries on: the summary's discount and payable, and the achieved package's rates. */
  lemma CarriedParts(catalog: seq<Product>, q: Quantities, tiers: seq<Tier>)
    ensures var c := Carried(catalog, q, tiers);
      var total := TotalItems(q);
      var r := OrderSummary(total, SubTotal(catalog, q), tiers);
      var a := AchievedIndex(total, tiers);
      && c.discount == r.discount && c.payable == r.payable
      && c.achieved == if a >= 0 then Some(Carry(tiers[a])) else None
  {
    AchievedPackageAgrees(TotalItems(q), tiers);
  }

  /** A package whose carried cash rate is its own discount percentage. */
  predicate CashRateIsDiscount(t: Tier) {
    Carry(t).cash == t.discount
  }

  /** Every package either mapping produces carries its discount percentage as the cash rate. */
  lemma NormalizedCashRateIsDiscount(raw: seq<RawPackage>)
    ensures forall i :: 0 <= i < |NormalizePackages(raw)| ==> CashRateIsDiscount(NormalizePackages(raw)[i])
    ensures forall i :: 0 <= i < |NormalizePackagesAsWritten(raw)| ==>
      CashRateIsDiscount(NormalizePackagesAsWritten(raw)[i])
  {
    var cs := Candidates(raw);
    var ws := CandidatesAsWritten(raw);
    forall j | 0 <= j < |cs| && Keeps(cs[j]) ensures CashRateIsDiscount(ToTier(cs[j])) {
      assert cs[j] == CandidateOf(raw[j]);
    }
    forall j | 0 <= j < |ws| && Keeps(ws[j]) ensures CashRateIsDiscount(ToTier(ws[j])) {
      assert ws[j] == CandidateAsWritten(raw[j]);
    }
    KeepTiersSound(cs, CashRateIsDiscount);
    KeepTiersSound(ws, CashRateIsDiscount);
  }

  // ---------------------------------------------------------------------------
  // Packages created by the admin page
  // ---------------------------------------------------------------------------

  /** A package the admin page stored: it writes `discount_percent` only, so both rates read back as null. */
  function AsRead(rec: Store.PackageRecord): RawPackage {
    RawPackage(rec.title, Finite(rec.minQty), Finite(rec.discount), Null, Null)
  }

  /**
   * As written, a package stored by the admin page is priced at zero percent whatever
   * its `discount_percent`; with the intended fallback it is priced at that percentage.
   */
  lemma AdminPackageDiscount(rec: Store.PackageRecord)
    requires Text.Trim(rec.title) != "" && rec.minQty > 0.0 && 0.0 < rec.discount <= 100.0
    ensures NormalizePackagesAsWritten([AsRead(rec)]) ==
      [Tier(Text.Trim(rec.title), rec.minQty, Some(0.0), Some(0.0), 0.0)]
    ensures NormalizePackages([AsRead(rec)]) ==
      [Tier(Text.Trim(rec.title), rec.minQty, Some(0.0), Some(0.0), rec.discount)]
  {
    AdminPackageAsWritten(rec);
    AdminPackageNormalized(rec);
  }

  lemma AdminPackageAsWritten(rec: Store.PackageRecord)
    requires Text.Trim(rec.title) != "" && rec.minQty > 0.0 && 0.0 < rec.discount <= 100.0
    ensures NormalizePackagesAsWritten([AsRead(rec)]) ==
      [Tier(Text.Trim(rec.title), rec.minQty, Some(0.0), Some(0.0), 0.0)]
  {
    var w := CandidateAsWritten(AsRead(rec));
    assert CandidatesAsWritten([AsRead(rec)]) == [w];
    KeepTiersSingle(w);
  }

  lemma AdminPackageNormalized(rec: Store.PackageRecord)
    requires Text.Trim(rec.title) != "" && rec.minQty > 0.0 && 0.0 < rec.discount <= 100.0
    ensures NormalizePackages([AsRead(rec)]) ==
      [Tier(Text.Trim(rec.title), rec.minQty, Some(0.0), Some(0.0), rec.discount)]
  {
    var c := CandidateOf(AsRead(rec));
    assert Candidates([AsRead(rec)]) == [c];
    KeepTiersSingle(c);
  }

  /** With one package that the order reaches, the discount is that package's percentage of the subtotal. */
  lemma OneTierDiscount(totalItems: int, subTotal: real, t: Tier)
    requires totalItems > 0 && subTotal > 0.0 && Reaches(totalItems, t)
    ensures OrderSummary(totalItems, subTotal, [t]).discount == subTotal * (t.discount / 100.0)
  {
    assert AchievedIndex(totalItems, [t]) == 0;
  }

  /** The consequence at checkout: 24 items over a subtotal of 1,000,000 against one admin-made 5 percent package. */
  lemma AdminPackageCheckout()
    ensures var rec := Store.PackageRecord(1, "Gold", 12.0, 5.0);
      && OrderSummary(24, 1000000.0, NormalizePackagesAsWritten([AsRead(rec)])).discount == 0.0
      && OrderSummary(24, 1000000.0, NormalizePackages([AsRead(rec)])).discount == 50000.0
  {
    var rec := Store.PackageRecord(1, "Gold", 12.0, 5.0);
    assert Text.HasNoSpace("Gold");
    assert Text.Trim("Gold") == "Gold";
    AdminPackageDiscount(rec);
    OneTierDiscount(24, 1000000.0, Tier("Gold", 12.0, Some(0.0), Some(0.0), 0.0));
    OneTierDiscount(24, 1000000.0, Tier("Gold", 12.0, Some(0.0), Some(0.0), 5.0));
  }
}
