/**
 * The admin page (`src/pages/Admin/Admin.jsx`): a form that creates a campaign with its
 * discount packages, the add/edit/remove operations on the form's package rows, and the
 * list of campaigns filtered by status.
 */
module Admin {
  import opened Wrappers
  import Text
  import Seqs
  import JsNumber
  import Store
  import Welcome

  // ---------------------------------------------------------------------------
  // The slug
  // ---------------------------------------------------------------------------

  /** `name.trim().replace(/\s+/g, '-').toLowerCase()`. */
  function Slug(name: string): (r: string)
    ensures Text.HasNoSpace(r)
    ensures r == "" <==> Text.IsBlank(name)
    ensures Text.ToLower(r) == r
  {
    var u := Text.ReplaceSpaceRuns(Text.Trim(name), '-');
    Text.ToLowerKeepsSpace(u);
    Text.ToLower(u)
  }

  /** A slug is its own slug. */
  lemma SlugIdempotent(name: string)
    ensures Slug(Slug(name)) == Slug(name)
  {
    var r := Slug(name);
    assert Text.Trim(r) == r;
    assert Text.ReplaceSpaceRuns(r, '-') == r;
  }

  /**
   * Because the slug is already lower case, the welcome page's case-folded lookup finds
   * the campaign under any capitalisation of its address, once slugs are unique.
   */
  lemma AddressFindsCampaign(cs: seq<Store.Campaign>, k: int, address: string)
    requires Store.DistinctSlugs(cs) && 0 <= k < |cs|
    requires Text.ToLower(address) == cs[k].slug && Text.ToLower(cs[k].slug) == cs[k].slug
    ensures Welcome.CampaignFor(cs, address) == Some(cs[k])
  {
    assert Store.SlugTaken(cs, cs[k].slug);
    var r := Welcome.CampaignFor(cs, address);
    var i :| 0 <= i < |cs| && cs[i] == r.value;
    assert i == k;
  }

  // ---------------------------------------------------------------------------
  // The package rows of the form
  // ---------------------------------------------------------------------------

  /** One editable package: every field is the text of its input. */
  datatype PackageRow = PackageRow(id: string, title: string, minQty: string, discountPercent: string)

  /** The fields `updatePackage` is called with. */
  datatype Field = Title | MinQty | DiscountPercent

  function Get(p: PackageRow, f: Field): string {
    match f
    case Title => p.title
    case MinQty => p.minQty
    case DiscountPercent => p.discountPercent
  }

  /** `{ ...p, [field]: value }`. */
  function SetField(p: PackageRow, f: Field, value: string): (r: PackageRow)
    ensures r.id == p.id && Get(r, f) == value
    ensures forall g :: g != f ==> Get(r, g) == Get(p, g)
  {
    match f
    case Title => p.(title := value)
    case MinQty => p.(minQty := value)
    case DiscountPercent => p.(discountPercent := value)
  }

  predicate HasId(rows: seq<PackageRow>, id: string) {
    exists i :: 0 <= i < |rows| && rows[i].id == id
  }

  predicate DistinctIds(rows: seq<PackageRow>) {
    forall i, j :: 0 <= i < j < |rows| ==> rows[i].id != rows[j].id
  }

  /** `addPackageRow`, with `id` standing for the fresh `crypto.randomUUID()`. */
  function AddPackageRow(rows: seq<PackageRow>, id: string): (r: seq<PackageRow>)
    ensures |r| == |rows| + 1 && r[..|rows|] == rows
    ensures r[|rows|].id == id && forall f :: Get(r[|rows|], f) == ""
  {
    rows + [PackageRow(id, "", "", "")]
  }

  /** A fresh id keeps the row ids distinct. */
  lemma AddKeepsIdsDistinct(rows: seq<PackageRow>, id: string)
    requires DistinctIds(rows) && !HasId(rows, id)
    ensures DistinctIds(AddPackageRow(rows, id))
  {
    var r := AddPackageRow(rows, id);
    forall i, j | 0 <= i < j < |r| ensures r[i].id != r[j].id {
      if j == |rows| {
        assert r[i] == rows[i];
      } else {
        assert r[i] == rows[i] && r[j] == rows[j];
      }
    }
  }

  /** `updatePackage(id, field, value)`: every row with that id has that one field replaced. */
  function UpdatePackage(rows: seq<PackageRow>, id: string, f: Field, value: string): (r: seq<PackageRow>)
    ensures |r| == |rows|
    ensures forall i :: 0 <= i < |r| ==> r[i].id == rows[i].id
    ensures forall i, g :: 0 <= i < |r| ==>
      Get(r[i], g) == if rows[i].id == id && g == f then value else Get(rows[i], g)
  {
    seq(|rows|, i requires 0 <= i < |rows| => if rows[i].id == id then SetField(rows[i], f, value) else rows[i])
  }

  /** Rows are determined by their id and their three fields. */
  lemma RowExtensionality(p: PackageRow, q: PackageRow)
    requires p.id == q.id && forall f :: Get(p, f) == Get(q, f)
    ensures p == q
  {
    assert Get(p, Title) == Get(q, Title);
    assert Get(p, MinQty) == Get(q, MinQty);
    assert Get(p, DiscountPercent) == Get(q, DiscountPercent);
  }

  /** An edit of a row no one has is no edit at all. */
  lemma UpdateAbsentId(rows: seq<PackageRow>, id: string, f: Field, value: string)
    requires !HasId(rows, id)
    ensures UpdatePackage(rows, id, f, value) == rows
  {
    var r := UpdatePackage(rows, id, f, value);
    forall i | 0 <= i < |rows| ensures r[i] == rows[i] {
      RowExtensionality(r[i], rows[i]);
    }
  }

  function NotId(id: string): PackageRow -> bool {
    (p: PackageRow) => p.id != id
  }

  /** `removePackage(id)`: every row with that id goes, every other row stays. */
  function RemovePackage(rows: seq<PackageRow>, id: string): (r: seq<PackageRow>)
    ensures forall i :: 0 <= i < |r| ==> r[i].id != id && r[i] in rows
    ensures forall i :: 0 <= i < |rows| && rows[i].id != id ==> rows[i] in r
  {
    Seqs.Filter(rows, NotId(id))
  }

  /** Removal keeps the order of the rows: removing from two stretches is removing from each. */
  lemma RemovePackageConcat(a: seq<PackageRow>, b: seq<PackageRow>, id: string)
    ensures RemovePackage(a + b, id) == RemovePackage(a, id) + RemovePackage(b, id)
  {
    Seqs.FilterConcat(a, b, NotId(id));
  }

  /** One row stays exactly when its id differs. */
  lemma RemovePackageSingle(p: PackageRow, id: string)
    ensures RemovePackage([p], id) == if p.id != id then [p] else []
  {
    Seqs.FilterCons([p], NotId(id));
    assert [p][1..] == [];
  }

  /** With distinct ids, removing the row at `k` leaves the others in their order. */
  lemma RemoveAt(rows: seq<PackageRow>, k: int)
    requires DistinctIds(rows) && 0 <= k < |rows|
    ensures RemovePackage(rows, rows[k].id) == rows[..k] + rows[k + 1..]
  {
    var keep := NotId(rows[k].id);
    var before, after := rows[..k], rows[k + 1..];
    var front := before + [rows[k]];
    assert rows == front + after;
    forall i | 0 <= i < |before| ensures keep(before[i]) {
      assert before[i] == rows[i];
    }
    forall i | 0 <= i < |after| ensures keep(after[i]) {
      assert after[i] == rows[k + 1 + i];
    }
    Seqs.FilterAll(before, keep);
    Seqs.FilterAll(after, keep);
    Seqs.FilterCons([rows[k]], keep);
    assert Seqs.Filter([rows[k]], keep) == [] by {
      assert [rows[k]][1..] == [];
    }
    Seqs.FilterConcat(before, [rows[k]], keep);
    assert Seqs.Filter(front, keep) == before;
    Seqs.FilterConcat(front, after, keep);
    assert Seqs.Filter(rows, keep) == before + after;
  }

  /** Removing the row just added with a fresh id gives back the rows before it. */
  lemma RemoveUndoesAdd(rows: seq<PackageRow>, id: string)
    requires !HasId(rows, id)
    ensures RemovePackage(AddPackageRow(rows, id), id) == rows
  {
    var keep := NotId(id);
    Seqs.FilterConcat(rows, [PackageRow(id, "", "", "")], keep);
    Seqs.FilterAll(rows, keep);
    Seqs.FilterCons([PackageRow(id, "", "", "")], keep);
    assert [PackageRow(id, "", "", "")][1..] == [];
  }

  // ---------------------------------------------------------------------------
  // Cleaning the packages before they are stored
  // ---------------------------------------------------------------------------

  /** One row of the `map` step: the trimmed title and both fields read with `Number` (`None` is NaN). */
  datatype Candidate = Candidate(title: string, minQty: Option<real>, discount: Option<real>)

  function CandidateOf(p: PackageRow): Candidate {
    Candidate(Text.Trim(p.title), JsNumber.Parse(p.minQty), JsNumber.Parse(p.discountPercent))
  }

  function Candidates(rows: seq<PackageRow>): (r: seq<Candidate>)
    ensures |r| == |rows| && forall i :: 0 <= i < |rows| ==> r[i] == CandidateOf(rows[i])
  {
    seq(|rows|, i requires 0 <= i < |rows| => CandidateOf(rows[i]))
  }

  /** The `filter` step: a title, a finite positive minimum, a finite discount in (0, 100]. */
  predicate Qualifies(c: Candidate) {
    && c.title != ""
    && c.minQty.Some? && c.minQty.value > 0.0
    && c.discount.Some? && 0.0 < c.discount.value <= 100.0
  }

  /** The stored record of a qualifying candidate, tagged with the new campaign's id. */
  function RecordOf(c: Candidate, campaignId: Store.Id): Store.PackageRecord
    requires Qualifies(c)
  {
    Store.PackageRecord(campaignId, c.title, c.minQty.value, c.discount.value)
  }

  /** What every stored package of the new campaign satisfies. */
  predicate Admissible(rec: Store.PackageRecord, campaignId: Store.Id) {
    && rec.campaignId == campaignId && rec.title != ""
    && rec.minQty > 0.0 && 0.0 < rec.discount <= 100.0
  }

  /** The qualifying candidates as records, in order. */
  function Clean(cs: seq<Candidate>, campaignId: Store.Id): (r: seq<Store.PackageRecord>)
    ensures |r| <= |cs|
    ensures forall k :: 0 <= k < |r| ==> Admissible(r[k], campaignId)
    ensures r == [] <==> forall i :: 0 <= i < |cs| ==> !Qualifies(cs[i])
    decreases |cs|
  {
    if cs == [] then []
    else
      var rest := Clean(cs[1..], campaignId);
      assert forall i :: 1 <= i < |cs| ==> cs[i] == cs[1..][i - 1];
      if Qualifies(cs[0]) then [RecordOf(cs[0], campaignId)] + rest else rest
  }

  lemma {:induction false} CleanConcat(a: seq<Candidate>, b: seq<Candidate>, campaignId: Store.Id)
    ensures Clean(a + b, campaignId) == Clean(a, campaignId) + Clean(b, campaignId)
    decreases |a|
  {
    if a == [] {
      assert a + b == b;
    } else {
      assert (a + b)[0] == a[0];
      assert (a + b)[1..] == a[1..] + b;
      CleanConcat(a[1..], b, campaignId);
    }
  }

  predicate NoneQualifies(rows: seq<PackageRow>) {
    forall i :: 0 <= i < |rows| ==> !Qualifies(CandidateOf(rows[i]))
  }

  /** `cleanedPackages`: the qualifying rows as records of the new campaign, in the form's order. */
  function CleanedPackages(rows: seq<PackageRow>, campaignId: Store.Id): (r: seq<Store.PackageRecord>)
    ensures |r| <= |rows|
    ensures forall k :: 0 <= k < |r| ==> Admissible(r[k], campaignId)
  {
    Clean(Candidates(rows), campaignId)
  }

  /** Nothing is inserted exactly when no row qualifies. */
  lemma NothingCleanedIff(rows: seq<PackageRow>, campaignId: Store.Id)
    ensures CleanedPackages(rows, campaignId) == [] <==> NoneQualifies(rows)
  {
    var cs := Candidates(rows);
    assert forall i :: 0 <= i < |rows| ==> cs[i] == CandidateOf(rows[i]);
  }

  /** A row without a title, appended to the form, adds nothing to what is stored. */
  lemma UntitledRowNotStored(rows: seq<PackageRow>, row: PackageRow, campaignId: Store.Id)
    requires Text.Trim(row.title) == ""
    ensures CleanedPackages(rows + [row], campaignId) == CleanedPackages(rows, campaignId)
  {
    var c := CandidateOf(row);
    assert c.title == "";
    CandidatesAppend(rows, row);
    CleanConcat(Candidates(rows), [c], campaignId);
  }

  lemma CandidatesAppend(rows: seq<PackageRow>, row: PackageRow)
    ensures Candidates(rows + [row]) == Candidates(rows) + [CandidateOf(row)]
  {
    var l, r := Candidates(rows + [row]), Candidates(rows) + [CandidateOf(row)];
    assert |l| == |r|;
    forall i | 0 <= i < |l| ensures l[i] == r[i] {
      if i < |rows| {
        assert (rows + [row])[i] == rows[i];
      }
    }
  }

  /** A row just added, with its empty fields, never reaches the store. */
  lemma BlankRowNotStored(rows: seq<PackageRow>, id: string, campaignId: Store.Id)
    ensures CleanedPackages(AddPackageRow(rows, id), campaignId) == CleanedPackages(rows, campaignId)
  {
    assert Text.HasNoSpace("");
    UntitledRowNotStored(rows, PackageRow(id, "", "", ""), campaignId);
  }

  predicate RowFor(row: PackageRow, title: string, minQty: nat, discount: nat) {
    row.title == title && row.minQty == JsNumber.NatToString(minQty) && row.discountPercent == JsNumber.NatToString(discount)
  }

  lemma TypedCandidate(row: PackageRow, title: string, minQty: nat, discount: nat)
    requires RowFor(row, title, minQty, discount)
    ensures CandidateOf(row) == Candidate(Text.Trim(title), Some(minQty as real), Some(discount as real))
  {
    JsNumber.ParseNatToString(minQty);
    JsNumber.ParseNatToString(discount);
  }

  /** One qualifying candidate gives one record. */
  lemma CleanSingle(c: Candidate, campaignId: Store.Id)
    requires Qualifies(c)
    ensures Clean([c], campaignId) == [RecordOf(c, campaignId)]
  {
    assert [c][1..] == [];
  }

  lemma CleanedSingle(row: PackageRow, campaignId: Store.Id)
    requires Qualifies(CandidateOf(row))
    ensures CleanedPackages([row], campaignId) == [RecordOf(CandidateOf(row), campaignId)]
  {
    var c := CandidateOf(row);
    assert Candidates([row]) == [c];
    CleanSingle(c, campaignId);
  }

  /** A package typed with a title and whole numbers in range is stored with exactly those values. */
  lemma TypedPackageStored(row: PackageRow, title: string, minQty: nat, discount: nat, campaignId: Store.Id)
    requires RowFor(row, title, minQty, discount)
    requires !Text.IsBlank(title) && minQty > 0 && 0 < discount <= 100
    ensures CleanedPackages([row], campaignId)
      == [Store.PackageRecord(campaignId, Text.Trim(title), minQty as real, discount as real)]
  {
    TypedCandidate(row, title, minQty, discount);
    CleanedSingle(row, campaignId);
  }

  /** A whole-number discount over 100 is refused here, although the campaign page would apply it. */
  lemma DiscountOverHundredRefused(row: PackageRow, discount: nat, campaignId: Store.Id)
    requires row.discountPercent == JsNumber.NatToString(discount) && discount > 100
    ensures CleanedPackages([row], campaignId) == []
  {
    JsNumber.ParseNatToString(discount);
    assert !Qualifies(CandidateOf(row));
    assert [row][0] == row;
    NothingCleanedIff([row], campaignId);
  }

  // ---------------------------------------------------------------------------
  // The campaign list
  // ---------------------------------------------------------------------------

  function StatusIs(filter: string): Store.Campaign -> bool {
    (c: Store.Campaign) => c.status == filter
  }

  /** `filteredCampaigns`: exactly the campaigns whose status is the selected tab. */
  function FilteredCampaigns(cs: seq<Store.Campaign>, filter: string): (r: seq<Store.Campaign>)
    ensures |r| <= |cs|
    ensures forall c :: c in r <==> c in cs && c.status == filter
  {
    var r := Seqs.Filter(cs, StatusIs(filter));
    assert forall c :: c in cs && c.status == filter ==> c in r by {
      forall c | c in cs && c.status == filter ensures c in r {
        var i :| 0 <= i < |cs| && cs[i] == c;
      }
    }
    r
  }

  /** The tab keeps the list order: filtering two stretches of the list is filtering each. */
  lemma FilteredCampaignsConcat(a: seq<Store.Campaign>, b: seq<Store.Campaign>, filter: string)
    ensures FilteredCampaigns(a + b, filter) == FilteredCampaigns(a, filter) + FilteredCampaigns(b, filter)
  {
    Seqs.FilterConcat(a, b, StatusIs(filter));
  }

  /** One campaign is shown on a tab exactly when its status is that tab. */
  lemma FilteredCampaignsSingle(c: Store.Campaign, filter: string)
    ensures FilteredCampaigns([c], filter) == if c.status == filter then [c] else []
  {
    Seqs.FilterCons([c], StatusIs(filter));
    assert [c][1..] == [];
  }

  /** Ending a campaign moves it from the `active` tab to the `ended` tab. */
  lemma EndingMovesTab(cs: seq<Store.Campaign>, k: int)
    requires 0 <= k < |cs|
    ensures var updated := Store.UpdateCampaigns(cs, cs[k].id, "ended");
      && cs[k].(status := "ended") in FilteredCampaigns(updated, "ended")
      && forall c :: c in FilteredCampaigns(updated, "active") ==> c.id != cs[k].id
  {
    var updated := Store.UpdateCampaigns(cs, cs[k].id, "ended");
    assert updated[k] == cs[k].(status := "ended");
    forall c | c in FilteredCampaigns(updated, "active") ensures c.id != cs[k].id {
      var i :| 0 <= i < |updated| && updated[i] == c;
    }
  }

  /** `order('created_at', { ascending: false })`: ids grow with creation, so newest first is the table reversed. */
  function NewestFirst(cs: seq<Store.Campaign>): (r: seq<Store.Campaign>)
    ensures |r| == |cs|
    ensures forall i :: 0 <= i < |r| ==> r[i] == cs[|cs| - 1 - i]
  {
    seq(|cs|, i requires 0 <= i < |cs| => cs[|cs| - 1 - i])
  }

  /** With the store's increasing ids, the list shows higher ids first. */
  lemma NewestFirstDescending(cs: seq<Store.Campaign>, bound: Store.Id)
    requires Store.Ordered(cs, Store.CampaignIdOf, bound)
    ensures forall i, j :: 0 <= i < j < |cs| ==> NewestFirst(cs)[i].id > NewestFirst(cs)[j].id
  {
    var r := NewestFirst(cs);
    forall i, j | 0 <= i < j < |cs| ensures r[i].id > r[j].id {
      assert Store.CampaignIdOf(cs[|cs| - 1 - j]) < Store.CampaignIdOf(cs[|cs| - 1 - i]);
    }
  }

  // ---------------------------------------------------------------------------
  // The page and `handleCreateCampaign`
  // ---------------------------------------------------------------------------

  /** The package step of `handleCreateCampaign`: the cleaned records are inserted only when there are any. */
  method StorePackages(db: Store.Db, cleaned: seq<Store.PackageRecord>, storeFails: bool) returns (failed: bool)
    requires db.Valid()
    modifies db
    ensures db.Valid()
    ensures db.campaigns == old(db.campaigns) && db.orders == old(db.orders) && db.items == old(db.items)
    ensures failed == (cleaned != [] && storeFails)
    ensures failed || cleaned == [] ==> db.packages == old(db.packages)
    ensures !failed ==> db.packages == old(db.packages) + cleaned
  {
    failed := false;
    if |cleaned| > 0 {
      var ok := db.InsertPackages(cleaned, storeFails);
      failed := !ok;
    }
  }

  datatype CreateOutcome = Ignored | CampaignFailed | Created(id: Store.Id, packagesFailed: bool)

  /** The page's state: the loaded campaigns, the form's name and package rows, and the selected tab. */
  class AdminPage {
    var campaigns: seq<Store.Campaign>
    var name: string
    var filter: string
    var packages: seq<PackageRow>

    constructor ()
      ensures campaigns == [] && name == "" && filter == "active" && packages == []
    {
      campaigns, name, filter, packages := [], "", "active", [];
    }

    /** The campaigns of the selected tab. */
    function Shown(): (r: seq<Store.Campaign>)
      reads this
      ensures forall c :: c in r <==> c in campaigns && c.status == filter
    {
      FilteredCampaigns(campaigns, filter)
    }

    /** `fetchCampaigns`: newest first; a failed read keeps the list as it was. */
    method FetchCampaigns(table: seq<Store.Campaign>, readFails: bool)
      modifies this
      ensures readFails ==> campaigns == old(campaigns)
      ensures !readFails ==> campaigns == NewestFirst(table)
      ensures name == old(name) && filter == old(filter) && packages == old(packages)
    {
      if !readFails {
        campaigns := NewestFirst(table);
      }
    }

    /** After the campaign row exists: its cleaned packages are stored, the form is reset and the list read again. */
    method FinishCreate(db: Store.Db, cleaned: seq<Store.PackageRecord>, packagesFail: bool, readFails: bool)
      returns (packagesFailed: bool)
      requires db.Valid()
      modifies this, db
      ensures db.Valid()
      ensures db.campaigns == old(db.campaigns) && db.orders == old(db.orders) && db.items == old(db.items)
      ensures packagesFailed == (cleaned != [] && packagesFail)
      ensures packagesFailed || cleaned == [] ==> db.packages == old(db.packages)
      ensures !packagesFailed ==> db.packages == old(db.packages) + cleaned
      ensures name == "" && packages == [] && filter == old(filter)
      ensures readFails ==> campaigns == old(campaigns)
      ensures !readFails ==> campaigns == NewestFirst(db.campaigns)
    {
      name := "";
      packages := [];
      packagesFailed := StorePackages(db, cleaned, packagesFail);
      FetchCampaigns(db.campaigns, readFails);
    }

    /**
     * `handleCreateCampaign`: nothing for a blank name; otherwise the campaign is inserted
     * as `active` (a failure, or a slug already in use, stops here with the form kept);
     * then the cleaned packages are inserted when there are any, and a failure there
     * still leaves the campaign created. The form is reset and the list read again.
     */
    method HandleCreateCampaign(db: Store.Db, campaignFails: bool, packagesFail: bool, readFails: bool)
      returns (outcome: CreateOutcome)
      requires db.Valid()
      modifies this, db
      ensures db.Valid()
      ensures outcome == Ignored <==> Text.Trim(old(name)) == ""
      ensures outcome.Created? <==>
        Text.Trim(old(name)) != "" && !campaignFails && !Store.SlugTaken(old(db.campaigns), Slug(old(name)))
      ensures !outcome.Created? ==> unchanged(this) && unchanged(db)
      ensures outcome.Created? ==>
        db.campaigns == old(db.campaigns) + [Store.Campaign(outcome.id, Text.Trim(old(name)), Slug(old(name)), "active")]
      ensures outcome.Created? ==> db.orders == old(db.orders) && db.items == old(db.items)
      ensures outcome.Created? ==>
        outcome.packagesFailed == (CleanedPackages(old(packages), outcome.id) != [] && packagesFail)
      ensures outcome.Created? && !outcome.packagesFailed ==>
        db.packages == old(db.packages) + CleanedPackages(old(packages), outcome.id)
      ensures outcome.Created? && outcome.packagesFailed ==> db.packages == old(db.packages)
      ensures outcome.Created? ==> name == "" && packages == [] && filter == old(filter)
      ensures outcome.Created? && readFails ==> campaigns == old(campaigns)
      ensures outcome.Created? && !readFails ==> campaigns == NewestFirst(db.campaigns)
    {
      var title := Text.Trim(name);
      if title == "" {
        outcome := Ignored;
      } else {
        outcome := CreateTitled(db, title, Slug(name), campaignFails, packagesFail, readFails);
      }
    }

    /** The part of `handleCreateCampaign` after the blank-name check, for a given title and slug. */
    method CreateTitled(db: Store.Db, title: string, slug: string, campaignFails: bool, packagesFail: bool, readFails: bool)
      returns (outcome: CreateOutcome)
      requires db.Valid()
      modifies this, db
      ensures db.Valid()
      ensures outcome.Created? <==> !campaignFails && !Store.SlugTaken(old(db.campaigns), slug)
      ensures !outcome.Created? ==> outcome == CampaignFailed && unchanged(this) && unchanged(db)
      ensures outcome.Created? ==>
        db.campaigns == old(db.campaigns) + [Store.Campaign(outcome.id, title, slug, "active")]
      ensures outcome.Created? ==> db.orders == old(db.orders) && db.items == old(db.items)
      ensures outcome.Created? ==>
        outcome.packagesFailed == (CleanedPackages(old(packages), outcome.id) != [] && packagesFail)
      ensures outcome.Created? && !outcome.packagesFailed ==>
        db.packages == old(db.packages) + CleanedPackages(old(packages), outcome.id)
      ensures outcome.Created? && outcome.packagesFailed ==> db.packages == old(db.packages)
      ensures outcome.Created? ==> name == "" && packages == [] && filter == old(filter)
      ensures outcome.Created? && readFails ==> campaigns == old(campaigns)
      ensures outcome.Created? && !readFails ==> campaigns == NewestFirst(db.campaigns)
    {
      var created := db.InsertCampaign(title, slug, "active", campaignFails);
      if created.None? {
        outcome := CampaignFailed;
      } else {
        var id := created.value;
        var cleaned := CleanedPackages(packages, id);
        var packagesFailed := FinishCreate(db, cleaned, packagesFail, readFails);
        outcome := Created(id, packagesFailed);
      }
    }
  }
}
