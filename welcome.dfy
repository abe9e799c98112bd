/**
 * The welcome page of a campaign (`src/pages/Welcome/Welcome.jsx`): the buyer types a
 * name and a mobile number, the phone field keeps only digits, and submitting
 * creates an order, with no status of its own, for the campaign whose slug is in the address.
 */
module Welcome {
  import opened Wrappers
  import JsNumber
  import Text
  import Seqs
  import Store

  // ---------------------------------------------------------------------------
  // `PHONE_REGEX = /^09\d{9}$/`, as an anchored pattern of character classes
  // ---------------------------------------------------------------------------

  datatype CharClass = Literal(c: char) | AnyDigit

  predicate Accepts(k: CharClass, c: char) {
    match k
    case Literal(l) => c == l
    case AnyDigit => JsNumber.IsDigit(c)
  }

  /** `09` followed by nine `\d`. */
  function PhonePattern(): (p: seq<CharClass>)
    ensures |p| == 11 && p[0] == Literal('0') && p[1] == Literal('9')
    ensures forall i :: 2 <= i < |p| ==> p[i] == AnyDigit
  {
    [Literal('0'), Literal('9')] + seq(9, _ => AnyDigit)
  }

  /** A pattern anchored at both ends (`^…$`) with no repetition: one class per character. */
  predicate MatchesAnchored(p: seq<CharClass>, s: string)
    decreases |p|
  {
    if p == [] then s == []
    else s != [] && Accepts(p[0], s[0]) && MatchesAnchored(p[1..], s[1..])
  }

  lemma {:induction false} MatchesAnchoredPointwise(p: seq<CharClass>, s: string)
    ensures MatchesAnchored(p, s) <==> |s| == |p| && forall i :: 0 <= i < |p| ==> Accepts(p[i], s[i])
    decreases |p|
  {
    if p != [] && s != [] {
      MatchesAnchoredPointwise(p[1..], s[1..]);
      if |s| == |p| && forall i :: 0 <= i < |p| ==> Accepts(p[i], s[i]) {
        forall i | 0 <= i < |p[1..]| ensures Accepts(p[1..][i], s[1..][i]) {
          assert p[1..][i] == p[i + 1] && s[1..][i] == s[i + 1];
        }
      }
      if MatchesAnchored(p, s) {
        forall i | 0 <= i < |p| ensures Accepts(p[i], s[i]) {
          if i > 0 { assert p[1..][i - 1] == p[i] && s[1..][i - 1] == s[i]; }
        }
      }
    }
  }

  predicate IsValidPhone(s: string) {
    MatchesAnchored(PhonePattern(), s)
  }

  /** The phone pattern accepts exactly the eleven-digit strings that begin with `09`. */
  lemma PhonePatternCharacterised(s: string)
    ensures IsValidPhone(s) <==> |s| == 11 && s[..2] == "09" && JsNumber.AllDigits(s)
  {
    var p := PhonePattern();
    MatchesAnchoredPointwise(p, s);
    if |s| == 11 && s[..2] == "09" && JsNumber.AllDigits(s) {
      forall i | 0 <= i < |p| ensures Accepts(p[i], s[i]) {
        if i >= 2 { assert p[i] == AnyDigit; }
        else { assert s[i] == s[..2][i]; }
      }
    }
    if IsValidPhone(s) {
      assert Accepts(p[0], s[0]) && Accepts(p[1], s[1]);
      assert s[..2] == [s[0], s[1]];
      forall i | 0 <= i < |s| ensures JsNumber.IsDigit(s[i]) {
        assert Accepts(p[i], s[i]);
      }
    }
  }

  /** A well-formed mobile number is accepted. */
  lemma MobileNumberAccepted()
    ensures IsValidPhone("09123456789")
  {
    var good := "09123456789";
    forall i | 0 <= i < 11 ensures Accepts(PhonePattern()[i], good[i]) {
      assert JsNumber.IsDigit(good[i]);
    }
    MatchesAnchoredPointwise(PhonePattern(), good);
  }

  // ---------------------------------------------------------------------------
  // The form
  // ---------------------------------------------------------------------------

  datatype Form = Form(name: string, phone: string)

  datatype Field = NameField | PhoneField

  /** `value.replace(/\D/g, '')`: the ASCII digits of `value`, in order. */
  function Digits(value: string): (r: string)
    ensures JsNumber.AllDigits(r) && |r| <= |value|
  {
    Seqs.Filter(value, JsNumber.IsDigit)
  }

  /** `value.replace(/\D/g, '').slice(0, 11)`. */
  function SanitizePhone(value: string): (r: string)
    ensures JsNumber.AllDigits(r) && |r| <= 11
    ensures |r| <= |Digits(value)| && r == Digits(value)[..|r|]
    ensures |r| < 11 ==> r == Digits(value)
  {
    var d := Digits(value);
    if |d| <= 11 then d else d[..11]
  }

  /** Sanitising a sanitised phone changes nothing, so re-typing a stored number keeps it. */
  lemma SanitizeIdempotent(value: string)
    ensures SanitizePhone(SanitizePhone(value)) == SanitizePhone(value)
  {
    var r := SanitizePhone(value);
    Seqs.FilterAll(r, JsNumber.IsDigit);
  }

  /** A number that matches the phone pattern is stored exactly as typed. */
  lemma ValidPhoneKept(value: string)
    requires IsValidPhone(value)
    ensures SanitizePhone(value) == value
  {
    PhonePatternCharacterised(value);
    Seqs.FilterAll(value, JsNumber.IsDigit);
  }

  /** `setFormData({ ...formData, [name]: nextValue })`. */
  function HandleChange(form: Form, field: Field, value: string): (r: Form)
    ensures field == NameField ==> r.name == value && r.phone == form.phone
    ensures field == PhoneField ==> r.name == form.name && r.phone == SanitizePhone(value)
    ensures field == PhoneField ==> JsNumber.AllDigits(r.phone) && |r.phone| <= 11
  {
    match field
    case NameField => form.(name := value)
    case PhoneField => form.(phone := SanitizePhone(value))
  }

  // ---------------------------------------------------------------------------
  // Loading the campaign and submitting
  // ---------------------------------------------------------------------------

  /** The campaign fetched for the address slug, matched after lower-casing it. */
  function CampaignFor(campaigns: seq<Store.Campaign>, slug: string): (r: Option<Store.Campaign>)
    ensures r.Some? ==> r.value in campaigns && r.value.slug == Text.ToLower(slug)
  {
    Store.CampaignBySlug(campaigns, Text.ToLower(slug))
  }

  /** Upper- and lower-case spellings of an address find the same campaign. */
  lemma CampaignForIgnoresCase(campaigns: seq<Store.Campaign>, slug: string)
    ensures CampaignFor(campaigns, Text.ToLower(slug)) == CampaignFor(campaigns, slug)
  {
    Text.ToLowerKeepsSpace(slug);
  }

  /**
   * Why a submission does not go through. `CampaignClosed` is the render gate: for a
   * campaign that is not `active` the page shows the ended notice and no form, so no
   * submission exists; the other three are the alerts of `handleSubmit`.
   */
  datatype Rejection = CampaignNotFound | CampaignClosed | Incomplete | BadPhone

  /** The render gate, then the alerts of `handleSubmit`, checked in the source's order. */
  function SubmitRejection(campaign: Option<Store.Campaign>, form: Form): (r: Option<Rejection>)
    ensures r == Some(CampaignNotFound) <==> campaign.None?
    ensures r == Some(CampaignClosed) <==> campaign.Some? && campaign.value.status != "active"
    ensures r == Some(Incomplete) <==>
      campaign.Some? && campaign.value.status == "active" && (form.name == "" || form.phone == "")
    ensures r == Some(BadPhone) <==>
      && campaign.Some? && campaign.value.status == "active"
      && form.name != "" && form.phone != "" && !IsValidPhone(form.phone)
    ensures r.None? <==>
      campaign.Some? && campaign.value.status == "active" && form.name != "" && IsValidPhone(form.phone)
  {
    if campaign.None? then Some(CampaignNotFound)
    else if campaign.value.status != "active" then Some(CampaignClosed)
    else if form.name == "" || form.phone == "" then Some(Incomplete)
    else if !IsValidPhone(form.phone) then Some(BadPhone)
    else None
  }

  datatype SubmitOutcome =
    | Rejected(reason: Rejection)
    | OrderNotCreated
    | ToProducts(orderId: Store.Id, campaignId: Store.Id, name: string, phone: string)

  /** `handleSubmit` behind the render gate: the guards, then one order insert, then navigation to the product page. */
  method Submit(db: Store.Db, campaign: Option<Store.Campaign>, form: Form, storeFails: bool)
    returns (outcome: SubmitOutcome)
    requires db.Valid()
    modifies db
    ensures db.Valid()
    ensures SubmitRejection(campaign, form).Some? ==>
      outcome == Rejected(SubmitRejection(campaign, form).value) && unchanged(db)
    ensures SubmitRejection(campaign, form).None? && storeFails ==>
      outcome == OrderNotCreated && unchanged(db)
    ensures campaign.Some? && campaign.value.status != "active" ==>
      outcome == Rejected(CampaignClosed) && unchanged(db)
    ensures SubmitRejection(campaign, form).None? && !storeFails ==> (
      && campaign.value.status == "active"
      && outcome == ToProducts(old(db.nextId), campaign.value.id, form.name, form.phone)
      && db.orders == old(db.orders) + [Store.Order(old(db.nextId), campaign.value.id, form.name, form.phone, None, None)]
      && db.campaigns == old(db.campaigns) && db.packages == old(db.packages) && db.items == old(db.items))
  {
    var rejection := SubmitRejection(campaign, form);
    if rejection.Some? {
      return Rejected(rejection.value);
    }
    var id := db.InsertOrder(campaign.value.id, form.name, form.phone, None, storeFails);
    if id.None? {
      return OrderNotCreated;
    }
    outcome := ToProducts(id.value, campaign.value.id, form.name, form.phone);
  }

  /** `handlePhoneBlur`: an alert only for a non-empty number that fails the pattern. */
  function PhoneBlurAlerts(phone: string): (alert: bool)
    ensures phone == "" ==> !alert
    ensures alert <==> phone != "" && !IsValidPhone(phone)
  {
    if phone == "" then false else !IsValidPhone(phone)
  }

  /** After typing, the blur alert is silent exactly when nothing was typed or eleven digits starting `09` were kept. */
  lemma BlurAfterTyping(value: string)
    ensures !PhoneBlurAlerts(SanitizePhone(value)) <==>
      SanitizePhone(value) == "" || (|Digits(value)| >= 11 && Digits(value)[..2] == "09")
  {
    var r := SanitizePhone(value);
    PhonePatternCharacterised(r);
    if |Digits(value)| >= 11 {
      assert r[..2] == Digits(value)[..2];
    }
  }
}
