/**
 * The product row (`src/Components/Product/Product.jsx`): a name, a `-` button, a number
 * input and a `+` button. The buttons step the shown quantity by 6 and the input forwards
 * what was typed; every change goes to the campaign page's `handleQuantityChange`, which
 * is where a negative step is clamped to zero.
 */
module Product {
  import opened Wrappers
  import JsNumber
  import Text
  import AssocList
  import CampaignPage

  /** Both buttons move the quantity by this many items. */
  const Step: int := 6

  /** What the row forwards to `onChange`. */
  datatype Edit = Plus | Minus | Typed(text: string)

  /** `increase`: `quantity + 6`. */
  function Increase(quantity: int): int {
    quantity + Step
  }

  /** `decrease`: `quantity - 6`, with no lower bound of its own. */
  function Decrease(quantity: int): int {
    quantity - Step
  }

  /**
   * The value handed to `onChange` for an edit of a row showing `quantity`: the stepped
   * number for a button, `Number(e.target.value)` for typed text (`None` where that is not
   * an integer).
   */
  function Forwarded(quantity: int, e: Edit): (r: Option<int>)
    ensures !e.Typed? ==> r.Some? && (r.value - quantity == Step || quantity - r.value == Step)
    ensures e.Typed? && r.Some? ==> JsNumber.Parse(e.text) == Some(r.value as real)
    ensures e.Typed? && r.None? ==>
      var x := JsNumber.Parse(e.text); x.None? || x.value != x.value.Floor as real
  {
    match e
    case Plus => Some(Increase(quantity))
    case Minus => Some(Decrease(quantity))
    case Typed(text) => JsNumber.AsInteger(JsNumber.Parse(text))
  }

  /**
   * One edit of the row for product `id` on the page's quantities: the row shows
   * `quantities[id] || 0` and its `onChange` is the page's handler.
   */
  function Apply(q: CampaignPage.Quantities, id: CampaignPage.ProductId, e: Edit): (r: CampaignPage.Quantities)
    ensures forall other :: other != id ==> AssocList.Lookup(r, other) == AssocList.Lookup(q, other)
    ensures CampaignPage.QuantityOf(r, id) >= 0
    ensures AssocList.NonNegative(q) ==> AssocList.NonNegative(r)
  {
    CampaignPage.HandleQuantityChange(q, id, Forwarded(CampaignPage.QuantityOf(q, id), e))
  }

  /** The quantity a lookup result stands for. */
  lemma QuantityOfLookup(q: CampaignPage.Quantities, id: CampaignPage.ProductId, v: int)
    requires AssocList.Lookup(q, id) == Some(v)
    ensures CampaignPage.QuantityOf(q, id) == v
  {
  }

  /** The two steps undo each other before any clamping. */
  lemma StepsUndoEachOther(quantity: int)
    ensures Decrease(Increase(quantity)) == quantity
    ensures Increase(Decrease(quantity)) == quantity
  {
  }

  /** `+` adds six items to a quantity the page keeps, and touches no other product. */
  lemma PlusAddsSix(q: CampaignPage.Quantities, id: CampaignPage.ProductId)
    requires AssocList.NonNegative(q)
    ensures var next := Apply(q, id, Plus);
      && CampaignPage.QuantityOf(next, id) == CampaignPage.QuantityOf(q, id) + Step
      && forall other :: other != id ==> AssocList.Lookup(next, other) == AssocList.Lookup(q, other)
  {
    CampaignPage.QuantityNonNegative(q, id);
    var next := Apply(q, id, Plus);
    QuantityOfLookup(next, id, CampaignPage.QuantityOf(q, id) + Step);
  }

  /** `-` removes six items, or empties the row when fewer than six were chosen. */
  lemma MinusClampsAtZero(q: CampaignPage.Quantities, id: CampaignPage.ProductId)
    ensures var next := Apply(q, id, Minus);
      && CampaignPage.QuantityOf(next, id) == JsNumber.Max(0, CampaignPage.QuantityOf(q, id) - Step)
      && (CampaignPage.QuantityOf(q, id) < Step ==> CampaignPage.QuantityOf(next, id) == 0)
      && forall other :: other != id ==> AssocList.Lookup(next, other) == AssocList.Lookup(q, other)
  {
    var next := Apply(q, id, Minus);
    QuantityOfLookup(next, id, JsNumber.Max(0, CampaignPage.QuantityOf(q, id) - Step));
  }

  /** `+` then `-` gives back the quantity the page had, for every product. */
  lemma PlusThenMinusRestores(q: CampaignPage.Quantities, id: CampaignPage.ProductId)
    requires AssocList.NonNegative(q)
    ensures var back := Apply(Apply(q, id, Plus), id, Minus);
      && CampaignPage.QuantityOf(back, id) == CampaignPage.QuantityOf(q, id)
      && forall other :: other != id ==> AssocList.Lookup(back, other) == AssocList.Lookup(q, other)
  {
    PlusAddsSix(q, id);
    MinusClampsAtZero(Apply(q, id, Plus), id);
    CampaignPage.QuantityNonNegative(q, id);
  }

  /** Text that reads as the integer `v` is forwarded as `v`. */
  lemma TypedForwards(quantity: int, text: string, v: int)
    requires JsNumber.Parse(text) == Some(v as real)
    ensures Forwarded(quantity, Typed(text)) == Some(v)
  {
    assert JsNumber.AsInteger(Some(v as real)) == Some(v);
  }

  /** Whatever the row forwards, the page keeps it clamped at zero. */
  lemma ForwardedIsClamped(q: CampaignPage.Quantities, id: CampaignPage.ProductId, e: Edit, v: int)
    requires Forwarded(CampaignPage.QuantityOf(q, id), e) == Some(v)
    ensures CampaignPage.QuantityOf(Apply(q, id, e), id) == JsNumber.Max(0, v)
  {
    QuantityOfLookup(Apply(q, id, e), id, JsNumber.Max(0, v));
  }

  /** Text that reads as the integer `v` leaves `max(0, v)` in the row: a negative number empties it. */
  lemma TypedIntegerIsClamped(q: CampaignPage.Quantities, id: CampaignPage.ProductId, text: string, v: int)
    requires JsNumber.Parse(text) == Some(v as real)
    ensures CampaignPage.QuantityOf(Apply(q, id, Typed(text)), id) == JsNumber.Max(0, v)
  {
    TypedForwards(CampaignPage.QuantityOf(q, id), text, v);
    ForwardedIsClamped(q, id, Typed(text), v);
  }

  /** Typing a whole number sets the row to exactly that number. */
  lemma TypedNumberIsKept(q: CampaignPage.Quantities, id: CampaignPage.ProductId, n: nat)
    ensures CampaignPage.QuantityOf(Apply(q, id, Typed(JsNumber.NatToString(n))), id) == n
  {
    JsNumber.ParseNatToString(n);
    TypedIntegerIsClamped(q, id, JsNumber.NatToString(n), n);
  }

  /** Clearing the field, or typing something that is not a number, empties the row. */
  lemma TypedBlankOrJunkEmpties(q: CampaignPage.Quantities, id: CampaignPage.ProductId, text: string)
    requires Text.IsBlank(text) || JsNumber.Parse(text).None?
    ensures CampaignPage.QuantityOf(Apply(q, id, Typed(text)), id) == 0
  {
    if Text.IsBlank(text) {
      JsNumber.ParseBlank(text);
      TypedIntegerIsClamped(q, id, text, 0);
    } else {
      QuantityOfLookup(Apply(q, id, Typed(text)), id, 0);
    }
  }
}
