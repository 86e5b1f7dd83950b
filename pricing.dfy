/**
 * Baseline-price selection and the per-variant price rewrite that every
 * discount and reset handler performs on each variant it updates.
 */
module Pricing {
  import opened Wrappers
  import opened Numbers

  /**
   * A price field of a variant as the handler sees it: missing (null), the
   * decimal text the catalog returns, or a number the handler wrote itself.
   */
  datatype Field = Null | Text(text: string) | Num(amount: real)

  type VariantId = nat

  datatype Variant = Variant(id: VariantId, price: Field, compareAtPrice: Field)

  /** parseFloat(field): null reads as NaN, text is parsed, a written number reads back as itself. */
  function Read(f: Field): Option<real> {
    match f
    case Null => None
    case Text(s) => ParseFloat(s)
    case Num(x) => Some(x)
  }

  /** The value a field contributes after the `!prevPrice` test: NaN and zero are both discarded. */
  function Usable(f: Field): (r: Option<real>)
    ensures r.Some? <==> Read(f).Some? && Read(f).value != 0.0
    ensures r.Some? ==> r == Read(f)
  {
    match Read(f)
    case Some(x) => if x != 0.0 then Some(x) else None
    case None => None
  }

  /** The reference price a discount is computed from. */
  function Baseline(v: Variant): real {
    match Usable(v.compareAtPrice)
    case Some(x) => x
    case None =>
      match Usable(v.price)
      case Some(y) => y
      case None => 0.0
  }

  /** The handler's price change: a percentage discount, or a reset to the baseline. */
  datatype Adjustment = Discount(percent: real) | Reset

  function NewPrice(base: real, adj: Adjustment): real {
    match adj
    case Discount(p) => base * (1.0 - p / 100.0)
    case Reset => base
  }

  /** The variant record a handler saves: the adjusted price, with the baseline kept as compare-at price. */
  function Rewrite(v: Variant, adj: Adjustment): Variant {
    var b := Baseline(v);
    Variant(v.id, Num(NewPrice(b, adj)), Num(b))
  }

  /** The baseline is compare_at_price when it reads as a non-zero number. */
  lemma BaselinePrefersCompareAt(v: Variant)
    requires Read(v.compareAtPrice).Some? && Read(v.compareAtPrice).value != 0.0
    ensures Baseline(v) == Read(v.compareAtPrice).value
  {
  }

  /** Otherwise it is price when that reads as a non-zero number, and 0 when neither does. */
  lemma BaselineFallsBack(v: Variant)
    requires Read(v.compareAtPrice) == None || Read(v.compareAtPrice) == Some(0.0)
    ensures Read(v.price).Some? && Read(v.price).value != 0.0 ==> Baseline(v) == Read(v.price).value
    ensures Read(v.price) == None || Read(v.price) == Some(0.0) ==> Baseline(v) == 0.0
  {
  }

  /** Negative prices are not filtered out: a negative compare_at_price is taken as the baseline. */
  lemma NegativeBaselineKept(v: Variant)
    requires Read(v.compareAtPrice).Some? && Read(v.compareAtPrice).value < 0.0
    ensures Baseline(v) < 0.0
  {
  }

  /** A compare_at_price of "0.00" counts as absent, exactly like null. */
  lemma ZeroCompareAtIsAbsent(id: VariantId, price: Field)
    ensures Baseline(Variant(id, price, Text(CentsText(0)))) == Baseline(Variant(id, price, Null))
  {
    ParseCents(0, []);
    assert CentsText(0) + [] == CentsText(0);
  }

  /** A catalog price such as "19.99" is the baseline when compare_at_price is missing. */
  lemma CatalogPriceBaseline(id: VariantId, cents: nat)
    ensures Baseline(Variant(id, Text(CentsText(cents)), Null)) == cents as real / 100.0
  {
    ParseCents(cents, []);
    assert CentsText(cents) + [] == CentsText(cents);
  }

  /** The variant a handler writes has the same baseline as the one it read, even a zero baseline. */
  lemma RewriteKeepsBaseline(v: Variant, adj: Adjustment)
    ensures Baseline(Rewrite(v, adj)) == Baseline(v)
  {
    var b := Baseline(v);
    if b == 0.0 {
      assert NewPrice(b, adj) == 0.0;
    }
  }

  /** What a handler writes depends on the variant only through its id and its baseline. */
  lemma RewriteDependsOnBaseline(v: Variant, w: Variant, adj: Adjustment)
    requires v.id == w.id && Baseline(v) == Baseline(w)
    ensures Rewrite(v, adj) == Rewrite(w, adj)
  {
  }

  /**
   * Whatever adjustment was saved before, a second one gives the same variant
   * as if it had been the only one: the last adjustment wins.
   */
  lemma LastAdjustmentWins(v: Variant, first: Adjustment, second: Adjustment)
    ensures Rewrite(Rewrite(v, first), second) == Rewrite(v, second)
  {
    RewriteKeepsBaseline(v, first);
  }

  /** Applying the same discount twice gives the variant that applying it once gives. */
  lemma DiscountIdempotent(v: Variant, percent: real)
    ensures Rewrite(Rewrite(v, Discount(percent)), Discount(percent)) == Rewrite(v, Discount(percent))
  {
    LastAdjustmentWins(v, Discount(percent), Discount(percent));
  }

  /** A reset after a discount restores price and compare_at_price to the original baseline. */
  lemma ResetUndoesDiscount(v: Variant, percent: real)
    ensures Rewrite(Rewrite(v, Discount(percent)), Reset) == Variant(v.id, Num(Baseline(v)), Num(Baseline(v)))
  {
    LastAdjustmentWins(v, Discount(percent), Reset);
  }

  /** A discount of 0 percent writes what a reset writes. */
  lemma ZeroDiscountIsReset(v: Variant)
    ensures Rewrite(v, Discount(0.0)) == Rewrite(v, Reset)
  {
  }

  /** Within the range the settings page lets through, the new price lies between 0 and a non-negative baseline. */
  lemma DiscountWithinRange(base: real, percent: real)
    requires 0.0 <= percent <= 100.0 && 0.0 <= base
    ensures 0.0 <= NewPrice(base, Discount(percent)) <= base
  {
    var f := 1.0 - percent / 100.0;
    assert 0.0 <= f <= 1.0;
    assert NewPrice(base, Discount(percent)) == base * f;
    assert 0.0 <= base * f;
    assert base - base * f == base * (1.0 - f);
    assert 0.0 <= base * (1.0 - f);
  }
}
