/**
 * The eight discount routes of the app server, each as the request it makes
 * of the shared handler: which products it selects from the request body,
 * and which price change it writes.
 */
module Routes {
  import opened Pricing
  import opened Matching
  import opened Plan
  import opened Laws

  datatype Route =
    | DiscountAllProductsExceptBundles
    | ResetPriceAllProductsExceptBundles
    | DiscountAllProductsExceptTags
    | ResetPriceAllProductsExceptTags
    | DiscountTags
    | ResetDiscountTags
    | DiscountProduct
    | ResetDiscountProduct

  /** The JSON body fields the routes read: `discount` (a percentage), `tags`, `includeAll` and `productName`. */
  datatype Body = Body(discount: real, tags: string, includeAll: bool, productName: string)

  predicate IsReset(route: Route) {
    route.ResetPriceAllProductsExceptBundles? || route.ResetPriceAllProductsExceptTags?
    || route.ResetDiscountTags? || route.ResetDiscountProduct?
  }

  /** The route that takes a discount route's products back to their baseline. */
  function ResetOf(route: Route): (r: Route)
    requires !IsReset(route)
    ensures IsReset(r)
  {
    match route
    case DiscountAllProductsExceptBundles => ResetPriceAllProductsExceptBundles
    case DiscountAllProductsExceptTags => ResetPriceAllProductsExceptTags
    case DiscountTags => ResetDiscountTags
    case DiscountProduct => ResetDiscountProduct
  }

  /** Which products a route updates; the product routes compare against the trimmed `productName`. */
  function SelectionOf(route: Route, body: Body): Selection {
    match route
    case DiscountAllProductsExceptBundles | ResetPriceAllProductsExceptBundles => AllExceptBundles
    case DiscountAllProductsExceptTags | ResetPriceAllProductsExceptTags => ExceptTags(body.tags, body.includeAll)
    case DiscountTags | ResetDiscountTags => WithTags(body.tags, body.includeAll)
    case DiscountProduct | ResetDiscountProduct => Titled(body.productName)
  }

  /**
   * The price change a route writes. The two "resetPrice" routes write the
   * baseline itself; the other two reset routes apply a discount of 0.
   */
  function AdjustmentOf(route: Route, body: Body): Adjustment {
    match route
    case ResetPriceAllProductsExceptBundles | ResetPriceAllProductsExceptTags => Reset
    case ResetDiscountTags | ResetDiscountProduct => Discount(0.0)
    case _ => Discount(body.discount)
  }

  function RequestOf(route: Route, body: Body): Request {
    Request(SelectionOf(route, body), AdjustmentOf(route, body))
  }

  /** A reset route reads no discount from the body: whatever `discount` says, it writes the baseline. */
  lemma ResetIgnoresDiscount(route: Route, body: Body, v: Variant)
    requires IsReset(route)
    ensures Rewrite(v, AdjustmentOf(route, body)) == Rewrite(v, Reset)
  {
    if route.ResetDiscountTags? || route.ResetDiscountProduct? {
      ZeroDiscountIsReset(v);
    }
  }

  /** A discount route and its reset route select the same products from the same body. */
  lemma ResetSelectsSame(route: Route, body: Body)
    requires !IsReset(route)
    ensures SelectionOf(ResetOf(route), body) == SelectionOf(route, body)
    ensures AdjustmentOf(route, body) == Discount(body.discount)
  {
  }

  /** Every reset route leaves the store as a reset of its selection does. */
  lemma ResetRouteIsReset(route: Route, body: Body, catalog: seq<Listing>, m: Store)
    requires IsReset(route) && ValidStore(catalog, m)
    ensures Exec(catalog, m, RequestOf(route, body)) == Exec(catalog, m, Request(SelectionOf(route, body), Reset))
  {
    if route.ResetDiscountTags? || route.ResetDiscountProduct? {
      ZeroDiscountCallIsReset(catalog, m, SelectionOf(route, body));
    }
  }

  /**
   * A discount route followed by its reset route, with the same body, leaves
   * the store as the reset route alone would: the discount leaves no trace.
   */
  lemma ResetRouteUndoesDiscountRoute(route: Route, body: Body, catalog: seq<Listing>, m: Store)
    requires !IsReset(route) && ValidStore(catalog, m)
    ensures ValidStore(catalog, Exec(catalog, m, RequestOf(route, body)))
    ensures Exec(catalog, Exec(catalog, m, RequestOf(route, body)), RequestOf(ResetOf(route), body))
         == Exec(catalog, m, RequestOf(ResetOf(route), body))
  {
    var sel, second := SelectionOf(route, body), AdjustmentOf(ResetOf(route), body);
    ResetSelectsSame(route, body);
    assert RequestOf(route, body) == Request(sel, Discount(body.discount));
    assert RequestOf(ResetOf(route), body) == Request(sel, second);
    var calls := SaveCalls(Listed(catalog, m), Request(sel, Discount(body.discount)));
    assert calls[..|calls|] == calls;
    RerunAfterRun(catalog, m, sel, Discount(body.discount), second, |calls|);
  }

  /** After any reset route, every variant it selects carries its baseline as price and as compare_at_price. */
  lemma ResetRouteRestoresBaseline(route: Route, body: Body, catalog: seq<Listing>, m: Store, id: VariantId)
    requires IsReset(route) && ValidStore(catalog, m)
    requires id in SelectedIds(Page(catalog), SelectionOf(route, body))
    ensures var after := Exec(catalog, m, RequestOf(route, body));
      && id in m && id in after
      && after[id].price == Num(Baseline(m[id]))
      && after[id].compareAtPrice == Num(Baseline(m[id]))
  {
    ResetRouteIsReset(route, body, catalog, m);
    ResetRestoresBaseline(catalog, m, SelectionOf(route, body), id);
  }

  /** The except-tags routes update exactly the products that the tag routes with the same body leave alone. */
  lemma ExceptTagsRoutesComplement(body: Body, p: Product)
    ensures Selected(SelectionOf(DiscountAllProductsExceptTags, body), p)
        <==> !Selected(SelectionOf(DiscountTags, body), p)
  {
    ExceptTagsIsComplement(body.tags, body.includeAll, p);
  }
}
