/**
 * The handlers as the steps they take against the store: one listing call,
 * then save calls one after the other, counting the successful ones, until
 * the first save that fails.
 */
module Engine {
  import opened Wrappers
  import opened Pricing
  import opened Matching
  import opened Plan
  import opened Laws

  /**
   * The number of save calls that succeed, out of n made one after the
   * other from attempt number start: all of them, or those before the first
   * attempt in failing.
   */
  function Completed(start: nat, failing: set<nat>, n: nat): (k: nat)
    ensures k <= n
    ensures forall j :: start <= j < start + k ==> j !in failing
    ensures k < n ==> start + k in failing
    decreases n
  {
    if n == 0 || start in failing then 0 else 1 + Completed(start + 1, failing, n - 1)
  }

  /** The stop point is the first failing attempt: nothing else satisfies both conditions. */
  lemma CompletedUnique(start: nat, failing: set<nat>, n: nat, k: nat)
    requires k <= n
    requires forall j :: start <= j < start + k ==> j !in failing
    requires k < n ==> start + k in failing
    ensures Completed(start, failing, n) == k
  {
  }

  /** The JSON reply: status, `success`, `error` and the number put in the message. */
  datatype Response = Response(status: nat, success: bool, error: Option<string>, changed: nat)

  /**
   * The shop's product and variant store as the handlers see it. Which calls
   * fail is fixed up front: the listing call when listingFails, and the save
   * calls whose attempt numbers are in failing.
   */
  class Shop {
    var catalog: seq<Listing>
    var variants: Store
    var attempts: nat
    const listingFails: bool
    const failing: set<nat>
    const failure: string

    ghost predicate Valid()
      reads this
    {
      ValidStore(catalog, variants)
    }

    constructor (catalog: seq<Listing>, variants: Store, listingFails: bool, failing: set<nat>, failure: string)
      requires ValidStore(catalog, variants)
      ensures Valid()
      ensures this.catalog == catalog && this.variants == variants && attempts == 0
      ensures this.listingFails == listingFails && this.failing == failing && this.failure == failure
    {
      this.catalog := catalog;
      this.variants := variants;
      this.attempts := 0;
      this.listingFails := listingFails;
      this.failing := failing;
      this.failure := failure;
    }

    /** Product.all with limit 250: the first page of products with their variants as stored, or the failure. */
    method ListProducts() returns (r: Result<seq<Product>, string>)
      requires Valid()
      ensures listingFails ==> r == Failure(failure)
      ensures !listingFails ==> r.Success? && |r.value| == |Page(catalog)| <= PageLimit
      ensures !listingFails ==> r.value == Listed(catalog, variants)
    {
      if listingFails {
        return Failure(failure);
      }
      r := Success(Listed(catalog, variants));
    }

    /** One save call with update: writes every record of the batch under its id, or fails and writes nothing. */
    method Save(batch: Batch) returns (err: Option<string>)
      modifies this
      ensures old(Valid()) ==> Valid()
      ensures catalog == old(catalog) && attempts == old(attempts) + 1
      ensures err.Some? <==> old(attempts) in failing
      ensures old(attempts) in failing ==> err == Some(failure) && variants == old(variants)
      ensures old(attempts) !in failing ==> err == None && variants == ApplyWrites(old(variants), batch)
    {
      if attempts in failing {
        err := Some(failure);
      } else {
        if Valid() {
          WritesKeepValid(catalog, variants, batch);
        }
        variants := ApplyWrites(variants, batch);
        err := None;
      }
      attempts := attempts + 1;
    }
  }

  /** Writing records under their own ids keeps every record filed under its id and loses no id. */
  lemma {:induction false} WritesKeepValid(catalog: seq<Listing>, m: Store, ws: seq<Variant>)
    requires ValidStore(catalog, m)
    ensures ValidStore(catalog, ApplyWrites(m, ws))
    ensures m.Keys <= ApplyWrites(m, ws).Keys
  {
    if ws != [] {
      WritesKeepValid(catalog, m, ws[..|ws| - 1]);
    }
  }

  /** The same holds for a sequence of save calls. */
  lemma {:induction false} BatchesKeepValid(catalog: seq<Listing>, m: Store, bs: seq<Batch>)
    requires ValidStore(catalog, m)
    ensures ValidStore(catalog, ApplyBatches(m, bs))
  {
    if bs != [] {
      BatchesKeepValid(catalog, m, bs[..|bs| - 1]);
      WritesKeepValid(catalog, ApplyBatches(m, bs[..|bs| - 1]), bs[|bs| - 1]);
    }
  }

  /** The product routes' first loop: the variants of every product whose trimmed title equals the name, in order. */
  method CollectTitled(ps: seq<Product>, name: string) returns (vs: seq<Variant>)
    ensures vs == VariantsOf(Chosen(ps, Test(Titled(name))))
  {
    vs := [];
    for i := 0 to |ps|
      invariant vs == VariantsOf(Chosen(ps[..i], Test(Titled(name))))
    {
      assert ps[..i + 1] == ps[..i] + [ps[i]];
      ChosenSnoc(ps[..i], ps[i], Test(Titled(name)));
      if Selected(Titled(name), ps[i]) {
        VariantsOfSnoc(Chosen(ps[..i], Test(Titled(name))), ps[i]);
        vs := vs + ps[i].variants;
      }
    }
    assert ps[..|ps|] == ps;
  }

  /**
   * The bundle and tag routes' loop: one save call per product the route's
   * test picks, counting the successful ones, stopping at the first failure.
   */
  method SaveProducts(shop: Shop, ps: seq<Product>, keep: Product -> bool, adj: Adjustment) returns (count: nat, err: Option<string>)
    requires shop.Valid()
    modifies shop
    ensures shop.Valid() && shop.catalog == old(shop.catalog)
    ensures var calls := ProductBatches(ps, keep, adj);
      && count == Completed(old(shop.attempts), shop.failing, |calls|)
      && shop.variants == ApplyBatches(old(shop.variants), calls[..count])
      && (err.None? <==> count == |calls|)
      && (err.Some? ==> err.value == shop.failure)
      && shop.attempts == old(shop.attempts) + (if err.None? then count else count + 1)
  {
    ghost var start, m0 := shop.attempts, shop.variants;
    ghost var calls := ProductBatches(ps, keep, adj);
    count, err := 0, None;
    for i := 0 to |ps|
      invariant shop.catalog == old(shop.catalog)
      invariant forall j :: start <= j < start + count ==> j !in shop.failing
      invariant count == |ProductBatches(ps[..i], keep, adj)| && count <= |calls|
      invariant shop.variants == ApplyBatches(m0, calls[..count]) && shop.attempts == start + count
    {
      var p := ps[i];
      var picked := keep(p);
      NextProduct(ps, i, keep, adj, picked);
      if picked {
        var batch := RewriteAll(p.variants, adj);
        ApplyBatchesNext(m0, calls, count);
        var e := shop.Save(batch);
        if e.Some? {
          CompletedUnique(start, shop.failing, |calls|, count);
          BatchesKeepValid(shop.catalog, m0, calls[..count]);
          return count, e;
        }
        count := count + 1;
      }
    }
    assert ps[..|ps|] == ps;
    CompletedUnique(start, shop.failing, |calls|, count);
    BatchesKeepValid(shop.catalog, m0, calls[..count]);
  }

  /** Where the save call for product i stands among all the save calls. */
  lemma NextProduct(ps: seq<Product>, i: nat, keep: Product -> bool, adj: Adjustment, picked: bool)
    requires i < |ps| && picked == keep(ps[i])
    ensures var pre, calls := ProductBatches(ps[..i], keep, adj), ProductBatches(ps, keep, adj);
      && |ProductBatches(ps[..i + 1], keep, adj)| == |pre| + (if picked then 1 else 0)
      && (picked ==> |pre| < |calls| && calls[|pre|] == RewriteAll(ps[i].variants, adj))
  {
    var pre, next, calls := ProductBatches(ps[..i], keep, adj), ProductBatches(ps[..i + 1], keep, adj), ProductBatches(ps, keep, adj);
    var extra := if picked then [RewriteAll(ps[i].variants, adj)] else [];
    ProductBatchesStep(ps, i, keep, adj);
    assert next == pre + extra;
    ProductBatchesPrefix(ps, i + 1, keep, adj);
    assert calls[..|next|] == next;
    if picked {
      assert next[|pre|] == extra[0];
      assert calls[|pre|] == next[|pre|];
    }
  }

  /** The product routes' second loop: one save call per collected variant, counting, stopping at the first failure. */
  method SaveVariants(shop: Shop, vs: seq<Variant>, adj: Adjustment) returns (count: nat, err: Option<string>)
    requires shop.Valid()
    modifies shop
    ensures shop.Valid() && shop.catalog == old(shop.catalog)
    ensures var calls := VariantBatches(vs, adj);
      && count == Completed(old(shop.attempts), shop.failing, |calls|)
      && shop.variants == ApplyBatches(old(shop.variants), calls[..count])
      && (err.None? <==> count == |calls|)
      && (err.Some? ==> err.value == shop.failure)
      && shop.attempts == old(shop.attempts) + (if err.None? then count else count + 1)
  {
    ghost var start, m0 := shop.attempts, shop.variants;
    ghost var calls := VariantBatches(vs, adj);
    count, err := 0, None;
    var i := 0;
    while i < |vs| && err.None?
      invariant 0 <= i <= |vs|
      invariant shop.catalog == old(shop.catalog)
      invariant forall j :: start <= j < start + count ==> j !in shop.failing
      invariant count <= |calls| && shop.variants == ApplyBatches(m0, calls[..count])
      invariant err.None? ==> count == i && shop.attempts == start + count
      invariant err.Some? ==> count == i && count < |calls| && start + count in shop.failing
      invariant err.Some? ==> err.value == shop.failure && shop.attempts == start + count + 1
      decreases |vs| - i, if err.None? then 1 else 0
    {
      var w := Rewrite(vs[i], adj);
      ApplyBatchesNext(m0, calls, count);
      var e := shop.Save([w]);
      if e.Some? {
        err := e;
      } else {
        count := count + 1;
        i := i + 1;
      }
    }
    CompletedUnique(start, shop.failing, |calls|, count);
    BatchesKeepValid(shop.catalog, m0, calls[..count]);
  }

  /**
   * One handler call: list the products, then save as the selection and the
   * adjustment say. The reply is 200 with the count when every save
   * succeeds, and 500 with the failure message and the count so far
   * otherwise; saves made before a failure stay in the store.
   */
  method Handle(shop: Shop, req: Request) returns (resp: Response)
    requires shop.Valid()
    modifies shop
    ensures shop.Valid() && shop.catalog == old(shop.catalog)
    ensures resp.success <==> resp.status == 200
    ensures resp.status == 200 || resp.status == 500
    ensures resp.status == 500 ==> resp.error == Some(shop.failure)
    ensures resp.status == 200 ==> resp.error == None
    ensures shop.listingFails ==>
      resp == Response(500, false, Some(shop.failure), 0) && shop.variants == old(shop.variants) && shop.attempts == old(shop.attempts)
    ensures !shop.listingFails ==>
      var calls := SaveCalls(Listed(old(shop.catalog), old(shop.variants)), req);
      && resp.changed == Completed(old(shop.attempts), shop.failing, |calls|)
      && shop.variants == ApplyBatches(old(shop.variants), calls[..resp.changed])
      && (resp.status == 200 <==> resp.changed == |calls|)
    ensures resp.status == 200 ==>
      shop.variants == RewriteIds(old(shop.variants), SelectedIds(Page(old(shop.catalog)), req.selection), req.adjustment)
    ensures resp.status == 500 ==>
      exists done :: (done <= SelectedIds(Page(old(shop.catalog)), req.selection) &&
                      shop.variants == RewriteIds(old(shop.variants), done, req.adjustment))
  {
    ghost var m0 := shop.variants;
    var listed := shop.ListProducts();
    if listed.Failure? {
      assert RewriteIds(m0, {}, req.adjustment) == m0;
      return Response(500, false, Some(listed.error), 0);
    }
    var ps := listed.value;
    var count, err;
    match req.selection {
      case Titled(name) =>
        var vs := CollectTitled(ps, name);
        count, err := SaveVariants(shop, vs, req.adjustment);
      case _ =>
        count, err := SaveProducts(shop, ps, Test(req.selection), req.adjustment);
    }
    ghost var calls := SaveCalls(ps, req);
    PartialRunAt(shop.catalog, m0, req, count);
    if err.Some? {
      resp := Response(500, false, err, count);
    } else {
      assert calls[..count] == calls;
      ExecAt(shop.catalog, m0, req);
      resp := Response(200, true, None, count);
    }
  }
}
