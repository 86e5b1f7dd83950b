/**
 * What one handler call does to the catalog, as values: the product listing
 * it reads, the save calls it makes in order, and the variant records those
 * saves leave in the store.
 */
module Plan {
  import opened Wrappers
  import opened Pricing
  import opened Matching

  /** One handler call: which products, and which price change. */
  datatype Request = Request(selection: Selection, adjustment: Adjustment)

  /** The `limit` of the single Product.all call: later products are never seen. */
  const PageLimit: nat := 250

  /** A product as the store keeps it: its variants are referred to by id. */
  datatype Listing = Listing(id: ProductId, title: string, tags: string, variantIds: seq<VariantId>)

  /** The store's variant records by id. */
  type Store = map<VariantId, Variant>

  /** The variant records one save call sends. */
  type Batch = seq<Variant>

  /** Every variant a listing refers to exists in the store. */
  predicate Indexed(catalog: seq<Listing>, m: Store) {
    forall i, j :: 0 <= i < |catalog| && 0 <= j < |catalog[i].variantIds| ==> catalog[i].variantIds[j] in m
  }

  /** Every record is filed under its own id. */
  predicate KeysMatch(m: Store) {
    forall id :: id in m ==> m[id].id == id
  }

  predicate ValidStore(catalog: seq<Listing>, m: Store) {
    Indexed(catalog, m) && KeysMatch(m)
  }

  /** A listing with its variant records filled in from the store. */
  function Load(l: Listing, m: Store): (p: Product)
    requires forall j :: 0 <= j < |l.variantIds| ==> l.variantIds[j] in m
    ensures p.id == l.id && p.title == l.title && p.tags == l.tags
    ensures |p.variants| == |l.variantIds|
    ensures forall j :: 0 <= j < |l.variantIds| ==> p.variants[j] == m[l.variantIds[j]]
  {
    Product(l.id, l.title, l.tags, seq(|l.variantIds|, j requires 0 <= j < |l.variantIds| => m[l.variantIds[j]]))
  }

  function Snapshot(ls: seq<Listing>, m: Store): (ps: seq<Product>)
    requires Indexed(ls, m)
    ensures |ps| == |ls|
  {
    if ls == [] then []
    else
      var n := |ls| - 1;
      assert Indexed(ls[..n], m) by {
        forall i, j | 0 <= i < n && 0 <= j < |ls[..n][i].variantIds|
          ensures ls[..n][i].variantIds[j] in m
        {
          assert ls[..n][i] == ls[i];
        }
      }
      Snapshot(ls[..n], m) + [Load(ls[n], m)]
  }

  /** The listings the one Product.all call returns: the first PageLimit. */
  function Page(catalog: seq<Listing>): (r: seq<Listing>)
    ensures |r| <= PageLimit && |r| <= |catalog| && r == catalog[..|r|]
    ensures |catalog| <= PageLimit ==> r == catalog
    ensures |catalog| > PageLimit ==> |r| == PageLimit
  {
    if |catalog| <= PageLimit then catalog else catalog[..PageLimit]
  }

  lemma PageIndexed(catalog: seq<Listing>, m: Store)
    requires Indexed(catalog, m)
    ensures Indexed(Page(catalog), m)
  {
    var pg := Page(catalog);
    forall i, j | 0 <= i < |pg| && 0 <= j < |pg[i].variantIds|
      ensures pg[i].variantIds[j] in m
    {
      assert pg[i] == catalog[i];
    }
  }

  /** The product list a handler works on. */
  function Listed(catalog: seq<Listing>, m: Store): (ps: seq<Product>)
    requires Indexed(catalog, m)
    ensures |ps| == |Page(catalog)|
  {
    PageIndexed(catalog, m);
    Snapshot(Page(catalog), m)
  }

  /** The per-product test of a selection, as the handlers' loops apply it. */
  function Test(sel: Selection): Product -> bool {
    p => Selected(sel, p)
  }

  /** The products a test picks, in listing order. */
  function Chosen(ps: seq<Product>, keep: Product -> bool): (r: seq<Product>)
    ensures |r| <= |ps|
  {
    if ps == [] then []
    else
      var n := |ps| - 1;
      var init := Chosen(ps[..n], keep);
      if keep(ps[n]) then init + [ps[n]] else init
  }

  /** The chosen products are exactly the listed products the test picks. */
  lemma {:induction false} ChosenMembers(ps: seq<Product>, keep: Product -> bool)
    ensures forall p :: p in Chosen(ps, keep) <==> p in ps && keep(p)
  {
    if ps != [] {
      var n := |ps| - 1;
      ChosenMembers(ps[..n], keep);
      assert ps == ps[..n] + [ps[n]];
    }
  }

  /** The variants of the products, in order: `varients = varients.concat(p.variants)`. */
  function VariantsOf(ps: seq<Product>): seq<Variant> {
    if ps == [] then [] else VariantsOf(ps[..|ps| - 1]) + ps[|ps| - 1].variants
  }

  /** `p.variants.map(...)`: each variant rewritten by the same adjustment. */
  function RewriteAll(vs: seq<Variant>, adj: Adjustment): (r: seq<Variant>)
    ensures |r| == |vs|
    ensures forall i :: 0 <= i < |vs| ==> r[i] == Rewrite(vs[i], adj)
  {
    seq(|vs|, i requires 0 <= i < |vs| => Rewrite(vs[i], adj))
  }

  /** The save calls of the bundle and tag routes: one per picked product, carrying all its variants rewritten. */
  function ProductBatches(ps: seq<Product>, keep: Product -> bool, adj: Adjustment): seq<Batch> {
    if ps == [] then []
    else
      var n := |ps| - 1;
      ProductBatches(ps[..n], keep, adj) + if keep(ps[n]) then [RewriteAll(ps[n].variants, adj)] else []
  }

  /** The save calls of the product routes: one per collected variant. */
  function VariantBatches(vs: seq<Variant>, adj: Adjustment): (r: seq<Batch>)
    ensures |r| == |vs|
    ensures forall i :: 0 <= i < |vs| ==> r[i] == [Rewrite(vs[i], adj)]
  {
    seq(|vs|, i requires 0 <= i < |vs| => [Rewrite(vs[i], adj)])
  }

  /** Every save call a handler makes, in order, when none of them fails. */
  function SaveCalls(ps: seq<Product>, req: Request): seq<Batch> {
    if req.selection.Titled? then VariantBatches(VariantsOf(Chosen(ps, Test(req.selection))), req.adjustment)
    else ProductBatches(ps, Test(req.selection), req.adjustment)
  }

  /** All variant records of a sequence of save calls, in the order they are sent. */
  function Flatten(bs: seq<Batch>): seq<Variant> {
    if bs == [] then [] else Flatten(bs[..|bs| - 1]) + bs[|bs| - 1]
  }

  /** The store after writing the records one after the other; a later write of an id replaces an earlier one. */
  function ApplyWrites(m: Store, ws: seq<Variant>): Store {
    if ws == [] then m
    else
      var w := ws[|ws| - 1];
      ApplyWrites(m, ws[..|ws| - 1])[w.id := w]
  }

  /** The store after the save calls, one after the other. */
  function ApplyBatches(m: Store, bs: seq<Batch>): Store {
    if bs == [] then m else ApplyWrites(ApplyBatches(m, bs[..|bs| - 1]), bs[|bs| - 1])
  }

  /** The store after a handler call all of whose saves succeed. */
  function Exec(catalog: seq<Listing>, m: Store, req: Request): Store
    requires Indexed(catalog, m)
  {
    ApplyBatches(m, SaveCalls(Listed(catalog, m), req))
  }

  /** The ids of some variant records. */
  function Ids(vs: seq<Variant>): set<VariantId> {
    set v | v in vs :: v.id
  }

  /** The variant ids of the listings a selection picks. */
  function SelectedIds(ls: seq<Listing>, sel: Selection): (r: set<VariantId>)
    ensures forall id :: id in r <==>
      exists i, j :: 0 <= i < |ls| && 0 <= j < |ls[i].variantIds| && Picks(sel, ls[i].title, ls[i].tags) && ls[i].variantIds[j] == id
  {
    if ls == [] then {}
    else
      var n := |ls| - 1;
      var init := SelectedIds(ls[..n], sel);
      var last := if Picks(sel, ls[n].title, ls[n].tags) then set j | 0 <= j < |ls[n].variantIds| :: ls[n].variantIds[j] else {};
      assert forall i :: 0 <= i < n ==> ls[..n][i] == ls[i];
      init + last
  }
}
