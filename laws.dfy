/**
 * Laws of whole handler calls over the store: which variant records a call
 * changes and to what, what a failed call leaves behind, and how calls with
 * the same selection compose.
 */
module Laws {
  import opened Pricing
  import opened Matching
  import opened Plan

  /** Every record is the rewrite, by adj, of the record the store held under its id. */
  predicate RewritesOf(ws: seq<Variant>, m: Store, adj: Adjustment) {
    forall w :: w in ws ==> w.id in m && w == Rewrite(m[w.id], adj)
  }

  /** Every variant of every product is the store's record under its id. */
  predicate FromStore(ps: seq<Product>, m: Store) {
    forall p, v :: p in ps && v in p.variants ==> v.id in m && m[v.id] == v
  }

  // ---- sequences of products, batches and writes ----

  lemma ChosenSnoc(ps: seq<Product>, p: Product, keep: Product -> bool)
    ensures Chosen(ps + [p], keep) == if keep(p) then Chosen(ps, keep) + [p] else Chosen(ps, keep)
  {
    assert (ps + [p])[..|ps|] == ps;
  }

  /** Going one product further either adds that product's save call or nothing. */
  lemma ProductBatchesStep(ps: seq<Product>, i: nat, keep: Product -> bool, adj: Adjustment)
    requires i < |ps|
    ensures ProductBatches(ps[..i + 1], keep, adj) ==
      ProductBatches(ps[..i], keep, adj) + if keep(ps[i]) then [RewriteAll(ps[i].variants, adj)] else []
  {
    assert ps[..i + 1][..i] == ps[..i];
  }

  /** The save calls for the first i products come first among the save calls for all of them. */
  lemma {:induction false} ProductBatchesPrefix(ps: seq<Product>, i: nat, keep: Product -> bool, adj: Adjustment)
    requires i <= |ps|
    ensures var pre := ProductBatches(ps[..i], keep, adj);
      |pre| <= |ProductBatches(ps, keep, adj)| && ProductBatches(ps, keep, adj)[..|pre|] == pre
  {
    if i < |ps| {
      var n := |ps| - 1;
      ProductBatchesPrefix(ps[..n], i, keep, adj);
      assert ps[..n][..i] == ps[..i];
    } else {
      assert ps[..i] == ps;
    }
  }

  /** Saving one more batch extends the prefix that has been applied. */
  lemma ApplyBatchesNext(m: Store, bs: seq<Batch>, k: nat)
    requires k < |bs|
    ensures ApplyBatches(m, bs[..k + 1]) == ApplyWrites(ApplyBatches(m, bs[..k]), bs[k])
  {
    assert bs[..k + 1][..k] == bs[..k];
  }

  lemma VariantsOfSnoc(ps: seq<Product>, p: Product)
    ensures VariantsOf(ps + [p]) == VariantsOf(ps) + p.variants
  {
    assert (ps + [p])[..|ps|] == ps;
  }

  lemma {:induction false} VariantsOfMember(ps: seq<Product>, v: Variant)
    requires v in VariantsOf(ps)
    ensures exists p :: p in ps && v in p.variants
  {
    var n := |ps| - 1;
    if v in VariantsOf(ps[..n]) {
      VariantsOfMember(ps[..n], v);
      var p :| p in ps[..n] && v in p.variants;
      assert p in ps;
    } else {
      assert v in ps[n].variants;
    }
  }

  lemma RewriteAllAppend(a: seq<Variant>, b: seq<Variant>, adj: Adjustment)
    ensures RewriteAll(a + b, adj) == RewriteAll(a, adj) + RewriteAll(b, adj)
  {
  }

  lemma {:induction false} FlattenAppend(a: seq<Batch>, b: seq<Batch>)
    ensures Flatten(a + b) == Flatten(a) + Flatten(b)
  {
    if b == [] {
      assert a + b == a;
    } else {
      var n := |b| - 1;
      FlattenAppend(a, b[..n]);
      assert (a + b)[..|a + b| - 1] == a + b[..n];
      assert (a + b)[|a + b| - 1] == b[n];
    }
  }

  lemma {:induction false} FlattenProductBatches(ps: seq<Product>, keep: Product -> bool, adj: Adjustment)
    ensures Flatten(ProductBatches(ps, keep, adj)) == RewriteAll(VariantsOf(Chosen(ps, keep)), adj)
  {
    if ps != [] {
      var n := |ps| - 1;
      var pre := ProductBatches(ps[..n], keep, adj);
      FlattenProductBatches(ps[..n], keep, adj);
      if keep(ps[n]) {
        var b := RewriteAll(ps[n].variants, adj);
        assert (pre + [b])[..|pre|] == pre;
        VariantsOfSnoc(Chosen(ps[..n], keep), ps[n]);
        RewriteAllAppend(VariantsOf(Chosen(ps[..n], keep)), ps[n].variants, adj);
      } else {
        assert pre + [] == pre;
      }
    }
  }

  lemma {:induction false} FlattenPerVariant(vs: seq<Variant>, adj: Adjustment)
    ensures Flatten(VariantBatches(vs, adj)) == RewriteAll(vs, adj)
  {
    if vs != [] {
      var n := |vs| - 1;
      FlattenPerVariant(vs[..n], adj);
      assert VariantBatches(vs, adj)[..n] == VariantBatches(vs[..n], adj);
      assert vs == vs[..n] + [vs[n]];
      RewriteAllAppend(vs[..n], [vs[n]], adj);
    }
  }

  /** The records a handler sends, in order: the rewrites of the selected products' variants. */
  lemma CallWrites(ps: seq<Product>, req: Request)
    ensures Flatten(SaveCalls(ps, req)) == RewriteAll(VariantsOf(Chosen(ps, Test(req.selection))), req.adjustment)
  {
    if req.selection.Titled? {
      FlattenPerVariant(VariantsOf(Chosen(ps, Test(req.selection))), req.adjustment);
    } else {
      FlattenProductBatches(ps, Test(req.selection), req.adjustment);
    }
  }

  lemma {:induction false} ApplyWritesAppend(m: Store, ws: seq<Variant>, vs: seq<Variant>)
    ensures ApplyWrites(m, ws + vs) == ApplyWrites(ApplyWrites(m, ws), vs)
  {
    if vs != [] {
      var n := |vs| - 1;
      ApplyWritesAppend(m, ws, vs[..n]);
      assert (ws + vs)[..|ws + vs| - 1] == ws + vs[..n];
      assert (ws + vs)[|ws + vs| - 1] == vs[n];
    } else {
      assert ws + vs == ws;
    }
  }

  /** Saving batch after batch writes the same records as one flat sequence of writes. */
  lemma {:induction false} ApplyBatchesFlat(m: Store, bs: seq<Batch>)
    ensures ApplyBatches(m, bs) == ApplyWrites(m, Flatten(bs))
  {
    if bs != [] {
      var n := |bs| - 1;
      ApplyBatchesFlat(m, bs[..n]);
      ApplyWritesAppend(m, Flatten(bs[..n]), bs[n]);
    }
  }

  lemma IdsSnoc(ws: seq<Variant>, w: Variant)
    ensures Ids(ws + [w]) == Ids(ws) + {w.id}
  {
  }

  lemma IdsAppend(a: seq<Variant>, b: seq<Variant>)
    ensures Ids(a + b) == Ids(a) + Ids(b)
  {
  }

  lemma IdsRewriteAll(vs: seq<Variant>, adj: Adjustment)
    ensures Ids(RewriteAll(vs, adj)) == Ids(vs)
  {
    var r := RewriteAll(vs, adj);
    forall id | id in Ids(vs) ensures id in Ids(r) {
      var i :| 0 <= i < |vs| && vs[i].id == id;
      assert r[i].id == id;
    }
  }

  /** The store with the records under ids rewritten by adj and every other record as it was. */
  function RewriteIds(m: Store, ids: set<VariantId>, adj: Adjustment): (r: Store)
    ensures r.Keys == m.Keys
  {
    map id | id in m :: if id in ids then Rewrite(m[id], adj) else m[id]
  }

  lemma RewriteOneMore(m: Store, ids: set<VariantId>, w: Variant, adj: Adjustment)
    requires w.id in m && w == Rewrite(m[w.id], adj)
    ensures RewriteIds(m, ids, adj)[w.id := w] == RewriteIds(m, ids + {w.id}, adj)
  {
  }

  /**
   * Writing rewrites of the store's own records leaves every id either as it
   * was or rewritten, according to whether some write carries it.
   */
  lemma {:induction false} ApplyRewrites(m: Store, ws: seq<Variant>, adj: Adjustment)
    requires RewritesOf(ws, m, adj)
    ensures ApplyWrites(m, ws) == RewriteIds(m, Ids(ws), adj)
  {
    if ws == [] {
      assert RewriteIds(m, {}, adj) == m;
    } else {
      var n := |ws| - 1;
      var w := ws[n];
      assert ws == ws[..n] + [w];
      ApplyRewrites(m, ws[..n], adj);
      IdsSnoc(ws[..n], w);
      RewriteOneMore(m, Ids(ws[..n]), w, adj);
    }
  }

  /** Rewriting some ids and then a superset of them, by another adjustment, is the second rewrite alone. */
  lemma RewriteIdsTwice(m: Store, some: set<VariantId>, all: set<VariantId>, first: Adjustment, second: Adjustment)
    requires some <= all
    ensures RewriteIds(RewriteIds(m, some, first), all, second) == RewriteIds(m, all, second)
  {
    var a := RewriteIds(RewriteIds(m, some, first), all, second);
    var b := RewriteIds(m, all, second);
    forall id | id in m ensures a[id] == b[id] {
      if id in some {
        LastAdjustmentWins(m[id], first, second);
      }
    }
  }

  // ---- the listing ----

  lemma {:induction false} SnapshotFromStore(ls: seq<Listing>, m: Store)
    requires Indexed(ls, m) && KeysMatch(m)
    ensures FromStore(Snapshot(ls, m), m)
  {
    if ls != [] {
      var n := |ls| - 1;
      SnapshotFromStore(ls[..n], m);
    }
  }

  /** The i-th product of a snapshot is the i-th listing loaded from the store. */
  lemma {:induction false} SnapshotAt(ls: seq<Listing>, m: Store, i: nat)
    requires Indexed(ls, m) && i < |ls|
    ensures forall j :: 0 <= j < |ls[i].variantIds| ==> ls[i].variantIds[j] in m
    ensures Snapshot(ls, m)[i] == Load(ls[i], m)
  {
    var n := |ls| - 1;
    if i < n {
      assert Indexed(ls[..n], m) by {
        forall k, j | 0 <= k < n && 0 <= j < |ls[..n][k].variantIds|
          ensures ls[..n][k].variantIds[j] in m
        {
          assert ls[..n][k] == ls[k];
        }
      }
      SnapshotAt(ls[..n], m, i);
      assert ls[..n][i] == ls[i];
    }
  }

  /** The i-th product a handler works on is the i-th first-page listing loaded from the store. */
  lemma ListedAt(catalog: seq<Listing>, m: Store, i: nat)
    requires Indexed(catalog, m) && i < |Page(catalog)|
    ensures i < |catalog| && Page(catalog)[i] == catalog[i]
    ensures Listed(catalog, m)[i] == Load(catalog[i], m)
  {
    PageIndexed(catalog, m);
    SnapshotAt(Page(catalog), m, i);
  }

  lemma ChosenVariantsFromStore(ps: seq<Product>, keep: Product -> bool, m: Store)
    requires FromStore(ps, m)
    ensures forall v :: v in VariantsOf(Chosen(ps, keep)) ==> v.id in m && m[v.id] == v
  {
    ChosenMembers(ps, keep);
    forall v | v in VariantsOf(Chosen(ps, keep)) ensures v.id in m && m[v.id] == v {
      VariantsOfMember(Chosen(ps, keep), v);
    }
  }

  lemma LoadIds(l: Listing, m: Store)
    requires forall j :: 0 <= j < |l.variantIds| ==> l.variantIds[j] in m
    requires KeysMatch(m)
    ensures Ids(Load(l, m).variants) == set j | 0 <= j < |l.variantIds| :: l.variantIds[j]
  {
    var p := Load(l, m);
    forall id | id in Ids(p.variants) ensures id in set j | 0 <= j < |l.variantIds| :: l.variantIds[j] {
      var k :| 0 <= k < |p.variants| && p.variants[k].id == id;
      assert l.variantIds[k] == id;
    }
    forall id | id in set j | 0 <= j < |l.variantIds| :: l.variantIds[j] ensures id in Ids(p.variants) {
      var k :| 0 <= k < |l.variantIds| && l.variantIds[k] == id;
      assert p.variants[k] in p.variants;
    }
  }

  /** The ids a selection writes depend only on the listings' titles and tags, not on the prices. */
  lemma {:induction false} ChosenIds(ls: seq<Listing>, m: Store, sel: Selection)
    requires Indexed(ls, m) && KeysMatch(m)
    ensures Ids(VariantsOf(Chosen(Snapshot(ls, m), Test(sel)))) == SelectedIds(ls, sel)
  {
    if ls != [] {
      var n := |ls| - 1;
      var s := Snapshot(ls, m);
      var s0 := Snapshot(ls[..n], m);
      var p := Load(ls[n], m);
      assert s[..n] == s0 && s[n] == p;
      ChosenIds(ls[..n], m, sel);
      LoadIds(ls[n], m);
      if Selected(sel, p) {
        VariantsOfSnoc(Chosen(s0, Test(sel)), p);
        IdsAppend(VariantsOf(Chosen(s0, Test(sel))), p.variants);
      }
    }
  }

  /** The records a handler call sends are rewrites of the store's records, and they carry exactly the selected ids. */
  lemma RunWrites(catalog: seq<Listing>, m: Store, req: Request)
    requires ValidStore(catalog, m)
    ensures RewritesOf(Flatten(SaveCalls(Listed(catalog, m), req)), m, req.adjustment)
    ensures Ids(Flatten(SaveCalls(Listed(catalog, m), req))) == SelectedIds(Page(catalog), req.selection)
  {
    var ps := Listed(catalog, m);
    var sel, adj := req.selection, req.adjustment;
    var vs := VariantsOf(Chosen(ps, Test(sel)));
    PageIndexed(catalog, m);
    CallWrites(ps, req);
    SnapshotFromStore(Page(catalog), m);
    ChosenVariantsFromStore(ps, Test(sel), m);
    var ws := RewriteAll(vs, adj);
    forall w | w in ws ensures w.id in m && w == Rewrite(m[w.id], adj) {
      var i :| 0 <= i < |ws| && ws[i] == w;
      assert vs[i] in vs;
    }
    IdsRewriteAll(vs, adj);
    ChosenIds(Page(catalog), m, sel);
  }

  // ---- whole handler calls ----

  /**
   * A handler call all of whose saves succeed rewrites exactly the variants of
   * the selected products on the first page and leaves every other record as it was.
   */
  lemma ExecAt(catalog: seq<Listing>, m: Store, req: Request)
    requires ValidStore(catalog, m)
    ensures Exec(catalog, m, req) == RewriteIds(m, SelectedIds(Page(catalog), req.selection), req.adjustment)
  {
    var calls := SaveCalls(Listed(catalog, m), req);
    RunWrites(catalog, m, req);
    ApplyBatchesFlat(m, calls);
    ApplyRewrites(m, Flatten(calls), req.adjustment);
  }

  /**
   * A handler call stopped by a failing save after k successful ones has
   * rewritten some of the selected ids and left every other record as it was.
   */
  lemma PartialRunAt(catalog: seq<Listing>, m: Store, req: Request, k: nat)
    requires ValidStore(catalog, m)
    requires k <= |SaveCalls(Listed(catalog, m), req)|
    ensures var calls := SaveCalls(Listed(catalog, m), req);
      && Ids(Flatten(calls[..k])) <= SelectedIds(Page(catalog), req.selection)
      && ApplyBatches(m, calls[..k]) == RewriteIds(m, Ids(Flatten(calls[..k])), req.adjustment)
  {
    var calls := SaveCalls(Listed(catalog, m), req);
    RunWrites(catalog, m, req);
    assert calls == calls[..k] + calls[k..];
    FlattenAppend(calls[..k], calls[k..]);
    IdsAppend(Flatten(calls[..k]), Flatten(calls[k..]));
    ApplyBatchesFlat(m, calls[..k]);
    ApplyRewrites(m, Flatten(calls[..k]), req.adjustment);
  }

  /** The records a call leaves behind are still filed under their own ids. */
  lemma RewriteIdsValid(catalog: seq<Listing>, m: Store, ids: set<VariantId>, adj: Adjustment)
    requires ValidStore(catalog, m)
    ensures ValidStore(catalog, RewriteIds(m, ids, adj))
  {
  }

  /** Products the selection does not pick are never written, whether the call completes or fails partway. */
  lemma UnselectedUntouched(catalog: seq<Listing>, m: Store, req: Request, k: nat, id: VariantId)
    requires ValidStore(catalog, m)
    requires k <= |SaveCalls(Listed(catalog, m), req)|
    requires id in m && id !in SelectedIds(Page(catalog), req.selection)
    ensures var after := ApplyBatches(m, SaveCalls(Listed(catalog, m), req)[..k]);
      id in after && after[id] == m[id]
  {
    PartialRunAt(catalog, m, req, k);
  }

  /** A variant that no listing on the first page refers to is never written. */
  lemma OffPageUntouched(catalog: seq<Listing>, m: Store, req: Request, id: VariantId)
    requires ValidStore(catalog, m) && id in m
    requires forall l :: l in Page(catalog) ==> id !in l.variantIds
    ensures var after := Exec(catalog, m, req);
      id in after && after[id] == m[id]
  {
    ExecAt(catalog, m, req);
  }

  /**
   * After any call with some selection, completed or stopped after k saves, a
   * complete call with the same selection leaves the store exactly as that
   * second call alone would have: earlier adjustments leave no trace.
   */
  lemma RerunAfterRun(catalog: seq<Listing>, m: Store, sel: Selection, first: Adjustment, second: Adjustment, k: nat)
    requires ValidStore(catalog, m)
    requires k <= |SaveCalls(Listed(catalog, m), Request(sel, first))|
    ensures var m1 := ApplyBatches(m, SaveCalls(Listed(catalog, m), Request(sel, first))[..k]);
      && ValidStore(catalog, m1)
      && Exec(catalog, m1, Request(sel, second)) == Exec(catalog, m, Request(sel, second))
  {
    var calls := SaveCalls(Listed(catalog, m), Request(sel, first));
    var done := Ids(Flatten(calls[..k]));
    var all := SelectedIds(Page(catalog), sel);
    PartialRunAt(catalog, m, Request(sel, first), k);
    RewriteIdsValid(catalog, m, done, first);
    var m1 := RewriteIds(m, done, first);
    ExecAt(catalog, m1, Request(sel, second));
    ExecAt(catalog, m, Request(sel, second));
    RewriteIdsTwice(m, done, all, first, second);
  }

  /** A reset after a discount with the same selection leaves what a reset alone leaves. */
  lemma DiscountThenReset(catalog: seq<Listing>, m: Store, sel: Selection, percent: real)
    requires ValidStore(catalog, m)
    ensures ValidStore(catalog, Exec(catalog, m, Request(sel, Discount(percent))))
    ensures Exec(catalog, Exec(catalog, m, Request(sel, Discount(percent))), Request(sel, Reset))
         == Exec(catalog, m, Request(sel, Reset))
  {
    var calls := SaveCalls(Listed(catalog, m), Request(sel, Discount(percent)));
    assert calls[..|calls|] == calls;
    RerunAfterRun(catalog, m, sel, Discount(percent), Reset, |calls|);
  }

  /** After a reset every selected variant's price and compare_at_price equal its baseline before the call. */
  lemma ResetRestoresBaseline(catalog: seq<Listing>, m: Store, sel: Selection, id: VariantId)
    requires ValidStore(catalog, m)
    requires id in SelectedIds(Page(catalog), sel)
    ensures var after := Exec(catalog, m, Request(sel, Reset));
      && id in m && id in after
      && after[id].price == Num(Baseline(m[id]))
      && after[id].compareAtPrice == Num(Baseline(m[id]))
  {
    ExecAt(catalog, m, Request(sel, Reset));
    PageIndexed(catalog, m);
  }

  /** Repeating a discount call with the same selection changes nothing further. */
  lemma DiscountCallIdempotent(catalog: seq<Listing>, m: Store, sel: Selection, percent: real)
    requires ValidStore(catalog, m)
    ensures ValidStore(catalog, Exec(catalog, m, Request(sel, Discount(percent))))
    ensures Exec(catalog, Exec(catalog, m, Request(sel, Discount(percent))), Request(sel, Discount(percent)))
         == Exec(catalog, m, Request(sel, Discount(percent)))
  {
    var calls := SaveCalls(Listed(catalog, m), Request(sel, Discount(percent)));
    assert calls[..|calls|] == calls;
    RerunAfterRun(catalog, m, sel, Discount(percent), Discount(percent), |calls|);
  }

  /** A call with a zero-percent discount leaves the store exactly as a reset call with the same selection. */
  lemma ZeroDiscountCallIsReset(catalog: seq<Listing>, m: Store, sel: Selection)
    requires ValidStore(catalog, m)
    ensures Exec(catalog, m, Request(sel, Discount(0.0))) == Exec(catalog, m, Request(sel, Reset))
  {
    var ids := SelectedIds(Page(catalog), sel);
    ExecAt(catalog, m, Request(sel, Discount(0.0)));
    ExecAt(catalog, m, Request(sel, Reset));
    forall id | id in m
      ensures RewriteIds(m, ids, Discount(0.0))[id] == RewriteIds(m, ids, Reset)[id]
    {
      ZeroDiscountIsReset(m[id]);
    }
  }
}
