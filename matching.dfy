/**
 * Which products a handler touches: the tag tests of the bundle and tag
 * routes, and the title comparison of the product routes.
 */
module Matching {
  import opened Text
  import opened Pricing

  type ProductId = nat

  /** A product as the catalog listing returns it (fields "id,tags,variants,title"). */
  datatype Product = Product(id: ProductId, title: string, tags: string, variants: seq<Variant>)

  /** The tag that the "except bundles" routes leave alone. */
  const BundleTag := "Bundle"

  /** `wanted.every((t) => have.includes(t))` */
  function Every(wanted: seq<string>, have: seq<string>): (r: bool)
    ensures r <==> forall i :: 0 <= i < |wanted| ==> wanted[i] in have
  {
    if wanted == [] then true else wanted[0] in have && Every(wanted[1..], have)
  }

  /** `wanted.some((t) => have.includes(t))` */
  function Any(wanted: seq<string>, have: seq<string>): (r: bool)
    ensures r <==> exists i :: 0 <= i < |wanted| && wanted[i] in have
  {
    if wanted == [] then false
    else if wanted[0] in have then true
    else
      var r := Any(wanted[1..], have);
      assert forall i :: 1 <= i < |wanted| ==> wanted[i] == wanted[1..][i - 1];
      r
  }

  /** The tag test of the tag routes: every requested tag present with includeAll, some requested tag present without. */
  function MatchTags(wanted: seq<string>, have: seq<string>, includeAll: bool): bool {
    if includeAll then Every(wanted, have) else Any(wanted, have)
  }

  /** The product subsets the handlers select. The tag routes carry the raw comma-separated request string. */
  datatype Selection =
    | AllExceptBundles
    | ExceptTags(tags: string, includeAll: bool)
    | WithTags(tags: string, includeAll: bool)
    | Titled(name: string)

  /** Whether a handler with this selection updates a product with this title and tag string. */
  predicate Picks(sel: Selection, title: string, tags: string) {
    match sel
    case AllExceptBundles => BundleTag !in ParseTags(tags)
    case ExceptTags(wanted, includeAll) => !MatchTags(ParseTags(wanted), ParseTags(tags), includeAll)
    case WithTags(wanted, includeAll) => MatchTags(ParseTags(wanted), ParseTags(tags), includeAll)
    case Titled(name) => Trim(title) == Trim(name)
  }

  predicate Selected(sel: Selection, p: Product) {
    Picks(sel, p.title, p.tags)
  }

  /** The bundle routes update a product exactly when no trimmed piece of its tag string is "Bundle". */
  lemma BundleExclusion(p: Product)
    ensures Selected(AllExceptBundles, p) <==> forall i :: 0 <= i < |Split(p.tags)| ==> Trim(Split(p.tags)[i]) != BundleTag
  {
    var tags := ParseTags(p.tags);
    if BundleTag in tags {
      var i :| 0 <= i < |tags| && tags[i] == BundleTag;
      assert Trim(Split(p.tags)[i]) == BundleTag;
    } else {
      forall i | 0 <= i < |Split(p.tags)|
        ensures Trim(Split(p.tags)[i]) != BundleTag
      {
        assert tags[i] == Trim(Split(p.tags)[i]);
      }
    }
  }

  /** The except-tags routes update exactly the products the tag routes with the same request leave alone. */
  lemma ExceptTagsIsComplement(tags: string, includeAll: bool, p: Product)
    ensures Selected(ExceptTags(tags, includeAll), p) <==> !Selected(WithTags(tags, includeAll), p)
  {
  }

  /** With includeAll a tag route requires every requested tag; without it, one of them. */
  lemma WithTagsMeaning(tags: string, includeAll: bool, p: Product)
    ensures includeAll ==>
      (Selected(WithTags(tags, includeAll), p) <==>
        forall i :: 0 <= i < |ParseTags(tags)| ==> ParseTags(tags)[i] in ParseTags(p.tags))
    ensures !includeAll ==>
      (Selected(WithTags(tags, includeAll), p) <==>
        exists i :: 0 <= i < |ParseTags(tags)| && ParseTags(tags)[i] in ParseTags(p.tags))
  {
  }

  /**
   * A request always has at least one tag, so a product that carries all of
   * them carries one of them: the includeAll tag routes select a subset of
   * what the others select, and the except-tags routes the reverse.
   */
  lemma IncludeAllNarrows(tags: string, p: Product)
    ensures Selected(WithTags(tags, true), p) ==> Selected(WithTags(tags, false), p)
    ensures Selected(ExceptTags(tags, false), p) ==> Selected(ExceptTags(tags, true), p)
  {
    ParseTagsShape(tags);
    var wanted := ParseTags(tags);
    if Every(wanted, ParseTags(p.tags)) {
      assert wanted[0] in ParseTags(p.tags);
    }
  }

  /** Titles are compared after trimming both sides, and case matters. */
  lemma TitleMatch(name: string, p: Product)
    ensures Selected(Titled(name), p) <==> Trim(p.title) == Trim(name)
  {
  }

  /** A title that differs from the name only by surrounding white space matches it. */
  lemma PaddedTitleMatches(name: string, before: string, after: string, p: Product)
    requires Trimmed(name) && AllSpace(before) && AllSpace(after)
    requires p.title == before + name + after
    ensures Selected(Titled(name), p)
  {
    TrimPadding(before, name, after);
    TrimPadding([], name, []);
    assert [] + name + [] == name;
  }

  /** An empty tag request asks for the empty tag, which a tag string carries exactly when it has an empty or blank piece. */
  lemma EmptyTagRequest(includeAll: bool, p: Product)
    ensures Selected(WithTags("", includeAll), p) <==> "" in ParseTags(p.tags)
  {
    assert Split("") == [""];
    assert Trim("") == "";
    assert ParseTags("") == [""];
  }
}
