# Discount manager: the catalog discount engine

This project models the discount engine of the discount-manager Shopify app
server (`web/index.js`, the eight `POST /api/...` handlers). It proves
properties of that model in Dafny.

Each handler does the same four things:

1. It lists the first 250 products of the shop (`Product.all`).
2. It picks products by a tag test or by title.
3. It computes a *baseline* price for every variant of a picked product.
   The baseline is `compare_at_price` when that parses to a non-zero number,
   otherwise `price` when that does, otherwise 0.
4. It saves new prices, one save call at a time, counting the saves. A
   discount writes `price = baseline * (1 - discount/100)` and
   `compare_at_price = baseline`. A reset writes `baseline` to both fields.

The first save that throws stops the loop. The reply is then 500 with the
error message and the count reached so far. Saves made before it stay in the
store.

Modules, one concept each:

- `Wrappers`: `Option` and `Result`.
- `Text`: JavaScript `trim`, `split(",")` and `join(",")` on `seq<char>`. This
  includes the tag parsing `split(",").map(t => t.trim())`.
- `Numbers`: `parseFloat` on the decimal strings the shop returns. Values are
  exact rationals, and NaN is `None`.
- `Pricing`: price fields, the baseline rule and the per-variant rewrite.
- `Matching`: products, the four kinds of selection and the tag and title tests.
- `Plan`: the store as a map from variant id to variant record, and the
  listing and save calls of one handler call as values. `Exec` is the store
  after a call in which every save succeeds.
- `Laws`: store-level laws of whole calls. They cover what is written, what a
  failed call leaves behind, and how calls compose.
- `Engine`: the imperative part.
  - The class `Shop` holds the catalog and the variant map, which its `Save`
    method updates in place. Save failures are given up front: the save
    attempts whose numbers are in `failing` throw.
  - The handlers' loops are methods with loop invariants: `SaveProducts` for
    the bundle and tag routes, `CollectTitled` and `SaveVariants` for the
    product routes.
  - `Handle` runs one call and builds the reply.
- `Routes`: the eight routes as requests to `Handle`, built from the request
  body. The discount and reset laws are restated route by route.

## Model

| member | source | states |
|---|---|---|
| Text.TrimStartShape | web/index.js:178 | what trim's first half removes: only white space, from the front, up to the first non-space character |
| Text.TrimEndShape | web/index.js:178 | the same at the end of the string |
| Text.TrimSlice | web/index.js:178 | a trimmed tag is a contiguous piece of the original with only white space cut away on either side, and it has no white space at either end |
| Text.TrimPadding | web/index.js:178 | trimming a trimmed word padded with white space gives the word back |
| Text.TrimIdempotent | web/index.js:178 | trimming twice is trimming once |
| Text.SplitShape | web/index.js:176 | no piece of `split(",")` contains a comma |
| Text.JoinSplit | web/index.js:176 | joining the pieces of a split with commas gives the original tag string back |
| Text.SplitJoin | web/index.js:176 | splitting a comma-join of comma-free pieces gives those pieces back |
| Text.ParseTagsJoin | web/index.js:176-178 | a tag string written as comma-joined pieces parses to those pieces, each trimmed |
| Text.ParseTagsShape | web/index.js:176-178 | the parsed tag list is never empty, and every tag in it is comma-free and trimmed |
| Numbers.LeadingDigits | web/index.js:182 | the digit prefix `parseFloat` reads is the longest prefix made of digits |
| Numbers.NatText | web/index.js:182 | the numeral of a count is a non-empty string of digits |
| Numbers.NatTextValue | web/index.js:182 | the numeral of n reads back as n |
| Numbers.ParseCents | web/index.js:182 | a price string such as "19.99" (whole units, a point, two digits) parses to exactly its value in cents / 100, whatever non-numeric text follows it |
| Numbers.ParseMinus | web/index.js:182 | a leading minus sign negates the value, so a negative price parses to a negative number |
| Numbers.ParseNoDigits | web/index.js:182 | a string that cannot start a number (empty, or starting with a character that is not white space, a digit, a sign, a point or the 'I' of "Infinity") parses to NaN |
| Pricing.Usable | web/index.js:183 | the `!prevPrice` test discards a field exactly when it reads as NaN or as zero, and otherwise keeps the value read |
| Pricing.BaselinePrefersCompareAt | web/index.js:182-183 | the baseline is compare_at_price whenever that reads as a non-zero number |
| Pricing.BaselineFallsBack | web/index.js:183-188 | otherwise the baseline is price when that reads as a non-zero number, and 0 when it does not |
| Pricing.NegativeBaselineKept | web/index.js:182-183 | negative prices are not filtered out: a negative compare_at_price is the baseline |
| Pricing.ZeroCompareAtIsAbsent | web/index.js:183 | a compare_at_price of "0.00" gives the same baseline as a missing one |
| Pricing.CatalogPriceBaseline | web/index.js:184-185 | with no compare_at_price, a catalog price such as "19.99" is the baseline |
| Pricing.RewriteKeepsBaseline | web/index.js:190-194 | the record a handler writes has the same baseline as the one it read, also when that baseline is 0 |
| Pricing.RewriteDependsOnBaseline | web/index.js:190-194 | what a handler writes for a variant depends only on its id and its baseline |
| Pricing.LastAdjustmentWins | web/index.js:190-194 | rewriting an already rewritten variant gives what rewriting the original gives: the last adjustment wins |
| Pricing.DiscountIdempotent | web/index.js:353-354 | applying the same discount twice gives the variant that applying it once gives |
| Pricing.ResetUndoesDiscount | web/index.js:264-268 | a reset after a discount gives price = compare_at_price = the original baseline |
| Pricing.ZeroDiscountIsReset | web/index.js:573 | a discount of 0 writes exactly what a reset writes |
| Pricing.DiscountWithinRange | web/frontend/components/ApplyDiscountToAllExceptTagCard.jsx:26-31 | for a discount in the range the settings page lets through, and a non-negative baseline, the new price lies between 0 and the baseline |
| Matching.Every | web/index.js:333 | `every` holds exactly when every requested tag is among the product's tags |
| Matching.Any | web/index.js:337 | `some` holds exactly when at least one requested tag is among the product's tags |
| Matching.BundleExclusion | web/index.js:176-180 | the bundle routes select a product exactly when no trimmed piece of its tag string is "Bundle" |
| Matching.ExceptTagsIsComplement | web/index.js:331-342 | the except-tags routes select exactly the products that the tag routes with the same request do not select |
| Matching.WithTagsMeaning | web/index.js:507-517 | with includeAll a tag route selects the products that carry every requested tag, and without it the products that carry at least one |
| Matching.IncludeAllNarrows | web/index.js:507-515 | a request has at least one tag, so a tag route selects with includeAll a subset of what it selects without it, and an except-tags route the reverse |
| Matching.TitleMatch | web/index.js:658-671 | a product route selects a product exactly when its trimmed title equals the trimmed name |
| Matching.PaddedTitleMatches | web/index.js:658-671 | a title that differs from a trimmed name only by white space around it matches that name |
| Matching.EmptyTagRequest | web/index.js:490-492 | an empty tags string is the single tag "": with or without includeAll, a tag route then selects exactly the products whose parsed tags include "" |
| Plan.Load | web/index.js:169-173 | a listed product carries the store's records of its variant ids, in order |
| Plan.Snapshot | web/index.js:169-173 | the listing has one product per catalog entry |
| Plan.Page | web/index.js:172 | only the first 250 products are ever listed, in catalog order |
| Plan.Listed | web/index.js:169-173 | a handler works on one product per first-page listing |
| Plan.Chosen | web/index.js:174-180 | the picked products are never more than the listed ones |
| Plan.ChosenMembers | web/index.js:174-180 | a product is picked exactly when it is listed and passes the route's test |
| Plan.RewriteAll | web/index.js:181-195 | `p.variants.map` rewrites each variant, in order, with nothing added or dropped |
| Plan.VariantBatches | web/index.js:676-692 | the product routes send one save call per collected variant, carrying that variant rewritten |
| Plan.SelectedIds | web/index.js:174-180 | an id is selected exactly when some listing on the page passes the test and refers to it |
| Laws.SnapshotAt | web/index.js:169-173 | the i-th product of a listing is the i-th listing with its variant records loaded from the store |
| Laws.ListedAt | web/index.js:169-173 | the i-th product a handler works on is the i-th catalog entry of the first page, with its variant records loaded from the store |
| Laws.CallWrites | web/index.js:181-206 | the records a call sends, in order, are the rewrites of the variants of the picked products |
| Laws.ChosenIds | web/index.js:174-180 | the ids a call writes depend only on the listings' titles and tags, not on the prices in the store |
| Laws.RunWrites | web/index.js:181-206 | every record sent is the rewrite of the store's record under its id, and the ids sent are exactly the selected ids |
| Laws.RewriteIds | web/index.js:190-206 | rewriting a set of ids keeps the set of ids in the store |
| Laws.ApplyRewrites | web/index.js:200-206 | writing rewrites one after the other leaves each written id rewritten once and every other id unchanged |
| Laws.RewriteIdsTwice | web/index.js:190-194 | rewriting some ids and then all of them gives what rewriting all of them once gives |
| Laws.ExecAt | web/index.js:174-209 | a call in which every save succeeds rewrites exactly the variants of the selected products on the first page and leaves every other record as it was |
| Laws.PartialRunAt | web/index.js:203-215 | after the first k saves, some of the selected ids are rewritten and every other record is unchanged |
| Laws.RewriteIdsValid | web/index.js:200-206 | a call keeps every record filed under its own id |
| Laws.UnselectedUntouched | web/index.js:179-180 | a variant of a product the route does not select is never written, however many saves were made |
| Laws.OffPageUntouched | web/index.js:172 | a variant that no product on the first page refers to is never written |
| Laws.RerunAfterRun | web/index.js:182-194 | after a call with some selection, complete or stopped partway, a complete call with the same selection leaves the store as that second call alone would |
| Laws.DiscountThenReset | web/index.js:264-268 | a reset call after a discount call with the same selection leaves the store as the reset call alone would |
| Laws.ResetRestoresBaseline | web/index.js:264-268 | after a reset call, every selected variant has its old baseline as price and as compare_at_price |
| Laws.DiscountCallIdempotent | web/index.js:190-194 | repeating a discount call with the same selection changes nothing further |
| Laws.ZeroDiscountCallIsReset | web/index.js:573 | a call with a discount of 0 leaves the store as a reset call with the same selection |
| Engine.Completed | web/index.js:203-215 | the number of saves that succeed before the first failing attempt: none of the attempts before it fail, and it stops only at a failing attempt |
| Engine.CompletedUnique | web/index.js:203-215 | nothing but the first failing attempt satisfies both conditions |
| Engine.Shop.constructor | web/index.js:169-173 | a shop holds a catalog whose variant ids are all in its store |
| Engine.Shop.ListProducts | web/index.js:169-173 | the listing fails with the store's error, or returns the first page, at most 250 products, with their stored variants |
| Engine.Shop.Save | web/index.js:200-205 | a failing save changes nothing in the store; a successful one writes every record of its batch under its id; either way the attempt is counted and a valid store stays valid |
| Engine.WritesKeepValid | web/index.js:200-205 | saving records keeps every record filed under its own id and loses no id |
| Engine.BatchesKeepValid | web/index.js:200-205 | the same holds for a sequence of save calls |
| Engine.CollectTitled | web/index.js:668-674 | the collected variants are those of every product whose trimmed title equals the name, in product order |
| Engine.SaveProducts | web/index.js:174-209 | the count is the number of saves that succeed before the first failure, the store holds exactly those saves, and the error is the store's when the loop stopped early |
| Engine.NextProduct | web/index.js:179-206 | one more product adds its save call, in its place among all the save calls, exactly when the test picks it |
| Engine.SaveVariants | web/index.js:676-694 | the same for the product routes' loop over the collected variants |
| Engine.Handle | web/index.js:151-223 | the reply is 200 with success when every save succeeded and 500 with the error otherwise; a failed listing writes nothing; on 200 exactly the selected variants are rewritten; on 500 a subset of them is |
| Routes.ResetOf | web/index.js:225-297 | every discount route has a reset route |
| Routes.ResetIgnoresDiscount | web/index.js:239 | a reset route writes the baseline whatever `discount` the body holds |
| Routes.ResetSelectsSame | web/index.js:315-318 | a discount route and its reset route read the same selection from the same body, and a discount route applies `body.discount` |
| Routes.ResetRouteIsReset | web/index.js:573 | every reset route leaves the store as a reset of its selection does |
| Routes.ResetRouteUndoesDiscountRoute | web/index.js:613-614 | a discount route followed by its reset route leaves the store as the reset route alone would |
| Routes.ResetRouteRestoresBaseline | web/index.js:739-753 | after any reset route, every variant it selects has its baseline as price and as compare_at_price |
| Routes.ExceptTagsRoutesComplement | web/index.js:331-342 | with the same body, `discountAllProductsExceptTags` updates exactly the products that `discountTags` leaves alone |

## Left out

- Shopify plumbing is not modelled: session loading, the dynamic import of the REST resources, authentication, webhooks and serving the frontend. `Product.all` and `save` become `Shop.ListProducts` and `Shop.Save` on a map from variant id to record. Which call throws is fixed up front: `listingFails` for the listing, and the set `failing` of save attempt numbers.
- Engine.Shop.Save: a save that throws is modelled as writing nothing. A save can reject after the shop has applied the update, for example on a timeout or a lost response. The exact store stated by `SaveProducts`, `SaveVariants` and `Handle` after a failure rests on this choice; otherwise the failing save's batch might also be written.
- Engine.Shop: every call that throws throws the same message `failure`. In JavaScript each failing call may throw its own message, and the reply carries the message of the call that failed. The model states only that the reply carries the message the store gave.
- Each save is modelled as writing the records of its batch. The model does not capture that the shop might drop variants a product save leaves out. Every product batch carries all of the product's listed variants.
- `console.log` output is not modelled. The reply's `message` text is not modelled either: `Handle` returns the count that the message reports, not the string.
- Prices are exact `real` values. IEEE rounding in `prevPrice * (1 - discount)` and `discount * 100` is not modelled. Neither is the shop rounding prices to cents when it stores them: a written price is stored and read back as the exact number.
- Numbers.ParseFloat: the `Infinity` literal is not recognised. It parses to NaN here, while JavaScript gives Infinity.
- Routes.Body: `discount` is a number. JavaScript divides whatever the body holds by 100. A missing `discount` or a non-numeric string gives NaN prices, and that is not modelled. A `null` discount, which is what the settings page sends when `parseFloat` of its text field gives NaN, divides to 0: the route then writes the baseline and reports 0% off, as `Discount(0.0)` does here.
- `includeAll` is a boolean. JavaScript tests the truthiness of whatever the body holds.
- A missing `tags` or `productName` makes JavaScript throw before the `try` block, so the request fails without a JSON reply. The model assumes both strings are present.
- The frontend is left out. Its one check keeps the discount within 0–100 and a tag or name non-empty, and it appears only in `Pricing.DiscountWithinRange`. The server does not check the range, so the model does not either.
- Concurrency is not modelled. The handlers await each call in turn, and no other writer is modelled.
- Tags are kept as lists: duplicates and order are kept, and an empty tags string is the single tag "".
- The save loop of the bundle and tag routes takes the route's product test as a function value (`Plan.Test` of the selection). It does not take the selection itself. The test is the same in every iteration.
