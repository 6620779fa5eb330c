# Coupon service — a verified Dafny model

This project models the decision logic of a small coupon microservice. The
service is an Express controller over a Mongoose collection of coupons. It
creates, lists, updates, deletes and redeems coupons. A coupon has a `code`,
a `discountPercentage`, an optional `validForProducts` list and an
`isActive` flag.

The model is functional. The collection is a `map<Id, Coupon>`, and each
request handler is a pure function. It returns the store after the request
together with the kind of response sent: `Ok`, `BadRequest` (400),
`NotFound` (404), `Conflict` (409) or `ServerError` (500).

Modules:

- `Outcomes` (`outcomes.dfy`): `Option` for omitted request fields, `Result` for responses.
- `CodeText` (`code_text.dfy`): the schema's `trim` and `uppercase` setters
  as `Trim`, `Upper` and `Normalize`. `Trim` removes the characters
  `String.prototype.trim` removes, and `Upper` maps ASCII letters only.
  `IsTrimOf` is a reference definition of trimming, and `Trim` is proved to
  agree with it in both directions.
- `CouponModel` (`coupon_model.dfy`): the `Coupon` record, the document a
  create builds (setters and defaults), the schema validators, and the store
  invariant `ValidStore`. The invariant says stored codes are normalised and
  non-empty, percentages lie in [1, 99], and codes are unique.
- `Pricing` (`pricing.dfy`): the discount computation of verify.
  - `Price` is the functional definition.
  - `PriceCart` is the controller's single loop over the cart, proved equal to it.
  - The lemmas cover cart sums, eligible items and bounds.
- `CouponController` (`coupon_controller.dfy`): create, list, update, delete
  and verify. The contracts of create, update and delete state each of their
  outcomes as an if-and-only-if condition on the request and the store, the
  frame ("nothing else changes"), and preservation of the store invariant.
  The contract of verify gives the BadRequest and NotFound cases, and it says
  verify never answers Conflict or ServerError. The lemma `VerifyOutcomes`
  adds that otherwise the cart is priced with the coupon found.
- `CouponProperties` (`coupon_properties.dfy`): properties that link
  requests. Examples: a created coupon can be verified; a case variant of a
  stored code conflicts; after an update or delete, the old code is no
  longer found.
- `Scenarios` (`scenarios.dfy`): worked examples: requests against small
  stores, evaluated on the model.

Semantics taken from the code and the Mongoose schema, where a plain
description of the service would say otherwise:

- **Validation failures are server errors.** Schema validation failures are
  reported as 500, not 400. A create with a percentage outside [1, 99], or
  with a code that is all whitespace, gets past the controller's falsiness
  check. Mongoose's `ValidationError` then reaches the handler's `catch`,
  which maps only duplicate-key errors (code 11000) to 409 and everything
  else to 500. The model returns `ServerError` in these cases.
- **Setters apply to queries and updates too.** Mongoose casts query filters
  and update values through the schema's setters, so the verify lookup and
  the update both use the trimmed, upper-cased code. The model writes this
  as `Normalize(Upper(code))`, and `CodeText.NormalizeAfterUpper` shows the
  controller's own `toUpperCase()` changes nothing on top of it.
- **Update validates before the id lookup.** Update runs with
  `runValidators`, so a code that trims to empty is a `ServerError` even for
  an unknown id.
- **Duplicate ids conflict.** A create whose new document id already exists
  also violates a unique index (`_id`), so it is a `Conflict` as well. The
  id MongoDB generates is a parameter of `CreateCoupon`.
- **Falsiness checks.** The check on a string field fails for an absent or
  empty string. The check on a number fails for an absent value or 0.
- **Verify takes a cart only.** Verify exists only in its cart form. The
  request carries `code` and `cartItems`; there is no price-only variant in
  the code.

`CouponController.VerifyCoupon` and `FindActive` require `UniqueCodes(store)`.
`findOne` returns "the" coupon with a given code, and the unique index on
`code` guarantees there is at most one. Every operation is proved to
preserve `ValidStore`, which includes `UniqueCodes`, and the empty
collection satisfies it (`CouponModel.EmptyStoreValid`).

## Model

| member | source | states |
|---|---|---|
| CodeText.Upper | models/couponModel.js:9 | upper-casing keeps the length, maps each lower-case ASCII letter to its capital (code point − 32), and leaves every other character unchanged |
| CodeText.Trim | models/couponModel.js:8 | the result is the core of the input: everything before and after it is whitespace and its first and last characters are not |
| CodeText.TrimCharacterised | models/couponModel.js:8 | a string is the trim of `s` exactly when it is the whitespace-free core of `s` (both directions; the core is unique) |
| CodeText.NormalizeIsNormalized | models/couponModel.js:8-9 | a normalised code has no surrounding whitespace and no lower-case letter |
| CodeText.NormalizedIffFixpoint | models/couponModel.js:8-9 | the stored forms are exactly the strings normalisation leaves unchanged |
| CodeText.NormalizeIdempotent | models/couponModel.js:8-9 | normalising a stored code again leaves it unchanged |
| CodeText.TrimUpperCommute | models/couponModel.js:8-9 | trimming and upper-casing commute, so the order of the two setters does not matter |
| CodeText.NormalizeIgnoresCase | models/couponModel.js:7-9 | codes that differ only in letter case normalise to the same stored code |
| CodeText.NormalizeAfterUpper | controllers/couponController.js:52 | the handler's explicit `toUpperCase()` before the setters does not change the stored or looked-up code |
| CouponModel.NewCoupon | models/couponModel.js:4-27 | a new document holds the trimmed, upper-cased code, the given percentage and the given product list (empty when none was given); it is active, and it is cart-wide exactly when no product list (or an empty one) was given |
| CouponModel.NewCouponValidation | models/couponModel.js:4-16 | a new document passes the validators exactly when its normalised code is non-empty and its percentage is in [1, 99]; then it is a valid stored coupon |
| CouponModel.InsertKeepsUnique | models/couponModel.js:7 | inserting under a fresh id with an unused code keeps codes unique |
| CouponModel.InsertKeepsValid | models/couponModel.js:4-16 | inserting a valid coupon under a fresh id with an unused code keeps the whole store invariant |
| CouponModel.RecodeKeepsValid | models/couponModel.js:7-9 | giving one coupon a valid code no other coupon holds keeps the store invariant |
| Pricing.PriceCart | controllers/couponController.js:106-143 | the controller's single pass over the cart (running total, running discount, eligible-item flag) computes exactly the functional breakdown, including the rejection when nothing is eligible |
| Pricing.EligibleItems | controllers/couponController.js:121 | the eligible items are items of the cart whose product is listed, and every listed cart item is among them |
| Pricing.EligibleItemsCounts | controllers/couponController.js:116-124 | each eligible cart line is kept as many times as the cart holds it, duplicates included, and no other line is kept |
| Pricing.TotalAppend | controllers/couponController.js:116-118 | the cart total of two concatenated carts is the sum of their totals |
| Pricing.TotalOrderIndependent | controllers/couponController.js:136-138 | with exact amounts, the cart total does not depend on which part of the cart comes first (floating-point sums, as the service computes them, need not be) |
| Pricing.TotalNonNegative | controllers/couponController.js:136-138 | with non-negative prices and quantities the cart total is non-negative |
| Pricing.EligibleDiscountIsPercentOfEligible | controllers/couponController.js:116-126 | the per-item discounts summed over eligible items equal the percentage of the eligible items' subtotal |
| Pricing.EligibleTotalBounded | controllers/couponController.js:116-126 | with non-negative prices and quantities the eligible subtotal lies between zero and the cart total |
| Pricing.AllEligibleIsWholeCart | controllers/couponController.js:121 | when every item is eligible, the eligible items are the whole cart |
| Pricing.HasEligibleIffSomeEligibleItem | controllers/couponController.js:113-131 | the "eligible item found" flag is set exactly when the eligible items are not empty |
| Pricing.Price | controllers/couponController.js:106-143 | the computation fails exactly for a product-specific coupon with no eligible cart item; a breakdown carries the coupon's percentage and the total of all items, and its final price is that total minus the discount (the discount itself is characterised by `PriceMeaning`) |
| Pricing.PriceMeaning | controllers/couponController.js:106-143 | the computation fails exactly for a product-specific coupon with no eligible item; otherwise original price = total of all items, discount = percentage of the whole total (cart-wide) or of the eligible subtotal (product-specific), final = original − discount |
| Pricing.PriceBounds | controllers/couponController.js:116-143 | with non-negative prices and quantities and a percentage in [1, 99]: 0 ≤ discount ≤ original price, final price ≥ 0, and the discount never exceeds the cart-wide discount |
| Pricing.AllEligibleMatchesCartWide | controllers/couponController.js:111-141 | a product-specific coupon that lists every product in the cart prices it exactly as the cart-wide coupon would |
| CouponController.CreateCoupon | controllers/couponController.js:5-26 | BadRequest exactly when code or percentage is falsy; ServerError exactly when validation fails; Conflict exactly when the request is valid but the new id or the normalised code is already taken; Ok exactly when both are free; on failure the store is unchanged; on success exactly one record is added, with the normalised code, the given percentage and the given product list (empty when none was given), active; the invariant is preserved |
| CouponController.GetAllCoupons | controllers/couponController.js:30-37 | the listing holds every stored coupon and nothing else |
| CouponController.UpdateCouponCode | controllers/couponController.js:41-67 | BadRequest exactly for a falsy code; ServerError exactly when the code trims to empty; NotFound exactly for an unknown id; Ok exactly when no other coupon holds the normalised code; on success only that record's code changes and the updated record is returned; on failure nothing changes; the invariant is preserved |
| CouponController.DeleteCoupon | controllers/couponController.js:73-87 | NotFound exactly for an unknown id; otherwise only that id is removed and every other record is unchanged; the invariant is preserved |
| CouponController.FindActive | controllers/couponController.js:100-104 | a coupon is found exactly when one with that code is active, and it is that coupon |
| CouponController.PriceResponse | controllers/couponController.js:128-150 | after the lookup the only failure is BadRequest, and it happens exactly for a product-specific coupon with no eligible cart item; a success carries exactly the breakdown `Price` computes |
| CouponController.VerifyCoupon | controllers/couponController.js:91-156 | a missing code or a missing, non-array or empty cart is BadRequest before any lookup; for a well-formed request, NotFound exactly when no active coupon holds the normalised code, whatever the cart; never Conflict or ServerError |
| CouponController.VerifyOutcomes | controllers/couponController.js:100-131 | a well-formed verify that does not answer NotFound prices the cart with an active coupon stored under the normalised code |
| CouponProperties.VerifyBounds | controllers/couponController.js:106-150 | a successful verify reports the whole cart total as original price and, with non-negative items, a discount between zero and that price that never exceeds the cart-wide discount; final = original − discount ≥ 0 |
| CouponProperties.VerifyDiscount | controllers/couponController.js:106-150 | a successful verify reports the coupon's percentage, the total of all items as original price, a discount equal to that percentage of the whole total (cart-wide) or of the eligible items' subtotal (product-specific), and final = original − discount |
| CouponProperties.VerifyIgnoresCase | controllers/couponController.js:100 | verify answers the same for codes that differ only in letter case |
| CouponProperties.VerifyUsesStoredCoupon | controllers/couponController.js:100-143 | a well-formed verify prices the cart with the active coupon stored under the normalised code |
| CouponProperties.CreatedCouponIsVerifiable | models/couponModel.js:24-27 | because `isActive` defaults to true, a coupon just created is found by verify under its code in any letter case and never yields NotFound |
| CouponProperties.CaseVariantConflicts | controllers/couponController.js:16-23 | after creating a code, creating any case variant of it conflicts |
| CouponProperties.UpdateThenVerify | controllers/couponController.js:50-60 | after an update an active coupon is found under its new code and no longer under its old one |
| CouponProperties.DeleteThenVerifyAndList | controllers/couponController.js:76-82 | after a delete the coupon's code is not found by verify and no listed coupon has it |
| CouponProperties.CreateThenDeleteRestores | controllers/couponController.js:73-82 | deleting a coupon just created gives back the original store |
| Scenarios.LooksUpAs | controllers/couponController.js:100 | a code given in any letter case whose upper-cased form is in stored form is both stored and looked up as that form |
| Scenarios.CartWideExample | controllers/couponController.js:133-143 | 10% cart-wide on 50×2 + 30×1: original 130, discount 13, final 117 |
| Scenarios.ProductSpecificExample | controllers/couponController.js:111-143 | 20% on P1 only, cart P1 100 + P2 50: original 150, discount 20, final 130 |
| Scenarios.NoEligibleItemExample | controllers/couponController.js:129-131 | a coupon for P9 on a cart of P1 and P2 is BadRequest |
| Scenarios.InactiveExample | controllers/couponController.js:100-104 | an inactive coupon is NotFound, whatever the cart |
| Scenarios.CreateNormalizesExample | models/couponModel.js:8-9 | creating " save10 " stores "SAVE10", cart-wide and active |
| Scenarios.CaseVariantExample | controllers/couponController.js:21-23 | with "SAVE10" stored by a first create, creating "Save10" conflicts (an instance of `CaseVariantConflicts`) |
| Scenarios.CreateRejectionsExample | controllers/couponController.js:10-12 | percentage 0 is BadRequest; percentage 150 and an all-whitespace code are ServerError |

## Left out

- HTTP status codes, response messages, Express routing (`routes/couponRoutes.js`), and process start-up, environment and database connection (`index.js`): I/O with no decision logic. Responses are reduced to the `Failure` kinds.
- The `createdAt` timestamp (`Date.now`): wall-clock time is not modelled, and the `Coupon` record has no such field.
- The two-decimal rounding of the verify response (`toFixed(2)` then `parseFloat`): amounts are exact reals, and `Breakdown` holds the unrounded values.
- Floating point: IEEE rounding, and `NaN` from a missing `price` or `quantity`, are not modelled. Prices and quantities are arbitrary reals, and the service does not validate them.
- Pricing.PriceBounds: requires non-negative prices and quantities, because the service accepts negative ones and then no bound holds. The same applies to CouponProperties.VerifyBounds.
- Unicode upper-casing: `toUpperCase` is modelled on ASCII letters only. Trimming covers JavaScript's full whitespace set.
- Type coercion of request fields: Mongoose casting, such as a number given as a string, is not modelled. Fields are typed, and absence is `None`.
- Persistence failures other than validation and duplicate keys: these are connection errors, and `CastError` for a malformed id. The service reports them as 500, but the model has no failure injection.
- Concurrency: each request is one atomic step on the store. Races between concurrent creates are settled by the unique index and are not modelled.
- CouponController.GetAllCoupons: the listing is the set of stored coupons without their document ids. The service's listing includes `_id`; here the ids are the keys of the store itself.
- Toggling `isActive`: no operation of the service does it. Stored coupons may be inactive, and verify treats them as absent.
