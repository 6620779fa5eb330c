/**
 Properties relating several requests to the coupon service: what a create,
 update or delete means for later verify and list requests.
 */
module CouponProperties {
  import opened Outcomes
  import opened CodeText
  import opened CouponModel
  import opened Pricing
  import opened CouponController

  /**
   With non-negative prices and quantities, a successful verify reports the
   whole cart's total as the original price and a discount between zero and
   that price; the final price is what remains and is never negative, and it
   is never more than the same percentage would take off the whole cart.
   */
  lemma VerifyBounds(store: Store, code: Option<string>, items: seq<CartItem>)
    requires ValidStore(store) && NonNegative(items)
    ensures VerifyCoupon(store, code, Items(items)).Ok? ==>
      var b := VerifyCoupon(store, code, Items(items)).value;
      && b.originalPrice == Total(items)
      && 0.0 <= b.discountAmount <= b.originalPrice
      && b.finalPrice == b.originalPrice - b.discountAmount
      && 0.0 <= b.finalPrice
      && PercentageInRange(b.discountPercentage)
      && b.discountAmount <= PercentOf(b.originalPrice, b.discountPercentage)
  {
    if VerifyCoupon(store, code, Items(items)).Ok? {
      var coupon := FindActive(store, Normalize(Upper(code.value))).value;
      var id :| id in store && store[id] == coupon;
      PriceMeaning(coupon, items);
      PriceBounds(coupon, items);
    }
  }

  /**
   The amounts a successful verify reports: the coupon's percentage of the
   whole cart total when the coupon is cart-wide, or of the eligible items'
   subtotal when it is product-specific, taken off the total of all items.
   */
  lemma VerifyDiscount(store: Store, id: Id, code: string, items: seq<CartItem>)
    requires UniqueCodes(store) && id in store && store[id].isActive
    requires store[id].code == Normalize(code) && code != [] && |items| > 0
    ensures var r := VerifyCoupon(store, Some(code), Items(items));
      var c := store[id];
      r.Ok? ==>
        && r.value.discountPercentage == c.discountPercentage
        && r.value.originalPrice == Total(items)
        && r.value.discountAmount ==
             PercentOf(Total(if IsCartWide(c) then items else EligibleItems(items, c.validForProducts)), c.discountPercentage)
        && r.value.finalPrice == r.value.originalPrice - r.value.discountAmount
  {
    VerifyUsesStoredCoupon(store, id, code, items);
    PriceMeaning(store[id], items);
  }

  /** Verify does not see the case of the code it is given. */
  lemma VerifyIgnoresCase(store: Store, a: string, b: string, cart: CartField)
    requires UniqueCodes(store) && Upper(a) == Upper(b)
    ensures VerifyCoupon(store, Some(a), cart) == VerifyCoupon(store, Some(b), cart)
  {
    NormalizeAfterUpper(a);
    NormalizeAfterUpper(b);
    NormalizeIgnoresCase(a, b);
  }

  /** Verify of a well-formed request prices the cart with the active coupon stored under the normalised code. */
  lemma VerifyUsesStoredCoupon(store: Store, id: Id, code: string, items: seq<CartItem>)
    requires UniqueCodes(store) && id in store && store[id].isActive
    requires store[id].code == Normalize(code) && code != [] && |items| > 0
    ensures VerifyCoupon(store, Some(code), Items(items)) == PriceResponse(store[id], items)
  {
    NormalizeAfterUpper(code);
    assert FindActive(store, Normalize(Upper(code))) == Some(store[id]);
  }

  /**
   A coupon just created is redeemable with the code it was created with, in
   any letter case: verify prices the cart with exactly the new coupon, and
   never answers NotFound.
   */
  lemma CreatedCouponIsVerifiable(
    store: Store, newId: Id, code: string, pct: real, products: Option<seq<ProductId>>,
    asGiven: string, items: seq<CartItem>)
    requires UniqueCodes(store)
    requires Upper(asGiven) == Upper(code) && |items| > 0
    ensures var r := CreateCoupon(store, newId, Some(code), Some(pct), products);
      r.response.Ok? ==> VerifyCoupon(r.store, Some(asGiven), Items(items)) == PriceResponse(r.response.value, items)
    ensures var r := CreateCoupon(store, newId, Some(code), Some(pct), products);
      r.response.Ok? ==> VerifyCoupon(r.store, Some(asGiven), Items(items)) != Err(NotFound)
  {
    var r := CreateCoupon(store, newId, Some(code), Some(pct), products);
    if r.response.Ok? {
      assert r.store[newId] == r.response.value;
      NormalizeIgnoresCase(asGiven, code);
      VerifyUsesStoredCoupon(r.store, newId, asGiven, items);
    }
  }

  /** Codes are unique up to letter case: a second create with a case variant of a stored code conflicts. */
  lemma CaseVariantConflicts(
    store: Store, id1: Id, code1: string, pct1: real, products1: Option<seq<ProductId>>,
    id2: Id, code2: string, pct2: real, products2: Option<seq<ProductId>>)
    requires Upper(code2) == Upper(code1) && PercentageInRange(pct2)
    ensures var r := CreateCoupon(store, id1, Some(code1), Some(pct1), products1);
      r.response.Ok? ==> CreateCoupon(r.store, id2, Some(code2), Some(pct2), products2).response == Err(Conflict)
  {
    var r := CreateCoupon(store, id1, Some(code1), Some(pct1), products1);
    if r.response.Ok? {
      var s := r.store;
      NormalizeIgnoresCase(code1, code2);
      assert s[id1].code == Normalize(code2) != [];
      assert code2 != [] && !MissingNumber(Some(pct2));
      assert CodeTaken(s, Normalize(code2), None) by {
        assert id1 in s;
      }
    }
  }

  /**
   After a successful update the coupon is found under its new code (if it is
   active) and no longer under its old one, unless the two normalise alike.
   */
  lemma UpdateThenVerify(store: Store, id: Id, code: string, items: seq<CartItem>)
    requires ValidStore(store) && |items| > 0
    ensures var r := UpdateCouponCode(store, id, Some(code));
      r.response.Ok? && store[id].isActive ==> VerifyCoupon(r.store, Some(code), Items(items)) != Err(NotFound)
    ensures var r := UpdateCouponCode(store, id, Some(code));
      r.response.Ok? && store[id].code != Normalize(code) ==>
        VerifyCoupon(r.store, Some(store[id].code), Items(items)) == Err(NotFound)
  {
    var r := UpdateCouponCode(store, id, Some(code));
    if r.response.Ok? {
      var s := r.store;
      var old_ := store[id].code;
      assert s[id].code == Normalize(code) && s[id].isActive == store[id].isActive;
      VerifyOutcomes(s, Some(code), Items(items));
      if old_ != Normalize(code) {
        NormalizedIffFixpoint(old_);
        assert old_ != [];
        VerifyOutcomes(s, Some(old_), Items(items));
        forall other | other in s
          ensures s[other].code != old_
        {
          if other != id {
            assert s[other] == store[other];
          }
        }
      }
    }
  }

  /** A deleted coupon can no longer be redeemed and no longer appears in the listing. */
  lemma DeleteThenVerifyAndList(store: Store, id: Id, items: seq<CartItem>)
    requires ValidStore(store) && id in store && |items| > 0
    ensures var s := DeleteCoupon(store, id).store;
      VerifyCoupon(s, Some(store[id].code), Items(items)) == Err(NotFound)
    ensures var s := DeleteCoupon(store, id).store;
      forall c :: c in GetAllCoupons(s) ==> c.code != store[id].code
  {
    var s := DeleteCoupon(store, id).store;
    var code := store[id].code;
    NormalizeAfterUpper(code);
    NormalizedIffFixpoint(code);
    assert code != [];
    forall c | c in GetAllCoupons(s)
      ensures c.code != code
    {
      var other :| other in s && s[other] == c;
    }
  }

  /** Deleting a coupon just created gives back the store as it was. */
  lemma CreateThenDeleteRestores(store: Store, newId: Id, code: string, pct: real, products: Option<seq<ProductId>>)
    requires CreateCoupon(store, newId, Some(code), Some(pct), products).response.Ok?
    ensures var s := CreateCoupon(store, newId, Some(code), Some(pct), products).store;
      DeleteCoupon(s, newId) == Step(store, Ok(()))
  {
    var s := CreateCoupon(store, newId, Some(code), Some(pct), products).store;
    assert s - {newId} == store;
  }
}
