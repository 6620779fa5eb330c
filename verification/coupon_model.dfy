/**
 The coupon record, the schema's setters, defaults and validators, and the
 store of coupons keyed by document id with the invariant the schema and the
 unique index maintain.
 */
module CouponModel {
  import opened Outcomes
  import opened CodeText

  /** A document id (the hex form of a MongoDB ObjectId). */
  type Id = string

  type ProductId = string

  /**
   A stored coupon. `validForProducts` empty means the coupon applies to the
   whole cart. The creation timestamp is not modelled.
   */
  datatype Coupon = Coupon(
    code: string,
    discountPercentage: real,
    validForProducts: seq<ProductId>,
    isActive: bool)

  /** The collection: one coupon per document id. */
  type Store = map<Id, Coupon>

  const MinDiscountPercentage: real := 1.0
  const MaxDiscountPercentage: real := 99.0

  /** The schema's `min` and `max` validators on `discountPercentage`. */
  predicate PercentageInRange(p: real) {
    MinDiscountPercentage <= p <= MaxDiscountPercentage
  }

  predicate IsCartWide(c: Coupon) {
    |c.validForProducts| == 0
  }

  /**
   The document built from a create request: the code passes through the
   `trim` and `uppercase` setters, `validForProducts` defaults to empty and
   `isActive` to true.
   */
  function NewCoupon(code: string, discountPercentage: real, products: Option<seq<ProductId>>): (c: Coupon)
    ensures c.code == Normalize(code) && IsNormalized(c.code)
    ensures c.discountPercentage == discountPercentage
    ensures c.validForProducts == products.GetOr([])
    ensures c.isActive
    ensures IsCartWide(c) <==> (products.None? || products.value == [])
  {
    NormalizeIsNormalized(code);
    Coupon(Normalize(code), discountPercentage, products.GetOr([]), true)
  }

  /** The schema's validators: `code` is required (non-empty after the setters) and the percentage is in range. */
  predicate PassesValidation(c: Coupon) {
    c.code != [] && PercentageInRange(c.discountPercentage)
  }

  /** Every stored coupon is in stored form and passed validation. */
  predicate ValidCoupon(c: Coupon) {
    IsNormalized(c.code) && PassesValidation(c)
  }

  /** The unique index on `code`: two documents with the same code are the same document. */
  predicate UniqueCodes(store: Store) {
    forall a, b :: a in store && b in store && store[a].code == store[b].code ==> a == b
  }

  predicate ValidStore(store: Store) {
    && (forall id :: id in store ==> ValidCoupon(store[id]))
    && UniqueCodes(store)
  }

  /** Some stored document, other than `except` if given, already holds `code`. */
  predicate CodeTaken(store: Store, code: string, except: Option<Id>) {
    exists id :: id in store && store[id].code == code && Some(id) != except
  }

  /** A new document passes validation exactly when its normalised code is non-empty and its percentage is in range. */
  lemma NewCouponValidation(code: string, p: real, products: Option<seq<ProductId>>)
    ensures PassesValidation(NewCoupon(code, p, products)) <==> Normalize(code) != [] && PercentageInRange(p)
    ensures PassesValidation(NewCoupon(code, p, products)) ==> ValidCoupon(NewCoupon(code, p, products))
  {
  }

  /** Adding a coupon under a fresh id with an unused code keeps codes unique. */
  lemma InsertKeepsUnique(store: Store, id: Id, c: Coupon)
    requires UniqueCodes(store) && id !in store && !CodeTaken(store, c.code, None)
    ensures UniqueCodes(store[id := c])
  {
    var s' := store[id := c];
    forall a, b | a in s' && b in s' && s'[a].code == s'[b].code
      ensures a == b
    {
      if a != id && b != id {
        assert store[a].code == store[b].code;
      }
    }
  }

  /** Adding a valid coupon under a fresh id with an unused code keeps the store valid. */
  lemma InsertKeepsValid(store: Store, id: Id, c: Coupon)
    requires ValidStore(store)
    requires id !in store && ValidCoupon(c) && !CodeTaken(store, c.code, None)
    ensures ValidStore(store[id := c])
  {
    InsertKeepsUnique(store, id, c);
  }

  /** Replacing one document's code with a valid unused one keeps the store valid. */
  lemma RecodeKeepsValid(store: Store, id: Id, code: string)
    requires ValidStore(store) && id in store
    requires code != [] && IsNormalized(code) && !CodeTaken(store, code, Some(id))
    ensures ValidStore(store[id := store[id].(code := code)])
  {
    var s' := store[id := store[id].(code := code)];
    forall a, b | a in s' && b in s' && s'[a].code == s'[b].code
      ensures a == b
    {
      if a != id && b != id {
        assert store[a].code == store[b].code;
      }
    }
  }

  /** The empty collection satisfies the invariant. */
  lemma EmptyStoreValid()
    ensures ValidStore(map[])
  {
  }
}
