/**
 The coupon service's request handlers as functions over the coupon store.
 Each returns the store after the request and the kind of response sent;
 HTTP status codes and messages are abstracted to `Failure`.
 */
module CouponController {
  import opened Outcomes
  import opened CodeText
  import opened CouponModel
  import opened Pricing

  /**
   The error responses: 400 for a missing field or an ineligible cart, 404 for
   an unknown id or an unknown or inactive code, 409 for a duplicate key, and
   500 for everything the handler's catch reports as a server error (which, in
   this service, includes a schema validation failure).
   */
  datatype Failure = BadRequest | NotFound | Conflict | ServerError

  /** The store after a request, and the response. */
  datatype Step<T> = Step(store: Store, response: Result<T, Failure>)

  /** The `cartItems` field of a verify request. */
  datatype CartField = Absent | NotAnArray | Items(items: seq<CartItem>)

  /** JavaScript falsiness of a string field: absent or empty. */
  predicate MissingText(s: Option<string>) {
    s.None? || s.value == []
  }

  /** JavaScript falsiness of a numeric field: absent or zero. */
  predicate MissingNumber(x: Option<real>) {
    x.None? || x.value == 0.0
  }

  /**
   Create: reject falsy fields, build the document (setters and defaults),
   validate it, then insert it unless its id or its code is already taken.
   */
  function CreateCoupon(
    store: Store, newId: Id,
    code: Option<string>, discountPercentage: Option<real>, products: Option<seq<ProductId>>
  ): (r: Step<Coupon>)
    ensures r.response == Err(BadRequest) <==> MissingText(code) || MissingNumber(discountPercentage)
    ensures r.response == Err(ServerError) <==>
      && !MissingText(code) && !MissingNumber(discountPercentage)
      && (Normalize(code.value) == [] || !PercentageInRange(discountPercentage.value))
    ensures r.response.Ok? <==>
      && !MissingText(code) && !MissingNumber(discountPercentage)
      && Normalize(code.value) != [] && PercentageInRange(discountPercentage.value)
      && newId !in store && !CodeTaken(store, Normalize(code.value), None)
    ensures r.response == Err(Conflict) <==>
      && !MissingText(code) && !MissingNumber(discountPercentage)
      && Normalize(code.value) != [] && PercentageInRange(discountPercentage.value)
      && (newId in store || CodeTaken(store, Normalize(code.value), None))
    ensures r.response.Err? ==> r.store == store
    ensures r.response.Ok? ==>
      && r.store == store[newId := r.response.value]
      && r.response.value.code == Normalize(code.value)
      && r.response.value.discountPercentage == discountPercentage.value
      && r.response.value.validForProducts == products.GetOr([])
      && r.response.value.isActive
      && (IsCartWide(r.response.value) <==> products.None? || products.value == [])
    ensures UniqueCodes(store) ==> UniqueCodes(r.store)
    ensures ValidStore(store) ==> ValidStore(r.store)
  {
    if MissingText(code) || MissingNumber(discountPercentage) then
      Step(store, Err(BadRequest))
    else
      var doc := NewCoupon(code.value, discountPercentage.value, products);
      NewCouponValidation(code.value, discountPercentage.value, products);
      if !PassesValidation(doc) then
        Step(store, Err(ServerError))
      else if newId in store || CodeTaken(store, doc.code, None) then
        Step(store, Err(Conflict))
      else
        assert ValidStore(store) ==> ValidStore(store[newId := doc]) by {
          if ValidStore(store) {
            InsertKeepsValid(store, newId, doc);
          }
        }
        assert UniqueCodes(store) ==> UniqueCodes(store[newId := doc]) by {
          if UniqueCodes(store) {
            InsertKeepsUnique(store, newId, doc);
          }
        }
        Step(store[newId := doc], Ok(doc))
  }

  /** List: every stored coupon, in no particular order. */
  function GetAllCoupons(store: Store): (r: set<Coupon>)
    ensures forall id :: id in store ==> store[id] in r
    ensures forall c :: c in r ==> exists id :: id in store && store[id] == c
  {
    store.Values
  }

  /**
   Update the code of one coupon: the new code is upper-cased by the handler,
   passes the schema's setters and the `required` validator, and must not be
   held by another document.
   */
  function UpdateCouponCode(store: Store, id: Id, code: Option<string>): (r: Step<Coupon>)
    ensures r.response == Err(BadRequest) <==> MissingText(code)
    ensures r.response == Err(ServerError) <==> !MissingText(code) && Normalize(code.value) == []
    ensures r.response == Err(NotFound) <==> !MissingText(code) && Normalize(code.value) != [] && id !in store
    ensures r.response.Ok? <==>
      && !MissingText(code) && Normalize(code.value) != [] && id in store
      && !CodeTaken(store, Normalize(code.value), Some(id))
    ensures r.response.Err? ==> r.store == store
    ensures r.response.Ok? ==>
      && r.store == store[id := store[id].(code := Normalize(code.value))]
      && r.response.value == r.store[id]
    ensures ValidStore(store) ==> ValidStore(r.store)
  {
    if MissingText(code) then
      Step(store, Err(BadRequest))
    else
      var newCode := Normalize(Upper(code.value));
      NormalizeAfterUpper(code.value);
      if newCode == [] then
        Step(store, Err(ServerError))
      else if id !in store then
        Step(store, Err(NotFound))
      else if CodeTaken(store, newCode, Some(id)) then
        Step(store, Err(Conflict))
      else
        var updated := store[id].(code := newCode);
        assert ValidStore(store) ==> ValidStore(store[id := updated]) by {
          if ValidStore(store) {
            NormalizeIsNormalized(code.value);
            RecodeKeepsValid(store, id, newCode);
          }
        }
        Step(store[id := updated], Ok(updated))
  }

  /** Delete one coupon by id. */
  function DeleteCoupon(store: Store, id: Id): (r: Step<()>)
    ensures r.response == Err(NotFound) <==> id !in store
    ensures r.response.Ok? <==> id in store
    ensures r.store.Keys == store.Keys - {id}
    ensures forall other :: other in r.store ==> r.store[other] == store[other]
    ensures ValidStore(store) ==> ValidStore(r.store)
  {
    if id !in store then Step(store, Err(NotFound))
    else Step(store - {id}, Ok(()))
  }

  /** The coupon redeemable under stored code `key`: present and active. */
  function FindActive(store: Store, key: string): (r: Option<Coupon>)
    requires UniqueCodes(store)
    ensures r.Some? <==> exists id :: id in store && store[id].code == key && store[id].isActive
    ensures r.Some? ==> r.value in store.Values && r.value.code == key && r.value.isActive
  {
    if exists id :: id in store && store[id].code == key && store[id].isActive then
      var id :| id in store && store[id].code == key && store[id].isActive;
      Some(store[id])
    else
      None
  }

  /**
   Verify a coupon against a cart: check the request, look up the active
   coupon by its stored code, then price the cart. Nothing is written.
   */
  function VerifyCoupon(store: Store, code: Option<string>, cart: CartField): (r: Result<Breakdown, Failure>)
    requires UniqueCodes(store)
    ensures !WellFormed(code, cart) ==> r == Err(BadRequest)
    ensures WellFormed(code, cart) ==>
      (r == Err(NotFound) <==>
        !exists id :: id in store && store[id].code == Normalize(code.value) && store[id].isActive)
    ensures r != Err(Conflict) && r != Err(ServerError)
  {
    if MissingText(code) || !cart.Items? || |cart.items| == 0 then
      Err(BadRequest)
    else
      NormalizeAfterUpper(code.value);
      match FindActive(store, Normalize(Upper(code.value)))
      case None => Err(NotFound)
      case Some(coupon) => PriceResponse(coupon, cart.items)
  }

  /** The response once the coupon is found: the priced cart, or 400 when no item is eligible. */
  function PriceResponse(coupon: Coupon, items: seq<CartItem>): (r: Result<Breakdown, Failure>)
    ensures r.Err? <==> !IsCartWide(coupon) && !HasEligible(items, coupon.validForProducts)
    ensures r.Err? ==> r.error == BadRequest
    ensures r.Ok? ==> Price(coupon, items) == Some(r.value)
  {
    match Price(coupon, items)
    case None => Err(BadRequest)
    case Some(b) => Ok(b)
  }

  /** A verify request is well formed when the code is non-empty and the cart is a non-empty array. */
  predicate WellFormed(code: Option<string>, cart: CartField) {
    !MissingText(code) && cart.Items? && |cart.items| > 0
  }

  /**
   A well-formed verify that finds its coupon prices the cart with the active
   coupon stored under the normalised code.
   */
  lemma VerifyOutcomes(store: Store, code: Option<string>, cart: CartField)
    requires UniqueCodes(store)
    ensures WellFormed(code, cart) && VerifyCoupon(store, code, cart) != Err(NotFound) ==>
      exists id :: id in store && store[id].code == Normalize(code.value) && store[id].isActive
        && VerifyCoupon(store, code, cart) == PriceResponse(store[id], cart.items)
  {
    if WellFormed(code, cart) {
      NormalizeAfterUpper(code.value);
      var found := FindActive(store, Normalize(code.value));
      if found.Some? {
        var id :| id in store && store[id] == found.value;
      }
    }
  }
}
