/**
 Worked examples: requests against small stores, evaluated on the model.
 */
module Scenarios {
  import opened Outcomes
  import opened CodeText
  import opened CouponModel
  import opened Pricing
  import opened CouponController
  import opened CouponProperties

  /**
   A code given in any letter case whose upper-cased form is already in
   stored form is looked up, and stored, as that form.
   */
  lemma LooksUpAs(given: string, stored: string)
    requires Upper(given) == stored && IsNormalized(stored)
    ensures Normalize(Upper(given)) == stored && Normalize(given) == stored
  {
    NormalizeAfterUpper(given);
    NormalizedIffFixpoint(stored);
  }

  const Cart: seq<CartItem> := [CartItem("P1", 50.0, 2.0), CartItem("P2", 30.0, 1.0)]
  const MixedCart: seq<CartItem> := [CartItem("P1", 100.0, 1.0), CartItem("P2", 50.0, 1.0)]

  const SaveTen: Coupon := Coupon("SAVE10", 10.0, [], true)
  const P1Only: Coupon := Coupon("P1ONLY", 20.0, ["P1"], true)
  const P9Only: Coupon := Coupon("P9ONLY", 20.0, ["P9"], true)
  const OldFive: Coupon := Coupon("OLD5", 5.0, [], false)

  /** Codes as a client might type them. */
  const SaveTenLower: string := "save10"
  const P1OnlyGiven: string := "P1ONLY"
  const P9OnlyLower: string := "p9only"
  const OldFiveGiven: string := "OLD5"

  /** Stores holding one of the coupons above. */
  const SaveTenStore: Store := map["a1" := SaveTen]
  const P1OnlyStore: Store := map["b1" := P1Only]
  const P9OnlyStore: Store := map["c1" := P9Only]
  const OldFiveStore: Store := map["d1" := OldFive]

  /** A 10% cart-wide coupon on a 130.00 cart: 13.00 off, 117.00 to pay, whatever the case of the code given. */
  lemma CartWideExample()
    ensures VerifyCoupon(SaveTenStore, Some(SaveTenLower), Items(Cart)) == Ok(Breakdown(10.0, 130.0, 13.0, 117.0))
  {
    assert PriceResponse(SaveTen, Cart) == Ok(Breakdown(10.0, 130.0, 13.0, 117.0)) by {
      assert Total(Cart) == 130.0 by {
        assert Cart[..1] == [Cart[0]];
      }
    }
    LooksUpAs(SaveTenLower, "SAVE10");
    VerifyUsesStoredCoupon(SaveTenStore, "a1", SaveTenLower, Cart);
  }

  /** A 20% coupon valid for P1 only: the original price counts both items, the discount only P1. */
  lemma ProductSpecificExample()
    ensures VerifyCoupon(P1OnlyStore, Some(P1OnlyGiven), Items(MixedCart)) == Ok(Breakdown(20.0, 150.0, 20.0, 130.0))
  {
    assert PriceResponse(P1Only, MixedCart) == Ok(Breakdown(20.0, 150.0, 20.0, 130.0)) by {
      assert MixedCart[..1] == [MixedCart[0]];
      assert Total(MixedCart) == 150.0;
      assert HasEligible(MixedCart, ["P1"]) by {
        assert Eligible(MixedCart[0], ["P1"]);
      }
      assert EligibleDiscount(MixedCart, ["P1"], 20.0) == 20.0;
    }
    LooksUpAs(P1OnlyGiven, "P1ONLY");
    VerifyUsesStoredCoupon(P1OnlyStore, "b1", P1OnlyGiven, MixedCart);
  }

  /** A coupon valid only for P9 is refused for a cart of P1 and P2, with no partial discount. */
  lemma NoEligibleItemExample()
    ensures VerifyCoupon(P9OnlyStore, Some(P9OnlyLower), Items(MixedCart)) == Err(BadRequest)
  {
    assert PriceResponse(P9Only, MixedCart) == Err(BadRequest) by {
      forall i | 0 <= i < |MixedCart|
        ensures !Eligible(MixedCart[i], P9Only.validForProducts)
      {
      }
    }
    LooksUpAs(P9OnlyLower, "P9ONLY");
    VerifyUsesStoredCoupon(P9OnlyStore, "c1", P9OnlyLower, MixedCart);
  }

  /** An inactive coupon is not found, whatever the cart. */
  lemma InactiveExample(items: seq<CartItem>)
    requires |items| > 0
    ensures VerifyCoupon(OldFiveStore, Some(OldFiveGiven), Items(items)) == Err(NotFound)
  {
    LooksUpAs(OldFiveGiven, "OLD5");
  }

  /** Creating " save10 " stores the coupon under "SAVE10", cart-wide and active. */
  lemma CreateNormalizesExample()
    ensures CreateCoupon(map[], "a1", Some(" save10 "), Some(10.0), None)
      == Step(map["a1" := Coupon("SAVE10", 10.0, [], true)], Ok(Coupon("SAVE10", 10.0, [], true)))
  {
    var given := " save10 ";
    assert Trim(given) == "save10" by {
      assert IsWhitespace(given[0]) && IsWhitespace(given[7]);
      assert !IsWhitespace(given[1]) && !IsWhitespace(given[6]);
      assert CoreBounds(given, 1, 7);
      assert given[1..7] == "save10";
      TrimCharacterised("save10", given);
    }
    assert Normalize(given) == "SAVE10" by {
      assert Upper("save10") == "SAVE10";
    }
    assert NewCoupon(given, 10.0, None) == Coupon("SAVE10", 10.0, [], true);
  }

  /**
   Once "SAVE10" is stored, creating "Save10" conflicts: the general
   case-variant property applied to a first create of "SAVE10".
   */
  lemma CaseVariantExample()
    ensures CreateCoupon(map["a1" := Coupon("SAVE10", 10.0, [], true)], "a2", Some("Save10"), Some(15.0), None).response
      == Err(Conflict)
  {
    var first := CreateCoupon(map[], "a1", Some("SAVE10"), Some(10.0), None);
    LooksUpAs("SAVE10", "SAVE10");
    assert !MissingText(Some("SAVE10")) && !MissingNumber(Some(10.0)) && PercentageInRange(10.0);
    assert first.response.Ok?;
    assert first.store == map["a1" := Coupon("SAVE10", 10.0, [], true)];
    assert Upper("Save10") == Upper("SAVE10");
    CaseVariantConflicts(map[], "a1", "SAVE10", 10.0, None, "a2", "Save10", 15.0, None);
  }

  /** A zero percentage is a missing field; an out-of-range one fails schema validation. */
  lemma CreateRejectionsExample()
    ensures CreateCoupon(map[], "a1", Some("X"), Some(0.0), None).response == Err(BadRequest)
    ensures CreateCoupon(map[], "a1", Some("X"), Some(150.0), None).response == Err(ServerError)
    ensures CreateCoupon(map[], "a1", Some("   "), Some(10.0), None).response == Err(ServerError)
  {
    assert CreateCoupon(map[], "a1", Some("X"), Some(0.0), None).response == Err(BadRequest) by {
      assert MissingNumber(Some(0.0));
    }
    assert CreateCoupon(map[], "a1", Some("X"), Some(150.0), None).response == Err(ServerError) by {
      assert !MissingText(Some("X")) && !MissingNumber(Some(150.0)) && !PercentageInRange(150.0);
    }
    assert CreateCoupon(map[], "a1", Some("   "), Some(10.0), None).response == Err(ServerError) by {
      assert !MissingText(Some("   ")) && !MissingNumber(Some(10.0));
      assert Normalize("   ") == "";
    }
  }
}
