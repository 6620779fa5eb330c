/**
 The discount computed by the verify operation over a cart: a single pass
 over the line items that accumulates the cart total and, for a
 product-specific coupon, the discount on the eligible items.
 */
module Pricing {
  import opened Outcomes
  import opened CouponModel

  /** One line of the cart. Prices and quantities are not validated by the service. */
  datatype CartItem = CartItem(productId: ProductId, price: real, quantity: real)

  /** The amounts of a successful verification, before the two-decimal rounding of the response. */
  datatype Breakdown = Breakdown(
    discountPercentage: real,
    originalPrice: real,
    discountAmount: real,
    finalPrice: real)

  function LineTotal(item: CartItem): real {
    item.price * item.quantity
  }

  /** The sum of all line totals, accumulated from the first item to the last. */
  function Total(items: seq<CartItem>): real {
    if |items| == 0 then 0.0
    else Total(items[..|items| - 1]) + LineTotal(items[|items| - 1])
  }

  /** The share of `amount` a coupon of percentage `pct` takes off. */
  function PercentOf(amount: real, pct: real): real {
    amount * pct / 100.0
  }

  lemma PercentOfAdd(x: real, y: real, pct: real)
    ensures PercentOf(x + y, pct) == PercentOf(x, pct) + PercentOf(y, pct)
  {
    assert (x + y) * pct == x * pct + y * pct;
  }

  lemma PercentOfMonotone(x: real, y: real, pct: real)
    requires x <= y && 0.0 <= pct
    ensures PercentOf(x, pct) <= PercentOf(y, pct)
  {
    assert (y - x) * pct >= 0.0;
    assert y * pct - x * pct == (y - x) * pct;
  }

  lemma PercentOfAtMost(x: real, pct: real)
    requires 0.0 <= x && 0.0 <= pct <= 100.0
    ensures 0.0 <= PercentOf(x, pct) <= x
  {
    assert x * (100.0 - pct) >= 0.0;
    assert x * 100.0 - x * pct == x * (100.0 - pct);
  }

  predicate Eligible(item: CartItem, products: seq<ProductId>) {
    item.productId in products
  }

  /** Per-item discounts summed over the eligible items, in cart order. */
  function EligibleDiscount(items: seq<CartItem>, products: seq<ProductId>, pct: real): real {
    if |items| == 0 then 0.0
    else
      var last := items[|items| - 1];
      EligibleDiscount(items[..|items| - 1], products, pct)
        + (if Eligible(last, products) then PercentOf(LineTotal(last), pct) else 0.0)
  }

  predicate HasEligible(items: seq<CartItem>, products: seq<ProductId>) {
    exists i :: 0 <= i < |items| && Eligible(items[i], products)
  }

  /** The eligible items, in cart order: the reference for what a product-specific coupon discounts. */
  function EligibleItems(items: seq<CartItem>, products: seq<ProductId>): (r: seq<CartItem>)
    ensures |r| <= |items|
    ensures forall k :: 0 <= k < |r| ==> Eligible(r[k], products) && r[k] in items
    ensures forall k :: 0 <= k < |items| && Eligible(items[k], products) ==> items[k] in r
  {
    if |items| == 0 then []
    else
      var last := items[|items| - 1];
      var init := EligibleItems(items[..|items| - 1], products);
      assert forall k :: 0 <= k < |items| - 1 ==> items[k] == items[..|items| - 1][k];
      if Eligible(last, products) then init + [last] else init
  }

  /**
   The eligible items keep every eligible cart line as often as the cart holds
   it, duplicates included, and nothing else.
   */
  lemma {:induction false} EligibleItemsCounts(items: seq<CartItem>, products: seq<ProductId>)
    ensures forall x ::
      multiset(EligibleItems(items, products))[x] == (if Eligible(x, products) then multiset(items)[x] else 0)
  {
    if |items| > 0 {
      var init := items[..|items| - 1];
      var last := items[|items| - 1];
      EligibleItemsCounts(init, products);
      assert items == init + [last];
      assert multiset(items) == multiset(init) + multiset{last};
    }
  }

  predicate NonNegative(items: seq<CartItem>) {
    forall i :: 0 <= i < |items| ==> 0.0 <= items[i].price && 0.0 <= items[i].quantity
  }

  /**
   The verify computation once the coupon is found: `None` when a
   product-specific coupon matches no item of the cart.
   */
  function Price(coupon: Coupon, items: seq<CartItem>): (r: Option<Breakdown>)
    ensures r.None? <==> !IsCartWide(coupon) && !HasEligible(items, coupon.validForProducts)
    ensures r.Some? ==>
      && r.value.discountPercentage == coupon.discountPercentage
      && r.value.originalPrice == Total(items)
      && r.value.finalPrice == r.value.originalPrice - r.value.discountAmount
  {
    var pct := coupon.discountPercentage;
    var originalPrice := Total(items);
    if !IsCartWide(coupon) then
      if !HasEligible(items, coupon.validForProducts) then None
      else
        var discount := EligibleDiscount(items, coupon.validForProducts, pct);
        Some(Breakdown(pct, originalPrice, discount, originalPrice - discount))
    else
      var discount := PercentOf(originalPrice, pct);
      Some(Breakdown(pct, originalPrice, discount, originalPrice - discount))
  }

  /**
   The verify loop as the controller runs it: one pass over the cart
   accumulating the total, the discount and whether any item was eligible.
   */
  method PriceCart(coupon: Coupon, items: seq<CartItem>) returns (r: Option<Breakdown>)
    ensures r == Price(coupon, items)
  {
    var pct := coupon.discountPercentage;
    var products := coupon.validForProducts;
    var originalPrice := 0.0;
    var totalDiscount := 0.0;
    if |products| > 0 {
      var eligibleItemFound := false;
      var i := 0;
      while i < |items|
        invariant 0 <= i <= |items|
        invariant originalPrice == Total(items[..i])
        invariant totalDiscount == EligibleDiscount(items[..i], products, pct)
        invariant eligibleItemFound <==> HasEligible(items[..i], products)
      {
        var item := items[i];
        assert items[..i + 1][..i] == items[..i];
        var itemTotal := item.price * item.quantity;
        originalPrice := originalPrice + itemTotal;
        if item.productId in products {
          eligibleItemFound := true;
          totalDiscount := totalDiscount + itemTotal * pct / 100.0;
          assert items[..i + 1][i] == item;
        } else {
          assert forall k :: 0 <= k < i + 1 ==> items[..i + 1][k] == items[k];
        }
        i := i + 1;
      }
      assert items[..i] == items;
      if !eligibleItemFound {
        return None;
      }
      assert totalDiscount == EligibleDiscount(items, products, pct);
      assert Price(coupon, items) == Some(Breakdown(pct, originalPrice, totalDiscount, originalPrice - totalDiscount));
    } else {
      var i := 0;
      while i < |items|
        invariant 0 <= i <= |items|
        invariant originalPrice == Total(items[..i])
      {
        assert items[..i + 1][..i] == items[..i];
        originalPrice := originalPrice + items[i].price * items[i].quantity;
        i := i + 1;
      }
      assert items[..i] == items;
      assert originalPrice == Total(items);
      totalDiscount := originalPrice * pct / 100.0;
      assert totalDiscount == PercentOf(Total(items), pct);
    }
    var finalPrice := originalPrice - totalDiscount;
    return Some(Breakdown(pct, originalPrice, totalDiscount, finalPrice));
  }

  /** The cart total splits over concatenation. */
  lemma {:induction false} TotalAppend(a: seq<CartItem>, b: seq<CartItem>)
    ensures Total(a + b) == Total(a) + Total(b)
    decreases |b|
  {
    if |b| == 0 {
      assert a + b == a;
    } else {
      var b' := b[..|b| - 1];
      assert (a + b)[..|a + b| - 1] == a + b';
      TotalAppend(a, b');
    }
  }

  /** With exact amounts, the cart total does not depend on which part of the cart comes first. */
  lemma TotalOrderIndependent(a: seq<CartItem>, b: seq<CartItem>)
    ensures Total(a + b) == Total(b + a)
  {
    TotalAppend(a, b);
    TotalAppend(b, a);
  }

  lemma {:induction false} TotalNonNegative(items: seq<CartItem>)
    requires NonNegative(items)
    ensures 0.0 <= Total(items)
  {
    if |items| > 0 {
      var last := items[|items| - 1];
      assert 0.0 <= last.price && 0.0 <= last.quantity;
      assert 0.0 <= LineTotal(last);
      TotalNonNegative(items[..|items| - 1]);
    }
  }

  /** The product-specific discount is the coupon's percentage of the eligible items' subtotal. */
  lemma {:induction false} EligibleDiscountIsPercentOfEligible(items: seq<CartItem>, products: seq<ProductId>, pct: real)
    ensures EligibleDiscount(items, products, pct) == PercentOf(Total(EligibleItems(items, products)), pct)
  {
    if |items| > 0 {
      var init := items[..|items| - 1];
      var last := items[|items| - 1];
      EligibleDiscountIsPercentOfEligible(init, products, pct);
      if Eligible(last, products) {
        var e := EligibleItems(init, products);
        assert (e + [last])[..|e + [last]| - 1] == e;
        assert Total(e + [last]) == Total(e) + LineTotal(last);
        PercentOfAdd(Total(e), LineTotal(last), pct);
      }
    }
  }

  /** With non-negative prices and quantities the eligible subtotal lies between zero and the cart total. */
  lemma {:induction false} EligibleTotalBounded(items: seq<CartItem>, products: seq<ProductId>)
    requires NonNegative(items)
    ensures 0.0 <= Total(EligibleItems(items, products)) <= Total(items)
  {
    if |items| > 0 {
      var init := items[..|items| - 1];
      var last := items[|items| - 1];
      assert NonNegative(init) by {
        assert forall k :: 0 <= k < |init| ==> init[k] == items[k];
      }
      EligibleTotalBounded(init, products);
      assert 0.0 <= last.price && 0.0 <= last.quantity;
      assert 0.0 <= LineTotal(last);
      if Eligible(last, products) {
        var e := EligibleItems(init, products);
        assert (e + [last])[..|e + [last]| - 1] == e;
      }
    }
  }

  /** When every item of the cart is eligible, the eligible items are the whole cart. */
  lemma {:induction false} AllEligibleIsWholeCart(items: seq<CartItem>, products: seq<ProductId>)
    requires forall k :: 0 <= k < |items| ==> Eligible(items[k], products)
    ensures EligibleItems(items, products) == items
  {
    if |items| > 0 {
      var init := items[..|items| - 1];
      var last := items[|items| - 1];
      forall k | 0 <= k < |init|
        ensures Eligible(init[k], products)
      {
        assert init[k] == items[k];
      }
      AllEligibleIsWholeCart(init, products);
      assert EligibleItems(items, products) == EligibleItems(init, products) + [last] by {
        assert Eligible(last, products);
      }
      assert init + [last] == items;
    }
  }

  /** Some item is eligible exactly when the eligible items are not empty. */
  lemma HasEligibleIffSomeEligibleItem(items: seq<CartItem>, products: seq<ProductId>)
    ensures HasEligible(items, products) <==> |EligibleItems(items, products)| > 0
  {
    var e := EligibleItems(items, products);
    if |e| > 0 {
      var j :| 0 <= j < |items| && items[j] == e[0];
      assert Eligible(items[j], products);
    }
  }

  /**
   What a successful computation returns, in terms of the cart: the original
   price counts every item, the discount is the coupon's percentage of the cart
   total (cart-wide) or of the eligible items' subtotal (product-specific), and
   the final price is what remains. A product-specific coupon fails exactly
   when no item is eligible.
   */
  lemma PriceMeaning(coupon: Coupon, items: seq<CartItem>)
    ensures Price(coupon, items).None? <==> !IsCartWide(coupon) && |EligibleItems(items, coupon.validForProducts)| == 0
    ensures Price(coupon, items).Some? ==>
      var b := Price(coupon, items).value;
      && b.discountPercentage == coupon.discountPercentage
      && b.originalPrice == Total(items)
      && b.finalPrice == b.originalPrice - b.discountAmount
      && b.discountAmount == PercentOf(
           Total(if IsCartWide(coupon) then items else EligibleItems(items, coupon.validForProducts)),
           coupon.discountPercentage)
  {
    HasEligibleIffSomeEligibleItem(items, coupon.validForProducts);
    EligibleDiscountIsPercentOfEligible(items, coupon.validForProducts, coupon.discountPercentage);
  }


  /**
   With non-negative prices and quantities and a percentage in the schema's
   range, the discount is between zero and the original price, so the final
   price is never negative; a product-specific discount never exceeds what the
   same percentage would take off the whole cart.
   */
  lemma PriceBounds(coupon: Coupon, items: seq<CartItem>)
    requires NonNegative(items) && PercentageInRange(coupon.discountPercentage)
    ensures Price(coupon, items).Some? ==>
      var b := Price(coupon, items).value;
      && 0.0 <= b.discountAmount <= b.originalPrice
      && 0.0 <= b.finalPrice
      && b.discountAmount <= PercentOf(Total(items), coupon.discountPercentage)
  {
    var pct := coupon.discountPercentage;
    var total := Total(items);
    var sub := Total(EligibleItems(items, coupon.validForProducts));
    PriceMeaning(coupon, items);
    TotalNonNegative(items);
    EligibleTotalBounded(items, coupon.validForProducts);
    PercentOfAtMost(sub, pct);
    PercentOfAtMost(total, pct);
    PercentOfMonotone(sub, total, pct);
  }

  /** A product-specific coupon listing every product in the cart discounts exactly as a cart-wide one. */
  lemma AllEligibleMatchesCartWide(coupon: Coupon, items: seq<CartItem>)
    requires |items| > 0 && !IsCartWide(coupon)
    requires forall k :: 0 <= k < |items| ==> Eligible(items[k], coupon.validForProducts)
    ensures Price(coupon, items) == Price(coupon.(validForProducts := []), items)
  {
    AllEligibleIsWholeCart(items, coupon.validForProducts);
    PriceMeaning(coupon, items);
    PriceMeaning(coupon.(validForProducts := []), items);
  }
}
