/**
  The `pre_save` receiver of the product app: before a product is written, its
  `real_price` is recomputed from `price` and the percentage `discount`.
  Prices are Decimal in the application; they are modelled as exact reals.
 */
module ProductSignals {
  import opened Values

  const NegativeMessage: string := "Discount cannot be negative"
  const OverHundredMessage: string := "Discount cannot be greater than 100%"

  /** `price` reduced by `discount` percent. */
  function Discounted(price: real, discount: int): real
  {
    price - price * discount as real / 100.0
  }

  /** The discounted price is the `(100 - discount)` percent share of the price. */
  lemma DiscountedIsShare(price: real, discount: int)
    ensures Discounted(price, discount) == price * (100 - discount) as real / 100.0
  {
  }

  /** For a discount between 0 and 100 the discounted price of a non-negative price lies between 0 and the price. */
  lemma DiscountedBounds(price: real, discount: int)
    requires 0 <= discount <= 100
    ensures price >= 0.0 ==> 0.0 <= Discounted(price, discount) <= price
  {
    var d := discount as real;
    assert price >= 0.0 ==> 0.0 <= price * d <= price * 100.0 by {
      assert price * d - price * 0.0 == price * (d - 0.0);
      assert price * 100.0 - price * d == price * (100.0 - d);
    }
  }

  /** A discount above 100 turns a positive price into a negative one. */
  lemma DiscountedNegative(price: real, discount: int)
    requires price > 0.0 && discount > 100
    ensures Discounted(price, discount) < 0.0
  {
    var d := discount as real;
    assert price * d - price * 100.0 == price * (d - 100.0);
    assert price * (d - 100.0) > 0.0;
  }

  /**
    The receiver's rule as written: a positive discount gives the discounted
    price, every other discount raises the "cannot be negative" error. The
    "greater than 100%" branch sits behind the positive test and is never taken.
   */
  function RealPriceRule(price: real, discount: int): (r: Result<real, string>)
    ensures r.Ok? <==> discount > 0
    ensures r.Ok? ==> r.value == price * (100 - discount) as real / 100.0
    ensures r.Err? ==> r.error == NegativeMessage
  {
    DiscountedIsShare(price, discount);
    if discount > 0 then Ok(Discounted(price, discount))
    else if discount > 100 then Err(OverHundredMessage)
    else Err(NegativeMessage)
  }

  /** The over-100 error can never be produced. */
  lemma OverHundredUnreachable(price: real, discount: int)
    ensures RealPriceRule(price, discount) != Err(OverHundredMessage)
  {
    assert NegativeMessage != OverHundredMessage by {
      assert NegativeMessage[19] != OverHundredMessage[19];
    }
  }

  /** The model's default discount of 0 is refused, so a product saved with its defaults raises. */
  lemma DefaultDiscountRefused(price: real)
    ensures RealPriceRule(price, 0) == Err(NegativeMessage)
  {
  }

  /** A discount above 100 is accepted and stores a negative real price. */
  lemma OverHundredAccepted(price: real, discount: int)
    requires price > 0.0 && discount > 100
    ensures RealPriceRule(price, discount).Ok? && RealPriceRule(price, discount).value < 0.0
  {
    DiscountedNegative(price, discount);
  }

  /** The concrete case: a price of 10 with a discount of 150 is stored as -5. */
  lemma OverHundredExample()
    ensures RealPriceRule(10.0, 150) == Ok(-5.0)
  {
  }

  /**
    The rule as evidently intended: a discount from 0 to 100 gives the
    discounted price (0 leaving the price as it is), above 100 the "greater
    than 100%" error, below 0 the "negative" error.
   */
  function CorrectedRealPriceRule(price: real, discount: int): (r: Result<real, string>)
    ensures r.Ok? <==> 0 <= discount <= 100
    ensures discount > 100 ==> r == Err(OverHundredMessage)
    ensures discount < 0 ==> r == Err(NegativeMessage)
    ensures discount == 0 ==> r == Ok(price)
    ensures r.Ok? && price >= 0.0 ==> 0.0 <= r.value <= price
  {
    if discount > 100 then Err(OverHundredMessage)
    else if discount >= 0 then
      DiscountedBounds(price, discount);
      Ok(Discounted(price, discount))
    else Err(NegativeMessage)
  }

  /** On discounts from 1 to 100 the corrected rule and the rule as written agree. */
  lemma CorrectedAgrees(price: real, discount: int)
    requires 0 < discount <= 100
    ensures CorrectedRealPriceRule(price, discount) == RealPriceRule(price, discount)
  {
  }

  /** The product fields the receiver reads and writes. */
  class Product {
    var title: string
    var price: real
    var discount: int
    var realPrice: real
    var isActive: bool

    /** A new product with the model defaults: no discount, active. */
    constructor (title: string, price: real, realPrice: real)
      ensures this.title == title && this.price == price && this.realPrice == realPrice
      ensures discount == 0 && isActive
    {
      this.title := title;
      this.price := price;
      this.realPrice := realPrice;
      discount := 0;
      isActive := true;
    }

  }

  /**
    `update_real_price_field`: on success only `real_price` is written; on a
    raised `ValueError` (returned here as its message) nothing is.
   */
  method UpdateRealPriceField(p: Product) returns (err: Option<string>)
    modifies p
    ensures p.title == old(p.title) && p.price == old(p.price) && p.discount == old(p.discount)
    ensures p.isActive == old(p.isActive)
    ensures RealPriceRule(old(p.price), old(p.discount)).Ok? ==>
      err.None? && p.realPrice == RealPriceRule(old(p.price), old(p.discount)).value
    ensures RealPriceRule(old(p.price), old(p.discount)).Err? ==>
      err == Some(RealPriceRule(old(p.price), old(p.discount)).error) && p.realPrice == old(p.realPrice)
  {
    if p.discount > 0 {
      p.realPrice := p.price - p.price * p.discount as real / 100.0;
      err := None;
    } else if p.discount > 100 {
      err := Some(OverHundredMessage);
    } else {
      err := Some(NegativeMessage);
    }
  }
}
