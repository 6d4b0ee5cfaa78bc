/**
  The price of a bundle, in exact cents: line totals, the percent or fixed discount, its cap and its
  half-even rounding.
 */
module BundlePricing {
  import opened Options

  datatype DiscountType = Percent | Fixed

  /** `discountValue` is in hundredths: of a percent, or of the currency unit. */
  datatype Bundle = Bundle(slug: string, discountType: DiscountType, discountValue: nat)

  /** One component: its product's identity and price, its billable unit price, and its quantity. */
  datatype Line = Line(product: nat, name: string, sku: string, quantity: nat, isOptional: bool, regularUnit: nat,
                       unitPrice: nat)

  datatype Detail = Detail(line: Line, lineTotal: nat)

  datatype Price = Price(slug: string, regularPrice: nat, discount: nat, price: int, items: seq<Detail>)

  const SCALE := 10000

  /**
    `Decimal.quantize(Decimal("0.01"))` with its default rounding, on an amount in ten-thousandths of a cent:
    the nearest cent, ties to the even one.
   */
  function Quantize(n: nat): (r: nat)
    ensures 2 * n - SCALE <= 2 * SCALE * r <= 2 * n + SCALE
    ensures 2 * n - SCALE == 2 * SCALE * r || 2 * SCALE * r == 2 * n + SCALE ==> r % 2 == 0
  {
    var q, m := n / SCALE, n % SCALE;
    if 2 * m < SCALE || (2 * m == SCALE && q % 2 == 0) then q else q + 1
  }

  function Min(a: nat, b: nat): nat { if a < b then a else b }

  /** `_discount_amount`: a percentage of the total, or a fixed amount; capped at the total, then rounded to cents. */
  function DiscountAmount(bundle: Bundle, total: nat): nat {
    var discount := if bundle.discountType.Percent? then total * bundle.discountValue else bundle.discountValue * SCALE;
    Quantize(Min(discount, total * SCALE))
  }

  function Total(lines: seq<Line>): nat {
    if lines == [] then 0 else lines[0].unitPrice * lines[0].quantity + Total(lines[1..])
  }

  function RegularTotal(lines: seq<Line>): nat {
    if lines == [] then 0 else lines[0].regularUnit * lines[0].quantity + RegularTotal(lines[1..])
  }

  function Details(lines: seq<Line>): seq<Detail> {
    seq(|lines|, i requires 0 <= i < |lines| => Detail(lines[i], lines[i].unitPrice * lines[i].quantity))
  }

  /** `_compute_bundle_price`: a bundle without items cannot be priced. */
  function ComputePrice(bundle: Bundle, lines: seq<Line>): Option<Price> {
    if lines == [] then None
    else
      var discount := DiscountAmount(bundle, Total(lines));
      Some(Price(bundle.slug, RegularTotal(lines), discount, Total(lines) - discount, Details(lines)))
  }

  lemma {:induction false} TotalAppend(lines: seq<Line>, last: Line)
    ensures Total(lines + [last]) == Total(lines) + last.unitPrice * last.quantity
    ensures RegularTotal(lines + [last]) == RegularTotal(lines) + last.regularUnit * last.quantity
    decreases |lines|
  {
    if lines == [] {
      assert ([] + [last])[1..] == [];
    } else {
      assert (lines + [last])[1..] == lines[1..] + [last];
      TotalAppend(lines[1..], last);
    }
  }

  /** The source's accumulating loop. */
  method ComputeBundlePrice(bundle: Bundle, itemRows: seq<Line>) returns (price: Option<Price>)
    ensures price == ComputePrice(bundle, itemRows)
  {
    if itemRows == [] { return None; }
    var regularTotal: nat, effectiveTotal: nat := 0, 0;
    var itemsDetail: seq<Detail> := [];
    for i := 0 to |itemRows|
      invariant regularTotal == RegularTotal(itemRows[..i]) && effectiveTotal == Total(itemRows[..i])
      invariant itemsDetail == Details(itemRows[..i])
    {
      var item := itemRows[i];
      TotalAppend(itemRows[..i], item);
      assert itemRows[..i + 1] == itemRows[..i] + [item];
      regularTotal := regularTotal + item.regularUnit * item.quantity;
      effectiveTotal := effectiveTotal + item.unitPrice * item.quantity;
      itemsDetail := itemsDetail + [Detail(item, item.unitPrice * item.quantity)];
    }
    assert itemRows[..|itemRows|] == itemRows;
    var discount := DiscountAmount(bundle, effectiveTotal);
    price := Some(Price(bundle.slug, regularTotal, discount, effectiveTotal - discount, itemsDetail));
  }

  /******* Rounding *******/

  /** The contract of `Quantize` has one solution. */
  lemma QuantizeUnique(n: nat, r: nat)
    requires 2 * n - SCALE <= 2 * SCALE * r <= 2 * n + SCALE
    requires 2 * n - SCALE == 2 * SCALE * r || 2 * SCALE * r == 2 * n + SCALE ==> r % 2 == 0
    ensures r == Quantize(n)
  {
    var q := Quantize(n);
    assert q - 1 <= r <= q + 1;
  }

  /** Adding less than one cent moves the rounded amount up by at most one cent, and never down. */
  lemma QuantizeStep(n: nat, k: nat)
    requires k < SCALE
    ensures Quantize(n) <= Quantize(n + k) <= Quantize(n) + 1
  {
  }

  lemma QuantizeWhole(cents: nat)
    ensures Quantize(cents * SCALE) == cents
  {
  }

  /******* The discount *******/

  /** A percentage of 100 or more costs the whole total. */
  lemma FullPercent(bundle: Bundle, total: nat)
    requires bundle.discountType.Percent? && SCALE <= bundle.discountValue
    ensures DiscountAmount(bundle, total) == total
  {
    assert total * SCALE <= total * bundle.discountValue;
    QuantizeWhole(total);
  }

  lemma PartPercent(bundle: Bundle, total: nat)
    requires bundle.discountType.Percent? && bundle.discountValue <= SCALE
    ensures DiscountAmount(bundle, total) == Quantize(total * bundle.discountValue)
  {
    TimesGrows(total, bundle.discountValue, SCALE);
  }

  lemma TimesGrows(k: nat, m: nat, n: nat)
    requires m <= n
    ensures k * m <= k * n
  {
  }

  lemma FixedAmount(bundle: Bundle, total: nat)
    requires bundle.discountType.Fixed?
    ensures DiscountAmount(bundle, total) == Min(bundle.discountValue, total)
  {
    QuantizeWhole(Min(bundle.discountValue, total));
  }

  /** One more cent of total adds zero or one cent of discount. */
  lemma DiscountStep(bundle: Bundle, total: nat)
    ensures DiscountAmount(bundle, total) <= DiscountAmount(bundle, total + 1) <= DiscountAmount(bundle, total) + 1
  {
    var v := bundle.discountValue;
    if bundle.discountType.Fixed? {
      FixedAmount(bundle, total);
      FixedAmount(bundle, total + 1);
    } else if v < SCALE {
      PartPercent(bundle, total);
      PartPercent(bundle, total + 1);
      assert (total + 1) * v == total * v + v;
      QuantizeStep(total * v, v);
    } else {
      FullPercent(bundle, total);
      FullPercent(bundle, total + 1);
    }
  }

  /**
    The discount is at least nothing and at most the total, and the discounted total never falls when the total rises.
   */
  lemma {:induction false} DiscountMonotone(bundle: Bundle, total: nat, more: nat)
    requires total <= more
    ensures DiscountAmount(bundle, total) <= DiscountAmount(bundle, more)
    ensures total - DiscountAmount(bundle, total) <= more - DiscountAmount(bundle, more)
    decreases more
  {
    if total < more {
      DiscountMonotone(bundle, total, more - 1);
      DiscountStep(bundle, more - 1);
    }
  }

  lemma DiscountBounds(bundle: Bundle, total: nat)
    ensures DiscountAmount(bundle, total) <= total
  {
    DiscountMonotone(bundle, 0, total);
    QuantizeWhole(0);
  }

  /**
    A percentage up to 100, which is 10000 hundredths, is charged to within half a cent, half a cent to the even side;
    a larger one takes the whole total. A fixed amount is charged exactly, up to the total.
   */
  lemma DiscountAccuracy(bundle: Bundle, total: nat)
    ensures var discount := DiscountAmount(bundle, total);
            match bundle.discountType
            case Percent =>
              if bundle.discountValue <= 10000 then
                var error := discount * 10000 - total * bundle.discountValue;
                -5000 <= error <= 5000 && (error == 5000 || error == -5000 ==> discount % 2 == 0)
              else discount == total
            case Fixed => discount == if bundle.discountValue <= total then bundle.discountValue else total
  {
    if bundle.discountType.Fixed? {
      FixedAmount(bundle, total);
    } else if bundle.discountValue <= SCALE {
      PartPercent(bundle, total);
    } else {
      FullPercent(bundle, total);
    }
  }

  /******* The bundle price *******/

  function LineTotals(details: seq<Detail>): nat {
    if details == [] then 0 else details[0].lineTotal + LineTotals(details[1..])
  }

  lemma {:induction false} LineTotalsAddUp(lines: seq<Line>)
    ensures LineTotals(Details(lines)) == Total(lines)
    decreases |lines|
  {
    if lines != [] {
      assert Details(lines)[1..] == Details(lines[1..]);
      LineTotalsAddUp(lines[1..]);
    }
  }

  /** Every priced bundle's line totals are split exactly between its price and its discount, neither negative. */
  lemma PriceConserved(bundle: Bundle, lines: seq<Line>)
    requires lines != []
    ensures var p := ComputePrice(bundle, lines).value;
            && LineTotals(p.items) == p.price + p.discount && 0 <= p.price && 0 <= p.discount <= LineTotals(p.items)
            && |p.items| == |lines| && forall k :: 0 <= k < |lines| ==> p.items[k].line == lines[k]
  {
    LineTotalsAddUp(lines);
    DiscountBounds(bundle, Total(lines));
  }

  lemma {:induction false} RegularTotalChanges(lines: seq<Line>, k: nat, regular: nat)
    requires k < |lines|
    ensures var lines' := lines[k := lines[k].(regularUnit := regular)];
            && RegularTotal(lines') + lines[k].regularUnit * lines[k].quantity
                == RegularTotal(lines) + regular * lines[k].quantity
            && Total(lines') == Total(lines)
    decreases |lines|
  {
    var lines' := lines[k := lines[k].(regularUnit := regular)];
    if k == 0 {
      assert lines'[1..] == lines[1..];
    } else {
      assert lines'[1..] == lines[1..][k - 1 := lines[1..][k - 1].(regularUnit := regular)];
      RegularTotalChanges(lines[1..], k - 1, regular);
    }
  }

  /**
    A product's list price moves the quoted regular price by the change times the quantity, and leaves what is
    charged alone: price and discount rest on the effective unit prices only.
   */
  lemma ListPriceOnlyQuoted(bundle: Bundle, lines: seq<Line>, k: nat, regular: nat)
    requires k < |lines|
    ensures var p := ComputePrice(bundle, lines).value;
            var p' := ComputePrice(bundle, lines[k := lines[k].(regularUnit := regular)]).value;
            && p'.regularPrice + lines[k].regularUnit * lines[k].quantity
                == p.regularPrice + regular * lines[k].quantity
            && p'.price == p.price && p'.discount == p.discount
  {
    RegularTotalChanges(lines, k, regular);
  }

  lemma {:induction false} TotalGrows(lines: seq<Line>, k: nat, quantity: nat)
    requires k < |lines| && lines[k].quantity <= quantity
    ensures Total(lines) <= Total(lines[k := lines[k].(quantity := quantity)])
    decreases |lines|
  {
    var lines' := lines[k := lines[k].(quantity := quantity)];
    if k == 0 {
      assert lines'[1..] == lines[1..];
      assert lines[0].unitPrice * lines[0].quantity <= lines[0].unitPrice * quantity;
    } else {
      assert lines'[1..] == lines[1..][k - 1 := lines[1..][k - 1].(quantity := quantity)];
      TotalGrows(lines[1..], k - 1, quantity);
    }
  }

  /** Raising one component's quantity never lowers the price of the bundle. */
  lemma MoreNeverCostsLess(bundle: Bundle, lines: seq<Line>, k: nat, quantity: nat)
    requires k < |lines| && lines[k].quantity <= quantity
    ensures ComputePrice(bundle, lines).value.price
            <= ComputePrice(bundle, lines[k := lines[k].(quantity := quantity)]).value.price
  {
    TotalGrows(lines, k, quantity);
    DiscountMonotone(bundle, Total(lines), Total(lines[k := lines[k].(quantity := quantity)]));
  }
}
